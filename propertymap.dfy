/** The lookups of an object template's property map
    (branches/adziuk_tournament/source/game/objects/PropertyMap.cpp). A
    property map is a chain of XML documents, the template itself first and
    then each template it 'Uses', parent after child; a property spec such
    as "Template.Render.Scale" names an element by the path of element
    names from a document's root. Loading and parsing the XML files is not
    part of this model: a document is given as its tree of elements, each
    with its name, optional inner text, attributes and child elements.
    PropertyMap.h is not part of this model. */
module PropertyMaps {
  import opened Wrappers
  import SceneObjects

  datatype Element = Element(name: string, text: Option<string>, attributes: seq<(string, string)>, children: seq<Element>)
  datatype Document = Document(roots: seq<Element>)
  datatype PropertyMap = PropertyMap(chain: seq<Document>)

  /** isValidState: at least one document is loaded. A map whose file
      failed to load has an empty chain. */
  predicate IsValidState(pm: PropertyMap)
  {
    |pm.chain| != 0
  }

  // ---- tokenizing a property spec ----

  /** The state of boost::tokenizer with char_separator(".") after `s`:
      the tokens finished so far and the one being read. */
  function Scan(s: string): (st: (seq<string>, string))
  {
    if s == [] then ([], "")
    else
      var (done, cur) := Scan(s[..|s| - 1]);
      if s[|s| - 1] == '.' then
        (if cur == "" then (done, "") else (done + [cur], ""))
      else (done, cur + [s[|s| - 1]])
  }

  /** The tokens of a spec: its maximal runs of characters other than '.';
      empty tokens are dropped. */
  function Tokens(s: string): seq<string>
  {
    var (done, cur) := Scan(s);
    if cur == "" then done else done + [cur]
  }

  /** No token is empty or holds a '.'. */
  predicate CleanTokens(ts: seq<string>)
  {
    forall i :: 0 <= i < |ts| ==> ts[i] != "" && '.' !in ts[i]
  }

  lemma {:induction false} ScanIsClean(s: string)
    ensures CleanTokens(Scan(s).0) && '.' !in Scan(s).1
  {
    if s != [] {
      ScanIsClean(s[..|s| - 1]);
    }
  }

  lemma TokensAreClean(s: string)
    ensures CleanTokens(Tokens(s))
  {
    ScanIsClean(s);
  }

  /** A spec gives no token exactly when it is made of dots only. */
  lemma {:induction false} NoTokensIffOnlyDots(s: string)
    ensures Tokens(s) == [] <==> forall i :: 0 <= i < |s| ==> s[i] == '.'
  {
    if s != [] {
      var p := s[..|s| - 1];
      NoTokensIffOnlyDots(p);
      assert forall i :: 0 <= i < |p| ==> p[i] == s[i];
      if s[|s| - 1] == '.' {
        assert Tokens(s) == Tokens(p);
      } else {
        assert Tokens(s) == Scan(p).0 + [Scan(p).1 + [s[|s| - 1]]];
      }
    }
  }

  /** Reading a dot-free word extends the current token by it. */
  lemma {:induction false} ScanWord(p: string, w: string)
    requires '.' !in w
    ensures Scan(p + w) == (Scan(p).0, Scan(p).1 + w)
    decreases |w|
  {
    if w == [] {
      assert p + w == p;
      assert Scan(p).1 + w == Scan(p).1;
    } else {
      var w' := w[..|w| - 1];
      assert (p + w)[..|p + w| - 1] == p + w';
      assert (p + w)[|p + w| - 1] == w[|w| - 1];
      assert w' + [w[|w| - 1]] == w;
      assert w[|w| - 1] != '.';
      ScanWord(p, w');
      assert (Scan(p).1 + w') + [w[|w| - 1]] == Scan(p).1 + w;
    }
  }

  /** Tokens joined with dots. */
  function JoinDots(ts: seq<string>): string
    requires |ts| >= 1
  {
    if |ts| == 1 then ts[0] else JoinDots(ts[..|ts| - 1]) + "." + ts[|ts| - 1]
  }

  /** Tokenizing a dotted path of non-empty, dot-free names gives the names
      back. */
  lemma {:induction false} TokensOfJoin(ts: seq<string>)
    requires |ts| >= 1 && CleanTokens(ts)
    ensures Scan(JoinDots(ts)) == (ts[..|ts| - 1], ts[|ts| - 1])
    ensures Tokens(JoinDots(ts)) == ts
  {
    if |ts| == 1 {
      ScanWord([], ts[0]);
      assert [] + ts[0] == ts[0];
      assert "" + ts[0] == ts[0];
    } else {
      var init := ts[..|ts| - 1];
      assert CleanTokens(init) by {
        forall i | 0 <= i < |init|
          ensures init[i] != "" && '.' !in init[i]
        {
          assert init[i] == ts[i];
        }
      }
      TokensOfJoin(init);
      var j := JoinDots(init);
      assert (j + ".")[..|j + "."| - 1] == j;
      assert (j + ".")[|j + "."| - 1] == '.';
      assert init[..|init| - 1] + [init[|init| - 1]] == init;
      assert init[|init| - 1] == ts[|ts| - 2] != "";
      assert Scan(j + ".") == (init, "");
      ScanWord(j + ".", ts[|ts| - 1]);
      assert JoinDots(ts) == (j + ".") + ts[|ts| - 1];
      assert "" + ts[|ts| - 1] == ts[|ts| - 1];
    }
    assert ts[..|ts| - 1] + [ts[|ts| - 1]] == ts;
  }

  /** tokenizePropertySpec: the tokenizer loop over the characters; it
      succeeds when there is at least one token. */
  method TokenizePropertySpec(spec: string) returns (ok: bool, props: seq<string>)
    ensures props == Tokens(spec) && ok == (|props| != 0)
    ensures CleanTokens(props)
  {
    props := [];
    var cur := "";
    for i := 0 to |spec|
      invariant (props, cur) == Scan(spec[..i])
    {
      assert spec[..i + 1][..i] == spec[..i];
      if spec[i] == '.' {
        if cur != "" {
          props := props + [cur];
          cur := "";
        }
      } else {
        cur := cur + [spec[i]];
      }
    }
    assert spec[..|spec|] == spec;
    if cur != "" {
      props := props + [cur];
    }
    ok := |props| != 0;
    TokensAreClean(spec);
  }

  // ---- finding a section ----

  /** FirstChild / FirstChildElement: the first element of `es` named
      `name`. */
  function FirstNamed(es: seq<Element>, name: string): (r: Option<Element>)
    ensures r.Some? ==> r.value.name == name && r.value in es
    ensures r.None? <==> forall i :: 0 <= i < |es| ==> es[i].name != name
  {
    if es == [] then None
    else if es[0].name == name then Some(es[0])
    else FirstNamed(es[1..], name)
  }

  /** The element reached from `e` by following `path` through first
      children of the given names. */
  function Descend(e: Element, path: seq<string>): (r: Option<Element>)
    ensures path == [] ==> r == Some(e)
    ensures path != [] && r.Some? ==> r.value.name == path[|path| - 1]
    decreases |path|
  {
    if path == [] then Some(e)
    else
      match FirstNamed(e.children, path[0])
      case None => None
      case Some(c) => Descend(c, path[1..])
  }

  /** hasSection_internal: the element a spec names in one document. */
  function Section(doc: Document, spec: string): (r: Option<Element>)
    ensures r.Some? ==> Tokens(spec) != [] && r.value.name == Tokens(spec)[|Tokens(spec)| - 1]
  {
    var ts := Tokens(spec);
    if ts == [] then None
    else
      match FirstNamed(doc.roots, ts[0])
      case None => None
      case Some(root) => Descend(root, ts[1..])
  }

  /** hasSection_internal: the loop down the path of names. */
  method SectionIn(doc: Document, spec: string) returns (r: Option<Element>)
    ensures r == Section(doc, spec)
  {
    var ok, props := TokenizePropertySpec(spec);
    if !ok {
      return None;
    }
    var node := FirstNamed(doc.roots, props[0]);
    if node.None? {
      return None;
    }
    var elem := node.value;
    for i := 1 to |props|
      invariant Descend(node.value, props[1..]) == Descend(elem, props[i..])
    {
      assert props[i..][1..] == props[i + 1..];
      var next := FirstNamed(elem.children, props[i]);
      if next.None? {
        return None;
      }
      elem := next.value;
    }
    return Some(elem);
  }

  /** xmlChainHasSection: the element from the first document, child to
      parent, that has the section. */
  function ChainSection(chain: seq<Document>, spec: string): Option<Element>
  {
    if chain == [] then None
    else if Section(chain[0], spec).Some? then Section(chain[0], spec)
    else ChainSection(chain[1..], spec)
  }

  /** ChainSection finds a section exactly when some document has one, and
      then it is the section of the first such document. */
  lemma {:induction false} ChainSectionFirst(chain: seq<Document>, spec: string)
    ensures ChainSection(chain, spec).Some? <==> exists i :: 0 <= i < |chain| && Section(chain[i], spec).Some?
    ensures ChainSection(chain, spec).Some? ==>
              exists i :: 0 <= i < |chain| && Section(chain[i], spec) == ChainSection(chain, spec)
                && forall j :: 0 <= j < i ==> Section(chain[j], spec).None?
  {
    if chain != [] && Section(chain[0], spec).None? {
      var rest := chain[1..];
      ChainSectionFirst(rest, spec);
      assert forall i :: 1 <= i < |chain| ==> chain[i] == rest[i - 1];
      if ChainSection(rest, spec).Some? {
        var i :| 0 <= i < |rest| && Section(rest[i], spec) == ChainSection(rest, spec)
                 && forall j :: 0 <= j < i ==> Section(rest[j], spec).None?;
        assert Section(chain[i + 1], spec) == ChainSection(chain, spec);
      }
    }
  }

  method XmlChainHasSection(pm: PropertyMap, spec: string) returns (r: Option<Element>)
    ensures r == ChainSection(pm.chain, spec)
  {
    for i := 0 to |pm.chain|
      invariant ChainSection(pm.chain, spec) == ChainSection(pm.chain[i..], spec)
    {
      assert pm.chain[i..][1..] == pm.chain[i + 1..];
      r := SectionIn(pm.chain[i], spec);
      if r.Some? {
        return;
      }
    }
    r := None;
  }

  /** propertySpecQuery: the first section found exists and, when asked,
      has inner text and has attributes. */
  predicate Query(pm: PropertyMap, spec: string, checkValue: bool, checkAttributes: bool)
  {
    var e := ChainSection(pm.chain, spec);
    e.Some? && (!checkValue || e.value.text.Some?) && (!checkAttributes || e.value.attributes != [])
  }

  /** hasSection, hasValue and hasAttributes ask only the first document
      that has the section: a child template that lists the section
      without text hides the text its parent gives it, although
      getValueString finds that text. */
  lemma HasValueAsksTheFirstSectionOnly(spec: string, child: Element, parent: Element)
    requires Tokens(spec) == [child.name] && parent.name == child.name
    requires child.text.None? && parent.text.Some?
    ensures var pm := PropertyMap([Document([child]), Document([parent])]);
            Query(pm, spec, false, false) && !Query(pm, spec, true, false)
            && FirstValue(pm.chain, spec) == parent.text
  {
    var pm := PropertyMap([Document([child]), Document([parent])]);
    assert Section(pm.chain[0], spec) == Some(child);
    assert Section(pm.chain[1], spec) == Some(parent);
    assert pm.chain[1..] == [Document([parent])];
    assert ValueIn(pm.chain[0], spec).None?;
  }

  // ---- values ----

  /** getValueString on one document: the inner text of the section. */
  function ValueIn(doc: Document, spec: string): Option<string>
  {
    match Section(doc, spec)
    case None => None
    case Some(e) => e.text
  }

  /** getValueString over the chain: the first value found, child to
      parent. */
  function FirstValue(chain: seq<Document>, spec: string): Option<string>
  {
    if chain == [] then None
    else if ValueIn(chain[0], spec).Some? then ValueIn(chain[0], spec)
    else FirstValue(chain[1..], spec)
  }

  /** FirstValue finds a value exactly when some document has one, and then
      it is the value of the first such document. */
  lemma {:induction false} FirstValueFirst(chain: seq<Document>, spec: string)
    ensures FirstValue(chain, spec).Some? <==> exists i :: 0 <= i < |chain| && ValueIn(chain[i], spec).Some?
    ensures FirstValue(chain, spec).Some? ==>
              exists i :: 0 <= i < |chain| && ValueIn(chain[i], spec) == FirstValue(chain, spec)
                && forall j :: 0 <= j < i ==> ValueIn(chain[j], spec).None?
  {
    if chain != [] && ValueIn(chain[0], spec).None? {
      var rest := chain[1..];
      FirstValueFirst(rest, spec);
      assert forall i :: 1 <= i < |chain| ==> chain[i] == rest[i - 1];
      if FirstValue(rest, spec).Some? {
        var i :| 0 <= i < |rest| && ValueIn(rest[i], spec) == FirstValue(rest, spec)
                 && forall j :: 0 <= j < i ==> ValueIn(rest[j], spec).None?;
        assert ValueIn(chain[i + 1], spec) == FirstValue(chain, spec);
      }
    }
  }

  /** getValueString: the loop over the chain; "" and false when no
      document has a value. */
  method GetValueString(pm: PropertyMap, spec: string) returns (found: bool, outString: string)
    ensures found <==> FirstValue(pm.chain, spec).Some?
    ensures outString == if found then FirstValue(pm.chain, spec).value else ""
  {
    for i := 0 to |pm.chain|
      invariant FirstValue(pm.chain, spec) == FirstValue(pm.chain[i..], spec)
    {
      assert pm.chain[i..][1..] == pm.chain[i + 1..];
      var section := SectionIn(pm.chain[i], spec);
      if section.Some? && section.value.text.Some? {
        return true, section.value.text.value;
      }
    }
    return false, "";
  }

  /** A map whose chain is empty finds no section and no value. */
  lemma InvalidMapFindsNothing(pm: PropertyMap, spec: string)
    requires !IsValidState(pm)
    ensures ChainSection(pm.chain, spec).None? && FirstValue(pm.chain, spec).None?
  {
  }

  /** The value is true for "true" or "1" in any case. */
  predicate BoolValue(s: string)
  {
    var low := SceneObjects.Lower(s);
    low == "true" || low == "1"
  }

  /** getValue<bool> as written: the value is read into the out parameter,
      but the result is false whether or not a value was found. Returns the
      result and the new out value. */
  function GetBoolAsWritten(pm: PropertyMap, spec: string, outVal: bool): (r: (bool, bool))
    ensures FirstValue(pm.chain, spec).None? ==> r.1 == outVal
    ensures FirstValue(pm.chain, spec).Some? ==> r.1 == BoolValue(FirstValue(pm.chain, spec).value)
  {
    var v := FirstValue(pm.chain, spec);
    (false, if v.Some? then BoolValue(v.value) else outVal)
  }

  /** getValue<bool> as evidently intended: the result says whether a value
      was found, like getValueString. */
  function GetBool(pm: PropertyMap, spec: string, outVal: bool): (r: (bool, bool))
    ensures r.0 <==> FirstValue(pm.chain, spec).Some?
    ensures r.0 ==> r.1 == BoolValue(FirstValue(pm.chain, spec).value)
    ensures !r.0 ==> r.1 == outVal
  {
    var v := FirstValue(pm.chain, spec);
    if v.Some? then (true, BoolValue(v.value)) else (false, outVal)
  }

  /** A section reading "true" is read as true, yet getValue<bool> as
      written reports failure, where the intended version reports success. */
  lemma GetBoolReportsFailureOnSuccess(e: Element, spec: string)
    requires Tokens(spec) == [e.name] && e.text == Some("true")
    ensures var pm := PropertyMap([Document([e])]);
            GetBoolAsWritten(pm, spec, false) == (false, true)
            && GetBool(pm, spec, false) == (true, true)
  {
    var pm := PropertyMap([Document([e])]);
    assert Section(pm.chain[0], spec) == Some(e);
    assert SceneObjects.Lower("true") == "true";
  }

  // ---- attributes ----

  /** The attributes as a map; a later attribute of the same name wins. */
  function AttributeMap(atts: seq<(string, string)>): map<string, string>
  {
    if atts == [] then map[]
    else AttributeMap(atts[..|atts| - 1])[atts[|atts| - 1].0 := atts[|atts| - 1].1]
  }

  /** Every attribute name is a key, and each key holds the value of the
      last attribute of that name. */
  lemma {:induction false} AttributeMapSpec(atts: seq<(string, string)>)
    ensures forall i :: 0 <= i < |atts| ==> atts[i].0 in AttributeMap(atts)
    ensures forall k :: k in AttributeMap(atts) <==> LastOf(atts, k).Some?
    ensures forall k :: k in AttributeMap(atts) ==> AttributeMap(atts)[k] == LastOf(atts, k).value
  {
    if atts != [] {
      var init := atts[..|atts| - 1];
      AttributeMapSpec(init);
      forall i | 0 <= i < |atts| - 1
        ensures atts[i].0 in AttributeMap(atts)
      {
        assert atts[i] == init[i];
      }
    }
  }

  /** The attribute loop of getAttributes. */
  method ReadAttributes(atts: seq<(string, string)>) returns (attMap: map<string, string>)
    ensures attMap == AttributeMap(atts)
  {
    attMap := map[];
    for i := 0 to |atts|
      invariant attMap == AttributeMap(atts[..i])
    {
      assert atts[..i + 1][..i] == atts[..i];
      attMap := attMap[atts[i].0 := atts[i].1];
    }
    assert atts[..|atts|] == atts;
  }

  /** getAttributes: the attributes of the first section in the chain;
      none when no document has the section. */
  method GetAttributes(pm: PropertyMap, spec: string) returns (attMap: map<string, string>)
    ensures ChainSection(pm.chain, spec).None? ==> attMap == map[]
    ensures ChainSection(pm.chain, spec).Some? ==> attMap == AttributeMap(ChainSection(pm.chain, spec).value.attributes)
  {
    var elem := XmlChainHasSection(pm, spec);
    if elem.Some? {
      attMap := ReadAttributes(elem.value.attributes);
    } else {
      attMap := map[];
    }
  }

  // ---- children of a section ----

  /** std::string's operator<: lexicographic on character codes. */
  predicate StrLess(a: string, b: string)
  {
    if a == [] then b != []
    else b != [] && (a[0] < b[0] || (a[0] == b[0] && StrLess(a[1..], b[1..])))
  }

  lemma {:induction false} StrLessIrreflexive(a: string)
    ensures !StrLess(a, a)
  {
    if a != [] {
      StrLessIrreflexive(a[1..]);
    }
  }

  lemma {:induction false} StrLessTotal(a: string, b: string)
    requires a != b
    ensures StrLess(a, b) || StrLess(b, a)
  {
    if a != [] && b != [] && a[0] == b[0] {
      assert a == [a[0]] + a[1..] && b == [b[0]] + b[1..];
      StrLessTotal(a[1..], b[1..]);
    }
  }

  lemma {:induction false} StrLessAsymmetric(a: string, b: string)
    requires StrLess(a, b)
    ensures !StrLess(b, a)
  {
    if a != [] && b != [] && a[0] == b[0] {
      StrLessAsymmetric(a[1..], b[1..]);
    }
  }

  /** A std::map<string, string> as its entries in key order. */
  ghost predicate Sorted(m: seq<(string, string)>)
  {
    forall i, j :: 0 <= i < j < |m| ==> StrLess(m[i].0, m[j].0)
  }

  /** The value under `k`, if any. */
  function Lookup(m: seq<(string, string)>, k: string): Option<string>
  {
    if m == [] then None else if m[0].0 == k then Some(m[0].1) else Lookup(m[1..], k)
  }

  /** `m[k] = v` on a std::map. */
  function Put(m: seq<(string, string)>, k: string, v: string): seq<(string, string)>
  {
    if m == [] then [(k, v)]
    else if m[0].0 == k then [(k, v)] + m[1..]
    else if StrLess(k, m[0].0) then [(k, v)] + m
    else [m[0]] + Put(m[1..], k, v)
  }

  /** Every key of `Put(m, k, v)` is above a bound that `k` and the keys of
      `m` are above. */
  lemma {:induction false} PutAbove(m: seq<(string, string)>, k: string, v: string, x: string)
    requires StrLess(x, k) && forall i :: 0 <= i < |m| ==> StrLess(x, m[i].0)
    ensures forall i :: 0 <= i < |Put(m, k, v)| ==> StrLess(x, Put(m, k, v)[i].0)
  {
    if m != [] && m[0].0 != k && !StrLess(k, m[0].0) {
      PutAbove(m[1..], k, v, x);
    }
  }

  /** Putting keeps the entries sorted, sets `k` and leaves every other
      key's value. */
  lemma {:induction false} PutSpec(m: seq<(string, string)>, k: string, v: string)
    requires Sorted(m)
    ensures Sorted(Put(m, k, v))
    ensures forall k2 :: Lookup(Put(m, k, v), k2) == if k2 == k then Some(v) else Lookup(m, k2)
  {
    if m == [] {
    } else if m[0].0 == k {
      assert Put(m, k, v)[1..] == m[1..];
    } else if StrLess(k, m[0].0) {
      forall j | 1 <= j < |m| + 1
        ensures StrLess(k, Put(m, k, v)[j].0)
      {
        assert Put(m, k, v)[j] == m[j - 1];
        if j > 1 {
          StrLessTransitive(k, m[0].0, m[j - 1].0);
        }
      }
      assert Put(m, k, v)[1..] == m;
      forall k2 | k2 != k
        ensures Lookup(Put(m, k, v), k2) == Lookup(m, k2)
      {
      }
    } else {
      PutSpec(m[1..], k, v);
      StrLessTotal(k, m[0].0);
      PutAbove(m[1..], k, v, m[0].0);
      var p := Put(m, k, v);
      assert p[1..] == Put(m[1..], k, v);
      forall i, j | 0 <= i < j < |p|
        ensures StrLess(p[i].0, p[j].0)
      {
        if i > 0 {
          assert p[i] == p[1..][i - 1] && p[j] == p[1..][j - 1];
        }
      }
    }
  }

  lemma {:induction false} StrLessTransitive(a: string, b: string, c: string)
    requires StrLess(a, b) && StrLess(b, c)
    ensures StrLess(a, c)
  {
    if a != [] && a[0] == b[0] && b[0] == c[0] {
      StrLessTransitive(a[1..], b[1..], c[1..]);
    }
  }

  /** The map after `m[k] = v` for each pair in order. */
  function PutAll(m: seq<(string, string)>, ps: seq<(string, string)>): seq<(string, string)>
  {
    if ps == [] then m else Put(PutAll(m, ps[..|ps| - 1]), ps[|ps| - 1].0, ps[|ps| - 1].1)
  }

  /** The value of the last pair with key `k`. */
  function LastOf(ps: seq<(string, string)>, k: string): (r: Option<string>)
    ensures r.Some? ==> (k, r.value) in ps
  {
    if ps == [] then None
    else if ps[|ps| - 1].0 == k then Some(ps[|ps| - 1].1)
    else LastOf(ps[..|ps| - 1], k)
  }

  lemma {:induction false} PutAllSpec(ps: seq<(string, string)>)
    ensures Sorted(PutAll([], ps))
    ensures forall k :: Lookup(PutAll([], ps), k) == LastOf(ps, k)
  {
    if ps != [] {
      PutAllSpec(ps[..|ps| - 1]);
      PutSpec(PutAll([], ps[..|ps| - 1]), ps[|ps| - 1].0, ps[|ps| - 1].1);
    }
  }

  lemma {:induction false} PutAllAppend(m: seq<(string, string)>, a: seq<(string, string)>, b: seq<(string, string)>)
    ensures PutAll(m, a + b) == PutAll(PutAll(m, a), b)
    decreases |b|
  {
    if b == [] {
      assert a + b == a;
    } else {
      assert (a + b)[..|a + b| - 1] == a + b[..|b| - 1];
      PutAllAppend(m, a, b[..|b| - 1]);
    }
  }

  /** A later pair wins over an earlier one. */
  lemma {:induction false} LastOfAppend(a: seq<(string, string)>, b: seq<(string, string)>, k: string)
    ensures LastOf(a + b, k) == if LastOf(b, k).Some? then LastOf(b, k) else LastOf(a, k)
    decreases |b|
  {
    if b == [] {
      assert a + b == a;
    } else {
      assert (a + b)[..|a + b| - 1] == a + b[..|b| - 1];
      LastOfAppend(a, b[..|b| - 1], k);
    }
  }

  /** The (name, text) pairs of the elements with text, in order. */
  function TextPairs(es: seq<Element>): (ps: seq<(string, string)>)
    ensures |ps| <= |es|
  {
    if es == [] then []
    else
      var last := es[|es| - 1];
      TextPairs(es[..|es| - 1]) + if last.text.Some? then [(last.name, last.text.value)] else []
  }

  /** The child pairs a document contributes under a spec. */
  function DocPairs(doc: Document, spec: string): seq<(string, string)>
  {
    match Section(doc, spec)
    case None => []
    case Some(e) => TextPairs(e.children)
  }

  /** The child pairs of the whole chain, oldest document first. */
  function ChainPairs(chain: seq<Document>, spec: string): seq<(string, string)>
  {
    if chain == [] then [] else ChainPairs(chain[1..], spec) + DocPairs(chain[0], spec)
  }

  /** The inner loop of getPropChildren: each child with text is written
      into the map under its name. */
  method PutChildren(m: seq<(string, string)>, children: seq<Element>) returns (m': seq<(string, string)>)
    ensures m' == PutAll(m, TextPairs(children))
  {
    m' := m;
    for j := 0 to |children|
      invariant m' == PutAll(m, TextPairs(children[..j]))
    {
      assert children[..j + 1][..j] == children[..j];
      var before := TextPairs(children[..j]);
      if children[j].text.Some? {
        var pair := (children[j].name, children[j].text.value);
        assert TextPairs(children[..j + 1]) == before + [pair];
        assert (before + [pair])[..|before|] == before;
        m' := Put(m', children[j].name, children[j].text.value);
      } else {
        assert TextPairs(children[..j + 1]) == before;
      }
    }
    assert children[..|children|] == children;
  }

  /** getPropChildren: the documents from the oldest to the template itself
      write each child with text into a std::map, which is then read out in
      key order. */
  method GetPropChildren(pm: PropertyMap, spec: string) returns (outVec: seq<(string, string)>)
    ensures outVec == PutAll([], ChainPairs(pm.chain, spec))
  {
    var m: seq<(string, string)> := [];
    var i := |pm.chain|;
    while i > 0
      invariant 0 <= i <= |pm.chain|
      invariant m == PutAll([], ChainPairs(pm.chain[i..], spec))
    {
      i := i - 1;
      assert pm.chain[i..][1..] == pm.chain[i + 1..];
      PutAllAppend([], ChainPairs(pm.chain[i + 1..], spec), DocPairs(pm.chain[i], spec));
      var elem := SectionIn(pm.chain[i], spec);
      if elem.Some? {
        m := PutChildren(m, elem.value.children);
      }
    }
    assert pm.chain[0..] == pm.chain;
    outVec := m;
  }

  /** The children come out in strictly increasing key order, and each
      key's value is the one the newest document gives it. */
  lemma PropChildrenSortedNewestWins(pm: PropertyMap, spec: string, k: string)
    requires |pm.chain| >= 1
    ensures Sorted(PutAll([], ChainPairs(pm.chain, spec)))
    ensures LastOf(DocPairs(pm.chain[0], spec), k).Some? ==>
              Lookup(PutAll([], ChainPairs(pm.chain, spec)), k) == LastOf(DocPairs(pm.chain[0], spec), k)
    ensures LastOf(DocPairs(pm.chain[0], spec), k).None? ==>
              Lookup(PutAll([], ChainPairs(pm.chain, spec)), k) == LastOf(ChainPairs(pm.chain[1..], spec), k)
  {
    PutAllSpec(ChainPairs(pm.chain, spec));
    LastOfAppend(ChainPairs(pm.chain[1..], spec), DocPairs(pm.chain[0], spec), k);
  }
}
