/** Bindings from textual key and mouse descriptions to game actions
    (branches/factory2/source/input/IOMapping.cpp). IOMapping.h is not part
    of this model; its constants are taken as follows. An input code is a
    32-bit word whose bit 30 is kInputMod_Shift, bit 31 kInputMod_Ctrl, and
    whose remaining bits (kInputMod_Clear_Mask) hold a key or button. The
    input types are numbered key on-press, on-release, on-hold (0-2), mouse
    on-press, on-release, on-hold (3-5), mouse move X, move Y, scroll (6-8).
    The mouse "buttons" left, right, middle, move X, move Y and scroll are
    0 to 5. The table of Irrlicht key names that GetKeyFromString builds is
    a parameter: Irrlicht's Keycodes.h is not part of this model. */
module IOMappings {
  import opened IOStates

  const ShiftBit := 0x4000_0000
  const CtrlBit := 0x8000_0000

  const KeyOnPress := 0
  const KeyOnRelease := 1
  const KeyOnHold := 2
  const MouseOnPress := 3
  const MouseOnRelease := 4
  const MouseOnHold := 5
  const MouseMoveX := 6
  const MouseMoveY := 7
  const MouseScroll := 8

  const MouseMoveXButton := 3
  const MouseMoveYButton := 4
  const MouseScrollButton := 5

  datatype InputSource = Keyboard | Mouse

  // ---- input codes ----

  /** code & kInputMod_Clear_Mask: the key or button part (AsKey). */
  function AsKey(code: nat): nat
  {
    code % ShiftBit
  }

  function HasShift(code: nat): bool
  {
    (code / ShiftBit) % 2 == 1
  }

  function HasCtrl(code: nat): bool
  {
    (code / CtrlBit) % 2 == 1
  }

  /** The code with the given modifier flags and key part; its key part and
      flags read back unchanged. */
  function CodeWord(shift: bool, ctrl: bool, key: nat): (code: nat)
    requires key < ShiftBit
    ensures AsKey(code) == key && HasShift(code) == shift && HasCtrl(code) == ctrl
    ensures code < 0x1_0000_0000
  {
    key + (if shift then ShiftBit else 0) + (if ctrl then CtrlBit else 0)
  }

  /** The code's shift and control flags equal those of the state. */
  predicate ModifiersMatch(code: nat, s: Snapshot)
  {
    HasShift(code) == s.shift && HasCtrl(code) == s.ctrl
  }

  /** The modifier check against a live input state. */
  function CheckModifierRequirements(code: nat, io: IOState): (r: bool)
    requires io.Valid()
    reads io, io.curKeys, io.prevKeys, io.curMouse, io.prevMouse
    ensures r <==> ModifiersMatch(code, io.View())
  {
    HasShift(code) == io.IsShiftDown() && HasCtrl(code) == io.IsCtrlDown()
  }

  /** A code built from flags matches exactly the states with those flags. */
  lemma ModifiersMatchIff(shift: bool, ctrl: bool, key: nat, s: Snapshot)
    requires key < ShiftBit
    ensures ModifiersMatch(CodeWord(shift, ctrl, key), s) <==> s.shift == shift && s.ctrl == ctrl
  {
  }

  // ---- parsing ----

  /** ::toupper in the C locale. */
  function UpperChar(c: char): (u: char)
    ensures !('a' <= u <= 'z')
    ensures 'A' <= c <= 'Z' || !('a' <= c <= 'z') ==> u == c
  {
    if 'a' <= c <= 'z' then (c as int - 32) as char else c
  }

  function Upper(s: string): (u: string)
    ensures |u| == |s| && forall i :: 0 <= i < |s| ==> u[i] == UpperChar(s[i])
  {
    if s == [] then [] else [UpperChar(s[0])] + Upper(s[1..])
  }

  /** boost::split with is_any_of(delim) and no compression: every
      delimiter character ends a token, so empty tokens are kept and the
      empty string gives one empty token. */
  function Split(s: string, delim: string): (ts: seq<string>)
    ensures |ts| >= 1
    decreases |s|
  {
    if s == [] then [""]
    else
      var rest := Split(s[1..], delim);
      if s[0] in delim then [""] + rest else [[s[0]] + rest[0]] + rest[1..]
  }

  /** The tokens joined back with a delimiter character. */
  function Join(ts: seq<string>, d: char): string
    requires |ts| >= 1
  {
    if |ts| == 1 then ts[0] else ts[0] + [d] + Join(ts[1..], d)
  }

  lemma {:induction false} SplitJoin(s: string, d: char)
    ensures Join(Split(s, [d]), d) == s
    decreases |s|
  {
    if s != [] {
      var rest := Split(s[1..], [d]);
      SplitJoin(s[1..], d);
      if s[0] != d {
        if |rest| == 1 {
          assert Join(Split(s, [d]), d) == [s[0]] + rest[0];
        } else {
          assert Join(Split(s, [d]), d) == [s[0]] + rest[0] + [d] + Join(rest[1..], d);
        }
      }
    }
  }

  lemma {:induction false} SplitHasNoDelimiter(s: string, delim: string)
    ensures forall i, j :: 0 <= i < |Split(s, delim)| && 0 <= j < |Split(s, delim)[i]| ==> Split(s, delim)[i][j] !in delim
    decreases |s|
  {
    if s != [] {
      SplitHasNoDelimiter(s[1..], delim);
    }
  }

  /** Splits on any delimiter character and upper-cases every token. */
  method ParseTokens(input: string, delim: string) returns (tl: seq<string>)
    ensures |tl| == |Split(input, delim)|
    ensures forall i :: 0 <= i < |tl| ==> tl[i] == Upper(Split(input, delim)[i])
  {
    tl := Split(input, delim);
    var i := 0;
    while i < |tl|
      invariant 0 <= i <= |tl| == |Split(input, delim)|
      invariant forall j :: 0 <= j < i ==> tl[j] == Upper(Split(input, delim)[j])
      invariant forall j :: i <= j < |tl| ==> tl[j] == Split(input, delim)[j]
    {
      tl := tl[i := Upper(tl[i])];
      i := i + 1;
    }
  }

  /** The tokens ParseTokens returns. */
  function Tokens(input: string, delim: string): (tl: seq<string>)
    ensures |tl| == |Split(input, delim)|
  {
    seq(|Split(input, delim)|, i requires 0 <= i < |Split(input, delim)| => Upper(Split(input, delim)[i]))
  }

  /** Joining the parsed tokens with the delimiter gives the upper-cased
      input back. */
  lemma ParsedTokensRejoin(input: string, d: char, tl: seq<string>)
    requires |tl| == |Split(input, [d])|
    requires forall i :: 0 <= i < |tl| ==> tl[i] == Upper(Split(input, [d])[i])
    requires !('a' <= d <= 'z')
    ensures Join(tl, d) == Upper(input)
  {
    SplitJoin(input, d);
    UpperJoin(Split(input, [d]), d, tl);
  }

  lemma {:induction false} UpperJoin(ts: seq<string>, d: char, us: seq<string>)
    requires |ts| >= 1 && |us| == |ts|
    requires forall i :: 0 <= i < |us| ==> us[i] == Upper(ts[i])
    requires !('a' <= d <= 'z')
    ensures Join(us, d) == Upper(Join(ts, d))
    decreases |ts|
  {
    if |ts| > 1 {
      assert forall i :: 0 <= i < |us| - 1 ==> us[1..][i] == Upper(ts[1..][i]);
      UpperJoin(ts[1..], d, us[1..]);
      var rest := Join(ts[1..], d);
      UpperAppend(ts[0] + [d], rest);
      UpperAppend(ts[0], [d]);
      assert Upper([d]) == [d];
      assert Join(us, d) == us[0] + [d] + Upper(rest);
    }
  }

  lemma UpperAppend(a: string, b: string)
    ensures Upper(a + b) == Upper(a) + Upper(b)
  {
    assert Upper(a + b) == Upper(a) + Upper(b);
  }

  /** The Irrlicht key names and codes; every code is a key below
      KEY_KEY_CODES_COUNT other than 0. */
  type KeyTable = t: map<string, nat> | forall k :: k in t ==> 0 < t[k] < KeyCount witness map[]

  /** GetKeyFromString: the code of the upper-cased name, or (KEY)-1. */
  function GetKeyFromString(table: KeyTable, s: string): (k: int)
    ensures k == -1 <==> Upper(s) !in table
    ensures k != -1 ==> 0 < k < KeyCount
  {
    if Upper(s) in table then table[Upper(s)] else -1
  }

  /** The input type a name denotes for a source, or -1. */
  function GetInputType(source: InputSource, name: string): (t: int)
    ensures t == -1 <==> Upper(name) !in {"ONPRESS", "ONRELEASE", "ONHOLD", "MOVEX", "MOVEY", "SCROLL"}
    ensures Upper(name) in {"ONPRESS", "ONRELEASE", "ONHOLD"} ==>
              t == (if source == Keyboard then 0 else 3) + (if Upper(name) == "ONPRESS" then 0 else if Upper(name) == "ONRELEASE" then 1 else 2)
    ensures Upper(name) in {"MOVEX", "MOVEY", "SCROLL"} ==> t in {MouseMoveX, MouseMoveY, MouseScroll}
  {
    var u := Upper(name);
    var offset := if source == Keyboard then 0 else 3;
    if u == "ONPRESS" then KeyOnPress + offset
    else if u == "ONRELEASE" then KeyOnRelease + offset
    else if u == "ONHOLD" then KeyOnHold + offset
    else if u == "MOVEX" then MouseMoveX
    else if u == "MOVEY" then MouseMoveY
    else if u == "SCROLL" then MouseScroll
    else -1
  }

  /** The mouse types are the key types moved by three. */
  lemma MouseTypesFollowKeyTypes(name: string)
    requires Upper(name) in {"ONPRESS", "ONRELEASE", "ONHOLD"}
    ensures GetInputType(Mouse, name) == GetInputType(Keyboard, name) + 3
  {
  }

  function GetMouseButtonFromString(s: string): (b: int)
    ensures b == -1 <==> Upper(s) !in {"RIGHT", "LEFT", "MIDDLE", "MOVEX", "MOVEY", "SCROLL"}
    ensures b != -1 ==> 0 <= b <= MouseScrollButton
  {
    var u := Upper(s);
    if u == "RIGHT" then RightButton
    else if u == "LEFT" then LeftButton
    else if u == "MIDDLE" then MiddleButton
    else if u == "MOVEX" then MouseMoveXButton
    else if u == "MOVEY" then MouseMoveYButton
    else if u == "SCROLL" then MouseScrollButton
    else -1
  }

  /** What one token contributes to an input code. */
  datatype Effect = CtrlMod | ShiftMod | KeyPart(part: nat) | Ignored

  function TokenEffect(table: KeyTable, tok: string): Effect
  {
    var k := GetKeyFromString(table, tok);
    if k != -1 then
      if k == KeyControl then CtrlMod else if k == KeyShift then ShiftMod else KeyPart(k)
    else
      var b := GetMouseButtonFromString(tok);
      if b != -1 then KeyPart(b) else Ignored
  }

  /** The token names a key or button with a non-zero code, which is what
      can occupy the key part of a code. */
  predicate Keyed(table: KeyTable, tok: string)
  {
    TokenEffect(table, tok).KeyPart? && TokenEffect(table, tok).part != 0
  }

  /** What GetInputCode computes from a token list: 0 when no token gives
      a non-zero key part; otherwise a code whose key part is that of the
      first such token only, and whose shift and control flags are set
      exactly when some token names that modifier. */
  predicate IsInputCodeOf(table: KeyTable, tokens: seq<string>, code: nat)
  {
    (code == 0 <==> forall i :: 0 <= i < |tokens| ==> !Keyed(table, tokens[i]))
    && (code != 0 ==>
          (exists i :: 0 <= i < |tokens| && Keyed(table, tokens[i]) && AsKey(code) == TokenEffect(table, tokens[i]).part
                       && forall j :: 0 <= j < i ==> !Keyed(table, tokens[j]))
          && (HasShift(code) <==> exists i :: 0 <= i < |tokens| && TokenEffect(table, tokens[i]) == ShiftMod)
          && (HasCtrl(code) <==> exists i :: 0 <= i < |tokens| && TokenEffect(table, tokens[i]) == CtrlMod))
  }

  method GetInputCode(table: KeyTable, tokens: seq<string>) returns (code: nat)
    ensures IsInputCodeOf(table, tokens, code)
  {
    // The three parts of the code word, which the source ORs together.
    var shift, ctrl, key := false, false, 0;
    ghost var first := 0;
    var i := 0;
    while i < |tokens|
      invariant 0 <= i <= |tokens| && key < KeyCount
      invariant shift <==> exists j :: 0 <= j < i && TokenEffect(table, tokens[j]) == ShiftMod
      invariant ctrl <==> exists j :: 0 <= j < i && TokenEffect(table, tokens[j]) == CtrlMod
      invariant key == 0 <==> forall j :: 0 <= j < i ==> !Keyed(table, tokens[j])
      invariant key != 0 ==> 0 <= first < i && Keyed(table, tokens[first])
                             && key == TokenEffect(table, tokens[first]).part
                             && forall j :: 0 <= j < first ==> !Keyed(table, tokens[j])
    {
      ghost var effect := TokenEffect(table, tokens[i]);
      var k := GetKeyFromString(table, tokens[i]);
      if k != -1 {
        if k == KeyControl {
          ctrl := true;
        } else if k == KeyShift {
          shift := true;
        } else if key == 0 {
          key, first := k, i;
        }
      } else {
        var b := GetMouseButtonFromString(tokens[i]);
        if b != -1 && key == 0 {
          key, first := b, i;
        }
      }
      i := i + 1;
    }
    if key == 0 {
      code := 0;
    } else {
      code := CodeWord(shift, ctrl, key);
    }
  }

  /** The map key of a binding: the code plus the 16-bit input type
      shifted up by 8. */
  function MapKey(code: nat, inputType: int): nat
  {
    code + (inputType % 0x1_0000) * 0x100
  }

  /** A map key keeps the code's key part in its low byte, the input
      type in the byte above it and the modifier flags on top ("[mod
      flags...inputType...keys]"), so bindings that differ in the key, the
      type or the modifiers get different keys. */
  lemma MapKeyLayout(code: nat, inputType: int)
    requires AsKey(code) < 0x100 && 0 <= inputType < 0x100
    ensures MapKey(code, inputType) % 0x100 == AsKey(code)
    ensures (MapKey(code, inputType) / 0x100) % 0x100 == inputType
    ensures HasShift(MapKey(code, inputType)) == HasShift(code)
    ensures HasCtrl(MapKey(code, inputType)) == HasCtrl(code)
  {
    var low, high, k := AsKey(code), code / ShiftBit, MapKey(code, inputType);
    var m := low + inputType * 0x100;
    assert k == high * ShiftBit + m;
    DivModOf(k, ShiftBit, high, m);
    DivModOf(code, CtrlBit, high / 2, (high % 2) * ShiftBit + low);
    DivModOf(k, CtrlBit, high / 2, (high % 2) * ShiftBit + m);
    DivModOf(k, 0x100, high * 0x40_0000 + inputType, low);
    DivModOf(k / 0x100, 0x100, high * 0x4000, inputType);
  }

  /** Quotient and remainder are determined by any decomposition. */
  lemma DivModOf(n: int, d: int, q: int, r: int)
    requires d > 0 && 0 <= r < d && n == q * d + r
    ensures n / d == q && n % d == r
  {
    var e := q - n / d;
    assert e * d == n % d - r;
  }

  /** A mapping's requirements: its codes and input type. */
  datatype PythonIOMapping = PythonIOMapping(source: InputSource, codes: seq<nat>, inputType: int, action: nat)

  /** Every code names a key or button the state can be asked about. */
  predicate QueriesInRange(m: PythonIOMapping)
  {
    (m.source == Keyboard && m.inputType in {KeyOnPress, KeyOnRelease, KeyOnHold} ==>
       forall c :: c in m.codes ==> AsKey(c) < KeyCount)
    && (m.source == Mouse && m.inputType in {MouseOnPress, MouseOnRelease, MouseOnHold} ==>
       forall c :: c in m.codes ==> AsKey(c) < ButtonCount)
  }

  /** When a mapping's action is due: for the edge and hold types every
      code's key or button is in that state with exactly its modifiers; for
      mouse motion the matching delta is non-zero; any other type always. */
  predicate Due(m: PythonIOMapping, s: Snapshot)
    requires WellSized(s) && QueriesInRange(m)
  {
    match m.source
    case Keyboard =>
      if m.inputType == KeyOnPress then forall c :: c in m.codes ==> KeyPressed(s, AsKey(c)) && ModifiersMatch(c, s)
      else if m.inputType == KeyOnRelease then forall c :: c in m.codes ==> KeyReleased(s, AsKey(c)) && ModifiersMatch(c, s)
      else if m.inputType == KeyOnHold then forall c :: c in m.codes ==> s.curKeys[AsKey(c)] && ModifiersMatch(c, s)
      else true
    case Mouse =>
      if m.inputType == MouseOnPress then forall c :: c in m.codes ==> ButtonPressed(s, AsKey(c)) && ModifiersMatch(c, s)
      else if m.inputType == MouseOnRelease then forall c :: c in m.codes ==> ButtonReleased(s, AsKey(c)) && ModifiersMatch(c, s)
      else if m.inputType == MouseOnHold then forall c :: c in m.codes ==> s.curMouse[AsKey(c)] && ModifiersMatch(c, s)
      else if m.inputType == MouseMoveX then s.deltaX != 0
      else if m.inputType == MouseMoveY then s.deltaY != 0
      else if m.inputType == MouseScroll then s.scrollDelta != 0.0
      else true
  }

  /** PythonIOMapping::CheckIORequirements: scans the codes and stops at
      the first that is not in the required state. */
  method CheckIORequirements(m: PythonIOMapping, io: IOState) returns (ok: bool)
    requires io.Valid() && |m.codes| > 0 && QueriesInRange(m)
    ensures ok <==> Due(m, io.View())
  {
    ghost var s := io.View();
    var edge := (m.source == Keyboard && m.inputType in {KeyOnPress, KeyOnRelease, KeyOnHold})
             || (m.source == Mouse && m.inputType in {MouseOnPress, MouseOnRelease, MouseOnHold});
    if !edge {
      if m.source == Mouse && m.inputType == MouseMoveX {
        var d := io.GetMouseDelta();
        return d.0 != 0;
      } else if m.source == Mouse && m.inputType == MouseMoveY {
        var d := io.GetMouseDelta();
        return d.1 != 0;
      } else if m.source == Mouse && m.inputType == MouseScroll {
        return io.scrollDelta != 0.0;
      }
      return true;
    }
    var i := 0;
    while i < |m.codes|
      invariant 0 <= i <= |m.codes|
      invariant forall j :: 0 <= j < i ==> Holds(m, m.codes[j], s)
    {
      var c := m.codes[i];
      var state: bool;
      if m.source == Keyboard {
        state := if m.inputType == KeyOnPress then io.WasKeyPressedLastFrame(AsKey(c))
                 else if m.inputType == KeyOnRelease then io.WasKeyReleasedLastFrame(AsKey(c))
                 else io.IsKeyHeld(AsKey(c));
      } else {
        state := if m.inputType == MouseOnPress then io.WasMouseButtonPressedLastFrame(AsKey(c))
                 else if m.inputType == MouseOnRelease then io.WasMouseButtonReleasedLastFrame(AsKey(c))
                 else io.IsMouseButtonHeld(AsKey(c));
      }
      if !state || !CheckModifierRequirements(c, io) {
        assert !Holds(m, c, s);
        return false;
      }
      i := i + 1;
    }
    return true;
  }

  /** One code of an edge or hold mapping is in the required state. */
  predicate Holds(m: PythonIOMapping, c: nat, s: Snapshot)
    requires WellSized(s) && QueriesInRange(m) && c in m.codes
  {
    if m.source == Keyboard then
      (if m.inputType == KeyOnPress then KeyPressed(s, AsKey(c))
       else if m.inputType == KeyOnRelease then KeyReleased(s, AsKey(c))
       else if m.inputType == KeyOnHold then s.curKeys[AsKey(c)] else true)
      && ModifiersMatch(c, s)
    else
      (if m.inputType == MouseOnPress then ButtonPressed(s, AsKey(c))
       else if m.inputType == MouseOnRelease then ButtonReleased(s, AsKey(c))
       else if m.inputType == MouseOnHold then s.curMouse[AsKey(c)] else true)
      && ModifiersMatch(c, s)
  }

  /** IOMap with the bindings of PyIOMap: the input state it feeds and the
      mappings by key. */
  class IOMap {
    const io: IOState
    var mappings: map<nat, PythonIOMapping>

    ghost predicate Valid()
      reads this, io
    {
      io.Valid()
    }

    constructor()
      ensures Valid() && fresh(io) && fresh(io.curKeys) && fresh(io.prevKeys)
      ensures fresh(io.curMouse) && fresh(io.prevMouse)
      ensures mappings == map[]
    {
      io := new IOState();
      mappings := map[];
    }

    /** GetUserInput: hands the event to the input state. */
    method GetUserInput(e: Event)
      requires Valid()
      modifies io, io.curKeys, io.curMouse, io.prevMouse
      ensures Valid() && io.View() == EventStep(old(io.View()), e) && io.SameBuffers()
    {
      io.OnIrrEvent(e);
    }

    method AddIOMapping(key: nat, m: PythonIOMapping)
      modifies this
      ensures mappings == old(mappings)[key := m]
    {
      mappings := mappings[key := m];
    }

    method ClearMappings()
      modifies this
      ensures mappings == map[]
    {
      mappings := map[];
    }

    /** Binds a non-zero code under MapKey(code, type); code 0 (nothing
        but modifiers, or nothing recognised) binds nothing. */
    method BindIO(source: InputSource, inputType: int, code: nat, action: nat)
      modifies this
      ensures mappings == if code > 0 then old(mappings)[MapKey(code, inputType) := PythonIOMapping(source, [code], inputType, action)]
                          else old(mappings)
    {
      if code > 0 {
        AddIOMapping(MapKey(code, inputType), PythonIOMapping(source, [code], inputType, action));
      }
    }

    method BindKey(table: KeyTable, key: string, inputType: string, action: nat) returns (ghost code: nat)
      modifies this
      ensures IsInputCodeOf(table, Tokens(key, "+"), code) &&
              mappings == if code > 0 then old(mappings)[MapKey(code, GetInputType(Keyboard, inputType))
                                  := PythonIOMapping(Keyboard, [code], GetInputType(Keyboard, inputType), action)]
                                  else old(mappings)
    {
      var tl := ParseTokens(key, "+");
      assert tl == Tokens(key, "+");
      var c := GetInputCode(table, tl);
      code := c;
      BindIO(Keyboard, GetInputType(Keyboard, inputType), c, action);
    }

    method BindMouseButton(table: KeyTable, button: string, inputState: string, action: nat) returns (ghost code: nat)
      modifies this
      ensures IsInputCodeOf(table, Tokens(button, "+"), code) &&
              mappings == if code > 0 then old(mappings)[MapKey(code, GetInputType(Mouse, inputState))
                                  := PythonIOMapping(Mouse, [code], GetInputType(Mouse, inputState), action)]
                                  else old(mappings)
    {
      var tl := ParseTokens(button, "+");
      assert tl == Tokens(button, "+");
      var c := GetInputCode(table, tl);
      code := c;
      BindIO(Mouse, GetInputType(Mouse, inputState), c, action);
    }

    /** The action name is parsed both as the code and as the type. */
    method BindMouseAction(table: KeyTable, action: string, act: nat) returns (ghost code: nat)
      modifies this
      ensures IsInputCodeOf(table, Tokens(action, "+"), code) &&
              mappings == if code > 0 then old(mappings)[MapKey(code, GetInputType(Mouse, action))
                                  := PythonIOMapping(Mouse, [code], GetInputType(Mouse, action), act)]
                                  else old(mappings)
    {
      var tl := ParseTokens(action, "+");
      assert tl == Tokens(action, "+");
      var c := GetInputCode(table, tl);
      code := c;
      BindIO(Mouse, GetInputType(Mouse, action), c, act);
    }

    /** Returns the keys of the mappings whose actions are due (the Python
        calls themselves are not modelled), then prepares the input state
        for the next frame. */
    method ActOnUserInput() returns (fired: set<nat>)
      requires Valid()
      requires forall k :: k in mappings ==> |mappings[k].codes| > 0 && QueriesInRange(mappings[k])
      modifies io, io.curKeys, io.prevKeys, io.prevMouse
      ensures Valid() && io.View() == NextFrame(old(io.View()))
      ensures fired == set k | k in old(mappings) && Due(old(mappings)[k], old(io.View()))
    {
      var pending := mappings.Keys;
      fired := {};
      while pending != {}
        invariant io.Valid() && io.View() == old(io.View()) && io.SameBuffers()
        invariant pending <= mappings.Keys
        invariant fired == set k | k in mappings && k !in pending && Due(mappings[k], io.View())
        decreases |pending|
      {
        var k :| k in pending;
        var due := CheckIORequirements(mappings[k], io);
        if due {
          fired := fired + {k};
        }
        pending := pending - {k};
      }
      io.PrepareForNextSimFrame();
    }
  }

  lemma OnPressType()
    ensures GetInputType(Keyboard, "onpress") == KeyOnPress
  {
    assert Upper("onpress") == "ONPRESS";
  }

  lemma SplitCA()
    ensures Split("c+a", "+") == ["c", "a"]
  {
    assert Split("a", "+") == ["a"] by {
      assert "a"[1..] == [] && "a"[0] == 'a' && 'a' !in "+";
      var rest := Split("a"[1..], "+");
      assert rest == [""];
      assert Split("a", "+") == [['a'] + rest[0]] + rest[1..];
      assert ['a'] + rest[0] == "a" && rest[1..] == [];
    }
    assert Split("+a", "+") == ["", "a"] by {
      assert "+a"[1..] == "a" && "+a"[0] in "+";
    }
    var input := "c+a";
    assert input[1..] == "+a" && input[0] == 'c' && 'c' !in "+";
    var rest := Split("+a", "+");
    assert Split(input, "+") == [['c'] + rest[0]] + rest[1..];
    assert ['c'] + rest[0] == "c" && rest[1..] == ["a"];
  }

  /** A key table naming the control key C and a key A. */
  function TableCA(a: nat): (t: KeyTable)
    requires 0 < a < KeyCount
    ensures t == map["C" := KeyControl, "A" := a]
  {
    map["C" := KeyControl, "A" := a]
  }

  lemma TokensCA()
    ensures Tokens("c+a", "+") == ["C", "A"]
  {
    SplitCA();
    assert Upper("c") == "C" && Upper("a") == "A";
  }

  lemma EffectsCA(a: nat)
    requires 0 < a < KeyCount && a != KeyShift && a != KeyControl
    ensures var table: KeyTable := map["C" := KeyControl, "A" := a];
            TokenEffect(table, "C") == CtrlMod && TokenEffect(table, "A") == KeyPart(a)
  {
    assert Upper("C") == "C" && Upper("A") == "A";
  }

  /** The code of "c+a" under that table. */
  lemma CtrlACode(a: nat)
    requires 0 < a < KeyCount && a != KeyShift && a != KeyControl
    ensures var table: KeyTable := map["C" := KeyControl, "A" := a];
            forall code: nat :: IsInputCodeOf(table, Tokens("c+a", "+"), code) ==>
              code != 0 && AsKey(code) == a && HasCtrl(code) && !HasShift(code)
  {
    var table: KeyTable := map["C" := KeyControl, "A" := a];
    TokensCA();
    EffectsCA(a);
    var tl := ["C", "A"];
    forall code: nat | IsInputCodeOf(table, tl, code)
      ensures code != 0 && AsKey(code) == a && HasCtrl(code) && !HasShift(code)
    {
      CtrlACodeOf(a, table, tl, code);
    }
  }

  /** One code of a control token followed by a key token. */
  lemma CtrlACodeOf(a: nat, table: KeyTable, tl: seq<string>, code: nat)
    requires 0 < a && |tl| == 2
    requires TokenEffect(table, tl[0]) == CtrlMod && TokenEffect(table, tl[1]) == KeyPart(a)
    requires IsInputCodeOf(table, tl, code)
    ensures code != 0 && AsKey(code) == a && HasCtrl(code) && !HasShift(code)
  {
    assert Keyed(table, tl[1]) && !Keyed(table, tl[0]);
    var i :| 0 <= i < |tl| && Keyed(table, tl[i]) && AsKey(code) == TokenEffect(table, tl[i]).part
             && forall j :: 0 <= j < i ==> !Keyed(table, tl[j]);
    assert forall j :: 0 <= j < |tl| ==> TokenEffect(table, tl[j]) != ShiftMod;
  }

  /** Binding "c+a" on press, with a table naming the control key C and
      a key A, adds one mapping whose key holds the A key in its low byte,
      the on-press type above it and only the control flag. */
  method BindCtrlA(a: nat) returns (keys: set<nat>)
    requires 0 < a < KeyCount && a != KeyShift && a != KeyControl
    ensures |keys| == 1
    ensures forall k :: k in keys ==> k % 0x100 == a && (k / 0x100) % 0x100 == KeyOnPress && HasCtrl(k) && !HasShift(k)
  {
    var table := TableCA(a);
    var m := new IOMap();
    ghost var code := m.BindKey(table, "c+a", "onpress", 7);
    keys := m.mappings.Keys;
    CtrlAKeys(a, code, keys);
  }

  lemma CtrlAKeys(a: nat, code: nat, keys: set<nat>)
    requires 0 < a < KeyCount && a != KeyShift && a != KeyControl
    requires IsInputCodeOf(map["C" := KeyControl, "A" := a], Tokens("c+a", "+"), code)
    requires keys == if code > 0 then {MapKey(code, GetInputType(Keyboard, "onpress"))} else {}
    ensures |keys| == 1
    ensures forall k :: k in keys ==> k % 0x100 == a && (k / 0x100) % 0x100 == KeyOnPress && HasCtrl(k) && !HasShift(k)
  {
    CtrlACode(a);
    OnPressType();
    MapKeyLayout(code, KeyOnPress);
  }
}
