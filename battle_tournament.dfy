/* The bookkeeping of the NERO battle tournament runner: reading a
   battle's final score out of its log, turning team file names into
   tags, pairing teams for a bracket, padding a bracket to a power of two,
   and the round-robin schedule and scoreboard. Running the battles
   (subprocesses, Condor jobs, the worker processes and their queues) is
   outside this model: the queue of results is a parameter. */
module BattleTournament {
  import opened Wrappers
  import Decimals

  /* ---------------- splitting a log into lines ---------------- */

  predicate IsBreak(c: char)
  {
    c == '\n' || c == '\r'
  }

  /** The length of the first line of s: the index of its first line
      break, or |s| if it has none. */
  function LineEnd(s: string): (k: nat)
    ensures k <= |s|
  {
    if s == [] || IsBreak(s[0]) then 0 else 1 + LineEnd(s[1..])
  }

  lemma {:induction false} LineEndIsFirstBreak(s: string)
    ensures forall i :: 0 <= i < LineEnd(s) ==> !IsBreak(s[i])
    ensures LineEnd(s) < |s| ==> IsBreak(s[LineEnd(s)])
    decreases |s|
  {
    if s != [] && !IsBreak(s[0]) {
      LineEndIsFirstBreak(s[1..]);
    }
  }

  /** str.splitlines() on a byte string: lines end at "\n", "\r" or
      "\r\n", the breaks are dropped, and a final break does not start an
      empty line. */
  function SplitLines(s: string): (r: seq<string>)
    ensures r == [] <==> s == []
    ensures |r| <= |s|
    decreases |s|
  {
    if s == [] then []
    else
      var k := LineEnd(s);
      if k == |s| then [s]
      else
        var skip := if s[k] == '\r' && k + 1 < |s| && s[k + 1] == '\n' then 2 else 1;
        [s[..k]] + SplitLines(s[k + skip..])
  }

  predicate NoBreaks(line: string)
  {
    forall i :: 0 <= i < |line| ==> !IsBreak(line[i])
  }

  /** No line holds a line break. */
  lemma {:induction false} LinesHaveNoBreaks(s: string)
    ensures forall j :: 0 <= j < |SplitLines(s)| ==> NoBreaks(SplitLines(s)[j])
    decreases |s|
  {
    if s != [] {
      LineEndIsFirstBreak(s);
      var k := LineEnd(s);
      if k < |s| {
        var skip := if s[k] == '\r' && k + 1 < |s| && s[k + 1] == '\n' then 2 else 1;
        LinesHaveNoBreaks(s[k + skip..]);
        assert NoBreaks(s[..k]);
      }
    }
  }

  /** The lines written one after the other, each ended by "\n". */
  function JoinLines(lines: seq<string>): string
  {
    if lines == [] then "" else lines[0] + "\n" + JoinLines(lines[1..])
  }

  lemma LineEndOfLine(line: string, rest: string)
    requires NoBreaks(line)
    ensures LineEnd(line + "\n" + rest) == |line|
    decreases |line|
  {
    if line != [] {
      assert (line + "\n" + rest)[1..] == line[1..] + "\n" + rest;
      LineEndOfLine(line[1..], rest);
    }
  }

  /** Splitting lines written with "\n" gives them back. */
  lemma {:induction false} SplitJoinedLines(lines: seq<string>)
    requires forall j :: 0 <= j < |lines| ==> NoBreaks(lines[j])
    ensures SplitLines(JoinLines(lines)) == lines
    decreases |lines|
  {
    if lines != [] {
      var rest := JoinLines(lines[1..]);
      var s := lines[0] + "\n" + rest;
      LineEndOfLine(lines[0], rest);
      var k := |lines[0]|;
      assert s[k] == '\n';
      assert s[..k] == lines[0];
      assert s[k + 1..] == rest;
      SplitJoinedLines(lines[1..]);
      assert SplitLines(s) == [lines[0]] + lines[1..];
    }
  }

  /* ---------------- the score line ---------------- */

  const Prefix: string := "damages sustained by: blue: "
  const RedTag: string := " red: "

  predicate IsDigit(c: char)
  {
    '0' <= c <= '9'
  }

  /** The number of decimal digits s starts with. */
  function DigitRun(s: string): (k: nat)
    ensures k <= |s|
  {
    if s != [] && IsDigit(s[0]) then 1 + DigitRun(s[1..]) else 0
  }

  lemma {:induction false} DigitRunIsMaximal(s: string)
    ensures Decimals.AllDigits(s[..DigitRun(s)])
    ensures DigitRun(s) < |s| ==> !IsDigit(s[DigitRun(s)])
    decreases |s|
  {
    if s != [] && IsDigit(s[0]) {
      DigitRunIsMaximal(s[1..]);
      assert s[..DigitRun(s)] == [s[0]] + s[1..][..DigitRun(s[1..])];
    }
  }

  lemma {:induction false} DigitRunOfNumber(d: string, tail: string)
    requires Decimals.AllDigits(d)
    requires tail == [] || !IsDigit(tail[0])
    ensures DigitRun(d + tail) == |d|
    decreases |d|
  {
    if d == [] {
      assert d + tail == tail;
    } else {
      assert (d + tail)[1..] == d[1..] + tail;
      DigitRunOfNumber(d[1..], tail);
    }
  }

  /** The pattern `damages sustained by: blue: (\d+) red: (\d+)$`
      anchored at the start of t, on a line without breaks: the first
      group can only be the whole run of digits after the prefix, since a
      space must follow it, and the second group runs to the end of the
      line. The result holds the two groups read by int(). */
  function MatchAt(t: string): (r: Option<(nat, nat)>)
    ensures r.Some? ==> Prefix <= t && |Prefix| < |t|
  {
    if Prefix <= t then
      var rest := t[|Prefix|..];
      var k := DigitRun(rest);
      if 0 < k && RedTag <= rest[k..] then
        var blue := rest[..k];
        var red := rest[k + |RedTag|..];
        if red != [] && Decimals.AllDigits(red) then
          DigitRunIsMaximal(rest);
          Some((Decimals.ValueOf(blue), Decimals.ValueOf(red)))
        else None
      else None
    else None
  }

  /** re.search with the anchored matcher `at`: the match at the
      leftmost position from p on. */
  function SearchFrom(at: string -> Option<(nat, nat)>, line: string, p: nat): Option<(nat, nat)>
    decreases |line| - p
  {
    if p > |line| then None
    else if at(line[p..]).Some? then at(line[p..])
    else SearchFrom(at, line, p + 1)
  }

  function Search(line: string): (r: Option<(nat, nat)>)
    ensures r.Some? ==> |Prefix| < |line|
  {
    SearchNeedsRoom(line, 0);
    SearchFrom(MatchAt, line, 0)
  }

  /** A match from p on needs more text than the pattern's prefix after p. */
  lemma {:induction false} SearchNeedsRoom(line: string, p: nat)
    ensures SearchFrom(MatchAt, line, p).Some? ==> |Prefix| + p < |line|
    decreases |line| - p
  {
    if p <= |line| && MatchAt(line[p..]).None? {
      SearchNeedsRoom(line, p + 1);
    }
  }

  /** Search finds the leftmost position where the pattern matches, and
      finds nothing only where it matches nowhere. */
  lemma {:induction false} SearchIsLeftmost(at: string -> Option<(nat, nat)>, line: string, p: nat)
    requires p <= |line| + 1
    ensures SearchFrom(at, line, p).None? <==> forall q :: p <= q <= |line| ==> at(line[q..]).None?
    ensures SearchFrom(at, line, p).Some? ==>
      exists q :: p <= q <= |line| && at(line[q..]) == SearchFrom(at, line, p)
        && forall o :: p <= o < q ==> at(line[o..]).None?
    decreases |line| - p
  {
    if p <= |line| && at(line[p..]).None? {
      SearchIsLeftmost(at, line, p + 1);
      if SearchFrom(at, line, p).Some? {
        var q :| p + 1 <= q <= |line| && at(line[q..]) == SearchFrom(at, line, p + 1)
          && forall o :: p + 1 <= o < q ==> at(line[o..]).None?;
        assert forall o :: p <= o < q ==> at(line[o..]).None?;
      }
    }
  }

  /** The line the battle prints about its damages. */
  function ScoreLine(blue: nat, red: nat): string
  {
    Prefix + Decimals.Decimal(blue) + RedTag + Decimals.Decimal(red)
  }

  /** The score line is read back as its two numbers. */
  lemma ScoreLineParses(blue: nat, red: nat)
    ensures Search(ScoreLine(blue, red)) == Some((blue, red))
  {
    var b := Decimals.Decimal(blue);
    var r := Decimals.Decimal(red);
    var line := ScoreLine(blue, red);
    assert line[0..] == line;
    assert line == Prefix + (b + (RedTag + r));
    assert Prefix <= line;
    var rest := line[|Prefix|..];
    assert rest == b + (RedTag + r);
    DigitRunOfNumber(b, RedTag + r);
    assert rest[..|b|] == b;
    assert rest[|b|..] == RedTag + r;
    assert rest[|b| + |RedTag|..] == r;
    Decimals.DecimalRoundTrip(blue);
    Decimals.DecimalRoundTrip(red);
  }

  /** The swapped scores of the matching lines, in order: a team scores
      the damage it dealt, which is what the log reports for the other
      team. */
  function Swapped(lines: seq<string>): seq<(int, int)>
  {
    if lines == [] then []
    else
      var m := Search(lines[|lines| - 1]);
      Swapped(lines[..|lines| - 1]) + (if m.Some? then [(m.value.1 as int, m.value.0 as int)] else [])
  }

  /** The last of the scores collected after the (-1, -1) placeholder. */
  function Final(lines: seq<string>): (int, int)
  {
    var scores := [(-1, -1)] + Swapped(lines);
    scores[|scores| - 1]
  }

  /** parse_scores: the (red, blue) damages of the last score line of the
      log, or (-1, -1) when it has none. */
  method ParseScores(stdout: string) returns (score: (int, int))
    ensures score == Final(SplitLines(stdout))
  {
    var lines := SplitLines(stdout);
    var scores := [(-1, -1)];
    var i := 0;
    while i < |lines|
      invariant 0 <= i <= |lines|
      invariant scores == [(-1, -1)] + Swapped(lines[..i])
    {
      var m := Search(lines[i]);
      if m.Some? {
        scores := scores + [(m.value.1 as int, m.value.0 as int)];
      }
      assert lines[..i + 1][..i] == lines[..i];
      i := i + 1;
    }
    assert lines[..i] == lines;
    score := scores[|scores| - 1];
  }

  /** The final score is (-1, -1) exactly when no line matches; otherwise
      it is the swapped match of the last line that matches. */
  lemma {:induction false} FinalIsLastMatch(lines: seq<string>)
    ensures Final(lines) == (-1, -1) <==> forall i :: 0 <= i < |lines| ==> Search(lines[i]).None?
    ensures Final(lines) != (-1, -1) ==>
      exists i :: 0 <= i < |lines| && Search(lines[i]).Some?
        && Final(lines) == (Search(lines[i]).value.1 as int, Search(lines[i]).value.0 as int)
        && forall j :: i < j < |lines| ==> Search(lines[j]).None?
    decreases |lines|
  {
    if lines != [] {
      var init := lines[..|lines| - 1];
      var m := Search(lines[|lines| - 1]);
      FinalIsLastMatch(init);
      if m.None? {
        assert Final(lines) == Final(init);
        assert forall i :: 0 <= i < |init| ==> init[i] == lines[i];
        if Final(init) != (-1, -1) {
          var i :| 0 <= i < |init| && Search(init[i]).Some?
            && Final(init) == (Search(init[i]).value.1 as int, Search(init[i]).value.0 as int)
            && forall j :: i < j < |init| ==> Search(init[j]).None?;
          assert forall j :: i < j < |lines| ==> Search(lines[j]).None?;
        }
      } else {
        assert Final(lines) == (m.value.1 as int, m.value.0 as int);
      }
    }
  }

  lemma ScoreLineHasNoBreaks(blue: nat, red: nat)
    ensures NoBreaks(ScoreLine(blue, red))
  {
    var b := Decimals.Decimal(blue);
    var r := Decimals.Decimal(red);
    assert NoBreaks(Prefix) && NoBreaks(RedTag);
    var line := ScoreLine(blue, red);
    forall i | 0 <= i < |line|
      ensures !IsBreak(line[i])
    {
      if i < |Prefix| {
        assert line[i] == Prefix[i];
      } else if i < |Prefix| + |b| {
        assert line[i] == b[i - |Prefix|];
      } else if i < |Prefix| + |b| + |RedTag| {
        assert line[i] == RedTag[i - |Prefix| - |b|];
      } else {
        assert line[i] == r[i - |Prefix| - |b| - |RedTag|];
      }
    }
  }

  /** A log whose one line is a score line parses to that score, swapped:
      the dry run's log, blue 0 and red 1, scores (1, 0). */
  lemma OneScoreLog(blue: nat, red: nat)
    ensures Final(SplitLines(ScoreLine(blue, red))) == (red, blue)
  {
    var line := ScoreLine(blue, red);
    ScoreLineParses(blue, red);
    ScoreLineHasNoBreaks(blue, red);
    LinesOfOneLine(line);
    assert [line][..0] == [];
  }

  lemma LinesOfOneLine(line: string)
    requires line != [] && NoBreaks(line)
    ensures SplitLines(line) == [line]
  {
    LineEndIsFirstBreak(line);
  }

  /* ---------------- team tags ---------------- */

  /** The index of the last c in s, or -1. */
  function RFind(s: string, c: char): (r: int)
    ensures -1 <= r < |s|
    ensures r >= 0 ==> s[r] == c
  {
    if s == [] then -1
    else if s[|s| - 1] == c then |s| - 1
    else RFind(s[..|s| - 1], c)
  }

  lemma {:induction false} RFindIsLast(s: string, c: char)
    ensures forall i :: RFind(s, c) < i < |s| ==> s[i] != c
    decreases |s|
  {
    if s != [] && s[|s| - 1] != c {
      RFindIsLast(s[..|s| - 1], c);
    }
  }

  /** os.path.splitext(p)[0] on POSIX paths: the path without the text
      from its last dot, when that dot is in the last path component and
      is not one of the dots the component starts with. */
  function StripExtension(p: string): (r: string)
    ensures r <= p
    ensures |r| < |p| ==> p[|r|] == '.'
  {
    var sep := RFind(p, '/');
    var dot := RFind(p, '.');
    if dot > sep && exists i :: sep + 1 <= i < dot && p[i] != '.' then p[..dot] else p
  }

  /** A character \W does not match: an ASCII letter, digit or '_'. */
  predicate IsWord(c: char)
  {
    'a' <= c <= 'z' || 'A' <= c <= 'Z' || '0' <= c <= '9' || c == '_'
  }

  predicate AllWord(s: string)
  {
    forall i :: 0 <= i < |s| ==> IsWord(s[i])
  }

  /** s without its leading non-word characters. */
  function SkipNonWord(s: string): (t: string)
    ensures |t| <= |s|
  {
    if s != [] && !IsWord(s[0]) then SkipNonWord(s[1..]) else s
  }

  /** re.sub(r'\W+', '_', s): every maximal run of non-word characters
      becomes one '_'. */
  function Collapse(s: string): (r: string)
    ensures |r| <= |s|
    decreases |s|
  {
    if s == [] then []
    else if IsWord(s[0]) then [s[0]] + Collapse(s[1..])
    else "_" + Collapse(SkipNonWord(s[1..]))
  }

  /** fmt: a team file's name as a tag. */
  function Fmt(s: string): (r: string)
    ensures AllWord(r) && |r| <= |s|
  {
    CollapseIsWord(StripExtension(s));
    Collapse(StripExtension(s))
  }

  /** Only word characters come out of the substitution. */
  lemma {:induction false} CollapseIsWord(s: string)
    ensures AllWord(Collapse(s))
    decreases |s|
  {
    if s != [] {
      if IsWord(s[0]) {
        CollapseIsWord(s[1..]);
      } else {
        CollapseIsWord(SkipNonWord(s[1..]));
      }
    }
  }

  /** Text of word characters is left alone. */
  lemma {:induction false} CollapseKeepsWords(s: string)
    requires AllWord(s)
    ensures Collapse(s) == s
    decreases |s|
  {
    if s != [] {
      CollapseKeepsWords(s[1..]);
      assert [s[0]] + s[1..] == s;
    }
  }

  lemma {:induction false} SkipRun(run: string, rest: string)
    requires forall i :: 0 <= i < |run| ==> !IsWord(run[i])
    requires rest == [] || IsWord(rest[0])
    ensures SkipNonWord(run + rest) == rest
    decreases |run|
  {
    if run == [] {
      assert run + rest == rest;
    } else {
      assert (run + rest)[1..] == run[1..] + rest;
      SkipRun(run[1..], rest);
    }
  }

  lemma {:induction false} CollapseAfterWord(word: string, t: string)
    requires AllWord(word)
    ensures Collapse(word + t) == word + Collapse(t)
    decreases |word|
  {
    if word == [] {
      assert word + t == t;
    } else {
      assert (word + t)[0] == word[0];
      assert (word + t)[1..] == word[1..] + t;
      CollapseAfterWord(word[1..], t);
    }
  }

  lemma CollapseRunStart(run: string, rest: string)
    requires run != [] && forall i :: 0 <= i < |run| ==> !IsWord(run[i])
    requires rest == [] || IsWord(rest[0])
    ensures Collapse(run + rest) == "_" + Collapse(rest)
  {
    assert (run + rest)[0] == run[0];
    assert (run + rest)[1..] == run[1..] + rest;
    SkipRun(run[1..], rest);
  }

  /** A run of non-word characters between word text becomes one '_'. */
  lemma CollapseRun(word: string, run: string, rest: string)
    requires AllWord(word)
    requires run != [] && forall i :: 0 <= i < |run| ==> !IsWord(run[i])
    requires rest == [] || IsWord(rest[0])
    ensures Collapse(word + run + rest) == word + "_" + Collapse(rest)
  {
    assert word + run + rest == word + (run + rest);
    CollapseAfterWord(word, run + rest);
    CollapseRunStart(run, rest);
  }

  /** fmt yields only word characters and is idempotent on the tags it
      makes (a tag has no dot, so no extension either). */
  lemma FmtIsTag(s: string)
    ensures AllWord(Fmt(s))
    ensures Fmt(Fmt(s)) == Fmt(s)
  {
    var t := Fmt(s);
    CollapseIsWord(StripExtension(s));
    assert RFind(t, '.') == -1;
    assert StripExtension(t) == t;
    CollapseKeepsWords(t);
  }

  /** A team file in a directory gets the directory and name, joined by
      '_', without the extension. */
  lemma FmtOfTeamFile(dir: string, name: string, ext: string)
    requires dir != [] && name != [] && AllWord(dir) && AllWord(name) && AllWord(ext)
    ensures Fmt(dir + "/" + name + "." + ext) == dir + "_" + name
  {
    var p := dir + "/" + name + "." + ext;
    var dot := |dir| + 1 + |name|;
    RFindIsLast(p, '.');
    RFindIsLast(p, '/');
    assert p[dot] == '.';
    assert forall i :: dot < i < |p| ==> p[i] == ext[i - dot - 1];
    assert RFind(p, '.') == dot;
    assert p[|dir|] == '/';
    assert forall i :: |dir| < i < |p| ==> p[i] != '/' by {
      forall i | |dir| < i < |p|
        ensures p[i] != '/'
      {
        if i < dot {
          assert p[i] == name[i - |dir| - 1];
        }
      }
    }
    assert RFind(p, '/') == |dir|;
    assert p[|dir| + 1] == name[0] && name[0] != '.';
    assert p[..dot] == dir + "/" + name;
    assert StripExtension(p) == dir + "/" + name;
    CollapseRun(dir, "/", name);
    assert dir + "/" + name == dir + "/" + name;
    CollapseKeepsWords(name);
  }

  /* ---------------- brackets ---------------- */

  function Zip<T>(a: seq<T>, b: seq<T>): seq<(T, T)>
  {
    if a == [] || b == [] then [] else [(a[0], b[0])] + Zip(a[1..], b[1..])
  }

  function Reverse<T>(s: seq<T>): seq<T>
  {
    if s == [] then [] else Reverse(s[1..]) + [s[0]]
  }

  /** pairs: the first half zipped with the reversed second half. */
  function Pairs<T>(s: seq<T>): (r: seq<(T, T)>)
    ensures |r| == |s| / 2
  {
    var h := |s| / 2;
    ReverseLength(s[h..]);
    ZipAt(s[..h], Reverse(s[h..]));
    Zip(s[..h], Reverse(s[h..]))
  }

  lemma {:induction false} ZipAt<T>(a: seq<T>, b: seq<T>)
    ensures |Zip(a, b)| == if |a| < |b| then |a| else |b|
    ensures forall i :: 0 <= i < |Zip(a, b)| ==> Zip(a, b)[i] == (a[i], b[i])
    decreases |a|
  {
    if a != [] && b != [] {
      ZipAt(a[1..], b[1..]);
    }
  }

  lemma {:induction false} ReverseAt<T>(s: seq<T>)
    ensures |Reverse(s)| == |s|
    ensures forall i :: 0 <= i < |s| ==> Reverse(s)[i] == s[|s| - 1 - i]
    decreases |s|
  {
    if s != [] {
      ReverseAt(s[1..]);
    }
  }

  /** The i-th pair matches the i-th team with the i-th from the end. */
  lemma PairsMeetEnds<T>(s: seq<T>)
    ensures |Pairs(s)| == |s| / 2
    ensures forall i :: 0 <= i < |s| / 2 ==> Pairs(s)[i] == (s[i], s[|s| - 1 - i])
  {
    var h := |s| / 2;
    ReverseAt(s[h..]);
    ZipAt(s[..h], Reverse(s[h..]));
  }

  function Firsts<T>(ps: seq<(T, T)>): seq<T>
  {
    if ps == [] then [] else [ps[0].0] + Firsts(ps[1..])
  }

  function Seconds<T>(ps: seq<(T, T)>): seq<T>
  {
    if ps == [] then [] else [ps[0].1] + Seconds(ps[1..])
  }

  lemma {:induction false} FirstsSecondsOfZip<T>(a: seq<T>, b: seq<T>)
    requires |a| == |b|
    ensures Firsts(Zip(a, b)) == a && Seconds(Zip(a, b)) == b
    decreases |a|
  {
    if a != [] {
      FirstsSecondsOfZip(a[1..], b[1..]);
    }
  }

  lemma {:induction false} ReverseMultiset<T>(s: seq<T>)
    ensures multiset(Reverse(s)) == multiset(s)
    decreases |s|
  {
    if s != [] {
      ReverseMultiset(s[1..]);
      assert s == [s[0]] + s[1..];
    }
  }

  /** The pairs as a zip of two sequences of the same length: the first
      half and the reversed back, which leaves out the middle team of an
      odd number. */
  lemma PairsOfHalves<T>(s: seq<T>)
    ensures var h := |s| / 2;
      Pairs(s) == Zip(s[..h], Reverse(s[|s| - h..]))
  {
    var h := |s| / 2;
    var rev := Reverse(s[h..]);
    var back := s[|s| - h..];
    ReverseLength(s[h..]);
    ReverseLength(back);
    forall i | 0 <= i < h
      ensures rev[i] == Reverse(back)[i]
    {
      ReverseAt(s[h..]);
      ReverseAt(back);
    }
    ZipPrefix(s[..h], rev, Reverse(back));
  }

  /** Zip reads no further into b than the length of a. */
  lemma {:induction false} ZipPrefix<T>(a: seq<T>, b: seq<T>, c: seq<T>)
    requires |a| <= |b| && |a| <= |c|
    requires forall i :: 0 <= i < |a| ==> b[i] == c[i]
    ensures Zip(a, b) == Zip(a, c)
    decreases |a|
  {
    if a != [] {
      ZipPrefix(a[1..], b[1..], c[1..]);
    }
  }

  /** The first teams of the pairs are the front half, the second teams
      the back half reversed. */
  lemma PairsSides<T>(s: seq<T>)
    ensures var h := |s| / 2;
      Firsts(Pairs(s)) == s[..h] && Seconds(Pairs(s)) == Reverse(s[|s| - h..])
  {
    var h := |s| / 2;
    PairsOfHalves(s);
    ReverseLength(s[|s| - h..]);
    FirstsSecondsOfZip(s[..h], Reverse(s[|s| - h..]));
  }

  /** The front half, the back half and the middle team of an odd number
      make up the whole. */
  lemma HalvesCover<T>(s: seq<T>)
    ensures var h := |s| / 2;
      multiset(s) == multiset(s[..h]) + multiset(s[|s| - h..]) + (if |s| % 2 == 1 then multiset{s[h]} else multiset{})
  {
    var h := |s| / 2;
    if |s| % 2 == 1 {
      assert s == s[..h] + [s[h]] + s[|s| - h..];
    } else {
      assert s == s[..h] + s[|s| - h..];
    }
  }

  /** Every team plays in exactly one pair, except the middle team of an
      odd number, which sits out. */
  lemma PairsCoverTeams<T>(s: seq<T>)
    ensures multiset(Firsts(Pairs(s))) + multiset(Seconds(Pairs(s))) + (if |s| % 2 == 1 then multiset{s[|s| / 2]} else multiset{})
      == multiset(s)
  {
    PairsSides(s);
    HalvesCover(s);
    ReverseMultiset(s[|s| - |s| / 2..]);
  }

  lemma {:induction false} ReverseLength<T>(s: seq<T>)
    ensures |Reverse(s)| == |s|
    decreases |s|
  {
    if s != [] {
      ReverseLength(s[1..]);
    }
  }

  function Pow2(k: nat): (p: nat)
    ensures p >= 1
  {
    if k == 0 then 1 else 2 * Pow2(k - 1)
  }

  /** The least k with 2^k >= n: ceil(log2 n) computed exactly, where the
      source takes math.log in floating point. */
  function CeilLog2(n: nat): nat
    requires n >= 1
  {
    if n == 1 then 0 else 1 + CeilLog2((n + 1) / 2)
  }

  lemma {:induction false} CeilLog2IsLeast(n: nat)
    requires n >= 1
    ensures Pow2(CeilLog2(n)) >= n
    ensures CeilLog2(n) > 0 ==> Pow2(CeilLog2(n) - 1) < n
    decreases n
  {
    if n > 1 {
      CeilLog2IsLeast((n + 1) / 2);
    }
  }

  function Nones<T>(n: nat): (r: seq<Option<T>>)
    ensures |r| == n
  {
    if n == 0 then [] else [None] + Nones(n - 1)
  }

  /** pad_to_power_of_2: enough Nones to make the length a power of two;
      an empty bracket makes math.log raise ValueError. */
  function PadToPowerOf2<T>(s: seq<Option<T>>): (r: Result<seq<Option<T>>, string>)
    ensures r.Err? <==> s == []
    ensures r.Ok? ==> s <= r.value
  {
    if s == [] then Err("ValueError")
    else
      CeilLog2IsLeast(|s|);
      Ok(s + Nones(Pow2(CeilLog2(|s|)) - |s|))
  }

  /** The padded bracket keeps the teams in front, adds only Nones, and
      has the least power-of-two length that holds them all. */
  lemma PaddedIsLeastPowerOf2<T>(s: seq<Option<T>>)
    ensures PadToPowerOf2(s).Err? <==> s == []
    ensures PadToPowerOf2(s).Ok? ==>
      var r := PadToPowerOf2(s).value;
      (exists k: nat :: |r| == Pow2(k) && (k > 0 ==> Pow2(k - 1) < |s|))
      && r[..|s|] == s && forall i :: |s| <= i < |r| ==> r[i].None?
  {
    if s != [] {
      var k := CeilLog2(|s|);
      CeilLog2IsLeast(|s|);
      var r := PadToPowerOf2(s).value;
      assert |r| == Pow2(k);
      assert r[..|s|] == s;
      NonesAreNone<T>(Pow2(k) - |s|);
    }
  }

  lemma {:induction false} NonesAreNone<T>(n: nat)
    ensures forall i :: 0 <= i < n ==> Nones<T>(n)[i].None?
  {
    if n > 0 {
      NonesAreNone<T>(n - 1);
      assert forall i :: 1 <= i < n ==> Nones<T>(n)[i] == Nones<T>(n - 1)[i - 1];
    }
  }

  /** A bracket whose size is already a power of two is not padded. */
  lemma PowerOf2NotPadded<T>(s: seq<Option<T>>, k: nat)
    requires |s| == Pow2(k)
    ensures PadToPowerOf2(s) == Ok(s)
  {
    CeilLog2IsLeast(|s|);
    var c := CeilLog2(|s|);
    if c < k {
      Pow2Grows(c, k - 1);
    } else if c > k {
      Pow2Grows(k, c - 1);
    }
    assert Pow2(c) == |s|;
    assert s + Nones<T>(0) == s;
  }

  lemma {:induction false} Pow2Grows(a: nat, b: nat)
    requires a <= b
    ensures Pow2(a) <= Pow2(b)
    decreases b - a
  {
    if a < b {
      Pow2Grows(a, b - 1);
    }
  }

  /* ---------------- round robin ---------------- */

  /** One battle request: the two teams and the duration. */
  datatype Battle = Battle(team1: string, team2: string, duration: int)

  /** range(rounds) copies of the battle. */
  function Repeat(b: Battle, rounds: int): (r: seq<Battle>)
    ensures |r| == if rounds < 0 then 0 else rounds
    ensures forall i :: 0 <= i < |r| ==> r[i] == b
    decreases rounds
  {
    if rounds <= 0 then [] else [b] + Repeat(b, rounds - 1)
  }

  /** The battles team1 starts against the teams of `others`, in order. */
  function Row(team1: string, others: seq<string>, rounds: int, duration: int): (r: seq<Battle>)
    ensures forall i :: 0 <= i < |r| ==>
      r[i].team1 == team1 != r[i].team2 && r[i].team2 in others && r[i].duration == duration
  {
    if others == [] then []
    else
      Row(team1, others[..|others| - 1], rounds, duration)
      + (if team1 != others[|others| - 1] then Repeat(Battle(team1, others[|others| - 1], duration), rounds) else [])
  }

  /** The whole schedule: each team's row against all teams. */
  function Schedule(starters: seq<string>, teams: seq<string>, rounds: int, duration: int): (r: seq<Battle>)
    ensures forall i :: 0 <= i < |r| ==>
      r[i].team1 in starters && r[i].team2 in teams && r[i].team1 != r[i].team2 && r[i].duration == duration
  {
    if starters == [] then []
    else Schedule(starters[..|starters| - 1], teams, rounds, duration) + Row(starters[|starters| - 1], teams, rounds, duration)
  }

  /** The innermost loop of round_robin: range(rounds) turns, each
      queueing the battle when the teams differ. */
  method EnqueueRounds(team1: string, team2: string, rounds: int, duration: int, queue: seq<Battle>, waiting: int)
    returns (queue': seq<Battle>, waiting': int)
    ensures queue' == queue + (if team1 != team2 then Repeat(Battle(team1, team2, duration), rounds) else [])
    ensures waiting' == waiting + |queue'| - |queue|
  {
    queue', waiting' := queue, waiting;
    var battle := Battle(team1, team2, duration);
    var k := 0;
    ghost var queued: nat := 0;
    while k < rounds
      invariant rounds < 0 ==> k == 0
      invariant rounds >= 0 ==> 0 <= k <= rounds
      invariant queued == if team1 != team2 then k else 0
      invariant queue' == queue + Repeat(battle, queued)
      invariant waiting' == waiting + queued
    {
      if team1 != team2 {
        QueueSnoc(queue, battle, queued);
        queue' := queue' + [battle];
        waiting' := waiting' + 1;
        queued := queued + 1;
      }
      k := k + 1;
    }
  }

  /** The two inner loops of round_robin for one team. */
  method EnqueueRow(team1: string, teams: seq<string>, rounds: int, duration: int, queue: seq<Battle>, waiting: int)
    returns (queue': seq<Battle>, waiting': int)
    ensures queue' == queue + Row(team1, teams, rounds, duration)
    ensures waiting' == waiting + |queue'| - |queue|
  {
    queue', waiting' := queue, waiting;
    var j := 0;
    while j < |teams|
      invariant 0 <= j <= |teams|
      invariant queue' == queue + Row(team1, teams[..j], rounds, duration)
      invariant waiting' == waiting + |queue'| - |queue|
    {
      queue', waiting' := EnqueueNext(team1, teams, j, rounds, duration, queue, queue', waiting');
      j := j + 1;
    }
    assert teams[..j] == teams;
  }

  /** One turn of the middle loop: the battles against teams[j]. */
  method EnqueueNext(team1: string, teams: seq<string>, j: nat, rounds: int, duration: int, base: seq<Battle>, queue: seq<Battle>, waiting: int)
    returns (queue': seq<Battle>, waiting': int)
    requires j < |teams| && queue == base + Row(team1, teams[..j], rounds, duration)
    ensures queue' == base + Row(team1, teams[..j + 1], rounds, duration)
    ensures waiting' == waiting + |queue'| - |queue|
  {
    RowSnoc(team1, teams, j, rounds, duration, base);
    queue', waiting' := EnqueueRounds(team1, teams[j], rounds, duration, queue, waiting);
  }

  lemma RowSnoc(team1: string, teams: seq<string>, j: nat, rounds: int, duration: int, base: seq<Battle>)
    requires j < |teams|
    ensures base + Row(team1, teams[..j + 1], rounds, duration)
      == base + Row(team1, teams[..j], rounds, duration) + (if team1 != teams[j] then Repeat(Battle(team1, teams[j], duration), rounds) else [])
  {
    assert teams[..j + 1][..j] == teams[..j];
  }

  lemma QueueSnoc(queue: seq<Battle>, b: Battle, k: nat)
    ensures queue + Repeat(b, k + 1) == queue + Repeat(b, k) + [b]
  {
    RepeatSnoc(b, k);
  }

  lemma {:induction false} RepeatSnoc(b: Battle, k: nat)
    ensures Repeat(b, k + 1) == Repeat(b, k) + [b]
    decreases k
  {
    if k > 0 {
      RepeatSnoc(b, k - 1);
    }
  }

  /** round_robin's scheduling: every ordered pair of different teams
      plays `rounds` times; waiting counts the battles queued. */
  method RoundRobinQueue(teams: seq<string>, rounds: int, duration: int) returns (queue: seq<Battle>, waiting: int)
    ensures queue == Schedule(teams, teams, rounds, duration)
    ensures waiting == |queue|
  {
    queue, waiting := [], 0;
    var i := 0;
    while i < |teams|
      invariant 0 <= i <= |teams|
      invariant queue == Schedule(teams[..i], teams, rounds, duration)
      invariant waiting == |queue|
    {
      queue, waiting := EnqueueRow(teams[i], teams, rounds, duration, queue, waiting);
      assert teams[..i + 1][..i] == teams[..i];
      i := i + 1;
    }
    assert teams[..i] == teams;
  }

  /** How many times t occurs in s. */
  function Count(s: seq<string>, t: string): nat
  {
    if s == [] then 0 else Count(s[..|s| - 1], t) + (if s[|s| - 1] == t then 1 else 0)
  }

  lemma {:induction false} RowLength(team1: string, others: seq<string>, rounds: nat, duration: int)
    ensures |Row(team1, others, rounds, duration)| == rounds * (|others| - Count(others, team1))
    decreases |others|
  {
    if others != [] {
      var init := others[..|others| - 1];
      RowLength(team1, init, rounds, duration);
      RowStep(team1, others, rounds, duration);
      Spread(rounds, |init| - Count(init, team1));
    }
  }

  lemma RowStep(team1: string, others: seq<string>, rounds: nat, duration: int)
    requires others != []
    ensures var init, last := others[..|others| - 1], others[|others| - 1];
      && |Row(team1, others, rounds, duration)| == |Row(team1, init, rounds, duration)| + (if team1 != last then rounds else 0)
      && |others| - Count(others, team1) == |init| - Count(init, team1) + (if team1 != last then 1 else 0)
  {
  }

  lemma Distribute(c: int, a: int, b: int)
    ensures (a + b) * c == a * c + b * c
  {
  }

  lemma Spread(a: int, b: int)
    ensures a * (b + 1) == a * b + a
  {
  }

  lemma Rotate(a: int, b: int, c: int)
    ensures a * (b * c) == b * a * c
  {
  }

  /** In a list of distinct teams each team occurs once. */
  lemma {:induction false} CountDistinct(s: seq<string>, i: nat)
    requires i < |s|
    requires forall a, b :: 0 <= a < b < |s| ==> s[a] != s[b]
    ensures Count(s, s[i]) == 1
    decreases |s|
  {
    var init := s[..|s| - 1];
    if i == |s| - 1 {
      CountAbsent(init, s[i]);
    } else {
      CountDistinct(init, i);
    }
  }

  lemma {:induction false} CountAbsent(s: seq<string>, t: string)
    requires forall a :: 0 <= a < |s| ==> s[a] != t
    ensures Count(s, t) == 0
    decreases |s|
  {
    if s != [] {
      CountAbsent(s[..|s| - 1], t);
    }
  }

  /** With n distinct teams, round_robin queues rounds * n * (n - 1)
      battles. */
  lemma {:induction false} ScheduleSize(starters: seq<string>, teams: seq<string>, rounds: nat, duration: int)
    requires forall a, b :: 0 <= a < b < |teams| ==> teams[a] != teams[b]
    requires forall a :: 0 <= a < |starters| ==> starters[a] in teams
    ensures |Schedule(starters, teams, rounds, duration)| == |starters| * (rounds * (|teams| - 1))
    decreases |starters|
  {
    if starters != [] {
      var init, last := starters[..|starters| - 1], starters[|starters| - 1];
      var c := rounds * (|teams| - 1);
      ScheduleSize(init, teams, rounds, duration);
      assert last in teams;
      var i :| 0 <= i < |teams| && teams[i] == last;
      CountDistinct(teams, i);
      RowLength(last, teams, rounds, duration);
      assert |Schedule(starters, teams, rounds, duration)| == |init| * c + c;
      Distribute(c, |init|, 1);
    }
  }

  lemma RoundRobinSize(teams: seq<string>, rounds: nat, duration: int)
    requires forall a, b :: 0 <= a < b < |teams| ==> teams[a] != teams[b]
    ensures |Schedule(teams, teams, rounds, duration)| == rounds * |teams| * (|teams| - 1)
  {
    ScheduleSize(teams, teams, rounds, duration);
    Rotate(|teams|, rounds, |teams| - 1);
  }

  /** One result off the score queue: each team with its score. */
  datatype Outcome = Outcome(team1: string, score1: int, team2: string, score2: int)

  /** What team t earned over the outcomes. */
  function Earned(outcomes: seq<Outcome>, t: string): int
  {
    if outcomes == [] then 0
    else
      var o := outcomes[|outcomes| - 1];
      Earned(outcomes[..|outcomes| - 1], t) + (if o.team1 == t then o.score1 else 0) + (if o.team2 == t then o.score2 else 0)
  }

  predicate Plays(outcomes: seq<Outcome>, t: string)
  {
    exists i :: 0 <= i < |outcomes| && (outcomes[i].team1 == t || outcomes[i].team2 == t)
  }

  /** A score added to the defaultdict(int) board. */
  function Add(board: map<string, int>, t: string, score: int): map<string, int>
  {
    board[t := (if t in board then board[t] else 0) + score]
  }

  /** The board holds exactly the teams that played, each with the sum
      of its scores. */
  ghost predicate Tallied(board: map<string, int>, outcomes: seq<Outcome>)
  {
    (forall t :: t in board <==> Plays(outcomes, t))
    && forall t :: t in board ==> board[t] == Earned(outcomes, t)
  }

  lemma TallyStep(board: map<string, int>, done: seq<Outcome>, o: Outcome)
    requires Tallied(board, done)
    ensures Tallied(Add(Add(board, o.team1, o.score1), o.team2, o.score2), done + [o])
  {
    var next := done + [o];
    assert next[..|next| - 1] == done;
    PlaysSnoc(done, o);
    forall t | !Plays(done, t)
      ensures Earned(done, t) == 0
    {
      EarnedOfAbsent(done, t);
    }
  }

  lemma TallyNext(board: map<string, int>, outcomes: seq<Outcome>, i: nat)
    requires i < |outcomes| && Tallied(board, outcomes[..i])
    ensures var o := outcomes[i];
      Tallied(Add(Add(board, o.team1, o.score1), o.team2, o.score2), outcomes[..i + 1])
  {
    TallyStep(board, outcomes[..i], outcomes[i]);
    assert outcomes[..i + 1] == outcomes[..i] + [outcomes[i]];
  }

  lemma {:induction false} EarnedOfAbsent(outcomes: seq<Outcome>, t: string)
    requires !Plays(outcomes, t)
    ensures Earned(outcomes, t) == 0
    decreases |outcomes|
  {
    if outcomes != [] {
      var init := outcomes[..|outcomes| - 1];
      assert !Plays(init, t) by {
        forall i | 0 <= i < |init|
          ensures init[i].team1 != t && init[i].team2 != t
        {
          assert init[i] == outcomes[i];
        }
      }
      assert outcomes[|outcomes| - 1].team1 != t && outcomes[|outcomes| - 1].team2 != t;
      EarnedOfAbsent(init, t);
    }
  }

  /** round_robin's tally over the `waiting` outcomes it collects: the
      board has a team exactly when the team played, with the sum of its
      scores. */
  method Tally(outcomes: seq<Outcome>) returns (board: map<string, int>)
    ensures Tallied(board, outcomes)
  {
    board := map[];
    var waiting := |outcomes|;
    while waiting > 0
      invariant 0 <= waiting <= |outcomes|
      invariant Tallied(board, outcomes[..|outcomes| - waiting])
    {
      var o := outcomes[|outcomes| - waiting];
      TallyNext(board, outcomes, |outcomes| - waiting);
      waiting := waiting - 1;
      board := Add(Add(board, o.team1, o.score1), o.team2, o.score2);
    }
    assert outcomes[..|outcomes|] == outcomes;
  }

  lemma PlaysSnoc(done: seq<Outcome>, o: Outcome)
    ensures forall t :: Plays(done + [o], t) <==> Plays(done, t) || o.team1 == t || o.team2 == t
  {
    var next := done + [o];
    forall t | Plays(done, t)
      ensures Plays(next, t)
    {
      var i :| 0 <= i < |done| && (done[i].team1 == t || done[i].team2 == t);
      assert next[i] == done[i];
    }
    forall t | o.team1 == t || o.team2 == t
      ensures Plays(next, t)
    {
      assert next[|done|] == o;
    }
    forall t | Plays(next, t)
      ensures Plays(done, t) || o.team1 == t || o.team2 == t
    {
      var i :| 0 <= i < |next| && (next[i].team1 == t || next[i].team2 == t);
      if i < |done| {
        assert next[i] == done[i];
      }
    }
  }
}
