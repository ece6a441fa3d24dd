/* The NERO mod's control logic: the splitter that separates a saved
   population file into its rtNEAT genomes, its q-learning agents and its
   statistics messages; and the handlers of the training window's commands
   and fitness weights, which set the environment's tunables. The XML
   parsing of messages, the file and AI-registry side effects of the other
   commands, and printing are outside this model: those commands come back
   as requests. */
module NeroModules {
  import opened Wrappers
  import NeroEnvironments
  import SceneObjects
  import HanoiAgent
  import Decimals

  /* ---------------- the population-file splitter ---------------- */

  /** The splitter's state variable. */
  datatype Phase = Idle | InRtneat | InQLearning | InStats

  /** The state variable and the three line accumulators. */
  datatype Split = Split(phase: Phase, rtneat: seq<string>, qlearning: seq<string>, stats: seq<string>)

  /** What the splitter appends to the q-learning output to end a chunk. */
  const Separator: string := "\n\n"

  const Start: Split := Split(Idle, [], [], [])

  predicate StartsWith(s: string, prefix: string)
  {
    prefix <= s
  }

  /** `sub in s`. */
  predicate Has(s: string, sub: string)
  {
    SceneObjects.Contains(s, sub)
  }

  /** `not s.strip()`: nothing but whitespace. */
  predicate Blank(s: string)
  {
    forall i :: 0 <= i < |s| ==> HanoiAgent.IsSpace(s[i])
  }

  /** The marker of a q-learning agent's first line. */
  predicate QLearningMarker(line: string)
  {
    Has(line, "OpenNero") && Has(line, "Approximator")
  }

  /** One line of the splitter. In IDLE the three markers are tested one
      after the other, each switching the state and taking the line. */
  function Step(st: Split, line: string): Split
  {
    match st.phase
    case Idle =>
      var a := if StartsWith(line, "genomestart") then st.(phase := InRtneat, rtneat := st.rtneat + [line]) else st;
      var b := if QLearningMarker(line) then a.(phase := InQLearning, qlearning := a.qlearning + [line]) else a;
      if Has(line, "<message>") then b.(phase := InStats, stats := b.stats + [line]) else b
    case InRtneat =>
      st.(rtneat := st.rtneat + [line], phase := if StartsWith(line, "genomeend") then Idle else InRtneat)
    case InQLearning =>
      if StartsWith(line, "genomestart") then
        st.(qlearning := st.qlearning + [Separator], rtneat := st.rtneat + [line], phase := InRtneat)
      else if Has(line, "<message>") then
        st.(qlearning := st.qlearning + [Separator], stats := st.stats + [line], phase := InStats)
      else if !Blank(line) then
        st.(qlearning := st.qlearning + [line])
      else
        st.(qlearning := st.qlearning + [Separator], phase := Idle)
    case InStats =>
      st.(stats := st.stats + [line], phase := if Has(line, "</message>") then Idle else InStats)
  }

  /** The splitter run over lines, from a given state. */
  function Run(st: Split, lines: seq<string>): Split
    decreases |lines|
  {
    if lines == [] then st else Run(Step(st, lines[0]), lines[1..])
  }

  /** ''.join(parts). */
  function Concat(parts: seq<string>): string
  {
    if parts == [] then "" else parts[0] + Concat(parts[1..])
  }

  lemma {:induction false} RunAppend(st: Split, a: seq<string>, b: seq<string>)
    ensures Run(st, a + b) == Run(Run(st, a), b)
    decreases |a|
  {
    if a == [] {
      assert a + b == b;
    } else {
      assert (a + b)[1..] == a[1..] + b;
      RunAppend(Step(st, a[0]), a[1..], b);
    }
  }

  /** _split_population: the joined rtNEAT, q-learning and statistics
      outputs of the splitter run over the file's lines from IDLE. */
  method SplitPopulation(lines: seq<string>) returns (rtneat: string, qlearning: string, stats: string)
    ensures rtneat == Concat(Run(Start, lines).rtneat)
    ensures qlearning == Concat(Run(Start, lines).qlearning)
    ensures stats == Concat(Run(Start, lines).stats)
  {
    var rt: seq<string> := [];
    var ql: seq<string> := [];
    var st: seq<string> := [];
    var phase := Idle;
    var i := 0;
    while i < |lines|
      invariant 0 <= i <= |lines|
      invariant Split(phase, rt, ql, st) == Run(Start, lines[..i])
    {
      var line := lines[i];
      ghost var before := Split(phase, rt, ql, st);
      if phase == Idle {
        if StartsWith(line, "genomestart") {
          phase := InRtneat;
          rt := rt + [line];
        }
        if Has(line, "OpenNero") && Has(line, "Approximator") {
          phase := InQLearning;
          ql := ql + [line];
        }
        if Has(line, "<message>") {
          phase := InStats;
          st := st + [line];
        }
      } else if phase == InRtneat {
        rt := rt + [line];
        if StartsWith(line, "genomeend") {
          phase := Idle;
        }
      } else if phase == InQLearning {
        if StartsWith(line, "genomestart") {
          ql := ql + [Separator];
          rt := rt + [line];
          phase := InRtneat;
        } else if Has(line, "<message>") {
          ql := ql + [Separator];
          st := st + [line];
          phase := InStats;
        } else if !Blank(line) {
          ql := ql + [line];
        } else {
          ql := ql + [Separator];
          phase := Idle;
        }
      } else {
        st := st + [line];
        if Has(line, "</message>") {
          phase := Idle;
        }
      }
      assert Split(phase, rt, ql, st) == Step(before, line);
      RunAppend(Start, lines[..i], [line]);
      assert lines[..i + 1] == lines[..i] + [line];
      i := i + 1;
    }
    assert lines[..i] == lines;
    rtneat, qlearning, stats := Concat(rt), Concat(ql), Concat(st);
  }

  /** In IDLE, lines that carry no marker are dropped. */
  lemma {:induction false} UnmarkedLinesDropped(st: Split, lines: seq<string>)
    requires st.phase == Idle
    requires forall l :: l in lines ==> !StartsWith(l, "genomestart") && !QLearningMarker(l) && !Has(l, "<message>")
    ensures Run(st, lines) == st
    decreases |lines|
  {
    if lines != [] {
      assert lines[0] in lines;
      assert forall l :: l in lines[1..] ==> l in lines;
      UnmarkedLinesDropped(st, lines[1..]);
    }
  }

  /** Inside a genome every line goes to the rtNEAT output until one that
      starts with genomeend, which ends the genome. */
  lemma {:induction false} GenomeBody(st: Split, body: seq<string>, last: string)
    requires st.phase == InRtneat
    requires forall l :: l in body ==> !StartsWith(l, "genomeend")
    requires StartsWith(last, "genomeend")
    ensures Run(st, body + [last]) == st.(rtneat := st.rtneat + body + [last], phase := Idle)
    decreases |body|
  {
    if body == [] {
      assert Run(st, [last]) == Run(Step(st, last), []);
    } else {
      assert (body + [last])[1..] == body[1..] + [last];
      assert forall l :: l in body[1..] ==> l in body;
      assert body[0] in body;
      GenomeBody(Step(st, body[0]), body[1..], last);
      assert st.rtneat + [body[0]] + body[1..] + [last] == st.rtneat + body + [last];
    }
  }

  /** A genome block met in IDLE, from its genomestart line to its
      genomeend line, goes whole to the rtNEAT output, and the splitter is
      back in IDLE. */
  lemma GenomeRoutedToRtneat(st: Split, first: string, body: seq<string>, last: string)
    requires st.phase == Idle
    requires StartsWith(first, "genomestart") && !QLearningMarker(first) && !Has(first, "<message>")
    requires forall l :: l in body ==> !StartsWith(l, "genomeend")
    requires StartsWith(last, "genomeend")
    ensures Run(st, [first] + body + [last]) == st.(rtneat := st.rtneat + [first] + body + [last])
  {
    var next := Step(st, first);
    assert next == st.(phase := InRtneat, rtneat := st.rtneat + [first]);
    assert ([first] + body + [last])[1..] == body + [last];
    GenomeBody(next, body, last);
  }

  /** Inside a message every line goes to the statistics output until one
      that contains </message>, which ends it. */
  lemma {:induction false} MessageBody(st: Split, body: seq<string>, last: string)
    requires st.phase == InStats
    requires forall l :: l in body ==> !Has(l, "</message>")
    requires Has(last, "</message>")
    ensures Run(st, body + [last]) == st.(stats := st.stats + body + [last], phase := Idle)
    decreases |body|
  {
    if body == [] {
      assert Run(st, [last]) == Run(Step(st, last), []);
    } else {
      assert (body + [last])[1..] == body[1..] + [last];
      assert forall l :: l in body[1..] ==> l in body;
      assert body[0] in body;
      MessageBody(Step(st, body[0]), body[1..], last);
      assert st.stats + [body[0]] + body[1..] + [last] == st.stats + body + [last];
    }
  }

  /** A message met in IDLE, from its <message> line to the next line
      containing </message>, goes whole to the statistics output. The
      closing tag is looked for only on the lines after the opening one,
      so a message must span at least two lines. */
  lemma MessageRoutedToStats(st: Split, first: string, body: seq<string>, last: string)
    requires st.phase == Idle
    requires Has(first, "<message>") && !StartsWith(first, "genomestart") && !QLearningMarker(first)
    requires forall l :: l in body ==> !Has(l, "</message>")
    requires Has(last, "</message>")
    ensures Run(st, [first] + body + [last]) == st.(stats := st.stats + [first] + body + [last])
  {
    var next := Step(st, first);
    assert next == st.(phase := InStats, stats := st.stats + [first]);
    assert ([first] + body + [last])[1..] == body + [last];
    MessageBody(next, body, last);
  }

  /** Inside a q-learning agent, non-blank lines go to the q-learning
      output until a blank line, which closes the chunk with a separator. */
  lemma {:induction false} QLearningBody(st: Split, body: seq<string>, last: string)
    requires st.phase == InQLearning
    requires forall l :: l in body ==> !StartsWith(l, "genomestart") && !Has(l, "<message>") && !Blank(l)
    requires Blank(last)
    ensures Run(st, body + [last]) == st.(qlearning := st.qlearning + body + [Separator], phase := Idle)
    decreases |body|
  {
    BlankHasNoMarker(last, "genomestart");
    BlankHasNoMarker(last, "<message>");
    if body == [] {
      assert Run(st, [last]) == Run(Step(st, last), []);
    } else {
      assert (body + [last])[1..] == body[1..] + [last];
      assert forall l :: l in body[1..] ==> l in body;
      assert body[0] in body;
      QLearningBody(Step(st, body[0]), body[1..], last);
      assert st.qlearning + [body[0]] + body[1..] + [Separator] == st.qlearning + body + [Separator];
    }
  }

  /** A q-learning agent met in IDLE, from its marker line to the next
      blank line, goes to the q-learning output followed by one separator
      in place of the blank line. */
  lemma QLearningRoutedToQLearning(st: Split, first: string, body: seq<string>, last: string)
    requires st.phase == Idle
    requires QLearningMarker(first) && !StartsWith(first, "genomestart") && !Has(first, "<message>")
    requires forall l :: l in body ==> !StartsWith(l, "genomestart") && !Has(l, "<message>") && !Blank(l)
    requires Blank(last)
    ensures Run(st, [first] + body + [last]) == st.(qlearning := st.qlearning + [first] + body + [Separator])
  {
    var next := Step(st, first);
    assert next == st.(phase := InQLearning, qlearning := st.qlearning + [first]);
    assert ([first] + body + [last])[1..] == body + [last];
    QLearningBody(next, body, last);
  }

  /** A blank line neither starts with nor contains a marker that
      begins with a non-space character. */
  lemma BlankHasNoMarker(s: string, marker: string)
    requires Blank(s) && marker != [] && !HanoiAgent.IsSpace(marker[0])
    ensures !StartsWith(s, marker) && !Has(s, marker)
  {
    forall i | 0 <= i <= |s| && marker <= s[i..]
      ensures false
    {
    }
  }

  /** Every rtNEAT and statistics line comes from `lines`, and every
      q-learning line too unless it is a separator. */
  ghost predicate DrawnFrom(st: Split, lines: seq<string>)
  {
    (forall l :: l in st.rtneat ==> l in lines)
    && (forall l :: l in st.stats ==> l in lines)
    && (forall l :: l in st.qlearning ==> l in lines || l == Separator)
  }

  lemma StepDrawnFrom(st: Split, line: string, lines: seq<string>)
    requires DrawnFrom(st, lines) && line in lines
    ensures DrawnFrom(Step(st, line), lines)
  {
  }

  lemma {:induction false} RunDrawnFrom(st: Split, rest: seq<string>, lines: seq<string>)
    requires DrawnFrom(st, lines)
    requires forall l :: l in rest ==> l in lines
    ensures DrawnFrom(Run(st, rest), lines)
    decreases |rest|
  {
    if rest != [] {
      assert rest[0] in rest;
      StepDrawnFrom(st, rest[0], lines);
      forall l | l in rest[1..]
        ensures l in lines
      {
        assert l in rest;
      }
      RunDrawnFrom(Step(st, rest[0]), rest[1..], lines);
    }
  }

  /** The splitter only sorts the file's lines: every line of the rtNEAT
      and statistics outputs is a line of the file, and every line of the
      q-learning output is a line of the file or a separator. */
  lemma OutputsComeFromInput(lines: seq<string>)
    ensures DrawnFrom(Run(Start, lines), lines)
  {
    RunDrawnFrom(Start, lines, lines);
  }

  /* ---------------- Python's int() ---------------- */

  /** s with leading whitespace removed. */
  function TrimLeft(s: string): string
  {
    if s != [] && HanoiAgent.IsSpace(s[0]) then TrimLeft(s[1..]) else s
  }

  /** s with trailing whitespace removed. */
  function TrimRight(s: string): string
  {
    if s != [] && HanoiAgent.IsSpace(s[|s| - 1]) then TrimRight(s[..|s| - 1]) else s
  }

  /** int(s) on a str: surrounding whitespace, an optional sign, more
      whitespace (strtol skips blanks again after the sign) and one or more
      decimal digits; anything else raises ValueError (None). */
  function ParseInt(s: string): (r: Option<int>)
    ensures r.Some? ==> exists i :: 0 <= i < |s| && '0' <= s[i] <= '9'
    ensures r.Some? && r.value < 0 ==> '-' in s
  {
    var t := TrimRight(TrimLeft(s));
    TrimKeepsCharacters(s);
    TrimKeepsCharacters(TrimLeft(s));
    if |t| > 0 && (t[0] == '-' || t[0] == '+') then
      var d := TrimLeft(t[1..]);
      if |d| > 0 && Decimals.AllDigits(d) then
        TrimKeepsCharacters(t[1..]);
        assert d[0] in t[1..] && t[1..][0] in t && t[0] in t;
        assert d[0] in t && d[0] in s && '0' <= d[0] <= '9';
        var v: int := Decimals.ValueOf(d);
        Some(if t[0] == '-' then -v else v)
      else None
    else if |t| > 0 && Decimals.AllDigits(t) then
      assert t[0] in t;
      Some(Decimals.ValueOf(t))
    else None
  }

  /** str(n). */
  function IntText(n: int): string
  {
    if n < 0 then "-" + Decimals.Decimal(-n) else Decimals.Decimal(n)
  }

  /** Text that neither starts nor ends with whitespace is not trimmed. */
  lemma NothingToTrim(s: string)
    requires |s| > 0 && !HanoiAgent.IsSpace(s[0]) && !HanoiAgent.IsSpace(s[|s| - 1])
    ensures TrimRight(TrimLeft(s)) == s
  {
  }

  /** int() reads a run of digits, with or without a minus sign. */
  lemma ParseDigits(d: string, negative: bool)
    requires |d| > 0 && Decimals.AllDigits(d)
    ensures var v: int := Decimals.ValueOf(d);
      ParseInt(if negative then "-" + d else d) == Some(if negative then -v else v)
  {
    assert '0' <= d[0] <= '9' && '0' <= d[|d| - 1] <= '9';
    if negative {
      ParseNegative(d);
    } else {
      NothingToTrim(d);
    }
  }

  lemma ParseNegative(d: string)
    requires |d| > 0 && Decimals.AllDigits(d) && !HanoiAgent.IsSpace(d[|d| - 1])
    ensures var v: int := Decimals.ValueOf(d); ParseInt("-" + d) == Some(-v)
  {
    var s := "-" + d;
    assert s[|s| - 1] == d[|d| - 1];
    NothingToTrim(s);
    assert s[1..] == d;
    assert '0' <= d[0] <= '9';
    assert TrimLeft(d) == d;
    ParseTrimmedSign(s);
  }

  /** Text already trimmed that starts with a sign followed by digits. */
  lemma ParseTrimmedSign(s: string)
    requires |s| > 0 && s[0] == '-' && TrimRight(TrimLeft(s)) == s
    requires var d := TrimLeft(s[1..]); |d| > 0 && Decimals.AllDigits(d)
    ensures var v: int := Decimals.ValueOf(TrimLeft(s[1..])); ParseInt(s) == Some(-v)
  {
  }

  /** A sign may be followed by blanks: int("- 5") is -5 and int(" + 7 ")
      is 7, but a sign with no digit after it is not a number. */
  lemma ParseSpacedSign()
    ensures ParseInt("- 5") == Some(-5)
    ensures ParseInt(" + 7 ") == Some(7)
    ensures ParseInt("- ") == None
  {
    var a: string := "- 5";
    assert TrimLeft(a) == a;
    assert TrimRight(a) == a;
    assert TrimLeft(a[1..]) == TrimLeft(a[2..]) == "5";
    assert Decimals.ValueOf("5") == 5 by {
      assert "5"[..0] == [];
    }
    var b: string := " + 7 ";
    assert TrimLeft(b) == TrimLeft(b[1..]) == "+ 7 ";
    assert TrimRight("+ 7 ") == TrimRight("+ 7") == "+ 7";
    assert TrimLeft("+ 7"[1..]) == TrimLeft("+ 7"[2..]) == "7";
    assert Decimals.ValueOf("7") == 7 by {
      assert "7"[..0] == [];
    }
    var c: string := "- ";
    assert TrimLeft(c) == c;
    assert TrimRight(c) == TrimRight("-") == "-";
    assert TrimLeft("-"[1..]) == "";
  }

  /** int() reads str(n) back as n. */
  lemma ParseIntRoundTrip(n: int)
    ensures ParseInt(IntText(n)) == Some(n)
  {
    var m: nat := if n < 0 then -n else n;
    Decimals.DecimalRoundTrip(m);
    ParseDigits(Decimals.Decimal(m), n < 0);
  }

  /** Trimming only removes characters. */
  lemma {:induction false} TrimKeepsCharacters(s: string)
    ensures forall c :: c in TrimLeft(s) ==> c in s
    ensures forall c :: c in TrimRight(s) ==> c in s
    decreases |s|
  {
    if s != [] {
      TrimKeepsCharacters(s[1..]);
      TrimKeepsCharacters(s[..|s| - 1]);
      assert forall c :: c in s[1..] ==> c in s;
      assert forall c :: c in s[..|s| - 1] ==> c in s;
    }
  }

  /** A text with no digit at all is not a number. */
  lemma NoDigitsNoNumber(s: string)
    requires forall i :: 0 <= i < |s| ==> !('0' <= s[i] <= '9')
    ensures ParseInt(s) == None
  {
    var l := TrimLeft(s);
    var t := TrimRight(l);
    TrimKeepsCharacters(s);
    TrimKeepsCharacters(l);
    assert forall i :: 0 <= i < |t| ==> t[i] in s;
    if |t| > 0 {
      var j :| 0 <= j < |s| && s[j] == t[0];
      assert !Decimals.AllDigits(t);
    }
    if |t| > 0 {
      var d := TrimLeft(t[1..]);
      TrimKeepsCharacters(t[1..]);
      assert forall c :: c in t[1..] ==> c in t;
      if |d| > 0 {
        assert d[0] in s;
        var j :| 0 <= j < |s| && s[j] == d[0];
        assert !Decimals.AllDigits(d);
      }
    }
  }

  /* ---------------- commands and fitness weights ---------------- */

  /** str.isupper() on ASCII text: some upper-case letter and no
      lower-case one. */
  predicate IsUpperText(s: string)
  {
    (exists i :: 0 <= i < |s| && 'A' <= s[i] <= 'Z') && forall i :: 0 <= i < |s| ==> !('a' <= s[i] <= 'z')
  }

  /** The effects of the other commands, which act on files, the AI
      registry and the demonstration recorder. */
  datatype Request =
    | SaveTeam(path: string)
    | LoadTeam(path: string)
    | Deploy(ai: string)
    | PauseAi
    | ResumeAi
    | StartDemonstration
    | CancelDemonstration
    | UseDemonstration
    | NoRequest

  /** What a command asks for. */
  datatype Action =
    | SetLifetime(lifetime: int)
    | SetEpsilon(ee: int)
    | SetHitpoints(hitpoints: int)
    | SetSpeedup(speedup: int)
    | Forward(request: Request)

  /** parseInputCommand's dispatch: an upper-case command's argument is
      read with int() first, which raises ValueError when it is not a
      number, whatever the command; then LT, EE, HP and SP take that
      number, and the lower-case commands name a request. */
  function Command(command: string, arg: string): (r: Result<Action, string>)
    ensures r.Err? <==> IsUpperText(command) && ParseInt(arg).None?
    ensures r.Err? ==> r.error == "ValueError"
  {
    if IsUpperText(command) then
      match ParseInt(arg)
      case None => Err("ValueError")
      case Some(v) =>
        Ok(if command == "LT" then SetLifetime(v)
           else if command == "EE" then SetEpsilon(v)
           else if command == "HP" then SetHitpoints(v)
           else if command == "SP" then SetSpeedup(v)
           else Forward(NoRequest))
    else
      Ok(Forward(if command == "save1" then SaveTeam(arg)
                 else if command == "load1" then LoadTeam(arg)
                 else if command == "rtneat" then Deploy("rtneat")
                 else if command == "qlearning" then Deploy("qlearning")
                 else if command == "pause" then PauseAi
                 else if command == "resume" then ResumeAi
                 else if command == "example" then
                   (if arg == "start" then StartDemonstration
                    else if arg == "cancel" then CancelDemonstration
                    else if arg == "confirm" then UseDemonstration
                    else NoRequest)
                 else NoRequest))
  }

  /** The four tunable commands take the argument as a decimal number. */
  lemma TunableCommands(n: int)
    ensures Command("LT", IntText(n)) == Ok(SetLifetime(n))
    ensures Command("EE", IntText(n)) == Ok(SetEpsilon(n))
    ensures Command("HP", IntText(n)) == Ok(SetHitpoints(n))
    ensures Command("SP", IntText(n)) == Ok(SetSpeedup(n))
  {
    ParseIntRoundTrip(n);
    UpperPair("LT");
    UpperPair("EE");
    UpperPair("HP");
    UpperPair("SP");
  }

  lemma UpperPair(c: string)
    requires |c| == 2 && 'A' <= c[0] <= 'Z' && 'A' <= c[1] <= 'Z'
    ensures IsUpperText(c)
  {
  }

  /** The attribute getattr(constants, 'FITNESS_' + dim) looks up. */
  function FitnessName(dim: string): string
  {
    "FITNESS_" + dim
  }

  /** parseInputFitness's effect on the reward weights: each entry whose
      dimension names a fitness constant sets that key's weight to
      ((v + 100) - 100) / 100; an entry whose text is not a float raises
      ValueError, and with no environment the first weight to set raises
      AttributeError. The weights set before an error stay set. */
  function Fitness(weights: map<string, real>, entries: seq<(string, Option<real>)>, table: map<string, string>, hasEnvironment: bool): (map<string, real>, Result<(), string>)
    decreases |entries|
  {
    if entries == [] then (weights, Ok(()))
    else
      var (dim, text) := entries[0];
      if text.None? then (weights, Err("ValueError"))
      else if FitnessName(dim) in table && table[FitnessName(dim)] != "" then
        if !hasEnvironment then (weights, Err("AttributeError"))
        else Fitness(weights[table[FitnessName(dim)] := (text.value + 100.0 - 100.0) / 100.0], entries[1..], table, hasEnvironment)
      else Fitness(weights, entries[1..], table, hasEnvironment)
  }

  /** The key an entry sets, if any. */
  predicate Sets(entry: (string, Option<real>), table: map<string, string>, key: string)
  {
    FitnessName(entry.0) in table && table[FitnessName(entry.0)] == key && key != ""
  }

  /** When every entry's text is a float and there is an environment, the
      weight of a key is the value of the last entry that sets it,
      divided by 100. */
  lemma {:induction false} LastEntryWins(weights: map<string, real>, entries: seq<(string, Option<real>)>, table: map<string, string>, i: nat, key: string)
    requires forall j :: 0 <= j < |entries| ==> entries[j].1.Some?
    requires i < |entries| && Sets(entries[i], table, key)
    requires forall j :: i < j < |entries| ==> !Sets(entries[j], table, key)
    ensures Fitness(weights, entries, table, true).1 == Ok(())
    ensures key in Fitness(weights, entries, table, true).0
    ensures Fitness(weights, entries, table, true).0[key] == entries[i].1.value / 100.0
    decreases |entries|
  {
    var (dim, text) := entries[0];
    var w := if FitnessName(dim) in table && table[FitnessName(dim)] != "" then weights[table[FitnessName(dim)] := (text.value + 100.0 - 100.0) / 100.0] else weights;
    assert Fitness(weights, entries, table, true) == Fitness(w, entries[1..], table, true);
    if i == 0 {
      assert w == weights[key := text.value / 100.0];
      Untouched(w, entries[1..], table, key);
    } else {
      LastEntryWins(w, entries[1..], table, i - 1, key);
    }
  }

  /** A key no entry sets keeps its weight, and no entry makes it appear. */
  lemma {:induction false} Untouched(weights: map<string, real>, entries: seq<(string, Option<real>)>, table: map<string, string>, key: string)
    requires forall j :: 0 <= j < |entries| ==> entries[j].1.Some?
    requires forall j :: 0 <= j < |entries| ==> !Sets(entries[j], table, key)
    ensures Fitness(weights, entries, table, true).1 == Ok(())
    ensures key in Fitness(weights, entries, table, true).0 <==> key in weights
    ensures key in weights ==> Fitness(weights, entries, table, true).0[key] == weights[key]
    decreases |entries|
  {
    if entries != [] {
      var (dim, text) := entries[0];
      assert !Sets(entries[0], table, key);
      var w := if FitnessName(dim) in table && table[FitnessName(dim)] != "" then weights[table[FitnessName(dim)] := (text.value + 100.0 - 100.0) / 100.0] else weights;
      assert key in w <==> key in weights;
      assert key in weights ==> w[key] == weights[key];
      Untouched(w, entries[1..], table, key);
    }
  }

  /** The environment's tunables, weights and agent bookkeeping. */
  datatype Settings = Settings(lifetime: int, hitpoints: int, epsilon: real, speedup: Option<real>,
                               weights: map<string, real>, states: map<int, NeroEnvironments.AgentState>, teams: map<int, set<int>>)

  function Snapshot(e: NeroEnvironments.Environment): Settings
    reads e
  {
    Settings(e.lifetime, e.hitpoints, e.epsilon, e.speedup, e.weights, e.states, e.teams)
  }

  /** The mod object with the environment it set up. */
  class NeroModule {
    /** The simulation context's frame delay. */
    var delay: real
    const environment: NeroEnvironments.Environment?

    /** A module whose set-up attached `env`; its constructor set the
        default speed-up while there was no environment yet. */
    constructor (env: NeroEnvironments.Environment?, defaultSpeedup: int)
      ensures environment == env && delay == 1.0 - defaultSpeedup as real / 100.0
    {
      environment := env;
      delay := 1.0 - defaultSpeedup as real / 100.0;
    }

    /** set_speedup: the frame delay is 1 - speedup/100 and, when there is
        an environment, its speed-up becomes speedup/100. */
    method SetSpeedup(speedup: int)
      modifies this, environment
      ensures delay == 1.0 - speedup as real / 100.0
      ensures environment != null ==>
        Snapshot(environment) == old(Snapshot(environment)).(speedup := Some(speedup as real / 100.0))
    {
      delay := 1.0 - speedup as real / 100.0;
      if environment != null {
        environment.speedup := Some(speedup as real / 100.0);
      }
    }

    /** set_weight: the client's value in [0, 200] becomes a weight in
        [-1, 1]; with no environment it raises AttributeError. */
    method SetWeight(key: string, value: real) returns (r: Result<(), string>)
      modifies environment
      ensures environment == null ==> r == Err("AttributeError")
      ensures environment != null ==> r == Ok(())
      ensures environment != null ==>
        Snapshot(environment) == old(Snapshot(environment)).(weights := old(environment.weights)[key := (value - 100.0) / 100.0])
    {
      if environment == null {
        return Err("AttributeError");
      }
      environment.SetWeight(key, (value - 100.0) / 100.0);
      r := Ok(());
    }

    /** parseInputCommand: the tunable commands set the environment's
        lifetime, exploit/explore rate (value / 100), hit points or the
        speed-up; the other commands come back as requests. An upper-case
        command whose argument is not a number raises ValueError before
        anything changes; a tunable other than SP with no environment
        raises AttributeError. */
    method ParseInputCommand(command: string, arg: string) returns (r: Result<Request, string>)
      modifies this, environment
      ensures Command(command, arg).Err? ==> r == Err(Command(command, arg).error) && delay == old(delay)
      ensures Command(command, arg).Err? && environment != null ==> Snapshot(environment) == old(Snapshot(environment))
      ensures Command(command, arg).Ok? ==>
        match Command(command, arg).value
        case SetLifetime(v) =>
          (environment == null ==> r == Err("AttributeError"))
          && (environment != null ==> r == Ok(NoRequest) && Snapshot(environment) == old(Snapshot(environment)).(lifetime := v))
        case SetEpsilon(v) =>
          (environment == null ==> r == Err("AttributeError"))
          && (environment != null ==> r == Ok(NoRequest) && Snapshot(environment) == old(Snapshot(environment)).(epsilon := v as real / 100.0))
        case SetHitpoints(v) =>
          (environment == null ==> r == Err("AttributeError"))
          && (environment != null ==> r == Ok(NoRequest) && Snapshot(environment) == old(Snapshot(environment)).(hitpoints := v))
        case SetSpeedup(v) =>
          r == Ok(NoRequest) && delay == 1.0 - v as real / 100.0
          && (environment != null ==> Snapshot(environment) == old(Snapshot(environment)).(speedup := Some(v as real / 100.0)))
        case Forward(request) =>
          r == Ok(request) && delay == old(delay)
          && (environment != null ==> Snapshot(environment) == old(Snapshot(environment)))
    {
      var vali: int := 0;
      if IsUpperText(command) {
        var parsed := ParseInt(arg);
        if parsed.None? {
          return Err("ValueError");
        }
        vali := parsed.value;
      }
      var action := Command(command, arg);
      match action.value
      case SetLifetime(_) =>
        if environment == null {
          return Err("AttributeError");
        }
        environment.lifetime := vali;
        r := Ok(NoRequest);
      case SetEpsilon(_) =>
        if environment == null {
          return Err("AttributeError");
        }
        environment.epsilon := vali as real / 100.0;
        r := Ok(NoRequest);
      case SetHitpoints(_) =>
        if environment == null {
          return Err("AttributeError");
        }
        environment.hitpoints := vali;
        r := Ok(NoRequest);
      case SetSpeedup(_) =>
        SetSpeedup(vali);
        r := Ok(NoRequest);
      case Forward(request) =>
        r := Ok(request);
    }

    /** parseInputFitness: the entries' weights are set one after the
        other, as Fitness describes, until an error. */
    method ParseInputFitness(entries: seq<(string, Option<real>)>, table: map<string, string>) returns (r: Result<(), string>)
      modifies environment
      ensures r == Fitness(if environment == null then map[] else old(environment.weights), entries, table, environment != null).1
      ensures environment != null ==>
        Snapshot(environment) == old(Snapshot(environment)).(weights := Fitness(old(environment.weights), entries, table, true).0)
    {
      ghost var w0 := if environment == null then map[] else environment.weights;
      var i := 0;
      while i < |entries|
        invariant 0 <= i <= |entries|
        invariant environment != null ==>
          Snapshot(environment) == old(Snapshot(environment)).(weights := environment.weights)
        invariant Fitness(if environment == null then map[] else environment.weights, entries[i..], table, environment != null)
          == Fitness(w0, entries, table, environment != null)
      {
        var (dim, text) := entries[i];
        assert entries[i..][1..] == entries[i + 1..];
        if text.None? {
          return Err("ValueError");
        }
        var name := FitnessName(dim);
        if name in table && table[name] != "" {
          r := SetWeight(table[name], text.value + 100.0);
          if r.Err? {
            return r;
          }
        }
        i := i + 1;
      }
      r := Ok(());
    }
  }
}
