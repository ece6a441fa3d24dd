/** The advice language's syntax tree (source/advice/advice_rep.h and
    trunk/source/advice/advice_rep.cpp): expressions are sums of terms,
    conditions are conjunctions of comparisons and constants, rules are
    if-then-else over conditions or lists of assignments. Each node also
    carries the connection weights of the network node it is compiled into.
    Evaluation reads and writes a vector of variable values; a read grows
    the vector with zeros, so the evaluation methods state the values every
    variable ends with. Nodes are values here: append and negate return the
    updated node. */
module AdviceRules {
  import opened Wrappers
  import opened AdviceVariables

  const EtermOmega: real := 4.0
  const SetVarOmega: real := 4.0
  const BooleanOmega: real := 4.6
  const BinaryOmega: real := 21.97
  const CondsOmega: real := 8.0
  const IfRuleOmega: real := 8.0
  const RulesOmega: real := 8.0

  // ---------------------------------------------------------------------
  // Expression terms

  datatype EtermKind = Constant | Scaled(variable: nat)

  /** An Eterm: a constant, or a coefficient times a variable, with the
      weights of its node's connections from the variable, from the bias
      and from the enclosing condition. */
  datatype Eterm = Eterm(value: real, kind: EtermKind, weight1: real, weight2: real, weight3: real)

  /** The weights an Eterm is built with. */
  predicate Gated(e: Eterm)
  {
    e.weight1 == (if e.kind.Constant? then 0.0 else EtermOmega) &&
    e.weight2 == (if e.kind.Constant? then EtermOmega * (e.value - 2.5) else -EtermOmega * 2.5) &&
    e.weight3 == 2.0 * EtermOmega
  }

  /** What the node approximates: the constant itself, or the activation of
      the variable's node. */
  function Input(e: Eterm, activation: real): real
  {
    if e.kind.Constant? then e.value else activation
  }

  /** The node's net input for a variable activation and a condition
      activation. */
  function EtermNet(e: Eterm, activation: real, cond: real): real
  {
    e.weight1 * activation + e.weight2 + e.weight3 * cond
  }

  /** With the built weights, the node computes sigmoid(4x - 2) of its input
      x when the condition is on, and sigmoid(4x - 10) when it is off. */
  lemma GatedNet(e: Eterm, activation: real)
    requires Gated(e)
    ensures EtermNet(e, activation, 1.0) == 4.0 * Input(e, activation) - 2.0
    ensures EtermNet(e, activation, 0.0) == 4.0 * Input(e, activation) - 10.0
  {
  }

  /** Eterm(val). */
  function ConstantEterm(val: real): (e: Eterm)
    ensures e.kind == Constant && e.value == val && Gated(e)
  {
    Eterm(val, Constant, 0.0, EtermOmega * (val - 2.5), 2.0 * EtermOmega)
  }

  /** Eterm(var, val). */
  function ScaledEterm(v: nat, val: real): (e: Eterm)
    ensures e.kind == Scaled(v) && e.value == val && Gated(e)
  {
    Eterm(val, Scaled(v), EtermOmega, -EtermOmega * 2.5, 2.0 * EtermOmega)
  }

  /** getScale: 1 for a constant, the coefficient for a variable term. */
  function GetScale(e: Eterm): real
  {
    if e.kind.Constant? then 1.0 else e.value
  }

  /** negate: the value changes sign; only a constant's bias weight, which
      encodes the value, is recomputed. */
  function Negate(e: Eterm): (r: Eterm)
    ensures r.kind == e.kind && r.value == -e.value
    ensures r.weight1 == e.weight1 && r.weight3 == e.weight3
    ensures Gated(e) ==> Gated(r)
  {
    e.(value := -e.value, weight2 := if e.kind.Constant? then EtermOmega * (-e.value - 2.5) else e.weight2)
  }

  /** Eterm::evaluate: the constant, or the coefficient times the
      variable's value. */
  function EtermValue(e: Eterm, vs: seq<real>): real
  {
    match e.kind
    case Constant => e.value
    case Scaled(v) => e.value * ValueAt(vs, v)
  }

  /** A negated term evaluates to the opposite value, its scale changes
      sign unless it is a constant, and negating twice gives the term back. */
  lemma NegateFacts(e: Eterm, vs: seq<real>)
    requires Gated(e)
    ensures EtermValue(Negate(e), vs) == -EtermValue(e, vs)
    ensures GetScale(Negate(e)) == if e.kind.Constant? then 1.0 else -GetScale(e)
    ensures Negate(Negate(e)) == e
  {
  }

  /** A variable term's value is its scale times the variable. */
  lemma ScaledValue(e: Eterm, vs: seq<real>)
    requires e.kind.Scaled?
    ensures EtermValue(e, vs) == GetScale(e) * ValueAt(vs, e.kind.variable)
  {
  }

  // ---------------------------------------------------------------------
  // Expressions

  datatype Expr = Expr(eterms: seq<Eterm>)

  /** Expr::append. */
  function AppendEterm(x: Expr, e: Eterm): Expr
  {
    Expr(x.eterms + [e])
  }

  /** The sum of the terms' values, left to right. */
  function Sum(ts: seq<Eterm>, vs: seq<real>): real
  {
    if ts == [] then 0.0 else Sum(ts[..|ts| - 1], vs) + EtermValue(ts[|ts| - 1], vs)
  }

  /** Appending a term adds its value to the expression's. */
  lemma AppendSum(x: Expr, e: Eterm, vs: seq<real>)
    ensures Sum(AppendEterm(x, e).eterms, vs) == Sum(x.eterms, vs) + EtermValue(e, vs)
  {
    assert AppendEterm(x, e).eterms[..|x.eterms|] == x.eterms;
  }

  /** The sum splits over a concatenation. */
  lemma {:induction false} SumConcat(a: seq<Eterm>, b: seq<Eterm>, vs: seq<real>)
    ensures Sum(a + b, vs) == Sum(a, vs) + Sum(b, vs)
    decreases |b|
  {
    if b != [] {
      var b' := b[..|b| - 1];
      assert (a + b)[..|a + b| - 1] == a + b';
      assert (a + b)[|a + b| - 1] == b[|b| - 1];
      SumConcat(a, b', vs);
    } else {
      assert a + b == a;
    }
  }

  /** Negating every term negates the sum. */
  lemma {:induction false} SumNegated(ts: seq<Eterm>, vs: seq<real>)
    requires forall i | 0 <= i < |ts| :: Gated(ts[i])
    ensures Sum(seq(|ts|, i requires 0 <= i < |ts| => Negate(ts[i])), vs) == -Sum(ts, vs)
    decreases |ts|
  {
    var ns := seq(|ts|, i requires 0 <= i < |ts| => Negate(ts[i]));
    if ts != [] {
      var ts' := ts[..|ts| - 1];
      var ns' := seq(|ts'|, i requires 0 <= i < |ts'| => Negate(ts'[i]));
      assert ns[..|ns| - 1] == ns';
      SumNegated(ts', vs);
      NegateFacts(ts[|ts| - 1], vs);
    }
  }

  /** The sum depends only on the variables' values. */
  lemma {:induction false} SumSame(ts: seq<Eterm>, a: seq<real>, b: seq<real>)
    requires Same(a, b)
    ensures Sum(ts, a) == Sum(ts, b)
    decreases |ts|
  {
    if ts != [] {
      SumSame(ts[..|ts| - 1], a, b);
    }
  }

  /** Eterm::evaluate, reading the variable through getValue. */
  method EvaluateEterm(e: Eterm, vs: seq<real>) returns (x: real, ws: seq<real>)
    ensures x == EtermValue(e, vs) && Padded(vs, ws)
  {
    match e.kind
    case Constant =>
      x, ws := e.value, vs;
      assert ws[..|vs|] == vs;
    case Scaled(v) =>
      var a;
      a, ws := GetValue(vs, v);
      x := e.value * a;
  }

  /** Expr::evaluate: the sum of the terms' values. */
  method EvaluateExpr(x: Expr, vs: seq<real>) returns (sum: real, ws: seq<real>)
    ensures sum == Sum(x.eterms, vs) && Padded(vs, ws)
  {
    sum, ws := 0.0, vs;
    assert ws[..|vs|] == vs;
    for i := 0 to |x.eterms|
      invariant sum == Sum(x.eterms[..i], vs) && Padded(vs, ws)
    {
      var y, ws' := EvaluateEterm(x.eterms[i], ws);
      PaddedSame(vs, ws);
      PaddedTrans(vs, ws, ws');
      assert x.eterms[..i + 1][..i] == x.eterms[..i];
      sum, ws := sum + y, ws';
    }
    assert x.eterms[..|x.eterms|] == x.eterms;
  }

  // ---------------------------------------------------------------------
  // Condition terms

  datatype CompareOp = LEQ | LT | GEQ | GT

  /** The right-hand side of a comparison: a value or a second variable. */
  datatype Rhs = ValueRhs(value: real) | VarRhs(variable: nat)

  datatype Term =
    | BooleanTerm(truth: bool, weight: real)
    | BinaryTerm(op: CompareOp, variable: nat, rhs: Rhs, weight1: real, weight2: real, weight3: real)

  /** The four compare functions. */
  function Compare(op: CompareOp, lhs: real, rhs: real): bool
  {
    match op
    case LEQ => lhs <= rhs
    case LT => lhs < rhs
    case GEQ => lhs >= rhs
    case GT => lhs > rhs
  }

  /** <= and > are complements, as are < and >=; swapping the sides turns
      > into < and >= into <=. */
  lemma CompareDuality(a: real, b: real)
    ensures Compare(LEQ, a, b) == !Compare(GT, a, b) && Compare(LT, a, b) == !Compare(GEQ, a, b)
    ensures Compare(GT, a, b) == Compare(LT, b, a) && Compare(GEQ, a, b) == Compare(LEQ, b, a)
  {
  }

  /** getTrue / getFalse: the constant, fed from the bias with a large
      weight of its sign. */
  function MakeBoolean(b: bool): (t: Term)
    ensures t.BooleanTerm? && t.truth == b
    ensures (t.weight > 0.0 <==> b) && (t.weight == BooleanOmega || t.weight == -BooleanOmega)
  {
    BooleanTerm(b, if b then BooleanOmega else -BooleanOmega)
  }

  /** The LEQTerm, LTTerm, GEQTerm and GTTerm constructors, for a value or
      a variable on the right. */
  function MakeBinary(op: CompareOp, v: nat, rhs: Rhs): (t: Term)
    ensures t.BinaryTerm? && t.op == op && t.variable == v && t.rhs == rhs
  {
    var w := BinaryOmega;
    match rhs
    case ValueRhs(x) =>
      (match op
       case LEQ => BinaryTerm(op, v, rhs, -w, 0.0, w * (x - 0.1))
       case LT => BinaryTerm(op, v, rhs, -w, 0.0, w * x)
       case GEQ => BinaryTerm(op, v, rhs, w, 0.0, -w * (x + 0.1))
       case GT => BinaryTerm(op, v, rhs, w, 0.0, -w * x))
    case VarRhs(_) =>
      (match op
       case LEQ => BinaryTerm(op, v, rhs, -w, w, -w * 0.1)
       case LT => BinaryTerm(op, v, rhs, -w, w, 0.0)
       case GEQ => BinaryTerm(op, v, rhs, w, -w, -w * 0.1)
       case GT => BinaryTerm(op, v, rhs, w, -w, 0.0))
  }

  /** The net input of a comparison's node, given the activations of the
      variable's node and of the right-hand variable's node (the bias node
      has activation 1). */
  function BinaryNet(t: Term, a1: real, a2: real): real
    requires t.BinaryTerm?
  {
    t.weight1 * a1 + t.weight2 * a2 + t.weight3
  }

  /** What the left side is compared with. */
  function RhsOf(rhs: Rhs, a2: real): real
  {
    if rhs.ValueRhs? then rhs.value else a2
  }

  /** The built weights agree with the comparison: a positive net input
      means the comparison holds, and a failed comparison gives a net input
      that is not positive. */
  lemma BinaryNetSound(op: CompareOp, v: nat, rhs: Rhs, a1: real, a2: real)
    ensures BinaryNet(MakeBinary(op, v, rhs), a1, a2) > 0.0 ==> Compare(op, a1, RhsOf(rhs, a2))
    ensures !Compare(op, a1, RhsOf(rhs, a2)) ==> BinaryNet(MakeBinary(op, v, rhs), a1, a2) <= 0.0
  {
  }

  /** Term::evaluate: a constant's truth, or the comparison of the
      variable's value with the value or the other variable's value. */
  function TermHolds(t: Term, vs: seq<real>): bool
  {
    match t
    case BooleanTerm(b, _) => b
    case BinaryTerm(op, v, rhs, _, _, _) =>
      Compare(op, ValueAt(vs, v), if rhs.ValueRhs? then rhs.value else ValueAt(vs, rhs.variable))
  }

  /** BooleanTerm::evaluate and BinaryTerm::evaluate, reading through
      getValue. */
  method EvaluateTerm(t: Term, vs: seq<real>) returns (holds: bool, ws: seq<real>)
    ensures holds == TermHolds(t, vs) && Padded(vs, ws)
  {
    match t
    case BooleanTerm(b, _) =>
      holds, ws := b, vs;
      assert ws[..|vs|] == vs;
    case BinaryTerm(op, v, rhs, _, _, _) =>
      var lhs;
      lhs, ws := GetValue(vs, v);
      match rhs
      case ValueRhs(x) =>
        holds := Compare(op, lhs, x);
      case VarRhs(u) =>
        var other, ws' := GetValue(ws, u);
        PaddedSame(vs, ws);
        PaddedTrans(vs, ws, ws');
        holds, ws := Compare(op, lhs, other), ws';
  }

  // ---------------------------------------------------------------------
  // Conjunctions

  /** Towell's bias for a conjunction of n antecedents of weight omega. */
  function ConjunctionBias(omega: real, n: nat): real
  {
    omega * (-2.0 * n as real + 1.0) / 2.0
  }

  /** How many of the antecedents are on. */
  function Trues(acts: seq<bool>): nat
  {
    if acts == [] then 0 else Trues(acts[..|acts| - 1]) + (if acts[|acts| - 1] then 1 else 0)
  }

  lemma {:induction false} TruesCount(acts: seq<bool>)
    ensures Trues(acts) <= |acts|
    ensures Trues(acts) == |acts| <==> forall i | 0 <= i < |acts| :: acts[i]
    decreases |acts|
  {
    if acts != [] {
      var p := acts[..|acts| - 1];
      TruesCount(p);
      assert forall i | 0 <= i < |p| :: p[i] == acts[i];
    }
  }

  /** The conjunction node's net input: omega from each antecedent that is
      on, plus the bias. */
  function ConjunctionNet(omega: real, bias: real, acts: seq<bool>): real
  {
    omega * Trues(acts) as real + bias
  }

  /** With Towell's bias the node is on exactly when every antecedent is:
      the net input is omega/2 then, and at most -omega/2 otherwise. */
  lemma ConjunctionThreshold(omega: real, acts: seq<bool>)
    requires omega > 0.0
    ensures (forall i | 0 <= i < |acts| :: acts[i]) ==> ConjunctionNet(omega, ConjunctionBias(omega, |acts|), acts) == omega / 2.0
    ensures !(forall i | 0 <= i < |acts| :: acts[i]) ==> ConjunctionNet(omega, ConjunctionBias(omega, |acts|), acts) <= -omega / 2.0
  {
    TruesCount(acts);
    var k, n := Trues(acts) as real, |acts| as real;
    assert ConjunctionNet(omega, ConjunctionBias(omega, |acts|), acts) == omega * (k - n + 0.5);
    assert Trues(acts) < |acts| ==> k <= n - 1.0;
    MulNonneg(omega, n - 1.0 - k);
    assert omega * (k - n + 0.5) == -omega / 2.0 - omega * (n - 1.0 - k);
  }

  lemma MulNonneg(x: real, y: real)
    requires x >= 0.0
    ensures y >= 0.0 ==> x * y >= 0.0
  {
  }

  /** A list of condition terms with the weights of its conjunction node. */
  datatype Conds = Conds(terms: seq<Term>, weight1: real, weight2: real)

  /** Conds(). */
  function NoConds(): (c: Conds)
    ensures c.terms == [] && c.weight1 == CondsOmega && c.weight2 == CondsOmega / 2.0
    ensures c.weight2 == ConjunctionBias(CondsOmega, 0)
  {
    Conds([], CondsOmega, CondsOmega / 2.0)
  }

  /** Conds(terms). */
  function CondsOf(ts: seq<Term>): Conds
  {
    Conds(ts, CondsOmega, CondsOmega * (-2.0 * |ts| as real + 1.0) / 2.0)
  }

  /** Conds::append: the term is added and the bias is recomputed for the
      new count. */
  function AppendCond(c: Conds, t: Term): (r: Conds)
    ensures r.terms == c.terms + [t] && r.weight1 == c.weight1
    ensures r.weight2 == ConjunctionBias(CondsOmega, |r.terms|)
  {
    Conds(c.terms + [t], c.weight1, CondsOmega * (-2.0 * |c.terms + [t]| as real + 1.0) / 2.0)
  }

  /** Building conditions term by term gives what the list constructor
      gives. */
  lemma {:induction false} AppendsBuildCondsOf(ts: seq<Term>)
    ensures CondsOf([]) == NoConds()
    ensures ts != [] ==> AppendCond(CondsOf(ts[..|ts| - 1]), ts[|ts| - 1]) == CondsOf(ts)
  {
    if ts != [] {
      assert ts[..|ts| - 1] + [ts[|ts| - 1]] == ts;
    }
  }

  /** All the terms hold. */
  predicate AllHold(ts: seq<Term>, vs: seq<real>)
  {
    forall i | 0 <= i < |ts| :: TermHolds(ts[i], vs)
  }

  /** A term appended to conditions joins the conjunction. */
  lemma AppendCondHolds(c: Conds, t: Term, vs: seq<real>)
    ensures AllHold(AppendCond(c, t).terms, vs) <==> AllHold(c.terms, vs) && TermHolds(t, vs)
  {
    var ts := AppendCond(c, t).terms;
    assert ts[|c.terms|] == t;
    assert forall i | 0 <= i < |c.terms| :: ts[i] == c.terms[i];
  }

  /** Conds::evaluate: the conjunction of the terms, true when there are
      none, evaluated left to right and stopping at the first false one. */
  method EvaluateConds(c: Conds, vs: seq<real>) returns (holds: bool, ws: seq<real>)
    ensures holds == AllHold(c.terms, vs) && Padded(vs, ws)
  {
    holds, ws := true, vs;
    assert ws[..|vs|] == vs;
    var i := 0;
    while i < |c.terms| && holds
      invariant 0 <= i <= |c.terms|
      invariant holds == AllHold(c.terms[..i], vs) && Padded(vs, ws)
    {
      var h, ws' := EvaluateTerm(c.terms[i], ws);
      PaddedSame(vs, ws);
      PaddedTrans(vs, ws, ws');
      assert c.terms[..i + 1] == c.terms[..i] + [c.terms[i]];
      AppendCondHolds(Conds(c.terms[..i], 0.0, 0.0), c.terms[i], vs);
      holds, ws := holds && h, ws';
      i := i + 1;
    }
    assert !holds ==> exists j | 0 <= j < i :: !TermHolds(c.terms[..i][j], vs);
    assert c.terms[..|c.terms|] == c.terms;
  }

  // ---------------------------------------------------------------------
  // Rules

  /** SetVar: an assignment with the weights of its node, which
      approximates y = x by sigmoid(4x - 2). */
  datatype SetVar = SetVar(variable: nat, expr: Expr, weight1: real, weight2: real)

  function MakeSetVar(v: nat, x: Expr): (s: SetVar)
    ensures s.variable == v && s.expr == x
    ensures forall a: real {:trigger s.weight1 * a} :: s.weight1 * a + s.weight2 == 4.0 * a - 2.0
  {
    SetVar(v, x, SetVarOmega, -SetVarOmega * 0.5)
  }

  /** A rule: a conditional with an optional else rule and the weights of
      its else node, or a list of assignments. */
  datatype Rule =
    | IfRule(conds: Conds, thenRule: Rule, els: Option<Rule>, weight1: real, weight2: real)
    | SetRules(setVars: seq<SetVar>)

  /** The net input of an if rule's else node: minus weight1 from the
      then node, plus weight2 from the bias. */
  function ElseNet(r: Rule, thenOn: bool): real
    requires r.IfRule?
  {
    -r.weight1 * (if thenOn then 1.0 else 0.0) + r.weight2
  }

  /** IfRule(conds, then, els): the else node negates the then node, off
      when the then node is on and on when it is off. */
  function MakeIf(c: Conds, th: Rule, els: Option<Rule>): (r: Rule)
    ensures r.IfRule? && r.conds == c && r.thenRule == th && r.els == els
    ensures ElseNet(r, true) == -IfRuleOmega / 2.0 && ElseNet(r, false) == IfRuleOmega / 2.0
  {
    IfRule(c, th, els, IfRuleOmega, IfRuleOmega / 2.0)
  }

  /** SetRules::append. */
  function AppendSetVar(r: Rule, s: SetVar): Rule
    requires r.SetRules?
  {
    SetRules(r.setVars + [s])
  }

  /** SetVar::evaluate: the variable is set to the expression's value. */
  function ExecSetVar(s: SetVar, vs: seq<real>): seq<real>
  {
    Written(vs, s.variable, Sum(s.expr.eterms, vs))
  }

  /** SetRules::evaluate: the assignments in order. */
  function ExecSetVars(ss: seq<SetVar>, vs: seq<real>): seq<real>
  {
    if ss == [] then vs else ExecSetVar(ss[|ss| - 1], ExecSetVars(ss[..|ss| - 1], vs))
  }

  /** IfRule::evaluate and SetRules::evaluate. */
  function ExecRule(r: Rule, vs: seq<real>): seq<real>
  {
    match r
    case IfRule(c, th, els, _, _) =>
      if AllHold(c.terms, vs) then ExecRule(th, vs)
      else if els.Some? then ExecRule(els.value, vs)
      else vs
    case SetRules(ss) => ExecSetVars(ss, vs)
  }

  /** Appending an assignment runs it after the others. */
  lemma AppendSetVarExec(r: Rule, s: SetVar, vs: seq<real>)
    requires r.SetRules?
    ensures ExecRule(AppendSetVar(r, s), vs) == ExecSetVar(s, ExecRule(r, vs))
  {
    assert AppendSetVar(r, s).setVars[..|r.setVars|] == r.setVars;
  }

  lemma SameTrans(a: seq<real>, b: seq<real>, c: seq<real>)
    requires Same(a, b) && Same(b, c)
    ensures Same(a, c)
  {
  }

  /** Running an assignment on vectors with the same values gives vectors
      with the same values. */
  lemma ExecSetVarSame(s: SetVar, a: seq<real>, b: seq<real>)
    requires Same(a, b)
    ensures Same(ExecSetVar(s, a), ExecSetVar(s, b))
  {
    SumSame(s.expr.eterms, a, b);
  }

  lemma {:induction false} ExecSetVarsSame(ss: seq<SetVar>, a: seq<real>, b: seq<real>)
    requires Same(a, b)
    ensures Same(ExecSetVars(ss, a), ExecSetVars(ss, b))
    decreases |ss|
  {
    if ss != [] {
      ExecSetVarsSame(ss[..|ss| - 1], a, b);
      ExecSetVarSame(ss[|ss| - 1], ExecSetVars(ss[..|ss| - 1], a), ExecSetVars(ss[..|ss| - 1], b));
    }
  }

  lemma {:induction false} ExecRuleSame(r: Rule, a: seq<real>, b: seq<real>)
    requires Same(a, b)
    ensures Same(ExecRule(r, a), ExecRule(r, b))
    decreases r
  {
    match r
    case IfRule(c, th, els, _, _) =>
      assert AllHold(c.terms, a) == AllHold(c.terms, b);
      ExecRuleSame(th, a, b);
      if els.Some? {
        ExecRuleSame(els.value, a, b);
      }
    case SetRules(ss) =>
      ExecSetVarsSame(ss, a, b);
  }

  /** SetVar::evaluate: evaluate the expression, then setValue. */
  method ExecuteSetVar(s: SetVar, vs: seq<real>) returns (ws: seq<real>)
    ensures Same(ws, ExecSetVar(s, vs))
  {
    var x, ws1 := EvaluateExpr(s.expr, vs);
    PaddedSame(vs, ws1);
    ws := Written(ws1, s.variable, x);
  }

  /** SetRules::evaluate: each assignment in turn. */
  method ExecuteSetRules(ss: seq<SetVar>, vs: seq<real>) returns (ws: seq<real>)
    ensures Same(ws, ExecSetVars(ss, vs))
  {
    ws := vs;
    for i := 0 to |ss|
      invariant Same(ws, ExecSetVars(ss[..i], vs))
    {
      var ws' := ExecuteSetVar(ss[i], ws);
      ExecSetVarSame(ss[i], ws, ExecSetVars(ss[..i], vs));
      assert ss[..i + 1][..i] == ss[..i];
      SameTrans(ws', ExecSetVar(ss[i], ws), ExecSetVars(ss[..i + 1], vs));
      ws := ws';
    }
    assert ss[..|ss|] == ss;
  }

  /** IfRule::evaluate: the then rule if the conditions hold, otherwise
      the else rule when there is one. */
  method ExecuteRule(r: Rule, vs: seq<real>) returns (ws: seq<real>)
    ensures Same(ws, ExecRule(r, vs))
    decreases r
  {
    match r
    case IfRule(c, th, els, _, _) =>
      var holds, ws1 := EvaluateConds(c, vs);
      PaddedSame(vs, ws1);
      if holds {
        ws := ExecuteRule(th, ws1);
        ExecRuleSame(th, ws1, vs);
      } else if els.Some? {
        ws := ExecuteRule(els.value, ws1);
        ExecRuleSame(els.value, ws1, vs);
      } else {
        ws := ws1;
      }
    case SetRules(ss) =>
      ws := ExecuteSetRules(ss, vs);
  }

  /** Rules: the top-level rule list, with the weights of the conjunction
      of the rules' last else nodes. */
  datatype RuleList = RuleList(rules: seq<Rule>, weight1: real, weight2: real)

  /** Rules(). */
  function NoRules(): (rs: RuleList)
    ensures rs.rules == [] && rs.weight1 == RulesOmega && rs.weight2 == RulesOmega / 2.0
    ensures rs.weight2 == ConjunctionBias(RulesOmega, 0)
  {
    RuleList([], RulesOmega, RulesOmega / 2.0)
  }

  /** Rules(rules). */
  function RulesOf(rules: seq<Rule>): RuleList
  {
    RuleList(rules, RulesOmega, RulesOmega * (-2.0 * |rules| as real + 1.0) / 2.0)
  }

  /** Rules::append: the rule is added and the bias is recomputed for the
      new count, as for conditions. */
  function AppendRule(rs: RuleList, r: Rule): (q: RuleList)
    ensures q.rules == rs.rules + [r] && q.weight1 == rs.weight1
    ensures q.weight2 == ConjunctionBias(RulesOmega, |q.rules|)
  {
    RuleList(rs.rules + [r], rs.weight1, RulesOmega * (-2.0 * |rs.rules + [r]| as real + 1.0) / 2.0)
  }

  /** Building the rule list rule by rule gives what the list constructor
      gives. */
  lemma {:induction false} AppendsBuildRulesOf(rules: seq<Rule>)
    ensures RulesOf([]) == NoRules()
    ensures rules != [] ==> AppendRule(RulesOf(rules[..|rules| - 1]), rules[|rules| - 1]) == RulesOf(rules)
  {
    if rules != [] {
      assert rules[..|rules| - 1] + [rules[|rules| - 1]] == rules;
    }
  }

  /** Rules::evaluate: the rules in order. */
  function ExecRules(rules: seq<Rule>, vs: seq<real>): seq<real>
  {
    if rules == [] then vs else ExecRule(rules[|rules| - 1], ExecRules(rules[..|rules| - 1], vs))
  }

  method ExecuteRules(rs: RuleList, vs: seq<real>) returns (ws: seq<real>)
    ensures Same(ws, ExecRules(rs.rules, vs))
  {
    ws := vs;
    for i := 0 to |rs.rules|
      invariant Same(ws, ExecRules(rs.rules[..i], vs))
    {
      var ws' := ExecuteRule(rs.rules[i], ws);
      ExecRuleSame(rs.rules[i], ws, ExecRules(rs.rules[..i], vs));
      assert rs.rules[..i + 1][..i] == rs.rules[..i];
      SameTrans(ws', ExecRule(rs.rules[i], ws), ExecRules(rs.rules[..i + 1], vs));
      ws := ws';
    }
    assert rs.rules[..|rs.rules|] == rs.rules;
  }

  // ---------------------------------------------------------------------
  // Copying evolved actions into actions

  /** The packed numbers of action i and of evolved action i. */
  function ActionVar(l: Layout, i: nat): nat
  {
    Offset(l, Action) + i
  }

  function EvolvedVar(l: Layout, i: nat): nat
  {
    Offset(l, EvolvedAction) + i
  }

  /** The assignment for action i: a_i := 1 * ea_i. */
  function CopyAction(l: Layout, i: nat): SetVar
  {
    MakeSetVar(ActionVar(l, i), AppendEterm(Expr([]), ScaledEterm(EvolvedVar(l, i), 1.0)))
  }

  /** One assignment per action, in order. */
  predicate CopiesActions(l: Layout, ss: seq<SetVar>)
  {
    |ss| == l.numActions && forall i | 0 <= i < |ss| :: ss[i] == CopyAction(l, i)
  }

  /** setActionsToEvolvedActions: for an evolved agent, the rules setting
      every action to its evolved action; for a scripted agent with actions,
      the error translate raises for the first evolved action. */
  method SetActionsToEvolvedActions(l: Layout) returns (r: Result<Rule, string>)
    ensures r.Ok? <==> l.agent == Evolved || l.numActions == 0
    ensures r.Ok? ==> r.value.SetRules? && CopiesActions(l, r.value.setVars)
    ensures r.Err? ==> r.error == Failure("Invalid action variable for scripted agent", EvolvedAction, 0)
  {
    var rules := SetRules([]);
    for i := 0 to l.numActions
      invariant rules.SetRules? && |rules.setVars| == i
      invariant forall j | 0 <= j < i :: rules.setVars[j] == CopyAction(l, j)
      invariant i > 0 ==> l.agent == Evolved
    {
      var rhs := Translate(l, EvolvedAction, i);
      if rhs.Err? {
        return Err(rhs.error);
      }
      TranslateTable(l, Action, i);
      TranslateAgrees(l, Action, i);
      var lhs := Translate(l, Action, i).value;
      var expr := AppendEterm(Expr([]), ScaledEterm(rhs.value, 1.0));
      rules := AppendSetVar(rules, MakeSetVar(lhs, expr));
    }
    return Ok(rules);
  }

  /** After the first k copying assignments, actions 0..k-1 hold their
      evolved actions' values and every other variable is unchanged. */
  lemma {:induction false} CopiedPrefix(l: Layout, ss: seq<SetVar>, vs: seq<real>, k: nat)
    requires l.agent == Evolved && CopiesActions(l, ss) && k <= |ss|
    ensures forall i | 0 <= i < k :: ValueAt(ExecSetVars(ss[..k], vs), ActionVar(l, i)) == ValueAt(vs, EvolvedVar(l, i))
    ensures forall u: nat :: !(Offset(l, Action) <= u < Offset(l, Action) + k) ==>
      ValueAt(ExecSetVars(ss[..k], vs), u) == ValueAt(vs, u)
    decreases k
  {
    if k > 0 {
      CopiedPrefix(l, ss, vs, k - 1);
      var cur := ExecSetVars(ss[..k - 1], vs);
      assert ss[..k][..k - 1] == ss[..k - 1];
      CopyStep(l, k - 1, cur);
      var next := ExecSetVars(ss[..k], vs);
      assert next == Written(cur, ActionVar(l, k - 1), ValueAt(cur, EvolvedVar(l, k - 1)));
      forall i | 0 <= i < k - 1
        ensures ValueAt(next, ActionVar(l, i)) == ValueAt(vs, EvolvedVar(l, i))
      {
        assert ValueAt(next, ActionVar(l, i)) == ValueAt(cur, ActionVar(l, i));
      }
    }
  }

  /** One copying assignment: action i takes evolved action i's value. */
  lemma CopyStep(l: Layout, i: nat, cur: seq<real>)
    requires l.agent == Evolved && i < l.numActions
    ensures EvolvedVar(l, i) < Offset(l, Action)
    ensures ExecSetVar(CopyAction(l, i), cur) == Written(cur, ActionVar(l, i), ValueAt(cur, EvolvedVar(l, i)))
  {
    var ts := CopyAction(l, i).expr.eterms;
    assert ts == [ScaledEterm(EvolvedVar(l, i), 1.0)];
    assert ts[..0] == [];
    assert Sum(ts, cur) == 0.0 + 1.0 * ValueAt(cur, EvolvedVar(l, i));
  }

  /** Running setActionsToEvolvedActions' rules sets every action to its
      evolved action and changes no other variable. */
  lemma ActionsCopied(l: Layout, ss: seq<SetVar>, vs: seq<real>)
    requires l.agent == Evolved && CopiesActions(l, ss)
    ensures forall i | 0 <= i < l.numActions ::
      ValueAt(ExecRule(SetRules(ss), vs), ActionVar(l, i)) == ValueAt(vs, EvolvedVar(l, i))
    ensures forall u: nat :: GetType(l, u) != Action ==> ValueAt(ExecRule(SetRules(ss), vs), u) == ValueAt(vs, u)
  {
    CopiedPrefix(l, ss, vs, |ss|);
    assert ss[..|ss|] == ss;
    var after := ExecRule(SetRules(ss), vs);
    assert after == ExecSetVars(ss, vs);
    forall u: nat | GetType(l, u) != Action
      ensures ValueAt(after, u) == ValueAt(vs, u)
    {
      assert !(Offset(l, Action) <= u < Offset(l, Action) + |ss|);
    }
  }
}
