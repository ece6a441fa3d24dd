/** Variables of the advice language (trunk/source/advice/advice_rep.cpp and
    source/advice/advice_rep.h): a variable is a sensor, an evolved action,
    an action or a general-purpose variable with an index, and is packed into
    one unsigned number whose layout depends on the network's sensor and
    action counts and on whether the advised agent is evolved or scripted.
    The packed numbers index a vector of doubles (modelled as reals) that
    grows with zeros on access. Numbers are converted between the advice
    range [-1, 1] and the network range. The counts and the agent kind are
    globals in the source; here they are a Layout value passed in. */
module AdviceVariables {
  import opened Wrappers
  import opened FeatureVectors
  import opened Decimals

  datatype VarType = Sensor | EvolvedAction | Action | General

  datatype AgentType = Evolved | Scripted

  datatype Layout = Layout(numSensors: nat, numActions: nat, agent: AgentType)

  /** UINT_MAX, the bound of a general-purpose variable. */
  const UintMax: nat := 0xFFFF_FFFF

  /** One more than UINT_MAX: unsigned 32-bit sums wrap modulo this. */
  const Word: nat := 0x1_0000_0000

  // ---------------------------------------------------------------------
  // Printed names

  /** A non-empty string of decimal digits. */
  predicate Numeral(s: string)
  {
    |s| >= 1 && AllDigits(s)
  }

  function Prefix(t: VarType): string
  {
    match t
    case Sensor => "s"
    case EvolvedAction => "ea"
    case Action => "a"
    case General => "g"
  }

  /** toString(type, index): the type's prefix followed by the index. */
  function ToString(t: VarType, index: nat): (s: string)
    ensures |Prefix(t)| < |s| && s[..|Prefix(t)|] == Prefix(t) && s[|Prefix(t)|..] == Decimal(index)
  {
    Prefix(t) + Decimal(index)
  }

  /** Reads a printed name back; the two-letter prefix "ea" is the only one
      starting with 'e', so the prefixes cannot be confused. */
  function ParseName(s: string): Option<(VarType, nat)>
  {
    if |s| >= 2 && s[0] == 'e' && s[1] == 'a' && Numeral(s[2..]) then Some((EvolvedAction, ValueOf(s[2..])))
    else if |s| >= 1 && Numeral(s[1..]) then
      if s[0] == 's' then Some((Sensor, ValueOf(s[1..])))
      else if s[0] == 'a' then Some((Action, ValueOf(s[1..])))
      else if s[0] == 'g' then Some((General, ValueOf(s[1..])))
      else None
    else None
  }

  /** Every printed name names exactly the variable printed. */
  lemma NameRoundTrip(t: VarType, index: nat)
    ensures ParseName(ToString(t, index)) == Some((t, index))
  {
    var s := ToString(t, index);
    DecimalRoundTrip(index);
    assert s[|Prefix(t)|..] == Decimal(index);
  }

  // ---------------------------------------------------------------------
  // Packing

  /** Where each type's block starts: sensors first; for an evolved agent
      the evolved actions, then the actions, then general variables; for a
      scripted agent the actions, then general variables. */
  function Offset(l: Layout, t: VarType): nat
  {
    match t
    case Sensor => 0
    case EvolvedAction => l.numSensors
    case Action => if l.agent == Evolved then l.numSensors + l.numActions else l.numSensors
    case General => if l.agent == Evolved then l.numSensors + 2 * l.numActions else l.numSensors + l.numActions
  }

  /** How many indices each type admits: a scripted agent has no evolved
      actions, and a packed general variable must stay below UINT_MAX. */
  function Capacity(l: Layout, t: VarType): nat
  {
    match t
    case Sensor => l.numSensors
    case EvolvedAction => if l.agent == Evolved then l.numActions else 0
    case Action => l.numActions
    case General => if Offset(l, General) < UintMax then UintMax - Offset(l, General) else 0
  }

  /** The message translateError is raised with, before the name is
      appended. */
  function Reason(l: Layout, t: VarType, index: nat): string
  {
    match t
    case Sensor => "Sensor variable out of range"
    case EvolvedAction =>
      if index < l.numActions then "Invalid action variable for scripted agent" else "Action variable out of range"
    case Action => "Action variable out of range"
    case General => "General purpose variable out of range"
  }

  /** translateError's text, without the parser's line number. */
  function Failure(message: string, t: VarType, index: nat): string
  {
    message + ": " + ToString(t, index)
  }

  /** translate: the packed number of a variable, or the error it raises;
      the general-purpose case is TranslateGeneralAsWritten. */
  function Translate(l: Layout, t: VarType, index: nat): (r: Result<nat, string>)
    ensures t != General ==> r == TranslateExact(l, t, index)
  {
    match t
    case General => TranslateGeneralAsWritten(l, index)
    case _ => TranslateExact(l, t, index)
  }

  /** translate as evidently intended: the general-purpose range check is
      done on the exact sum at the agent's own offset. */
  function TranslateExact(l: Layout, t: VarType, index: nat): Result<nat, string>
  {
    match t
    case Sensor =>
      if index < l.numSensors then Ok(index)
      else Err(Failure("Sensor variable out of range", t, index))
    case EvolvedAction =>
      if index < l.numActions then
        if l.agent == Evolved then Ok(l.numSensors + index)
        else Err(Failure("Invalid action variable for scripted agent", t, index))
      else Err(Failure("Action variable out of range", t, index))
    case Action =>
      if index < l.numActions then
        if l.agent == Evolved then Ok(l.numSensors + l.numActions + index) else Ok(l.numSensors + index)
      else Err(Failure("Action variable out of range", t, index))
    case General =>
      if l.agent == Evolved then
        if l.numSensors + 2 * l.numActions + index < UintMax then Ok(l.numSensors + 2 * l.numActions + index)
        else Err(Failure("General purpose variable out of range", t, index))
      else if l.numSensors + l.numActions + index < UintMax then Ok(l.numSensors + l.numActions + index)
      else Err(Failure("General purpose variable out of range", t, index))
  }

  /** getType: the block a packed number falls in. */
  function GetType(l: Layout, v: nat): VarType
  {
    if v < l.numSensors then Sensor
    else if v < l.numSensors + l.numActions then (if l.agent == Evolved then EvolvedAction else Action)
    else if v < l.numSensors + 2 * l.numActions then (if l.agent == Evolved then Action else General)
    else General
  }

  /** getIndex: the position of a packed number within its block. */
  function GetIndex(l: Layout, v: nat): nat
  {
    if v < l.numSensors then v
    else if v < l.numSensors + l.numActions then v - l.numSensors
    else if v < l.numSensors + 2 * l.numActions then v - (l.numSensors + l.numActions)
    else if l.agent == Evolved then v - (l.numSensors + 2 * l.numActions)
    else v - (l.numSensors + l.numActions)
  }

  /** translate accepts exactly the indices below the type's capacity,
      packs them at the type's offset, and raises the matching message
      otherwise. */
  lemma TranslateTable(l: Layout, t: VarType, index: nat)
    ensures TranslateExact(l, t, index) ==
      if index < Capacity(l, t) then Ok(Offset(l, t) + index)
      else Err(Failure(Reason(l, t, index), t, index))
  {
  }

  /** getType and getIndex invert translate, for evolved and scripted
      agents alike; so no two variables share a packed number. */
  lemma TranslateInverse(l: Layout, t: VarType, index: nat)
    requires TranslateExact(l, t, index).Ok?
    ensures GetType(l, TranslateExact(l, t, index).value) == t
    ensures GetIndex(l, TranslateExact(l, t, index).value) == index
  {
  }

  /** Every number below UINT_MAX is the packing of the variable getType
      and getIndex name. */
  lemma TranslateOnto(l: Layout, v: nat)
    requires v < UintMax
    ensures TranslateExact(l, GetType(l, v), GetIndex(l, v)) == Ok(v)
  {
  }

  /** Two variables translate to the same number only if they are the same
      variable. */
  lemma TranslateInjective(l: Layout, t1: VarType, i1: nat, t2: VarType, i2: nat)
    requires TranslateExact(l, t1, i1).Ok? && TranslateExact(l, t2, i2).Ok?
    requires TranslateExact(l, t1, i1).value == TranslateExact(l, t2, i2).value
    ensures t1 == t2 && i1 == i2
  {
    TranslateInverse(l, t1, i1);
    TranslateInverse(l, t2, i2);
  }

  /** toString(var): the name of the variable a packed number stands for. */
  function VarName(l: Layout, v: nat): string
  {
    ToString(GetType(l, v), GetIndex(l, v))
  }

  /** The name of a translated variable is the name it was written with. */
  lemma VarNameOfTranslate(l: Layout, t: VarType, index: nat)
    requires TranslateExact(l, t, index).Ok?
    ensures VarName(l, TranslateExact(l, t, index).value) == ToString(t, index)
    ensures ParseName(VarName(l, TranslateExact(l, t, index).value)) == Some((t, index))
  {
    TranslateInverse(l, t, index);
    NameRoundTrip(t, index);
  }

  /** The general-purpose case of translate as written: the sums are
      unsigned 32-bit and wrap, and for an evolved agent whose sum fails the
      check the scripted agent's offset is tried next, whether or not the
      sum wrapped. */
  function TranslateGeneralAsWritten(l: Layout, index: nat): Result<nat, string>
  {
    if l.agent == Evolved && (l.numSensors + 2 * l.numActions + index) % Word < UintMax then
      Ok((l.numSensors + 2 * l.numActions + index) % Word)
    else if (l.numSensors + l.numActions + index) % Word < UintMax then
      Ok((l.numSensors + l.numActions + index) % Word)
    else
      Err(Failure("General purpose variable out of range", General, index))
  }

  /** Without overflow the source's check agrees with the exact one. */
  lemma AsWrittenAgrees(l: Layout, index: nat)
    requires l.numSensors + 2 * l.numActions + index < UintMax
    ensures TranslateGeneralAsWritten(l, index) == TranslateExact(l, General, index)
  {
    var evolved := l.numSensors + 2 * l.numActions + index;
    var scripted := l.numSensors + l.numActions + index;
    assert scripted <= evolved;
    BelowWord(evolved);
    BelowWord(scripted);
    assert (l.numSensors + 2 * l.numActions + index) % Word == evolved;
    assert (l.numSensors + l.numActions + index) % Word == scripted;
  }

  /** translate as written agrees with the intended one on every variable
      whose exact packed number is below UINT_MAX. */
  lemma TranslateAgrees(l: Layout, t: VarType, index: nat)
    requires t == General ==> l.numSensors + 2 * l.numActions + index < UintMax
    ensures Translate(l, t, index) == TranslateExact(l, t, index)
  {
    if t == General {
      AsWrittenAgrees(l, index);
    }
  }

  /** As written, too, every number below UINT_MAX is the packing of the
      variable getType and getIndex name. */
  lemma AsWrittenOnto(l: Layout, v: nat)
    requires v < UintMax
    ensures Translate(l, GetType(l, v), GetIndex(l, v)) == Ok(v)
  {
    if GetType(l, v) == General {
      var index := GetIndex(l, v);
      if l.agent == Evolved {
        assert l.numSensors + 2 * l.numActions + index == v;
      } else {
        assert l.numSensors + l.numActions + index == v;
      }
      BelowWord(v);
    }
  }

  /** A number below 2^32 is its own remainder. */
  lemma BelowWord(x: nat)
    requires x < Word
    ensures x % Word == x
  {
  }

  /** With 2 sensors and no actions, the evolved agent's g4294967294 wraps
      to 0, which getType reads back as the sensor s0; with no sensors and
      one action, g4294967293 falls through to the scripted offset, with no
      wrap, and reads back as g4294967292. The intended check rejects
      both. */
  lemma AsWrittenMisplaces()
    ensures Translate(Layout(2, 0, Evolved), General, 0xFFFF_FFFE) == Ok(0)
    ensures GetType(Layout(2, 0, Evolved), 0) == Sensor
    ensures TranslateExact(Layout(2, 0, Evolved), General, 0xFFFF_FFFE).Err?
    ensures Translate(Layout(0, 1, Evolved), General, 0xFFFF_FFFD) == Ok(0xFFFF_FFFE)
    ensures GetIndex(Layout(0, 1, Evolved), 0xFFFF_FFFE) == 0xFFFF_FFFC
    ensures TranslateExact(Layout(0, 1, Evolved), General, 0xFFFF_FFFD).Err?
  {
  }

  // ---------------------------------------------------------------------
  // The variable vector

  /** getValue's answer: a variable beyond the vector reads as 0. */
  function ValueAt(vs: seq<real>, v: nat): real
  {
    if v < |vs| then vs[v] else 0.0
  }

  function Zeros(n: nat): (r: seq<real>)
    ensures |r| == n && forall i | 0 <= i < n :: r[i] == 0.0
  {
    seq(n, _ => 0.0)
  }

  /** ws is vs followed by zeros. */
  predicate Padded(vs: seq<real>, ws: seq<real>)
  {
    |vs| <= |ws| && ws[..|vs|] == vs && forall i | |vs| <= i < |ws| :: ws[i] == 0.0
  }

  /** Two vectors give every variable the same value. */
  ghost predicate Same(vs: seq<real>, ws: seq<real>)
  {
    forall v: nat :: ValueAt(vs, v) == ValueAt(ws, v)
  }

  /** The resize both getValue and setValue do: large enough to hold v,
      new places zero. */
  function Resized(vs: seq<real>, v: nat): (r: seq<real>)
    ensures Padded(vs, r) && v < |r|
    ensures |r| == if v < |vs| then |vs| else v + 1
  {
    if v < |vs| then vs else vs + Zeros(v + 1 - |vs|)
  }

  /** setValue's vector: v now holds x and every other variable keeps its
      value. */
  function Written(vs: seq<real>, v: nat, x: real): (r: seq<real>)
    ensures ValueAt(r, v) == x
    ensures forall u: nat :: u != v ==> ValueAt(r, u) == ValueAt(vs, u)
    ensures |r| == if v < |vs| then |vs| else v + 1
  {
    Resized(vs, v)[v := x]
  }

  /** Padding with zeros changes no variable's value. */
  lemma PaddedSame(vs: seq<real>, ws: seq<real>)
    requires Padded(vs, ws)
    ensures Same(vs, ws)
  {
    forall v: nat
      ensures ValueAt(vs, v) == ValueAt(ws, v)
    {
      if v < |vs| {
        assert ws[..|vs|][v] == ws[v];
      }
    }
  }

  lemma PaddedTrans(a: seq<real>, b: seq<real>, c: seq<real>)
    requires Padded(a, b) && Padded(b, c)
    ensures Padded(a, c)
  {
    assert c[..|a|] == c[..|b|][..|a|];
  }

  /** getValue: the variable's value; the vector is resized to hold it, so
      reading changes no value. */
  method GetValue(vs: seq<real>, v: nat) returns (x: real, ws: seq<real>)
    ensures Padded(vs, ws) && |ws| == if v < |vs| then |vs| else v + 1
    ensures x == ValueAt(vs, v) && x == ws[v]
  {
    ws := Resized(vs, v);
    x := ws[v];
  }

  /** setValue then getValue answers the value set, for any vector. */
  method SetThenGet(vs: seq<real>, v: nat, x: real) returns (y: real, ws: seq<real>)
    ensures y == x && |ws| > v
  {
    ws := Written(vs, v, x);
    y, ws := GetValue(ws, v);
  }

  // ---------------------------------------------------------------------
  // Numbers

  /** toNetwork(val): an evolved agent's non-sensor values are mapped from
      the advice range [-1, 1] onto the sigmoid's near-linear range
      [0.2, 0.8]; a scripted agent's values are left alone. */
  function ToNetwork(agent: AgentType, val: real): (r: real)
    ensures agent == Evolved && -1.0 <= val <= 1.0 ==> 0.2 <= r <= 0.8
    ensures agent == Evolved ==> (val == -1.0 <==> r == 0.2) && (val == 1.0 <==> r == 0.8)
    ensures agent == Scripted ==> r == val
  {
    if agent == Evolved then (val + 1.0) * 0.6 / 2.0 + 0.2 else val
  }

  /** toAdvice(val): the way back. */
  function ToAdvice(agent: AgentType, val: real): (r: real)
    ensures agent == Evolved && 0.2 <= val <= 0.8 ==> -1.0 <= r <= 1.0
    ensures agent == Scripted ==> r == val
  {
    if agent == Evolved then (val - 0.2) * 2.0 / 0.6 - 1.0 else val
  }

  /** toAdvice is the inverse of toNetwork, in both orders. */
  lemma AdviceNetworkInverse(agent: AgentType, val: real)
    ensures ToAdvice(agent, ToNetwork(agent, val)) == val
    ensures ToNetwork(agent, ToAdvice(agent, val)) == val
  {
  }

  /** A sensor of an evolved agent whose advice and network bounds are
      known and not degenerate. */
  predicate Rescalable(l: Layout, network: seq<Bound>, advice: seq<Bound>, v: nat)
  {
    l.agent == Evolved && GetType(l, v) == Sensor ==>
      GetIndex(l, v) < |network| && GetIndex(l, v) < |advice| &&
      network[GetIndex(l, v)].max != network[GetIndex(l, v)].min &&
      advice[GetIndex(l, v)].max != advice[GetIndex(l, v)].min
  }

  /** The linear map sending [a0, a1] onto [n0, n1]. */
  function Rescale(val: real, a0: real, a1: real, n0: real, n1: real): real
    requires a1 != a0
  {
    (val - a0) * (n1 - n0) / (a1 - a0) + n0
  }

  /** Rescaling onto a nondegenerate interval and back is the identity. */
  lemma RescaleBack(val: real, a0: real, a1: real, n0: real, n1: real)
    requires a1 != a0 && n1 != n0
    ensures Rescale(Rescale(val, a0, a1, n0, n1), n0, n1, a0, a1) == val
  {
    var p, q := n1 - n0, a1 - a0;
    var t := (val - a0) * p / q;
    assert t * q == (val - a0) * p;
    assert Rescale(val, a0, a1, n0, n1) - n0 == t;
    assert t * q / p == val - a0;
  }

  /** toNetwork(val, var): a sensor of an evolved agent is rescaled from
      its advice bounds to its network bounds, anything else as above. */
  function ToNetworkAt(l: Layout, network: seq<Bound>, advice: seq<Bound>, val: real, v: nat): real
    requires Rescalable(l, network, advice, v)
  {
    if l.agent == Evolved then
      if GetType(l, v) == Sensor then
        var i := GetIndex(l, v);
        Rescale(val, advice[i].min, advice[i].max, network[i].min, network[i].max)
      else ToNetwork(l.agent, val)
    else val
  }

  /** toAdvice(val, var): the reverse rescaling. */
  function ToAdviceAt(l: Layout, network: seq<Bound>, advice: seq<Bound>, val: real, v: nat): real
    requires Rescalable(l, network, advice, v)
  {
    if l.agent == Evolved then
      if GetType(l, v) == Sensor then
        var i := GetIndex(l, v);
        Rescale(val, network[i].min, network[i].max, advice[i].min, advice[i].max)
      else ToAdvice(l.agent, val)
    else val
  }

  /** toAdvice(., var) undoes toNetwork(., var) for every variable. */
  lemma AdviceNetworkInverseAt(l: Layout, network: seq<Bound>, advice: seq<Bound>, val: real, v: nat)
    requires Rescalable(l, network, advice, v)
    ensures ToAdviceAt(l, network, advice, ToNetworkAt(l, network, advice, val, v), v) == val
  {
    if l.agent == Evolved && GetType(l, v) == Sensor {
      var i := GetIndex(l, v);
      RescaleBack(val, advice[i].min, advice[i].max, network[i].min, network[i].max);
    } else {
      AdviceNetworkInverse(l.agent, val);
    }
  }

  /** checkRange: the value itself if it lies in [-1, 1], else the
      out-of-range error. */
  function CheckRange(val: real): (r: Result<real, string>)
    ensures r.Ok? <==> -1.0 <= val <= 1.0
    ensures r.Ok? ==> r.value == val
  {
    if val >= -1.0 && val <= 1.0 then Ok(val) else Err("Number out of range")
  }
}
