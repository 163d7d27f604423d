/**
 The placement judgement rules: uncertain facts about nodes are folded into an interval of
 free capacity, and the interval is compared with a need.

 Amounts are exact reals; the source's Infinity is the case Unbounded of Amount.
 */
module Advice {
  import opened Options

  datatype Class = Measured | Reported | Inferred | Guess | Unknown

  datatype Verdict = Fits | CantTell | DoesNotFit

  datatype Level = High | Medium | Low | NoConfidence

  /** One input: a value with its class and the time its source last vouched for it. */
  datatype Fact = Fact(value: Option<real>, cls: Class, observedAt: Option<int>)

  datatype Amount = Finite(r: real) | Unbounded

  datatype CapNode = CapNode(allocatable: Fact, requested: Fact)

  datatype Pool = Pool(
    lo: real,
    hi: Amount,
    knownFree: real,
    knownNodes: nat,
    nominalKnown: bool,
    cls: Class,
    loClass: Class,
    hiClass: Class,
    hiKnown: real)

  datatype Need = Need(value: Option<real>, cls: Class)

  datatype Direction = AtLeast | Below

  datatype Change = Change(direction: Direction, threshold: real, becomes: Verdict)

  datatype DimResult = DimResult(verdict: Verdict, cls: Class, need: Need, pool: Pool, changes: seq<Change>)

  datatype Check = Check(verdict: Verdict, cls: Class)

  datatype Judgement = Judgement(verdict: Verdict, cls: Class, confidence: Level, changes: seq<Change>)

  /* ---------- classes ---------- */

  function Rank(c: Class): nat {
    match c
    case Measured => 4
    case Reported => 3
    case Inferred => 2
    case Guess => 1
    case Unknown => 0
  }

  function Factor(c: Class): Option<real> {
    match c
    case Measured => Some(0.05)
    case Reported => Some(0.15)
    case Inferred => Some(0.3)
    case Guess => Some(0.5)
    case Unknown => None
  }

  function OrElse(o: Option<real>, default: real): real {
    if o.Some? then o.value else default
  }

  function Width(c: Class): real {
    OrElse(Factor(c), 0.0)
  }

  function Worse(a: Class, b: Class): Class {
    if Rank(a) <= Rank(b) then a else b
  }

  function Demote(c: Class): Class {
    match c
    case Measured => Reported
    case Reported => Inferred
    case Inferred => Guess
    case Guess => Guess
    case Unknown => Unknown
  }

  predicate Known(f: Fact) {
    f.value.Some? && Rank(f.cls) > 0
  }

  /** The class a fact counts as at `now`: one worse once it was last confirmed longer ago than the window. */
  function EffectiveClass(f: Fact, now: int, window: int): Class {
    if !Known(f) then Unknown
    else if f.observedAt.Some? && window > 0 && now - f.observedAt.value > window then Demote(f.cls)
    else f.cls
  }

  /* ---------- amounts ---------- */

  function Max(a: real, b: real): real {
    if a >= b then a else b
  }

  function Plus(a: Amount, x: real): Amount {
    if a.Finite? then Finite(a.r + x) else Unbounded
  }

  predicate IsBelow(a: Amount, n: real) {
    a.Finite? && a.r < n
  }

  predicate Covers(a: Amount, t: real) {
    a.Finite? ==> t <= a.r
  }

  /* ---------- the pool ---------- */

  const NO_NODES := Pool(0.0, Unbounded, 0.0, 0, false, Unknown, Unknown, Unknown, 0.0)

  const EMPTY_SUM := Pool(0.0, Finite(0.0), 0.0, 0, true, Measured, Measured, Measured, 0.0)

  /** The free capacity of a node whose two figures are known, as reported. */
  function Free(n: CapNode): real
    requires Known(n.allocatable) && Known(n.requested)
  {
    Max(0.0, n.allocatable.value.value - n.requested.value.value)
  }

  function FreeClass(n: CapNode, now: int, window: int): Class {
    Worse(EffectiveClass(n.allocatable, now, window), EffectiveClass(n.requested, now, window))
  }

  /** The two ends of an amount of class `c`: rule 2's fixed factor below and above it. */
  function LowEnd(x: real, c: Class): real {
    x * (1.0 - Width(c))
  }

  function HighEnd(x: real, c: Class): real {
    x * (1.0 + Width(c))
  }

  /** One more node's contribution to a sum of contributions. */
  function Extend(p: Pool, n: CapNode, now: int, window: int): Pool {
    var a := EffectiveClass(n.allocatable, now, window);
    if !Known(n.allocatable) then
      p.(hi := Unbounded, nominalKnown := false, cls := Unknown, hiClass := Unknown)
    else if !Known(n.requested) then
      p.(hi := Plus(p.hi, HighEnd(n.allocatable.value.value, a)), nominalKnown := false,
         cls := Unknown, hiClass := Worse(p.hiClass, a))
    else
      var free := Free(n);
      var c := FreeClass(n, now, window);
      p.(lo := p.lo + LowEnd(free, c),
         hiKnown := p.hiKnown + HighEnd(free, c),
         hi := Plus(p.hi, HighEnd(free, c)),
         knownFree := p.knownFree + free,
         knownNodes := p.knownNodes + 1,
         cls := Worse(p.cls, c),
         loClass := Worse(p.loClass, c),
         hiClass := Worse(p.hiClass, c))
  }

  function SumOf(nodes: seq<CapNode>, now: int, window: int): Pool {
    if nodes == [] then EMPTY_SUM
    else Extend(SumOf(nodes[..|nodes| - 1], now, window), nodes[|nodes| - 1], now, window)
  }

  /** The pool `NewPool` computes; what it means is stated by the possible-worlds lemmas below. */
  function PoolOf(nodes: seq<CapNode>, now: int, window: int): Pool {
    if nodes == [] then NO_NODES
    else
      var p := SumOf(nodes, now, window);
      if p.knownNodes == 0 then p.(loClass := Unknown) else p
  }

  method NewPool(nodes: seq<CapNode>, now: int, window: int) returns (p: Pool)
    ensures p == PoolOf(nodes, now, window)
  {
    if |nodes| == 0 {
      return NO_NODES;
    }
    p := EMPTY_SUM;
    for i := 0 to |nodes|
      invariant p == SumOf(nodes[..i], now, window)
    {
      var n := nodes[i];
      ghost var before := p;
      assert nodes[..i + 1][..i] == nodes[..i];
      var a := EffectiveClass(n.allocatable, now, window);
      var r := EffectiveClass(n.requested, now, window);
      if !Known(n.allocatable) {
        p := p.(hi := Unbounded, nominalKnown := false, cls := Unknown, hiClass := Unknown);
      } else if !Known(n.requested) {
        p := p.(hi := Plus(p.hi, HighEnd(n.allocatable.value.value, a)));
        p := p.(nominalKnown := false, cls := Unknown, hiClass := Worse(p.hiClass, a));
      } else {
        var free := Max(0.0, n.allocatable.value.value - n.requested.value.value);
        var c := Worse(a, r);
        p := p.(lo := p.lo + LowEnd(free, c));
        p := p.(hiKnown := p.hiKnown + HighEnd(free, c), hi := Plus(p.hi, HighEnd(free, c)));
        p := p.(knownFree := p.knownFree + free, knownNodes := p.knownNodes + 1);
        p := p.(cls := Worse(p.cls, c), loClass := Worse(p.loClass, c), hiClass := Worse(p.hiClass, c));
      }
      assert p == Extend(before, n, now, window);
    }
    assert nodes[..|nodes|] == nodes;
    if p.knownNodes == 0 {
      p := p.(loClass := Unknown);
    }
  }

  /* ---------- the fit of a need ---------- */

  function FitVerdict(need: Need, p: Pool): Verdict {
    if need.value.None? then CantTell
    else if need.value.value <= 0.0 then Fits
    else if IsBelow(p.hi, need.value.value) then DoesNotFit
    else if p.lo >= need.value.value then Fits
    else CantTell
  }

  function NeedClass(need: Need): Class {
    if need.value.None? then Unknown else if Rank(need.cls) == 0 then Reported else need.cls
  }

  function FitClass(need: Need, p: Pool): Class {
    if need.value.None? then Unknown
    else if need.value.value <= 0.0 then Reported
    else
      match FitVerdict(need, p)
      case DoesNotFit => Worse(p.hiClass, NeedClass(need))
      case Fits => Worse(p.loClass, NeedClass(need))
      case CantTell => Worse(p.cls, NeedClass(need))
  }

  function ThresholdFits(p: Pool, n: real): real
  {
    if p.knownNodes > 0 && p.knownFree > 0.0 && p.lo > 0.0 then p.knownFree * n / p.lo
    else
      var f := OrElse(Factor(p.loClass), 0.15);
      n / (1.0 - f)
  }

  /** The part of the upper end that does not come from nodes whose free amount is known. */
  function Extra(p: Pool): Amount {
    Plus(p.hi, -p.hiKnown)
  }

  function ThresholdDoesNot(p: Pool, n: real): Option<real> {
    var extra := Extra(p);
    if !IsBelow(extra, n) then None
    else if p.knownNodes > 0 && p.knownFree > 0.0 && p.hiKnown > 0.0 then
      Some(p.knownFree * (n - extra.r) / p.hiKnown)
    else None
  }

  /** The amounts of free capacity at which the verdict would flip. */
  function WouldChange(n: real, p: Pool, v: Verdict): seq<Change> {
    var fitAt := ThresholdFits(p, n);
    var dnf := ThresholdDoesNot(p, n);
    match v
    case Fits => [Change(Below, fitAt, CantTell)]
    case CantTell =>
      if p.knownNodes == 0 || dnf.None? then [Change(AtLeast, fitAt, Fits)]
      else [Change(AtLeast, fitAt, Fits), Change(Below, dnf.value, DoesNotFit)]
    case DoesNotFit =>
      if dnf.None? then []
      else [Change(AtLeast, dnf.value, CantTell), Change(AtLeast, fitAt, Fits)]
  }

  function Fit(need: Need, p: Pool): DimResult {
    var v := FitVerdict(need, p);
    DimResult(v, FitClass(need, p), need, p,
              if need.value.None? || need.value.value <= 0.0 then []
              else WouldChange(need.value.value, p, v))
  }

  /** The pool with the known free capacity scaled to a total of `free`. */
  function ScaledPool(p: Pool, free: real): Pool {
    if p.knownNodes > 0 && p.knownFree > 0.0 then
      var s := free / p.knownFree;
      p.(lo := p.lo * s, hiKnown := p.hiKnown * s, knownFree := free, hi := Plus(Extra(p), p.hiKnown * s))
    else
      var c := if Rank(p.loClass) == 0 then Reported else p.loClass;
      var extra := if p.knownNodes == 0 then Finite(0.0) else Extra(p);
      p.(lo := LowEnd(free, c), hiKnown := HighEnd(free, c), knownFree := free,
         hi := Plus(extra, HighEnd(free, c)),
         nominalKnown := p.nominalKnown || p.knownNodes == 0,
         knownNodes := if p.knownNodes == 0 then 1 else p.knownNodes,
         cls := c, loClass := c, hiClass := c)
  }

  /** The verdict were the free amount `delta` away from a change's threshold. */
  function ApplyChange(r: DimResult, c: Change, delta: real): Verdict {
    FitVerdict(r.need, ScaledPool(r.pool, c.threshold + delta))
  }

  /* ---------- combining parts ---------- */

  /** A definite no wins, then any can't-tell, then fits. */
  function Combined(vs: seq<Verdict>): Verdict {
    if DoesNotFit in vs then DoesNotFit else if CantTell in vs then CantTell else Fits
  }

  method Combine(vs: seq<Verdict>) returns (v: Verdict)
    ensures v == Combined(vs)
  {
    v := Fits;
    for i := 0 to |vs|
      invariant DoesNotFit !in vs[..i]
      invariant v == if CantTell in vs[..i] then CantTell else Fits
    {
      if vs[i] == DoesNotFit {
        return DoesNotFit;
      }
      if vs[i] == CantTell {
        v := CantTell;
      }
    }
  }

  function LevelOf(c: Class): Level {
    match c
    case Measured => High
    case Reported => High
    case Inferred => Medium
    case Guess => Low
    case Unknown => NoConfidence
  }

  function LevelRank(l: Level): nat {
    match l
    case High => 3
    case Medium => 2
    case Low => 1
    case NoConfidence => 0
  }

  function WeakerLevel(a: Level, b: Level): Level {
    if LevelRank(a) <= LevelRank(b) then a else b
  }

  function DimVerdicts(dims: seq<DimResult>): seq<Verdict> {
    seq(|dims|, i requires 0 <= i < |dims| => dims[i].verdict)
  }

  function CheckVerdicts(checks: seq<Check>): seq<Verdict> {
    seq(|checks|, i requires 0 <= i < |checks| => checks[i].verdict)
  }

  function OverallVerdict(dims: seq<DimResult>, checks: seq<Check>): Verdict {
    Combined(DimVerdicts(dims) + CheckVerdicts(checks))
  }

  /** The classes of the parts that share the combined verdict: the parts that decide it. */
  function DecidingClasses(dims: seq<DimResult>, checks: seq<Check>, v: Verdict): set<Class> {
    (set d | d in dims && d.verdict == v :: d.cls) + (set c | c in checks && c.verdict == v :: c.cls)
  }

  predicate IsWeakestOf(c: Class, cs: set<Class>) {
    c in cs && forall d | d in cs :: Rank(c) <= Rank(d)
  }

  function ChangesOf(dims: seq<DimResult>, v: Verdict): seq<Change> {
    if dims == [] then []
    else ChangesOf(dims[..|dims| - 1], v) + (if dims[|dims| - 1].verdict == v then dims[|dims| - 1].changes else [])
  }

  /** The changes that are listed are those of the parts that share the verdict. */
  lemma {:induction false} ChangesAre(dims: seq<DimResult>, v: Verdict)
    ensures forall c :: c in ChangesOf(dims, v) <==> exists d | d in dims :: d.verdict == v && c in d.changes
  {
    if dims != [] {
      var k := |dims| - 1;
      ChangesAre(dims[..k], v);
      assert dims == dims[..k] + [dims[k]];
    }
  }

  lemma WeakestGrows(c: Class, cs: set<Class>, d: Class)
    requires IsWeakestOf(c, cs)
    ensures IsWeakestOf(Worse(c, d), cs + {d})
  {
  }

  lemma DecidingGrowsByDim(dims: seq<DimResult>, i: nat, v: Verdict)
    requires i < |dims|
    ensures DecidingClasses(dims[..i + 1], [], v)
            == DecidingClasses(dims[..i], [], v) + if dims[i].verdict == v then {dims[i].cls} else {}
  {
    assert dims[..i + 1] == dims[..i] + [dims[i]];
  }

  lemma DecidingGrowsByCheck(dims: seq<DimResult>, checks: seq<Check>, i: nat, v: Verdict)
    requires i < |checks|
    ensures DecidingClasses(dims, checks[..i + 1], v)
            == DecidingClasses(dims, checks[..i], v) + if checks[i].verdict == v then {checks[i].cls} else {}
  {
    assert checks[..i + 1] == checks[..i] + [checks[i]];
  }

  /** The weakest of the classes so far, with one more part. */
  function WithPart(cls: Class, shares: bool, part: Class): Class {
    if shares then Worse(cls, part) else cls
  }

  lemma ClassWithDim(dims: seq<DimResult>, i: nat, v: Verdict, cls: Class)
    requires i < |dims| && IsWeakestOf(cls, {Reported} + DecidingClasses(dims[..i], [], v))
    ensures IsWeakestOf(WithPart(cls, dims[i].verdict == v, dims[i].cls),
                        {Reported} + DecidingClasses(dims[..i + 1], [], v))
  {
    var before := {Reported} + DecidingClasses(dims[..i], [], v);
    DecidingGrowsByDim(dims, i, v);
    WeakestGrows(cls, before, dims[i].cls);
    assert {Reported} + DecidingClasses(dims[..i + 1], [], v)
        == if dims[i].verdict == v then before + {dims[i].cls} else before;
  }

  lemma ClassWithCheck(dims: seq<DimResult>, checks: seq<Check>, i: nat, v: Verdict, cls: Class)
    requires i < |checks| && IsWeakestOf(cls, {Reported} + DecidingClasses(dims, checks[..i], v))
    ensures IsWeakestOf(WithPart(cls, checks[i].verdict == v, checks[i].cls),
                        {Reported} + DecidingClasses(dims, checks[..i + 1], v))
  {
    var before := {Reported} + DecidingClasses(dims, checks[..i], v);
    DecidingGrowsByCheck(dims, checks, i, v);
    WeakestGrows(cls, before, checks[i].cls);
    assert {Reported} + DecidingClasses(dims, checks[..i + 1], v)
        == if checks[i].verdict == v then before + {checks[i].cls} else before;
  }

  predicate IsAssessment(a: Judgement, dims: seq<DimResult>, checks: seq<Check>) {
    && a.verdict == OverallVerdict(dims, checks)
    && IsWeakestOf(a.cls, {Reported} + DecidingClasses(dims, checks, a.verdict))
    && (a.verdict != CantTell ==> a.confidence == LevelOf(a.cls))
    && (a.verdict == CantTell ==> a.confidence == if a.cls == Unknown then NoConfidence else Low)
    && a.changes == ChangesOf(dims, a.verdict)
  }

  /**
   Rule 6 and rule 7: the verdict by severity, the class the weakest among the deciding parts and
   "reported", and a can't-tell never trusted above low.
   */
  method Assess(dims: seq<DimResult>, checks: seq<Check>) returns (a: Judgement)
    ensures IsAssessment(a, dims, checks)
  {
    var verdict := Combine(DimVerdicts(dims) + CheckVerdicts(checks));
    var cls := Reported;
    for i := 0 to |dims|
      invariant IsWeakestOf(cls, {Reported} + DecidingClasses(dims[..i], [], verdict))
    {
      ClassWithDim(dims, i, verdict, cls);
      if dims[i].verdict == verdict {
        cls := Worse(cls, dims[i].cls);
      }
    }
    assert dims[..|dims|] == dims;
    for i := 0 to |checks|
      invariant IsWeakestOf(cls, {Reported} + DecidingClasses(dims, checks[..i], verdict))
    {
      ClassWithCheck(dims, checks, i, verdict, cls);
      if checks[i].verdict == verdict {
        cls := Worse(cls, checks[i].cls);
      }
    }
    assert checks[..|checks|] == checks;
    var confidence := LevelOf(cls);
    if verdict == CantTell {
      confidence := WeakerLevel(confidence, Low);
    }
    var changes := [];
    for i := 0 to |dims|
      invariant changes == ChangesOf(dims[..i], verdict)
    {
      assert dims[..i + 1][..i] == dims[..i];
      if dims[i].verdict == verdict {
        changes := changes + dims[i].changes;
      }
    }
    assert dims[..|dims|] == dims;
    a := Judgement(verdict, cls, confidence, changes);
  }
}
