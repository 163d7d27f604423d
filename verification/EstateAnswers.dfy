/**
 What the answers for all targets mean in the model: one for every other cluster that still exists,
 each right in every truth, and exact but where an architecture or a zone is left open.
 */
module EstateAnswers {
  import opened Options
  import opened Advice
  import opened Capacity
  import opened Movability
  import opened TargetWorlds
  import opened TargetExactness
  import opened MovedTargets
  import opened Thinning
  import opened Estate

  /* ---------- a move works in a truth exactly when it works in its world ---------- */

  lemma RunsWhere(w: Workload, m: MoveModel, c: Cluster, n: MachineNode, arch: string)
    requires arch != ""
    ensures Hosts(n, arch, CaseOf(w, m, c).wanted) <==> CanRun(w, n, arch)
  {
    var wanted := CaseOf(w, m, c).wanted;
    forall k | k in wanted
      ensures Carries(n, arch, k, wanted[k])
              <==> k in NodeLabels(n.(arch := Some(arch))) && NodeLabels(n.(arch := Some(arch)))[k] == wanted[k]
    {
      CarriesIs(n, arch, k, wanted[k]);
    }
    assert forall k :: k in wanted <==> k in w.nodeSelector && k != "kubernetes.io/hostname";
  }

  lemma PickPrefix<T>(at: seq<nat>, xs: seq<T>, k: nat)
    requires k <= |xs| && forall j | 0 <= j < |at| :: at[j] < k
    ensures Pick(at, xs[..k]) == Pick(at, xs)
  {
  }

  lemma PickSnoc<T>(at: seq<nat>, k: nat, xs: seq<T>)
    requires k < |xs| && forall j | 0 <= j < |at| :: at[j] < |xs|
    ensures Pick(at + [k], xs) == Pick(at, xs) + [xs[k]]
  {
  }

  lemma KeptMore(nodes: seq<MachineNode>, id: string)
    requires nodes != []
    ensures var k := |nodes| - 1;
            var before := Kept(nodes[..k], AtTest(id));
            Kept(nodes, AtTest(id)) == if IsAt(nodes[k], id) then before + [k] else before
  {
  }

  lemma PickMore<T>(nodes: seq<MachineNode>, id: string, xs: seq<T>)
    requires nodes != [] && |xs| == |nodes|
    ensures var k := |nodes| - 1;
            var before := Pick(Kept(nodes[..k], AtTest(id)), xs[..k]);
            Pick(Kept(nodes, AtTest(id)), xs) == if IsAt(nodes[k], id) then before + [xs[k]] else before
  {
    var k := |nodes| - 1;
    var before := Kept(nodes[..k], AtTest(id));
    KeptMore(nodes, id);
    PickPrefix(before, xs, k);
    PickSnoc(before, k, xs);
  }

  lemma HostedMore(ns: seq<MachineNode>, n: MachineNode, archs: seq<string>, arch: string, wanted: map<string, string>,
                   ts: seq<real>, t: real)
    requires |archs| == |ts| == |ns|
    ensures Hosted(ns + [n], archs + [arch], wanted, ts + [t])
            == Hosted(ns, archs, wanted, ts) + if Hosts(n, arch, wanted) then t else 0.0
  {
    assert (ns + [n])[..|ns|] == ns && (archs + [arch])[..|ns|] == archs && (ts + [t])[..|ns|] == ts;
  }

  predicate HostAlike(w: Workload, id: string, wanted: map<string, string>, nodes: seq<MachineNode>, arch: seq<string>)
    requires |arch| == |nodes|
  {
    forall i | 0 <= i < |nodes| && IsAt(nodes[i], id) ::
      Hosts(nodes[i], arch[i], wanted) <==> CanRun(w, nodes[i], arch[i])
  }

  lemma {:induction false} FreeAgrees(w: Workload, id: string, wanted: map<string, string>, nodes: seq<MachineNode>,
                                      arch: seq<string>, ts: seq<real>)
    requires |arch| == |ts| == |nodes| && HostAlike(w, id, wanted, nodes, arch)
    ensures var at := Kept(nodes, AtTest(id));
            && |at| == |NodesAt(nodes, id)|
            && Hosted(NodesAt(nodes, id), Pick(at, arch), wanted, Pick(at, ts)) == FreeOn(w, nodes, id, arch, ts)
  {
    NodesAtAre(nodes, id);
    if nodes != [] {
      var k := |nodes| - 1;
      var before := Kept(nodes[..k], AtTest(id));
      FreeAgrees(w, id, wanted, nodes[..k], arch[..k], ts[..k]);
      PickMore(nodes, id, arch);
      PickMore(nodes, id, ts);
      if IsAt(nodes[k], id) {
        HostedMore(NodesAt(nodes[..k], id), nodes[k], Pick(before, arch[..k]), arch[k], wanted,
                   Pick(before, ts[..k]), ts[k]);
      }
    }
  }

  lemma NodesThere(m: MoveModel, c: Cluster)
    ensures HasNodes(m, c) <==> NodesAt(m.nodes, c.id) != []
  {
    NodesAtAre(m.nodes, c.id);
    ThinsIn(m.nodes, NodesAt(m.nodes, c.id), AtTest(c.id));
    if NodesAt(m.nodes, c.id) != [] {
      assert NodesAt(m.nodes, c.id)[0] in NodesAt(m.nodes, c.id);
    }
  }

  lemma TrueFreeAgrees(w: Workload, m: MoveModel, c: Cluster, x: Truth)
    requires HasSize(m, x) && IsTrue(w, m, c, x) && IsPossible(CaseOf(w, m, c), WorldOf(w, m, c, x))
    ensures TrueFree(CaseOf(w, m, c), WorldOf(w, m, c, x), Cpu) == FreeCores(w, m, c, x)
    ensures TrueFree(CaseOf(w, m, c), WorldOf(w, m, c, x), Memory) == FreeBytes(w, m, c, x)
  {
    var wanted := CaseOf(w, m, c).wanted;
    NodesThere(m, c);
    forall i | 0 <= i < |m.nodes| && IsAt(m.nodes[i], c.id)
      ensures Hosts(m.nodes[i], x.arch[i], wanted) <==> CanRun(w, m.nodes[i], x.arch[i])
    {
      RunsWhere(w, m, c, m.nodes[i], x.arch[i]);
    }
    FreeAgrees(w, c.id, wanted, m.nodes, x.arch, x.cores);
    FreeAgrees(w, c.id, wanted, m.nodes, x.arch, x.bytes);
  }

  lemma SomeHostAgrees(w: Workload, m: MoveModel, c: Cluster, x: Truth)
    requires HasSize(m, x) && IsTrue(w, m, c, x) && IsPossible(CaseOf(w, m, c), WorldOf(w, m, c, x))
    ensures SomeHost(CaseOf(w, m, c), WorldOf(w, m, c, x))
            <==> (HasNodes(m, c) ==>
                    exists i | 0 <= i < |m.nodes| :: IsAt(m.nodes[i], c.id) && CanRun(w, m.nodes[i], x.arch[i]))
  {
    NodesThere(m, c);
    NodesAtAre(m.nodes, c.id);
    var k, y, at := CaseOf(w, m, c), WorldOf(w, m, c, x), Kept(m.nodes, AtTest(c.id));
    forall j | 0 <= j < |k.nodes|
      ensures Hosts(k.nodes[j], y.arch[j], k.wanted) <==> CanRun(w, m.nodes[at[j]], x.arch[at[j]])
    {
      assert Resolves(k.nodes[j].arch, y.arch[j]);
      RunsWhere(w, m, c, k.nodes[j], y.arch[j]);
    }
    if i :| 0 <= i < |m.nodes| && IsAt(m.nodes[i], c.id) && CanRun(w, m.nodes[i], x.arch[i]) {
      assert i in at;
      var j :| 0 <= j < |at| && at[j] == i;
      assert Hosts(k.nodes[j], y.arch[j], k.wanted);
    }
    if j :| 0 <= j < |k.nodes| && Hosts(k.nodes[j], y.arch[j], k.wanted) {
      assert IsAt(m.nodes[at[j]], c.id) && CanRun(w, m.nodes[at[j]], x.arch[at[j]]);
    }
  }

  lemma DemandsAgree(w: Workload, m: MoveModel, c: Cluster, x: Truth)
    requires HasSize(m, x) && IsTrue(w, m, c, x) && IsPossible(CaseOf(w, m, c), WorldOf(w, m, c, x))
    ensures DemandsHold(CaseOf(w, m, c), WorldOf(w, m, c, x)) <==> MayMove(w, m, c, x)
  {
    var k, y := CaseOf(w, m, c), WorldOf(w, m, c, x);
    SettingsAre(w, m, c);
    SomeHostAgrees(w, m, c, x);
    assert k.restricted == StaysInPlace(w) && k.daemonSet == w.daemonSet && k.live == c.live;
    assert y.residency == x.residency && y.zone == x.zone;
    if k.fromZone.Some? {
      TrustIs(x.zone, k.fromZone.value);
    }
  }

  lemma TrustIs(there: TrustZone, here: TrustZone)
    ensures AsTrusted(there, here) <==> ZoneRank(there) >= ZoneRank(here)
  {
  }

  lemma WorksAgrees(w: Workload, m: MoveModel, c: Cluster, x: Truth)
    requires HasSize(m, x) && IsTrue(w, m, c, x) && IsPossible(CaseOf(w, m, c), WorldOf(w, m, c, x))
    ensures Passes(CaseOf(w, m, c), WorldOf(w, m, c, x)) <==> MoveWorks(w, m, c, x)
  {
    DemandsAgree(w, m, c, x);
    TrueFreeAgrees(w, m, c, x);
  }

  /* ---------- every world comes from a truth ---------- */

  /** The values at the given positions, and `other` elsewhere. */
  ghost function Spread<T>(at: seq<nat>, ys: seq<T>, size: nat, other: T): (xs: seq<T>)
    requires |at| == |ys|
    ensures |xs| == size
  {
    seq(size, i requires 0 <= i < size => if i in at then var j :| 0 <= j < |at| && at[j] == i; ys[j] else other)
  }

  lemma PickSpread<T>(at: seq<nat>, ys: seq<T>, size: nat, other: T)
    requires |at| == |ys|
    requires forall j | 0 <= j < |at| :: at[j] < size
    requires forall i, j | 0 <= i < j < |at| :: at[i] < at[j]
    ensures Pick(at, Spread(at, ys, size, other)) == ys
  {
    forall j | 0 <= j < |at|
      ensures Spread(at, ys, size, other)[at[j]] == ys[j]
    {
      assert at[j] in at;
    }
  }

  ghost function TruthOf(m: MoveModel, c: Cluster, y: World): (x: Truth)
    requires |y.arch| == |y.cpu| == |y.memory| == |NodesAt(m.nodes, c.id)|
    requires |Kept(m.nodes, AtTest(c.id))| == |NodesAt(m.nodes, c.id)|
    ensures HasSize(m, x)
  {
    var at, size := Kept(m.nodes, AtTest(c.id)), |m.nodes|;
    Truth(Spread(at, y.arch, size, ""), Spread(at, y.cpu, size, 0.0), Spread(at, y.memory, size, 0.0),
          y.restCpu, y.restMemory, y.cpuNeed, y.memoryNeed, y.residency, y.zone)
  }

  lemma WorldComesFromTruth(w: Workload, m: MoveModel, c: Cluster, y: World) returns (x: Truth)
    requires IsPossible(CaseOf(w, m, c), y)
    ensures HasSize(m, x) && IsTrue(w, m, c, x) && WorldOf(w, m, c, x) == y
  {
    NodesAtAre(m.nodes, c.id);
    x := TruthOf(m, c, y);
    var at, size := Kept(m.nodes, AtTest(c.id)), |m.nodes|;
    PickSpread(at, y.arch, size, "");
    PickSpread(at, y.cpu, size, 0.0);
    PickSpread(at, y.memory, size, 0.0);
    TruthIsPossible(w, m, c, x);
  }

  ghost predicate AlwaysWorks(w: Workload, m: MoveModel, c: Cluster) {
    forall x | HasSize(m, x) && IsTrue(w, m, c, x) :: MoveWorks(w, m, c, x)
  }

  ghost predicate NeverWorks(w: Workload, m: MoveModel, c: Cluster) {
    forall x | HasSize(m, x) && IsTrue(w, m, c, x) :: !MoveWorks(w, m, c, x)
  }

  lemma WorksInAllAlike(w: Workload, m: MoveModel, c: Cluster)
    ensures AlwaysWorks(w, m, c) <==> forall y | IsPossible(CaseOf(w, m, c), y) :: Passes(CaseOf(w, m, c), y)
    ensures NeverWorks(w, m, c) <==> WorksInNoWorld(CaseOf(w, m, c))
  {
    var k := CaseOf(w, m, c);
    forall x | HasSize(m, x) && IsTrue(w, m, c, x)
      ensures IsPossible(k, WorldOf(w, m, c, x)) && (Passes(k, WorldOf(w, m, c, x)) <==> MoveWorks(w, m, c, x))
    {
      TruthIsPossible(w, m, c, x);
      WorksAgrees(w, m, c, x);
    }
    forall y | IsPossible(k, y)
      ensures exists x :: HasSize(m, x) && IsTrue(w, m, c, x) && (Passes(k, y) <==> MoveWorks(w, m, c, x))
    {
      var x := WorldComesFromTruth(w, m, c, y);
      WorksAgrees(w, m, c, x);
    }
  }

  /* ---------- the answers ---------- */

  /** No node claims to offer less than nothing. */
  predicate SaneEstate(m: MoveModel) {
    forall n | n in m.nodes ::
      && (n.cpuAllocatable.Some? ==> n.cpuAllocatable.value >= 0.0)
      && (n.memoryGbAllocatable.Some? ==> n.memoryGbAllocatable.value >= 0.0)
  }

  lemma SaneEverywhere(w: Workload, m: MoveModel, c: Cluster)
    requires SaneEstate(m)
    ensures SaneCase(CaseOf(w, m, c))
  {
    NodesAtAre(m.nodes, c.id);
    ThinsIn(m.nodes, NodesAt(m.nodes, c.id), AtTest(c.id));
  }

  function OtherTest(w: Workload): Cluster -> bool {
    (c: Cluster) => !c.deleted && c.id != w.clusterId
  }

  lemma {:induction false} OthersAre(cs: seq<Cluster>, w: Workload)
    ensures Thins(cs, Others(cs, w.clusterId), OtherTest(w))
  {
    if cs != [] {
      var k := |cs| - 1;
      OthersAre(cs[..k], w);
      ThinsMore(cs, Others(cs[..k], w.clusterId), Others(cs, w.clusterId), OtherTest(w));
    }
  }

  predicate Names(c: Cluster, t: Target) {
    t.clusterId == c.id && t.live == c.live
  }

  /** There is one target for each other cluster that still exists, in order. */
  lemma OneTargetEach(w: Workload, m: MoveModel, out: seq<Target>)
    requires AllAnswer(out, Others(m.clusters, w.clusterId), w, m)
    ensures ThinsTo(m.clusters, out, OtherTest(w), Names)
  {
    OthersAre(m.clusters, w);
  }

  /** In every truth a target said to fit works, and one said not to fit does not. */
  lemma EveryTargetIsRight(w: Workload, m: MoveModel, out: seq<Target>, j: nat, x: Truth)
    requires AllAnswer(out, Others(m.clusters, w.clusterId), w, m) && j < |out|
    requires HasSize(m, x)
    ensures var c, v := Others(m.clusters, w.clusterId)[j], out[j].judgement.verdict;
            IsTrue(w, m, c, x) ==>
              && (v == Fits ==> MoveWorks(w, m, c, x))
              && (v == DoesNotFit ==> !MoveWorks(w, m, c, x))
  {
    var c := Others(m.clusters, w.clusterId)[j];
    assert Answers(out[j], c, CaseOf(w, m, c));
    if IsTrue(w, m, c, x) {
      var k, y := CaseOf(w, m, c), WorldOf(w, m, c, x);
      TruthIsPossible(w, m, c, x);
      WorksAgrees(w, m, c, x);
      if TargetVerdict(k) == Fits {
        FitsIsSound(k, y);
      } else if TargetVerdict(k) == DoesNotFit {
        DoesNotFitIsSound(k, y);
      }
    }
  }

  /** Unless a public workload meets a zone that is not set, "fits" is said exactly when the move always works. */
  lemma FitsExactlyWhenItAlwaysWorks(w: Workload, m: MoveModel, c: Cluster)
    requires SaneEstate(m)
    requires !(Zone(m, Home(w, m)) == Some(Public) && Zone(m, Some(c)).None?)
    ensures TargetVerdict(CaseOf(w, m, c)) == Fits <==> AlwaysWorks(w, m, c)
  {
    SettingsAre(w, m, c);
    SaneEverywhere(w, m, c);
    FitsIsExact(CaseOf(w, m, c));
    WorksInAllAlike(w, m, c);
  }

  /** For a workload that asks for no architecture, "does not fit" is said exactly when the move never works. */
  lemma NoExactlyWhenItNeverWorks(w: Workload, m: MoveModel, c: Cluster)
    requires SaneEstate(m)
    requires "kubernetes.io/arch" !in w.nodeSelector && "beta.kubernetes.io/arch" !in w.nodeSelector
    ensures TargetVerdict(CaseOf(w, m, c)) == DoesNotFit <==> NeverWorks(w, m, c)
  {
    var k := CaseOf(w, m, c);
    SaneEverywhere(w, m, c);
    NoIsExactExactlyWhen(k.wanted);
    assert !NamesArch(k.wanted) && NoIsExact(k);
    WorksInAllAlike(w, m, c);
  }

  /* ---------- a plan ---------- */

  /** One workload arrives and takes what all its replicas ask for, or leaves and gives that back. */
  predicate Shifts(t: real, m: Move, request: Option<real>, each: real, u: real) {
    match m
    case In(l) => if IsAsked(request) then u == t - Together(Copies(l), each) else u <= t
    case Out(l) => u == if IsAsked(request) then t + Together(Copies(l), each) else t
  }

  predicate ShiftsDim(dim: Dim, t: real, m: Move, u: real) {
    if dim == Cpu then Shifts(t, m, m.load.cpuRequestM, CoresEach(m.load), u)
    else Shifts(t, m, m.load.memRequestMi, BytesEach(m.load), u)
  }

  /** What is free before and after each move. */
  ghost predicate Course(dim: Dim, moves: seq<Move>, ts: seq<real>) {
    |ts| == |moves| + 1 && forall i | 0 <= i < |moves| :: ShiftsDim(dim, ts[i], moves[i], ts[i + 1])
  }

  lemma ShiftIsDelta(dim: Dim, t: real, m: Move, u: real)
    requires ShiftsDim(dim, t, m, u)
    ensures var ds := DeltaOf(m, NeedFor(dim, m.load));
            |ds| <= 1 && if ds == [] then u == t else FollowsPlainly(t, ds[0], u)
  {
    NeedsAreTogether(m.load);
  }

  lemma {:induction false} CourseIsTrack(dim: Dim, moves: seq<Move>, ts: seq<real>) returns (us: seq<real>)
    requires Course(dim, moves, ts)
    ensures IsPlainTrack(Deltas(dim, moves), us) && us[0] == ts[0] && us[|us| - 1] == ts[|moves|]
  {
    us := [ts[0]];
    if moves != [] {
      var k := |moves| - 1;
      us := CourseIsTrack(dim, moves[..k], ts[..k + 1]);
      DeltasSnoc(dim, moves);
      assert ShiftsDim(dim, ts[k], moves[k], ts[k + 1]);
      ShiftIsDelta(dim, ts[k], moves[k], ts[k + 1]);
      var ds := DeltaOf(moves[k], NeedFor(dim, moves[k].load));
      if ds != [] {
        TrackGrows(Deltas(dim, moves[..k]), us, ds[0], ts[k + 1]);
        assert ds == [ds[0]];
        us := us + [ts[k + 1]];
      }
    }
  }

  lemma TrackGrows(ds: seq<Delta>, us: seq<real>, d: Delta, u: real)
    requires IsPlainTrack(ds, us) && FollowsPlainly(us[|us| - 1], d, u)
    ensures IsPlainTrack(ds + [d], us + [u])
  {
    forall i | 0 <= i < |ds + [d]|
      ensures FollowsPlainly((us + [u])[i], (ds + [d])[i], (us + [u])[i + 1])
    {
      assert i < |ds| ==> FollowsPlainly(us[i], ds[i], us[i + 1]);
    }
  }

  lemma PlanOfWorld(k: Case, y: World, moves: seq<Move>, cores: seq<real>, bytes: seq<real>)
    requires SaneCase(k) && IsPossible(k, y)
    requires Course(Cpu, moves, cores) && cores[0] == TrueFree(k, y, Cpu)
    requires Course(Memory, moves, bytes) && bytes[0] == TrueFree(k, y, Memory)
    ensures var v := VerdictWithMoves(k, moves);
            var works := DemandsHold(k, y) && y.cpuNeed <= cores[|moves|] && y.memoryNeed <= bytes[|moves|];
            (v == Fits && LeavesFirst(moves) ==> works) && (v == DoesNotFit ==> !works)
  {
    var us := CourseIsTrack(Cpu, moves, cores);
    var vs := CourseIsTrack(Memory, moves, bytes);
    PlanIsSound(k, y, moves, us, vs);
  }

  ghost predicate WorksThen(w: Workload, m: MoveModel, c: Cluster, x: Truth, cores: real, bytes: real)
    requires HasSize(m, x)
  {
    MayMove(w, m, c, x) && x.coresNeeded <= cores && x.bytesNeeded <= bytes
  }

  /**
   After other workloads moved in and out: "does not fit" is right in every truth, and so is "fits"
   when what leaves leaves first.
   */
  lemma PlanIsRight(w: Workload, m: MoveModel, c: Cluster, x: Truth, moves: seq<Move>,
                    cores: seq<real>, bytes: seq<real>)
    requires SaneEstate(m) && HasSize(m, x) && IsTrue(w, m, c, x)
    requires Course(Cpu, moves, cores) && cores[0] == FreeCores(w, m, c, x)
    requires Course(Memory, moves, bytes) && bytes[0] == FreeBytes(w, m, c, x)
    ensures VerdictWithMoves(CaseOf(w, m, c), moves) == Fits && LeavesFirst(moves) ==>
              WorksThen(w, m, c, x, cores[|moves|], bytes[|moves|])
    ensures VerdictWithMoves(CaseOf(w, m, c), moves) == DoesNotFit ==>
              !WorksThen(w, m, c, x, cores[|moves|], bytes[|moves|])
  {
    SaneEverywhere(w, m, c);
    TruthIsPossible(w, m, c, x);
    DemandsAgree(w, m, c, x);
    TrueFreeAgrees(w, m, c, x);
    PlanOfWorld(CaseOf(w, m, c), WorldOf(w, m, c, x), moves, cores, bytes);
  }
}
