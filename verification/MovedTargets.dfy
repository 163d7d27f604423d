/**
 The answer for a target after what-if moves, in every world: the true free amount is tracked
 through the moves, and the answer is right about what they leave.
 */
module MovedTargets {
  import opened Advice
  import opened Capacity
  import opened Movability
  import opened TargetWorlds
  import opened TargetExactness

  function Deltas(dim: Dim, moves: seq<Move>): seq<Delta> {
    if dim == Cpu then CpuDeltas(moves) else MemoryDeltas(moves)
  }

  /** The true free amount before and after each move that matters to a dimension, with the floor at zero. */
  ghost predicate Tracks(k: Case, w: World, dim: Dim, moves: seq<Move>, ts: seq<real>)
    requires IsPossible(k, w)
  {
    IsTrack(Deltas(dim, moves), ts) && ts[0] == TrueFree(k, w, dim)
  }

  /** The move works in this world on what the other moves leave. */
  ghost predicate WorksAfter(k: Case, w: World, cpu: seq<real>, memory: seq<real>)
    requires IsPossible(k, w) && cpu != [] && memory != []
  {
    DemandsHold(k, w) && w.cpuNeed <= cpu[|cpu| - 1] && w.memoryNeed <= memory[|memory| - 1]
  }

  lemma NoneHosts(k: Case, w: World, dim: Dim)
    requires IsPossible(k, w) && HostingPool(k) == [] && k.nodes != []
    ensures TrueFree(k, w, dim) == 0.0
  {
    var ts := w.Free(dim);
    PoolIsSplit(k);
    AmountsAllowed(k, dim, k.nodes, w.arch, ts);
    HostedSplits(k.nodes, w.arch, k.wanted, ts);
    assert Definites(k.nodes, k.wanted) == [] && Possibles(k.nodes, k.wanted) == [];
    assert DefiniteAmounts(k.nodes, k.wanted, ts) == [] && PossibleAmounts(k.nodes, w.arch, k.wanted, ts) == [];
  }

  /** Before any move the pool encloses what is really free. */
  lemma StartsEnclosed(k: Case, w: World, dim: Dim)
    requires SaneCase(k) && IsPossible(k, w)
    ensures Encloses(DimPool(k, dim), TrueFree(k, w, dim))
  {
    LowInside(dim, k);
    if HostingPool(k) != [] {
      PoolEnclosesHosted(k, w, dim);
    } else {
      assert Facts(dim, HostingPool(k), k.ctx) == [];
      if k.nodes != [] {
        NoneHosts(k, w, dim);
      }
    }
  }

  lemma MovedDimIsSound(k: Case, w: World, dim: Dim, moves: seq<Move>, ts: seq<real>)
    requires SaneCase(k) && IsPossible(k, w) && Tracks(k, w, dim, moves, ts)
    ensures var v := FitVerdict(NeedFor(dim, k.load), AdjustedBy(DimPool(k, dim), Deltas(dim, moves)));
            && (v == Fits ==> w.Needed(dim) <= ts[|ts| - 1])
            && (v == DoesNotFit ==> ts[|ts| - 1] < w.Needed(dim))
  {
    StartsEnclosed(k, w, dim);
    if NeedFor(dim, k.load).value.Some? {
      MovesStaySound(DimPool(k, dim), Deltas(dim, moves), ts, NeedFor(dim, k.load));
    }
  }

  lemma MovedParts(k: Case, moves: seq<Move>, v: Verdict)
    ensures v in DimVerdicts(JudgedDims(k.load, AdjustedPools(TargetPools(k), moves)))
            + CheckVerdicts(LiveCheck(k.live) + ChecksOf(k))
            <==> v in MovedVerdicts(k, moves) || ChecksSay(LiveCheck(k.live) + ChecksOf(k), v)
  {
    DimsWithMoves(k, moves);
    ChecksIn(LiveCheck(k.live) + ChecksOf(k), v);
    VerdictIn(MovedVerdicts(k, moves), CheckVerdicts(LiveCheck(k.live) + ChecksOf(k)), v);
  }

  lemma MovedVerdictsAre(k: Case, moves: seq<Move>, v: Verdict)
    ensures v in MovedVerdicts(k, moves) <==>
            || FitVerdict(NeedFor(Cpu, k.load), AdjustedBy(DimPool(k, Cpu), Deltas(Cpu, moves))) == v
            || FitVerdict(NeedFor(Memory, k.load), AdjustedBy(DimPool(k, Memory), Deltas(Memory, moves))) == v
  {
    var vs := MovedVerdicts(k, moves);
    assert vs[0] in vs && vs[1] in vs;
  }

  /** After any what-if moves "fits" works in every world, and "does not fit" in none. */
  lemma MovedTargetIsSound(k: Case, w: World, moves: seq<Move>, cpu: seq<real>, memory: seq<real>)
    requires SaneCase(k) && IsPossible(k, w)
    requires Tracks(k, w, Cpu, moves, cpu) && Tracks(k, w, Memory, moves, memory)
    ensures VerdictWithMoves(k, moves) == Fits ==> WorksAfter(k, w, cpu, memory)
    ensures VerdictWithMoves(k, moves) == DoesNotFit ==> !WorksAfter(k, w, cpu, memory)
  {
    MovedParts(k, moves, DoesNotFit);
    MovedParts(k, moves, CantTell);
    MovedVerdictsAre(k, moves, DoesNotFit);
    MovedVerdictsAre(k, moves, CantTell);
    MovedDimIsSound(k, w, Cpu, moves, cpu);
    MovedDimIsSound(k, w, Memory, moves, memory);
    ChecksAreSound(k, w);
  }

  /* ---------- against what is really left, without the floor ---------- */

  /** The true free amount before and after each move that matters, without a floor. */
  ghost predicate PlainlyTracks(k: Case, w: World, dim: Dim, moves: seq<Move>, ts: seq<real>)
    requires IsPossible(k, w)
  {
    IsPlainTrack(Deltas(dim, moves), ts) && ts[0] == TrueFree(k, w, dim)
  }

  /** What is planned to leave leaves before anything arrives. */
  predicate LeavesFirst(moves: seq<Move>) {
    forall i, j | 0 <= i < j < |moves| :: moves[i].In? ==> moves[j].In?
  }

  predicate OnlyArrives(ds: seq<Delta>) {
    forall d | d in ds :: !Departs(d)
  }

  lemma DeltaArrives(m: Move, dim: Dim)
    ensures m.In? ==> forall d | d in DeltaOf(m, NeedFor(dim, m.load)) :: Arrives(d)
    ensures m.Out? ==> forall d | d in DeltaOf(m, NeedFor(dim, m.load)) :: Departs(d)
    ensures |DeltaOf(m, NeedFor(dim, m.load))| <= 1
  {
    NeedsArePositive(m.load);
  }

  lemma DeltasSnoc(dim: Dim, moves: seq<Move>)
    requires moves != []
    ensures var k := |moves| - 1;
            Deltas(dim, moves) == Deltas(dim, moves[..k]) + DeltaOf(moves[k], NeedFor(dim, moves[k].load))
  {
  }

  lemma {:induction false} NothingArrived(dim: Dim, moves: seq<Move>)
    requires forall m | m in moves :: m.Out?
    ensures forall d | d in Deltas(dim, moves) :: !Arrives(d)
  {
    if moves != [] {
      var k := |moves| - 1;
      assert moves[k] in moves;
      NothingArrived(dim, moves[..k]);
      DeltasSnoc(dim, moves);
      DeltaArrives(moves[k], dim);
    }
  }

  lemma DeparturesFirstSnoc(ds: seq<Delta>, last: seq<Delta>)
    requires DeparturesFirst(ds) && |last| <= 1
    requires OnlyArrives(last) || forall d | d in ds :: !Arrives(d)
    ensures DeparturesFirst(ds + last)
  {
    forall i, j | 0 <= i < j < |ds + last| && Arrives((ds + last)[i])
      ensures !Departs((ds + last)[j])
    {
      assert i < |ds| ==> ds[i] in ds;
      assert j >= |ds| ==> last[j - |ds|] in last;
    }
  }

  lemma {:induction false} LeavesFirstDeltas(dim: Dim, moves: seq<Move>)
    requires LeavesFirst(moves)
    ensures DeparturesFirst(Deltas(dim, moves))
  {
    if moves != [] {
      var k := |moves| - 1;
      LeavesFirstDeltas(dim, moves[..k]);
      DeltasSnoc(dim, moves);
      DeltaArrives(moves[k], dim);
      if moves[k].Out? {
        forall m | m in moves[..k]
          ensures m.Out?
        {
          var i :| 0 <= i < k && moves[i] == m;
        }
        NothingArrived(dim, moves[..k]);
      }
      DeparturesFirstSnoc(Deltas(dim, moves[..k]), DeltaOf(moves[k], NeedFor(dim, moves[k].load)));
    }
  }

  lemma PlainDimIsSound(k: Case, w: World, dim: Dim, moves: seq<Move>, ts: seq<real>)
    requires SaneCase(k) && IsPossible(k, w) && PlainlyTracks(k, w, dim, moves, ts)
    ensures var v := FitVerdict(NeedFor(dim, k.load), AdjustedBy(DimPool(k, dim), Deltas(dim, moves)));
            && (v == Fits && LeavesFirst(moves) ==> w.Needed(dim) <= ts[|ts| - 1])
            && (v == DoesNotFit ==> ts[|ts| - 1] < w.Needed(dim))
  {
    var need, p, ds := NeedFor(dim, k.load), DimPool(k, dim), Deltas(dim, moves);
    StartsEnclosed(k, w, dim);
    NeedsArePositive(k.load);
    if FitVerdict(need, AdjustedBy(p, ds)) == DoesNotFit {
      NoIsSoundPlainly(p, ds, ts, need);
    }
    if FitVerdict(need, AdjustedBy(p, ds)) == Fits && LeavesFirst(moves) {
      LowInside(dim, k);
      LeavesFirstDeltas(dim, moves);
      DeparturesFirstSuffices(p, ds);
    }
  }

  /**
   What is really left, without a floor: "does not fit" is right after any moves, and "fits" is
   right in every world when what leaves leaves first.
   */
  lemma PlanIsSound(k: Case, w: World, moves: seq<Move>, cpu: seq<real>, memory: seq<real>)
    requires SaneCase(k) && IsPossible(k, w)
    requires PlainlyTracks(k, w, Cpu, moves, cpu) && PlainlyTracks(k, w, Memory, moves, memory)
    ensures VerdictWithMoves(k, moves) == Fits && LeavesFirst(moves) ==> WorksAfter(k, w, cpu, memory)
    ensures VerdictWithMoves(k, moves) == DoesNotFit ==> !WorksAfter(k, w, cpu, memory)
  {
    MovedParts(k, moves, DoesNotFit);
    MovedParts(k, moves, CantTell);
    MovedVerdictsAre(k, moves, DoesNotFit);
    MovedVerdictsAre(k, moves, CantTell);
    PlainDimIsSound(k, w, Cpu, moves, cpu);
    PlainDimIsSound(k, w, Memory, moves, memory);
    ChecksAreSound(k, w);
  }
}
