/**
 The one scope the infrastructure signals follow, worked out from the application signals that
 are on. What an application signal collects is never cut off from the data around it.
 */
module Install {
  import opened Options

  datatype Workloads = Workloads(ns: string, names: seq<string>)

  datatype Scope = Scope(namespaces: seq<string>, exclude: seq<string>, workloads: seq<Workloads>)

  /** Each application signal's own scope, or None when the signal is off. */
  datatype Telemetry = Telemetry(metrics: Option<Scope>, logs: Option<Scope>, traces: Option<Scope>)

  const EMPTY_SCOPE := Scope([], [], [])

  predicate Narrows(s: Scope) {
    s.namespaces != [] || s.exclude != [] || s.workloads != []
  }

  function One(s: Option<Scope>): seq<Scope> {
    if s.Some? then [s.value] else []
  }

  function Enabled(t: Telemetry): seq<Scope> {
    One(t.metrics) + One(t.logs) + One(t.traces)
  }

  /* ---------- lists without repetitions ---------- */

  function Unique(s: seq<string>): (u: seq<string>)
    ensures forall x | x in u :: x in s
    ensures forall x | x in s :: x in u
    ensures forall i, j | 0 <= i < j < |u| :: u[i] != u[j]
  {
    if s == [] then []
    else
      var done, last := Unique(s[..|s| - 1]), s[|s| - 1];
      assert s == s[..|s| - 1] + [last];
      if last in done then done else done + [last]
  }

  function AllNamespaces(ss: seq<Scope>): seq<string> {
    if ss == [] then [] else AllNamespaces(ss[..|ss| - 1]) + ss[|ss| - 1].namespaces
  }

  function NamesOf(ws: seq<Workloads>): seq<string> {
    if ws == [] then [] else NamesOf(ws[..|ws| - 1]) + [ws[|ws| - 1].ns]
  }

  function AllNarrowed(ss: seq<Scope>): seq<string> {
    if ss == [] then [] else AllNarrowed(ss[..|ss| - 1]) + NamesOf(ss[|ss| - 1].workloads)
  }

  function Both(a: seq<string>, b: seq<string>): seq<string> {
    if a == [] then []
    else
      var done, last := Both(a[..|a| - 1], b), a[|a| - 1];
      if last in b then done + [last] else done
  }

  /** In every signal's exclude list. */
  function ExcludedByAll(ss: seq<Scope>): seq<string>
    requires ss != []
  {
    if |ss| == 1 then ss[0].exclude else Both(ExcludedByAll(ss[..|ss| - 1]), ss[|ss| - 1].exclude)
  }

  /** The first entry for a namespace. */
  function EntryFor(ws: seq<Workloads>, ns: string): Option<Workloads> {
    if ws == [] then None else if ws[0].ns == ns then Some(ws[0]) else EntryFor(ws[1..], ns)
  }

  /** Whether a signal counts as collecting a namespace when workloads are combined. */
  predicate Collects(s: Scope, ns: string) {
    if s.namespaces == [] then ns !in s.exclude else ns in s.namespaces
  }

  predicate NarrowedByAll(ss: seq<Scope>, ns: string) {
    && (exists s | s in ss :: Collects(s, ns))
    && (forall s | s in ss && Collects(s, ns) :: EntryFor(s.workloads, ns).Some?)
  }

  function NamesFor(ss: seq<Scope>, ns: string): seq<string> {
    if ss == [] then []
    else
      var done, last := NamesFor(ss[..|ss| - 1], ns), ss[|ss| - 1];
      if Collects(last, ns) && EntryFor(last.workloads, ns).Some?
      then done + EntryFor(last.workloads, ns).value.names
      else done
  }

  function CombinedWorkloads(ss: seq<Scope>, candidates: seq<string>): seq<Workloads> {
    if candidates == [] then []
    else
      var done, ns := CombinedWorkloads(ss, candidates[..|candidates| - 1]), candidates[|candidates| - 1];
      if NarrowedByAll(ss, ns) then done + [Workloads(ns, Unique(NamesFor(ss, ns)))] else done
  }

  /** No include list as soon as one signal has none, else every namespace some signal includes. */
  function IncludeList(ss: seq<Scope>): seq<string> {
    if exists s | s in ss :: s.namespaces == [] then [] else Unique(AllNamespaces(ss))
  }

  function Combined(t: Telemetry): Scope {
    var ss := Enabled(t);
    if ss == [] || exists s | s in ss :: !Narrows(s) then EMPTY_SCOPE
    else
      Scope(IncludeList(ss),
            ExcludedByAll(ss),
            CombinedWorkloads(ss, Unique(AllNarrowed(ss))))
  }

  method CombinedScope(t: Telemetry) returns (scope: Scope)
    ensures scope == Combined(t)
  {
    var ss := Enabled(t);
    if ss == [] || exists s | s in ss :: !Narrows(s) {
      return EMPTY_SCOPE;
    }
    var namespaces := if exists s | s in ss :: s.namespaces == [] then [] else Unique(AllNamespaces(ss));
    var exclude := ExcludedByAll(ss);
    var candidates := Unique(AllNarrowed(ss));
    var workloads := [];
    for i := 0 to |candidates|
      invariant workloads == CombinedWorkloads(ss, candidates[..i])
    {
      assert candidates[..i + 1][..i] == candidates[..i];
      var ns := candidates[i];
      if NarrowedByAll(ss, ns) {
        workloads := workloads + [Workloads(ns, Unique(NamesFor(ss, ns)))];
      }
    }
    assert candidates[..|candidates|] == candidates;
    scope := Scope(namespaces, exclude, workloads);
  }

  /* ---------- what a scope keeps ---------- */

  /** Exclude wins over include; an empty include list is everything. */
  predicate KeepsNamespace(s: Scope, ns: string) {
    ns !in s.exclude && (s.namespaces == [] || ns in s.namespaces)
  }

  predicate KeepsWorkload(s: Scope, ns: string, name: string) {
    && KeepsNamespace(s, ns)
    && (EntryFor(s.workloads, ns).Some? ==> name in EntryFor(s.workloads, ns).value.names)
  }

  lemma {:induction false} NamespacesAre(ss: seq<Scope>, ns: string)
    ensures ns in AllNamespaces(ss) <==> exists s :: s in ss && ns in s.namespaces
  {
    if ss != [] {
      var k := |ss| - 1;
      NamespacesAre(ss[..k], ns);
      assert ss == ss[..k] + [ss[k]];
    }
  }

  lemma {:induction false} BothAre(a: seq<string>, b: seq<string>, x: string)
    ensures x in Both(a, b) <==> x in a && x in b
  {
    if a != [] {
      var k := |a| - 1;
      BothAre(a[..k], b, x);
      assert a == a[..k] + [a[k]];
    }
  }

  lemma {:induction false} ExcludedAre(ss: seq<Scope>, ns: string)
    requires ss != []
    ensures ns in ExcludedByAll(ss) <==> forall s | s in ss :: ns in s.exclude
  {
    var k := |ss| - 1;
    if k > 0 {
      ExcludedAre(ss[..k], ns);
      BothAre(ExcludedByAll(ss[..k]), ss[k].exclude, ns);
      assert ss == ss[..k] + [ss[k]];
    }
  }

  lemma {:induction false} NamesForAre(ss: seq<Scope>, ns: string, name: string)
    ensures name in NamesFor(ss, ns) <==>
            exists s :: s in ss && Collects(s, ns) && EntryFor(s.workloads, ns).Some?
              && name in EntryFor(s.workloads, ns).value.names
  {
    if ss != [] {
      var k := |ss| - 1;
      NamesForAre(ss[..k], ns, name);
      assert ss == ss[..k] + [ss[k]];
    }
  }

  lemma {:induction false} EntryNamesIt(ws: seq<Workloads>, ns: string)
    ensures EntryFor(ws, ns).Some? ==> EntryFor(ws, ns).value.ns == ns && EntryFor(ws, ns).value in ws
    ensures EntryFor(ws, ns).None? <==> forall w | w in ws :: w.ns != ns
  {
    if ws != [] {
      EntryNamesIt(ws[1..], ns);
      assert ws == [ws[0]] + ws[1..];
    }
  }

  lemma {:induction false} EntriesAre(ss: seq<Scope>, candidates: seq<string>)
    ensures forall w | w in CombinedWorkloads(ss, candidates) ::
              w.ns in candidates && NarrowedByAll(ss, w.ns) && w.names == Unique(NamesFor(ss, w.ns))
    ensures forall ns | ns in candidates && NarrowedByAll(ss, ns) ::
              exists w :: w in CombinedWorkloads(ss, candidates) && w.ns == ns
  {
    if candidates != [] {
      var k := |candidates| - 1;
      var ns := candidates[k];
      EntriesAre(ss, candidates[..k]);
      assert candidates == candidates[..k] + [ns];
      if NarrowedByAll(ss, ns) {
        var w := Workloads(ns, Unique(NamesFor(ss, ns)));
        assert w in CombinedWorkloads(ss, candidates);
      }
    }
  }

  /** Every application signal that is on counts, and no other. */
  lemma EnabledAre(t: Telemetry, s: Scope)
    ensures s in Enabled(t) <==> t.metrics == Some(s) || t.logs == Some(s) || t.traces == Some(s)
  {
  }

  /* ---------- nothing an application signal collects is cut off ---------- */

  lemma NamespaceIsKept(t: Telemetry, s: Scope, ns: string)
    requires s in Enabled(t) && KeepsNamespace(s, ns)
    ensures KeepsNamespace(Combined(t), ns)
  {
    var ss := Enabled(t);
    if forall r | r in ss :: Narrows(r) {
      NamespacesAre(ss, ns);
      ExcludedAre(ss, ns);
    }
  }

  /** The combined scope keeps every namespace and workload that some signal keeps. */
  lemma NothingIsCutOff(t: Telemetry, s: Scope, ns: string, name: string)
    requires s in Enabled(t) && KeepsWorkload(s, ns, name)
    ensures KeepsWorkload(Combined(t), ns, name)
  {
    var ss := Enabled(t);
    NamespaceIsKept(t, s, ns);
    var entry := EntryFor(Combined(t).workloads, ns);
    if entry.Some? {
      EntryNamesIt(Combined(t).workloads, ns);
      EntriesAre(ss, Unique(AllNarrowed(ss)));
      assert Collects(s, ns);
      NamesForAre(ss, ns, name);
    }
  }

  /** Where it narrows a namespace to workloads, every name it lists is in the list of a signal that collects there. */
  lemma ListedNamesAreSomeones(t: Telemetry, ns: string, name: string)
    requires EntryFor(Combined(t).workloads, ns).Some? && name in EntryFor(Combined(t).workloads, ns).value.names
    ensures exists s ::
              s in Enabled(t) && Collects(s, ns) && EntryFor(s.workloads, ns).Some?
              && name in EntryFor(s.workloads, ns).value.names
  {
    var ss := Enabled(t);
    EntryNamesIt(Combined(t).workloads, ns);
    EntriesAre(ss, Unique(AllNarrowed(ss)));
    NamesForAre(ss, ns, name);
  }

  lemma {:induction false} NarrowedAre(ss: seq<Scope>, ns: string)
    ensures ns in AllNarrowed(ss) <==> exists s :: s in ss && EntryFor(s.workloads, ns).Some?
  {
    if ss != [] {
      var k := |ss| - 1;
      NarrowedAre(ss[..k], ns);
      NamesOfAre(ss[k].workloads, ns);
      assert ss == ss[..k] + [ss[k]];
    }
  }

  lemma {:induction false} NamesOfAre(ws: seq<Workloads>, ns: string)
    ensures ns in NamesOf(ws) <==> EntryFor(ws, ns).Some?
  {
    EntryNamesIt(ws, ns);
    if ws != [] {
      var k := |ws| - 1;
      NamesOfAre(ws[..k], ns);
      EntryNamesIt(ws[..k], ns);
      assert ws == ws[..k] + [ws[k]];
    }
  }

  /* ---------- when it collects no more than they do ---------- */

  predicate Lists(s: Scope, ns: string) {
    s.namespaces == [] || ns in s.namespaces
  }

  lemma CombinedNamespacesAre(t: Telemetry, ns: string)
    ensures var ss := Enabled(t);
            KeepsNamespace(Combined(t), ns) <==>
            || ss == [] || (exists s | s in ss :: !Narrows(s))
            || ((exists s | s in ss :: Lists(s, ns)) && exists s | s in ss :: ns !in s.exclude)
  {
    var ss := Enabled(t);
    if ss != [] && forall s | s in ss :: Narrows(s) {
      ListedAre(ss, ns);
      ExcludedAre(ss, ns);
    }
  }

  lemma ListedAre(ss: seq<Scope>, ns: string)
    requires ss != []
    ensures (IncludeList(ss) == [] || ns in IncludeList(ss)) <==> exists s | s in ss :: Lists(s, ns)
  {
    NamespacesAre(ss, ns);
    if s :| s in ss && s.namespaces == [] {
      assert Lists(s, ns);
    } else {
      assert ss[0] in ss && ss[0].namespaces[0] in ss[0].namespaces;
      NamespacesAre(ss, ss[0].namespaces[0]);
    }
  }

  /**
   A namespace that is kept for nobody: every signal that lists it excludes it as well, but another
   signal, which does not list it, does not exclude it. (Or there is no signal to follow at all.)
   */
  predicate KeptForNobody(ss: seq<Scope>, ns: string) {
    || ss == []
    || (&& (forall s | s in ss :: Lists(s, ns) ==> ns in s.exclude)
        && (exists s | s in ss :: Lists(s, ns))
        && (exists s | s in ss :: ns !in s.exclude))
  }

  lemma KeptForSomebody(t: Telemetry, s: Scope, ns: string)
    requires s in Enabled(t) && KeepsNamespace(s, ns)
    ensures KeepsNamespace(Combined(t), ns) && !KeptForNobody(Enabled(t), ns)
  {
    NamespaceIsKept(t, s, ns);
    assert Lists(s, ns) && ns !in s.exclude;
  }

  lemma NobodyKeeps(t: Telemetry, ns: string)
    requires forall s | s in Enabled(t) :: !KeepsNamespace(s, ns)
    ensures KeepsNamespace(Combined(t), ns) <==> KeptForNobody(Enabled(t), ns)
  {
    var ss := Enabled(t);
    CombinedNamespacesAre(t, ns);
    forall s | s in ss
      ensures Narrows(s) && (Lists(s, ns) ==> ns in s.exclude)
    {
      assert !KeepsNamespace(s, ns);
    }
  }

  /** The combined scope keeps a namespace exactly when some signal does, unless it is kept for nobody. */
  lemma NamespacesAreExactExactlyWhen(t: Telemetry, ns: string)
    ensures (KeepsNamespace(Combined(t), ns) <==> exists s | s in Enabled(t) :: KeepsNamespace(s, ns))
            <==> !KeptForNobody(Enabled(t), ns)
  {
    if s :| s in Enabled(t) && KeepsNamespace(s, ns) {
      KeptForSomebody(t, s, ns);
    } else {
      NobodyKeeps(t, ns);
    }
  }

  /** A signal that counts as collecting a namespace although it excludes it. */
  predicate Muddles(s: Scope, ns: string) {
    ns in s.namespaces && ns in s.exclude
  }

  predicate NamesWorkload(s: Scope, ns: string, name: string) {
    EntryFor(s.workloads, ns).Some? && name in EntryFor(s.workloads, ns).value.names
  }

  /** A muddled signal whose workloads in the namespace are not all named by signals that keep it. */
  predicate NamesMore(ss: seq<Scope>, m: Scope, ns: string) {
    || EntryFor(m.workloads, ns).None?
    || exists name | name in EntryFor(m.workloads, ns).value.names ::
         forall s | s in ss && KeepsNamespace(s, ns) :: !NamesWorkload(s, ns, name)
  }

  /**
   Workloads nobody keeps: the signals that keep the namespace, if any, all narrow it, and either
   none counts as collecting it or a muddled one names more.
   */
  predicate WorkloadsForNobody(ss: seq<Scope>, ns: string) {
    && (KeptForNobody(ss, ns) || exists s | s in ss :: KeepsNamespace(s, ns))
    && (forall s | s in ss && KeepsNamespace(s, ns) :: EntryFor(s.workloads, ns).Some?)
    && ((forall s | s in ss :: !Collects(s, ns)) || exists m | m in ss && Muddles(m, ns) :: NamesMore(ss, m, ns))
  }

  ghost predicate WorkloadIsExact(t: Telemetry, ns: string, name: string) {
    KeepsWorkload(Combined(t), ns, name) <==> exists s | s in Enabled(t) :: KeepsWorkload(s, ns, name)
  }

  /** What the combined scope says about the workloads of a namespace, in terms of the signals. */
  lemma CombinedEntryIs(t: Telemetry, ns: string)
    ensures var ss, entry := Enabled(t), EntryFor(Combined(t).workloads, ns);
            && (entry.Some? <==> NarrowedByAll(ss, ns) && forall s | s in ss :: Narrows(s))
            && (entry.Some? ==> forall name :: name in entry.value.names <==> name in NamesFor(ss, ns))
  {
    var ss := Enabled(t);
    if ss != [] && forall s | s in ss :: Narrows(s) {
      EntryNamesIt(Combined(t).workloads, ns);
      EntriesAre(ss, Unique(AllNarrowed(ss)));
      NarrowedAre(ss, ns);
    }
  }

  /** A signal that does not narrow keeps every namespace whole. */
  lemma WholeSignals(ss: seq<Scope>, ns: string)
    requires forall s | s in ss && Collects(s, ns) :: EntryFor(s.workloads, ns).Some?
    ensures forall s | s in ss :: Narrows(s)
  {
    forall s | s in ss
      ensures Narrows(s)
    {
      assert !Narrows(s) ==> Collects(s, ns) && EntryFor(s.workloads, ns).None?;
    }
  }

  lemma ExactUnlessForNobody(t: Telemetry, ns: string, name: string)
    requires !WorkloadsForNobody(Enabled(t), ns)
    ensures WorkloadIsExact(t, ns, name)
  {
    var ss := Enabled(t);
    if s :| s in ss && KeepsWorkload(s, ns, name) {
      NothingIsCutOff(t, s, ns, name);
    }
    if KeepsWorkload(Combined(t), ns, name) {
      NamespacesAreExactExactlyWhen(t, ns);
      if s :| s in ss && KeepsNamespace(s, ns) && EntryFor(s.workloads, ns).None? {
        assert KeepsWorkload(s, ns, name);
      } else {
        EntriesThroughout(ss, ns);
        WholeSignals(ss, ns);
        CombinedEntryIs(t, ns);
        SomeKeeperNames(ss, ns, name);
      }
    }
  }

  lemma SomeKeeperNames(ss: seq<Scope>, ns: string, name: string)
    requires name in NamesFor(ss, ns)
    requires forall m | m in ss && Muddles(m, ns) :: !NamesMore(ss, m, ns)
    ensures exists s | s in ss :: KeepsNamespace(s, ns) && NamesWorkload(s, ns, name)
  {
    NamesForAre(ss, ns, name);
    var s :| s in ss && Collects(s, ns) && NamesWorkload(s, ns, name);
    if Muddles(s, ns) {
      assert !NamesMore(ss, s, ns);
    }
  }

  lemma EntriesThroughout(ss: seq<Scope>, ns: string)
    requires forall s | s in ss && KeepsNamespace(s, ns) :: EntryFor(s.workloads, ns).Some?
    requires forall m | m in ss && Muddles(m, ns) :: !NamesMore(ss, m, ns)
    ensures forall s | s in ss && Collects(s, ns) :: EntryFor(s.workloads, ns).Some?
  {
    forall s | s in ss && Collects(s, ns)
      ensures EntryFor(s.workloads, ns).Some?
    {
      assert KeepsNamespace(s, ns) || (Muddles(s, ns) && !NamesMore(ss, s, ns));
    }
  }

  /** A name longer than all the names of a list. */
  function Longer(names: seq<string>): (r: string)
    ensures forall x | x in names :: |x| < |r|
  {
    if names == [] then "a"
    else
      var rest := Longer(names[..|names| - 1]);
      var last := names[|names| - 1];
      assert names == names[..|names| - 1] + [last];
      if |last| < |rest| then rest else last + "a"
  }

  lemma NobodyNames(t: Telemetry, ns: string, name: string)
    requires forall s | s in Enabled(t) && KeepsNamespace(s, ns) ::
               EntryFor(s.workloads, ns).Some? && !NamesWorkload(s, ns, name)
    requires KeepsWorkload(Combined(t), ns, name)
    ensures !WorkloadIsExact(t, ns, name)
  {
  }

  lemma ForNobodyIsInexact(t: Telemetry, ns: string) returns (name: string)
    requires WorkloadsForNobody(Enabled(t), ns)
    ensures !WorkloadIsExact(t, ns, name)
  {
    var ss := Enabled(t);
    NamespacesAreExactExactlyWhen(t, ns);
    assert KeepsNamespace(Combined(t), ns);
    CombinedEntryIs(t, ns);
    if (exists s | s in ss :: Collects(s, ns))
       && forall s | s in ss && Collects(s, ns) :: EntryFor(s.workloads, ns).Some? {
      WholeSignals(ss, ns);
      var m :| m in ss && Muddles(m, ns) && NamesMore(ss, m, ns);
      name :| name in EntryFor(m.workloads, ns).value.names
              && forall s | s in ss && KeepsNamespace(s, ns) :: !NamesWorkload(s, ns, name);
      NamesForAre(ss, ns, name);
    } else {
      name := Longer(NamesFor(ss, ns));
      NamesForAre(ss, ns, name);
      assert name !in NamesFor(ss, ns);
    }
    NobodyNames(t, ns, name);
  }

  /** The combined scope keeps the workloads of a namespace exactly as some signal does, unless some are for nobody. */
  lemma WorkloadsAreExactExactlyWhen(t: Telemetry, ns: string)
    ensures (forall name :: WorkloadIsExact(t, ns, name)) <==> !WorkloadsForNobody(Enabled(t), ns)
  {
    if WorkloadsForNobody(Enabled(t), ns) {
      var name := ForNobodyIsInexact(t, ns);
    } else {
      forall name: string
        ensures WorkloadIsExact(t, ns, name)
      {
        ExactUnlessForNobody(t, ns, name);
      }
    }
  }

  /** No signal has both lists, and either all include or all exclude. */
  predicate OneStyle(ss: seq<Scope>) {
    (forall s | s in ss :: s.exclude == []) || (forall s | s in ss :: s.namespaces == [])
  }

  /** With one style throughout, nothing is for nobody: the combined scope is the union. */
  lemma OneStyleIsExact(t: Telemetry, ns: string, name: string)
    requires Enabled(t) != [] && OneStyle(Enabled(t))
    ensures KeepsNamespace(Combined(t), ns) <==> exists s | s in Enabled(t) :: KeepsNamespace(s, ns)
    ensures WorkloadIsExact(t, ns, name)
  {
    NamespacesAreExactExactlyWhen(t, ns);
    ExactUnlessForNobody(t, ns, name);
  }

  /** Mixed lists over-approximate: a namespace no signal keeps can be kept. */
  lemma MixedListsKeepMore()
    ensures exists t: Telemetry :: exists ns: string ::
              KeepsNamespace(Combined(t), ns) && forall s | s in Enabled(t) :: !KeepsNamespace(s, ns)
  {
    var a, b := Scope(["x"], [], []), Scope([], ["y"], []);
    var t := Telemetry(Some(a), Some(b), None);
    assert Enabled(t) == [a, b];
    ExcludedAre([a, b], "y");
    assert a in Enabled(t) && b in Enabled(t);
    assert KeepsNamespace(Combined(t), "y");
    forall s | s in Enabled(t)
      ensures !KeepsNamespace(s, "y")
    {
    }
  }

  const ONLY_P := Scope([], [], [Workloads("x", ["p"])])

  const MUDDLED := Scope(["x"], ["x"], [])

  lemma MuddledIsWidened()
    ensures WorkloadsForNobody([ONLY_P, MUDDLED], "x") && !KeptForNobody([ONLY_P, MUDDLED], "x")
  {
    var ss := [ONLY_P, MUDDLED];
    assert ONLY_P in ss && KeepsNamespace(ONLY_P, "x") && Lists(ONLY_P, "x");
    assert MUDDLED in ss && Muddles(MUDDLED, "x");
    assert NamesMore(ss, MUDDLED, "x");
  }

  /** A signal that lists and excludes a namespace at once widens it to workloads nobody keeps. */
  lemma MuddledListsKeepMore(t: Telemetry) returns (name: string)
    requires t == Telemetry(Some(ONLY_P), Some(MUDDLED), None)
    ensures !KeptForNobody(Enabled(t), "x") && !WorkloadIsExact(t, "x", name)
  {
    assert Enabled(t) == [ONLY_P, MUDDLED];
    MuddledIsWidened();
    name := ForNobodyIsInexact(t, "x");
  }
}
