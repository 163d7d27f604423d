/**
 The overlay with its edges matched by a string joined from their ends, as it is kept in buckets.
 It is the overlay matched by the ends themselves exactly when no two ends in play join to the
 same string.
 */
module ObservedKeys {
  import opened Options
  import opened Observed

  function KindText(kind: EndKind): string {
    match kind
    case ServiceEnd => "service"
    case DeviceEnd => "device"
    case ExternalEnd => "external"
  }

  function Side(kind: EndKind, id: string): string {
    KindText(kind) + ":" + id
  }

  function Key(e: Ends): string {
    Side(e.fromKind, e.from) + "=>" + Side(e.toKind, e.to)
  }

  /* ---------- the overlay by keys ---------- */

  predicate KeyedAt(es: seq<Edge>, i: nat, key: string, port: Option<int>)
    requires i < |es|
  {
    Key(es[i].ends) == key && es[i].port == port
  }

  function KeyedFrom(es: seq<Edge>, i: nat, key: string, port: Option<int>): (r: nat)
    requires i <= |es|
    ensures i <= r <= |es|
    decreases |es| - i
  {
    if i == |es| || KeyedAt(es, i, key, port) then i else KeyedFrom(es, i + 1, key, port)
  }

  function KeyedLanding(es: seq<Edge>, o: Edge): (r: nat)
    ensures r <= |es|
  {
    var exact := KeyedFrom(es, 0, Key(o.ends), o.port);
    if exact < |es| then exact else KeyedFrom(es, 0, Key(o.ends), None)
  }

  function KeyedLay(es: seq<Edge>, o: Edge): seq<Edge> {
    var i := KeyedLanding(es, o);
    if i < |es| then es[i := Merge(es[i], o)] else es + [o]
  }

  function KeyedOverlay(es: seq<Edge>, os: seq<Edge>): seq<Edge> {
    if os == [] then es else KeyedLay(KeyedOverlay(es, os[..|os| - 1]), os[|os| - 1])
  }

  /* ---------- keys that tell ends apart ---------- */

  predicate Injective(ends: set<Ends>) {
    forall a, b | a in ends && b in ends && Key(a) == Key(b) :: a == b
  }

  predicate Within(es: seq<Edge>, ends: set<Ends>) {
    forall e | e in es :: e.ends in ends
  }

  lemma {:induction false} SameFrom(es: seq<Edge>, i: nat, ends: Ends, port: Option<int>, all: set<Ends>)
    requires i <= |es| && Within(es, all) && ends in all && Injective(all)
    ensures KeyedFrom(es, i, Key(ends), port) == FirstFrom(es, i, ends, port)
    decreases |es| - i
  {
    if i < |es| {
      assert es[i] in es;
      SameFrom(es, i + 1, ends, port, all);
    }
  }

  lemma SameLay(es: seq<Edge>, o: Edge, all: set<Ends>)
    requires Within(es, all) && o.ends in all && Injective(all)
    ensures KeyedLay(es, o) == Lay(es, o) && Within(Lay(es, o), all)
  {
    SameFrom(es, 0, o.ends, o.port, all);
    SameFrom(es, 0, o.ends, None, all);
    forall e | e in Lay(es, o)
      ensures e.ends in all
    {
      var i := Landing(es, o);
      if i < |es| && e == Merge(es[i], o) {
        assert es[i] in es;
      }
    }
  }

  lemma {:induction false} SameOverlay(es: seq<Edge>, os: seq<Edge>, all: set<Ends>)
    requires Within(es, all) && Within(os, all) && Injective(all)
    ensures KeyedOverlay(es, os) == Overlay(es, os) && Within(Overlay(es, os), all)
  {
    if os != [] {
      var k := |os| - 1;
      assert os[k] in os;
      SameOverlay(es, os[..k], all);
      SameLay(Overlay(es, os[..k]), os[k], all);
    }
  }

  function Bare(ends: Ends): Edge {
    Edge("", ends, [OBSERVED], Low, None, None, None, None, Traffic(None, None, None, None, None, None, None))
  }

  lemma KeyedMergesBare(a: Ends, b: Ends)
    requires Key(a) == Key(b)
    ensures |KeyedLay([Bare(a)], Bare(b))| == 1
  {
    assert KeyedFrom([Bare(a)], 0, Key(b), None) == 0;
  }

  lemma AddsBare(a: Ends, b: Ends)
    requires a != b
    ensures |Lay([Bare(a)], Bare(b))| == 2
  {
    assert FirstFrom([Bare(a)], 0, b, None) == 1;
  }

  /** Two ends with one key: the second edge is merged into the first instead of added. */
  lemma CollisionMerges(a: Ends, b: Ends)
    requires a != b && Key(a) == Key(b)
    ensures KeyedOverlay([Bare(a)], [Bare(b)]) != Overlay([Bare(a)], [Bare(b)])
  {
    assert [Bare(b)][..0] == [];
    KeyedMergesBare(a, b);
    AddsBare(a, b);
    assert KeyedOverlay([Bare(a)], [Bare(b)]) == KeyedLay([Bare(a)], Bare(b));
    assert Overlay([Bare(a)], [Bare(b)]) == Lay([Bare(a)], Bare(b));
  }

  /** Among ends, joined keys never change an overlay exactly when no two of them join to the same key. */
  lemma JoinedKeysServeExactlyWhen(ends: set<Ends>)
    ensures (forall es, os | Within(es, ends) && Within(os, ends) :: KeyedOverlay(es, os) == Overlay(es, os))
            <==> Injective(ends)
  {
    if Injective(ends) {
      forall es, os | Within(es, ends) && Within(os, ends)
        ensures KeyedOverlay(es, os) == Overlay(es, os)
      {
        SameOverlay(es, os, ends);
      }
    } else {
      var a, b :| a in ends && b in ends && Key(a) == Key(b) && a != b;
      CollisionMerges(a, b);
      assert Within([Bare(a)], ends) && Within([Bare(b)], ends);
    }
  }

  /* ---------- ids that make them so ---------- */

  predicate NoArrow(s: string) {
    forall i | 0 <= i < |s| - 1 :: !(s[i] == '=' && s[i + 1] == '>')
  }

  lemma SideHasNoArrow(kind: EndKind, id: string)
    requires NoArrow(id)
    ensures NoArrow(Side(kind, id))
  {
    var text, s := KindText(kind), Side(kind, id);
    forall i | 0 <= i < |s| - 1
      ensures !(s[i] == '=' && s[i + 1] == '>')
    {
      if i > |text| {
        assert s[i] == id[i - |text| - 1] && s[i + 1] == id[i - |text|];
      } else if i == |text| {
        assert s[i] == ':';
      } else {
        assert s[i] == text[i] && text[i] != '=';
      }
    }
  }

  lemma NotShorter(x: string, y: string, u: string, v: string)
    requires NoArrow(u) && x + "=>" + y == u + "=>" + v
    ensures |x| >= |u|
  {
    var s := x + "=>" + y;
    assert s[|x|] == '=' && s[|x| + 1] == '>';
    assert (u + "=>" + v)[|u|] == '=';
    assert forall i | 0 <= i < |u| :: s[i] == u[i];
  }

  lemma SplitsAtTheArrow(x: string, y: string, u: string, v: string)
    requires NoArrow(x) && NoArrow(u) && x + "=>" + y == u + "=>" + v
    ensures x == u && y == v
  {
    NotShorter(x, y, u, v);
    NotShorter(u, v, x, y);
    assert x == (x + "=>" + y)[..|x|] == (u + "=>" + v)[..|u|] == u;
    assert y == (x + "=>" + y)[|x| + 2..] == (u + "=>" + v)[|u| + 2..] == v;
  }

  lemma SidesTellApart(k: EndKind, a: string, l: EndKind, b: string)
    requires Side(k, a) == Side(l, b)
    ensures k == l && a == b
  {
    assert Side(k, a)[0] == KindText(k)[0] && Side(l, b)[0] == KindText(l)[0];
    assert k == l;
    assert a == Side(k, a)[|KindText(k)| + 1..] == Side(l, b)[|KindText(l)| + 1..] == b;
  }

  /** When no id at the start of an edge contains the arrow, joined keys tell all ends apart. */
  lemma ArrowFreeIdsAreTold(ends: set<Ends>)
    requires forall e | e in ends :: NoArrow(e.from)
    ensures Injective(ends)
  {
    forall a, b | a in ends && b in ends && Key(a) == Key(b)
      ensures a == b
    {
      SideHasNoArrow(a.fromKind, a.from);
      SideHasNoArrow(b.fromKind, b.from);
      SplitsAtTheArrow(Side(a.fromKind, a.from), Side(a.toKind, a.to), Side(b.fromKind, b.from), Side(b.toKind, b.to));
      SidesTellApart(a.fromKind, a.from, b.fromKind, b.from);
      SidesTellApart(a.toKind, a.to, b.toKind, b.to);
    }
  }

  /** With arrows in ids they need not: an arrow may belong to the first id or to the second. */
  lemma ArrowsCanCollide(p: string, q: string, r: string)
    ensures var inner := "=>" + Side(ServiceEnd, "");
            var a, b := Ends(ServiceEnd, p, ServiceEnd, q + inner + r), Ends(ServiceEnd, p + inner + q, ServiceEnd, r);
            a != b && Key(a) == Key(b)
  {
    var inner := "=>" + Side(ServiceEnd, "");
    var x, y := Side(ServiceEnd, p), Side(ServiceEnd, "");
    assert Side(ServiceEnd, q + inner + r) == y + q + "=>" + y + r;
    assert Side(ServiceEnd, p + inner + q) == x + "=>" + y + q;
    assert Side(ServiceEnd, r) == y + r;
    assert x + "=>" + (y + q + "=>" + y + r) == (x + "=>" + y + q) + "=>" + (y + r);
    assert |p + inner + q| > |p|;
  }
}
