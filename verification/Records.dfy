/**
 JSON values, the records agents and people share, and the refs that keep what a person said about
 a record while the record itself is away.

 A key that is absent and a key whose value is undefined read the same; the optional fields of a
 record are therefore None in both cases.
 */
module Records {
  import opened Options

  datatype Json =
    | Undefined
    | Null
    | Bool(b: bool)
    | Num(n: real)
    | Str(s: string)
    | Arr(items: seq<Json>)
    | Obj(fields: map<string, Json>)

  /** Structural equality, independent of key order, with absent and undefined keys alike. */
  predicate DeepEqual(a: Json, b: Json) {
    if a.Obj? && b.Obj? then
      && (forall k | k in a.fields.Keys ::
          if k in b.fields then DeepEqual(a.fields[k], b.fields[k]) else a.fields[k] == Undefined)
      && (forall k | k in b.fields.Keys :: k !in a.fields ==> b.fields[k] == Undefined)
    else if a.Arr? && b.Arr? then
      |a.items| == |b.items| && forall i | 0 <= i < |a.items| :: DeepEqual(a.items[i], b.items[i])
    else
      a == b
  }

  /** The value without the keys that are undefined, at every depth. */
  function Plain(a: Json): Json {
    match a
    case Obj(fields) => Obj(map k | k in fields && fields[k] != Undefined :: Plain(fields[k]))
    case Arr(items) => Arr(seq(|items|, i requires 0 <= i < |items| => Plain(items[i])))
    case _ => a
  }

  lemma PlainUndefined(a: Json)
    ensures Plain(a) == Undefined <==> a == Undefined
  {
  }

  /** deepEqual is exactly equality of the values without undefined keys; so it is an equivalence. */
  lemma {:induction false} DeepEqualIsPlainEquality(a: Json, b: Json)
    ensures DeepEqual(a, b) <==> Plain(a) == Plain(b)
    decreases a
  {
    if a.Obj? && b.Obj? {
      forall k | k in a.fields && k in b.fields
        ensures DeepEqual(a.fields[k], b.fields[k]) <==> Plain(a.fields[k]) == Plain(b.fields[k])
      {
        DeepEqualIsPlainEquality(a.fields[k], b.fields[k]);
      }
      if DeepEqual(a, b) {
        DeepEqualObjectsArePlainEqual(a.fields, b.fields);
      }
      if Plain(a) == Plain(b) {
        PlainEqualObjectsAreDeepEqual(a.fields, b.fields);
      }
    } else if a.Arr? && b.Arr? {
      forall i | 0 <= i < |a.items| && i < |b.items|
        ensures DeepEqual(a.items[i], b.items[i]) <==> Plain(a.items[i]) == Plain(b.items[i])
      {
        DeepEqualIsPlainEquality(a.items[i], b.items[i]);
      }
      if Plain(a) == Plain(b) {
        assert |Plain(a).items| == |a.items| && |Plain(b).items| == |b.items|;
        forall i | 0 <= i < |a.items|
          ensures DeepEqual(a.items[i], b.items[i])
        {
          assert Plain(a).items[i] == Plain(a.items[i]) && Plain(b).items[i] == Plain(b.items[i]);
        }
      }
    }
  }

  lemma DeepEqualObjectsArePlainEqual(f: map<string, Json>, g: map<string, Json>)
    requires forall k | k in f && k in g :: DeepEqual(f[k], g[k]) <==> Plain(f[k]) == Plain(g[k])
    requires DeepEqual(Obj(f), Obj(g))
    ensures Plain(Obj(f)) == Plain(Obj(g))
  {
    forall k | k in f && k in g
      ensures f[k] == Undefined <==> g[k] == Undefined
    {
      PlainUndefined(f[k]);
      PlainUndefined(g[k]);
    }
    assert Plain(Obj(f)).fields == Plain(Obj(g)).fields;
  }

  lemma PlainEqualObjectsAreDeepEqual(f: map<string, Json>, g: map<string, Json>)
    requires forall k | k in f && k in g :: DeepEqual(f[k], g[k]) <==> Plain(f[k]) == Plain(g[k])
    requires Plain(Obj(f)) == Plain(Obj(g))
    ensures DeepEqual(Obj(f), Obj(g))
  {
    var p, q := Plain(Obj(f)).fields, Plain(Obj(g)).fields;
    forall k
      ensures k in p <==> k in f && f[k] != Undefined
      ensures k in q <==> k in g && g[k] != Undefined
    {
    }
    forall k | k in f && k in g
      ensures DeepEqual(f[k], g[k])
    {
      PlainUndefined(f[k]);
      PlainUndefined(g[k]);
      assert k in p <==> k in q;
    }
  }

  lemma DeepEqualReflexive(a: Json)
    ensures DeepEqual(a, a)
  {
    DeepEqualIsPlainEquality(a, a);
  }

  /* ---------- records and refs ---------- */

  datatype Kind = ClusterKind | NodeKind | NamespaceKind | ServiceKind

  type Values = map<string, Json>

  datatype Rec = Rec(
    id: string,
    discovered: bool,
    agentId: Option<string>,
    deletedAt: Option<string>,
    overrides: Option<Values>,
    overrideMeta: Option<Values>,
    applicationId: Option<string>,
    applicationHint: Option<string>,
    siteId: Option<string>,
    fields: Values)

  datatype Ref = Ref(
    kind: Kind,
    overrides: Option<Values>,
    overrideMeta: Option<Values>,
    applicationId: Option<string>,
    siteId: Option<string>)

  type Refs = map<string, Ref>

  predicate Truthy(s: Option<string>) {
    s.Some? && s.value != ""
  }

  predicate NonEmpty(v: Option<Values>) {
    v.Some? && v.value != map[]
  }

  predicate ValuesEqual(a: Option<Values>, b: Option<Values>) {
    if a.Some? && b.Some? then DeepEqual(Obj(a.value), Obj(b.value)) else a == b
  }

  predicate RecEqual(a: Rec, b: Rec) {
    && a.(overrides := None, overrideMeta := None, fields := map[])
       == b.(overrides := None, overrideMeta := None, fields := map[])
    && ValuesEqual(a.overrides, b.overrides)
    && ValuesEqual(a.overrideMeta, b.overrideMeta)
    && DeepEqual(Obj(a.fields), Obj(b.fields))
  }

  lemma RecEqualReflexive(a: Rec)
    ensures RecEqual(a, a)
  {
    DeepEqualReflexive(Obj(a.fields));
    if a.overrides.Some? {
      DeepEqualReflexive(Obj(a.overrides.value));
    }
    if a.overrideMeta.Some? {
      DeepEqualReflexive(Obj(a.overrideMeta.value));
    }
  }

  predicate IsRefEmpty(r: Ref) {
    !NonEmpty(r.overrides) && !Truthy(r.applicationId) && !Truthy(r.siteId)
  }

  /** What a discovered record leaves behind: only what a person said about it. */
  function RefOf(kind: Kind, r: Rec): Option<Ref> {
    var application :=
      if Truthy(r.applicationId) && r.applicationId != r.applicationHint then r.applicationId else None;
    var site := if kind == ClusterKind && Truthy(r.siteId) then r.siteId else None;
    var overrides := if NonEmpty(r.overrides) then r.overrides else None;
    var meta := if NonEmpty(r.overrides) && NonEmpty(r.overrideMeta) then r.overrideMeta else None;
    var ref := Ref(kind, overrides, meta, application, site);
    if IsRefEmpty(ref) then None else Some(ref)
  }

  /** Puts a ref's overrides and assignments onto a discovered record. */
  function ApplyRef(r: Rec, ref: Option<Ref>, kind: Kind): Rec {
    var application :=
      if ref.Some? && Truthy(ref.value.applicationId) then ref.value.applicationId
      else if Truthy(r.applicationId) && !Truthy(r.applicationHint) then None
      else r.applicationId;
    var site :=
      if kind != ClusterKind then r.siteId
      else if ref.Some? && Truthy(ref.value.siteId) then ref.value.siteId
      else None;
    r.(overrides := if ref.Some? then ref.value.overrides else None,
       overrideMeta := if ref.Some? then ref.value.overrideMeta else None,
       applicationId := application,
       siteId := site)
  }
}
