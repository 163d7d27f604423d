/**
 The value everyone sees, and turning an edited copy back into a stored entity. For an entity an
 agent discovered the detected values stay the base, and only what differs is kept as an override.
 */
module Effective {
  import opened Options
  import opened Records

  datatype Attribution = Attribution(who: string, at: string)

  /** An entity as one layer of values under another; bookkeeping keys are among `fields`. */
  datatype Entity = Entity(
    discovered: bool,
    fields: Values,
    overrides: Option<Values>,
    overrideMeta: Option<map<string, Attribution>>)

  /** Keys that are bookkeeping, never values a person may edit. */
  const META := {
    "id", "orgId", "source", "key", "lastSeen", "firstSeen", "detectedAt", "agentId", "revision", "stale",
    "deletedAt", "evidence", "overrides", "overrideMeta"
  }

  function Get(m: Values, k: string): Json {
    if k in m then m[k] else Undefined
  }

  function Overrides(e: Entity): Values {
    if e.overrides.Some? then e.overrides.value else map[]
  }

  function Effective(e: Entity): Entity {
    if NonEmpty(e.overrides) then e.(fields := e.fields + e.overrides.value) else e
  }

  function Shown(e: Entity, k: string): Json {
    Get(Effective(e).fields, k)
  }

  /* ---------- saving an edit ---------- */

  /** The value of this field moved in this save. */
  predicate Touched(raw: Entity, next: Entity, k: string) {
    Get(next.fields, k) != Shown(raw, k)
  }

  /** Whether this field ends up overridden: as it was when untouched, else exactly when it differs from the base. */
  predicate Keeps(raw: Entity, next: Entity, k: string) {
    && k in next.fields && k !in META
    && if Touched(raw, next, k) then next.fields[k] != Get(raw.fields, k) else k in Overrides(raw)
  }

  function KeptValue(raw: Entity, next: Entity, k: string): Json
    requires Keeps(raw, next, k)
  {
    if Touched(raw, next, k) then next.fields[k] else Overrides(raw)[k]
  }

  predicate Attributed(raw: Entity, next: Entity, who: Option<string>, k: string) {
    Keeps(raw, next, k)
    && if Touched(raw, next, k) then Truthy(who) else raw.overrideMeta.Some? && k in raw.overrideMeta.value
  }

  function KeptAttribution(raw: Entity, next: Entity, who: Option<string>, now: string, k: string): Attribution
    requires Attributed(raw, next, who, k)
  {
    if Touched(raw, next, k) then Attribution(who.value, now) else raw.overrideMeta.value[k]
  }

  function KeptOverrides(raw: Entity, next: Entity, keys: set<string>): Values {
    map k | k in keys && Keeps(raw, next, k) :: KeptValue(raw, next, k)
  }

  function KeptMeta(raw: Entity, next: Entity, who: Option<string>, now: string, keys: set<string>)
    : map<string, Attribution> {
    map k | k in keys && Attributed(raw, next, who, k) :: KeptAttribution(raw, next, who, now, k)
  }

  function Edited(raw: Option<Entity>, next: Entity, who: Option<string>, now: string): Entity {
    if raw.None? || !raw.value.discovered then next.(overrides := None, overrideMeta := None)
    else
      var overrides := KeptOverrides(raw.value, next, next.fields.Keys);
      var meta := KeptMeta(raw.value, next, who, now, next.fields.Keys);
      raw.value.(overrides := if overrides != map[] then Some(overrides) else None,
                 overrideMeta := if meta != map[] then Some(meta) else None)
  }

  lemma KeptSoFar(raw: Entity, next: Entity, who: Option<string>, now: string, done: set<string>, k: string)
    ensures KeptOverrides(raw, next, done + {k}) ==
            if Keeps(raw, next, k)
            then KeptOverrides(raw, next, done)[k := KeptValue(raw, next, k)]
            else KeptOverrides(raw, next, done)
    ensures KeptMeta(raw, next, who, now, done + {k}) ==
            if Attributed(raw, next, who, k)
            then KeptMeta(raw, next, who, now, done)[k := KeptAttribution(raw, next, who, now, k)]
            else KeptMeta(raw, next, who, now, done)
  {
  }

  /** One field of the edited copy: carried over, dropped, or overridden afresh. */
  method SaveField(raw: Entity, next: Entity, who: Option<string>, now: string, k: string, before: Values,
                   overrides: Values, meta: map<string, Attribution>)
    returns (overrides': Values, meta': map<string, Attribution>)
    requires k in next.fields && before == Effective(raw).fields
    ensures overrides' == if Keeps(raw, next, k) then overrides[k := KeptValue(raw, next, k)] else overrides
    ensures meta' == if Attributed(raw, next, who, k) then meta[k := KeptAttribution(raw, next, who, now, k)] else meta
  {
    overrides', meta' := overrides, meta;
    if k in META {
      return;
    }
    var value := next.fields[k];
    if value == Get(before, k) {
      if raw.overrides.Some? && k in raw.overrides.value {
        overrides' := overrides[k := raw.overrides.value[k]];
        if raw.overrideMeta.Some? && k in raw.overrideMeta.value {
          meta' := meta[k := raw.overrideMeta.value[k]];
        }
      }
      return;
    }
    if value == Get(raw.fields, k) {
      return;
    }
    overrides' := overrides[k := value];
    if Truthy(who) {
      meta' := meta[k := Attribution(who.value, now)];
    }
  }

  method ApplyEdit(raw: Option<Entity>, next: Entity, who: Option<string>, now: string) returns (e: Entity)
    ensures e == Edited(raw, next, who, now)
  {
    if raw.None? || !raw.value.discovered {
      return next.(overrides := None, overrideMeta := None);
    }
    var r := raw.value;
    var before := Effective(r).fields;
    var overrides: Values := map[];
    var meta: map<string, Attribution> := map[];
    var todo := next.fields.Keys;
    while todo != {}
      invariant todo <= next.fields.Keys
      invariant overrides == KeptOverrides(r, next, next.fields.Keys - todo)
      invariant meta == KeptMeta(r, next, who, now, next.fields.Keys - todo)
      decreases todo
    {
      var k :| k in todo;
      KeptSoFar(r, next, who, now, next.fields.Keys - todo, k);
      assert next.fields.Keys - (todo - {k}) == (next.fields.Keys - todo) + {k};
      todo := todo - {k};
      overrides, meta := SaveField(r, next, who, now, k, before, overrides, meta);
    }
    assert next.fields.Keys - {} == next.fields.Keys;
    e := r.(overrides := if overrides != map[] then Some(overrides) else None,
            overrideMeta := if meta != map[] then Some(meta) else None);
  }

  /** Freezes what is shown for a field as an override, without moving anything. */
  function Confirmed(raw: Entity, field: string, who: string, now: string): Entity {
    raw.(overrides := Some(Overrides(raw)[field := Shown(raw, field)]),
         overrideMeta :=
           Some((if raw.overrideMeta.Some? then raw.overrideMeta.value else map[])[field := Attribution(who, now)]))
  }

  /* ---------- what is shown after a save ---------- */

  lemma ShownIs(e: Entity, k: string)
    ensures Shown(e, k) == if k in Overrides(e) then Overrides(e)[k] else Get(e.fields, k)
  {
  }

  lemma EditedOverridesAre(raw: Entity, next: Entity, who: Option<string>, now: string)
    requires raw.discovered
    ensures var e := Edited(Some(raw), next, who, now);
            && e.fields == raw.fields && e.discovered
            && Overrides(e) == KeptOverrides(raw, next, next.fields.Keys)
  {
  }

  /** What nobody detected is simply what was edited last: a typed, an imported, or a new entity is the edited copy. */
  lemma TypedEditIsTheCopy(raw: Option<Entity>, next: Entity, who: Option<string>, now: string)
    requires raw.None? || !raw.value.discovered
    ensures var e := Edited(raw, next, who, now);
            && (forall k :: Shown(e, k) == Get(next.fields, k)) && e.fields == next.fields
            && e.discovered == next.discovered && e.overrides.None? && e.overrideMeta.None?
  {
  }

  /** Of what is detected an edit changes nothing, and it never overrides what is bookkeeping. */
  lemma DetectedStays(raw: Entity, next: Entity, who: Option<string>, now: string, k: string)
    requires raw.discovered
    ensures var e := Edited(Some(raw), next, who, now);
            && e.fields == raw.fields && e.discovered
            && (k in META || k !in next.fields ==> k !in Overrides(e) && Shown(e, k) == Get(raw.fields, k))
            && (e.overrides.Some? ==> e.overrides.value != map[])
            && (e.overrideMeta.Some? ==>
                  e.overrideMeta.value != map[] && e.overrideMeta.value.Keys <= Overrides(e).Keys)
  {
    var e := Edited(Some(raw), next, who, now);
    EditedOverridesAre(raw, next, who, now);
    ShownIs(e, k);
    var meta := KeptMeta(raw, next, who, now, next.fields.Keys);
    forall j | j in meta
      ensures j in Overrides(e)
    {
      assert Keeps(raw, next, j);
    }
  }

  /** A value that moved without a name to it is nobody's: an earlier attribution does not stay on it. */
  lemma MovedUnsignedIsNobodys(raw: Entity, next: Entity, who: Option<string>, now: string, k: string)
    requires raw.discovered && Touched(raw, next, k) && !Truthy(who)
    ensures var e := Edited(Some(raw), next, who, now);
            e.overrideMeta.Some? ==> k !in e.overrideMeta.value
  {
  }

  /** An attribution is of this save, on a value that moved in it, or it was there before. */
  lemma AttributionsAreEarned(raw: Entity, next: Entity, who: Option<string>, now: string, k: string)
    requires raw.discovered
    ensures var e := Edited(Some(raw), next, who, now);
            e.overrideMeta.Some? && k in e.overrideMeta.value ==>
              if Touched(raw, next, k) then Truthy(who) && e.overrideMeta.value[k] == Attribution(who.value, now)
              else raw.overrideMeta.Some? && k in raw.overrideMeta.value
                   && e.overrideMeta.value[k] == raw.overrideMeta.value[k]
  {
  }

  lemma ShownAfterEdit(raw: Entity, next: Entity, who: Option<string>, now: string, k: string)
    requires raw.discovered && k !in META
    ensures k in next.fields ==> Shown(Edited(Some(raw), next, who, now), k) == next.fields[k]
    ensures k !in next.fields ==> Shown(Edited(Some(raw), next, who, now), k) == Get(raw.fields, k)
  {
    var e := Edited(Some(raw), next, who, now);
    EditedOverridesAre(raw, next, who, now);
    ShownIs(e, k);
    ShownIs(raw, k);
  }

  /** An edit is what everyone sees afterwards, exactly when it leaves no detected value out. */
  lemma EditRoundTripExactlyWhen(raw: Entity, next: Entity, who: Option<string>, now: string)
    requires raw.discovered
    ensures (forall k | k !in META :: Shown(Edited(Some(raw), next, who, now), k) == Get(next.fields, k))
            <==> forall k | k in raw.fields && k !in META && k !in next.fields :: raw.fields[k] == Undefined
  {
    forall k | k !in META
      ensures Shown(Edited(Some(raw), next, who, now), k)
              == if k in next.fields then next.fields[k] else Get(raw.fields, k)
    {
      ShownAfterEdit(raw, next, who, now, k);
    }
  }

  /** An untouched override is carried verbatim, attribution included, even when it equals the detected value. */
  lemma UntouchedIsCarried(raw: Entity, next: Entity, who: Option<string>, now: string, k: string)
    requires raw.discovered && k in next.fields && k !in META
    requires k in Overrides(raw) && !Touched(raw, next, k)
    ensures var e := Edited(Some(raw), next, who, now);
            && k in Overrides(e) && Overrides(e)[k] == Overrides(raw)[k]
            && (raw.overrideMeta.Some? && k in raw.overrideMeta.value ==>
                  e.overrideMeta.Some? && k in e.overrideMeta.value
                    && e.overrideMeta.value[k] == raw.overrideMeta.value[k])
  {
    assert k in KeptOverrides(raw, next, next.fields.Keys);
    if raw.overrideMeta.Some? && k in raw.overrideMeta.value {
      assert k in KeptMeta(raw, next, who, now, next.fields.Keys);
    }
  }

  /** A moved field is overridden exactly when it differs from the base, and then newly attributed. */
  lemma MovedDiffersFromBase(raw: Entity, next: Entity, who: Option<string>, now: string, k: string)
    requires raw.discovered && k in next.fields && k !in META && Touched(raw, next, k)
    ensures var e := Edited(Some(raw), next, who, now);
            && (k in Overrides(e) <==> next.fields[k] != Get(raw.fields, k))
            && (k in Overrides(e) ==> Overrides(e)[k] == next.fields[k])
            && (k in Overrides(e) && Truthy(who)
                ==> e.overrideMeta.Some? && k in e.overrideMeta.value
                    && e.overrideMeta.value[k] == Attribution(who.value, now))
  {
    if next.fields[k] != Get(raw.fields, k) {
      assert k in KeptOverrides(raw, next, next.fields.Keys);
      if Truthy(who) {
        assert k in KeptMeta(raw, next, who, now, next.fields.Keys);
      }
    }
  }

  /** Confirming moves nothing that is shown, and the confirmed value survives later saves that leave it alone. */
  lemma ConfirmedStays(raw: Entity, field: string, who: string, now: string, next: Entity, other: Option<string>,
                       later: string)
    requires raw.discovered && field in next.fields && field !in META
    requires next.fields[field] == Shown(raw, field)
    ensures forall k :: Shown(Confirmed(raw, field, who, now), k) == Shown(raw, k)
    ensures var e := Edited(Some(Confirmed(raw, field, who, now)), next, other, later);
            && field in Overrides(e) && Overrides(e)[field] == Shown(raw, field)
            && e.overrideMeta.Some? && field in e.overrideMeta.value
               && e.overrideMeta.value[field] == Attribution(who, now)
  {
    var c := Confirmed(raw, field, who, now);
    forall k
      ensures Shown(c, k) == Shown(raw, k)
    {
      ShownIs(c, k);
      ShownIs(raw, k);
    }
    UntouchedIsCarried(c, next, other, later, field);
  }

  /** Confirming one field leaves every other override and attribution as it was. */
  lemma ConfirmedAlone(raw: Entity, field: string, who: string, now: string, k: string)
    requires k != field
    ensures var c := Confirmed(raw, field, who, now);
            && (k in Overrides(c) <==> k in Overrides(raw))
            && (k in Overrides(raw) ==> Overrides(c)[k] == Overrides(raw)[k])
            && c.overrideMeta.Some?
            && (k in c.overrideMeta.value <==> raw.overrideMeta.Some? && k in raw.overrideMeta.value)
            && (k in c.overrideMeta.value ==> c.overrideMeta.value[k] == raw.overrideMeta.value[k])
  {
  }

  /**
   However often discovery replaces the base after an edit, an overridden field shows what the edit
   said, and every other field shows what is detected.
   */
  lemma EditSurvivesNewBases(raw: Entity, next: Entity, who: Option<string>, now: string, base: Values, k: string)
    requires raw.discovered && k !in META
    ensures var e := Edited(Some(raw), next, who, now);
            Shown(e.(fields := base), k) == if k in Overrides(e) then next.fields[k] else Get(base, k)
  {
    var e := Edited(Some(raw), next, who, now);
    ShownIs(e.(fields := base), k);
    EditedOverridesAre(raw, next, who, now);
    ShownIs(raw, k);
  }
}
