/**
 * The `Auditable` trait: the decision, for one created / updated / deleted
 * entity, whether an audit row is written and what its `diff`, `before` and
 * `after` columns hold.
 *
 * The host's Eloquent model is replaced by the values it would be asked for
 * (`Entity`), the `config('audit-diff.*')` reads by an immutable `Config`,
 * and the actor and request lookups by already-resolved values.  `Decide`
 * states the outcome as a function of those inputs; `RecordEvent` is the
 * step-by-step procedure with its loops, proved to agree with it.
 */
module Auditable {
  import opened Values
  import opened Masker

  // ---------------------------------------------------------------------
  // excludeKeys and normalizeNullEmpty
  // ---------------------------------------------------------------------

  /** The listed names, as a set. */
  function ExcludedSet(excludeKeys: seq<string>): set<string>
  {
    set k | k in excludeKeys
  }

  /** `excludeKeys($data, $excludeKeys)`: unset each listed key in turn. */
  function ExcludeKeys(data: Row, excludeKeys: seq<string>): (r: Row)
    ensures r.Keys == data.Keys - ExcludedSet(excludeKeys)
    ensures forall k :: k in r ==> r[k] == data[k]
    decreases |excludeKeys|
  {
    if excludeKeys == [] then data
    else
      assert ExcludedSet(excludeKeys) == {excludeKeys[0]} + ExcludedSet(excludeKeys[1..]);
      ExcludeKeys(data - {excludeKeys[0]}, excludeKeys[1..])
  }

  /** One element of `normalizeNullEmpty`: arrays are normalised recursively,
      the empty string becomes null, every other value stays. */
  function NormalizeValue(v: Value): Value
  {
    match v
    case Arr(m) => Arr(map k | k in m :: NormalizeValue(m[k]))
    case Str(s) => if s == "" then Null else v
    case _ => v
  }

  /** `normalizeNullEmpty($data)`. */
  function NormalizeNullEmpty(data: Row): (r: Row)
    ensures r.Keys == data.Keys
  {
    map k | k in data :: NormalizeValue(data[k])
  }

  /** No empty string anywhere in the value. */
  predicate NoEmptyString(v: Value)
  {
    match v
    case Str(s) => s != ""
    case Arr(m) => forall k | k in m :: NoEmptyString(m[k])
    case _ => true
  }

  /** Normalisation keeps every path, turns '' into null at any depth and
      leaves every other scalar alone. */
  lemma {:induction false} NormalizeValuePaths(v: Value, path: seq<Key>)
    ensures Get(NormalizeValue(v), path).Some? <==> Get(v, path).Some?
    ensures Get(v, path) == Some(Str("")) ==> Get(NormalizeValue(v), path) == Some(Null)
    ensures Get(v, path).Some? && !Get(v, path).value.Arr? && Get(v, path) != Some(Str("")) ==>
              Get(NormalizeValue(v), path) == Get(v, path)
    ensures Get(v, path).Some? && Get(v, path).value.Arr? ==>
              Get(NormalizeValue(v), path).value.Arr? &&
              Get(NormalizeValue(v), path).value.entries.Keys == Get(v, path).value.entries.Keys
    decreases |path|
  {
    if path != [] && v.Arr? && path[0] in v.entries {
      NormalizeValuePaths(v.entries[path[0]], path[1..]);
    }
  }

  lemma {:induction false} NormalizeValueNoEmptyString(v: Value)
    ensures NoEmptyString(NormalizeValue(v))
    decreases v
  {
    if v.Arr? {
      forall k | k in v.entries
        ensures NoEmptyString(NormalizeValue(v.entries[k]))
      {
        NormalizeValueNoEmptyString(v.entries[k]);
      }
    }
  }

  /** A value is left unchanged by normalisation exactly when it holds no
      empty string. */
  lemma {:induction false} NormalizeValueFixpoint(v: Value)
    ensures NormalizeValue(v) == v <==> NoEmptyString(v)
    decreases v
  {
    if v.Arr? {
      var m := v.entries;
      forall k | k in m
        ensures NormalizeValue(m[k]) == m[k] <==> NoEmptyString(m[k])
      {
        NormalizeValueFixpoint(m[k]);
      }
      if NormalizeValue(v) == v {
        forall k | k in m
          ensures NoEmptyString(m[k])
        {
          assert NormalizeValue(v).entries[k] == NormalizeValue(m[k]);
        }
      }
    }
  }

  /** `normalizeNullEmpty` keeps the key set at every level, maps '' to null
      at any depth and leaves every other scalar unchanged. */
  lemma NormalizeNullEmptyPaths(data: Row, path: seq<Key>)
    ensures GetRow(NormalizeNullEmpty(data), path).Some? <==> GetRow(data, path).Some?
    ensures GetRow(data, path) == Some(Str("")) ==> GetRow(NormalizeNullEmpty(data), path) == Some(Null)
    ensures GetRow(data, path).Some? && !GetRow(data, path).value.Arr? && GetRow(data, path) != Some(Str("")) ==>
              GetRow(NormalizeNullEmpty(data), path) == GetRow(data, path)
    ensures GetRow(data, path).Some? && GetRow(data, path).value.Arr? ==>
              GetRow(NormalizeNullEmpty(data), path).value.Arr? &&
              GetRow(NormalizeNullEmpty(data), path).value.entries.Keys == GetRow(data, path).value.entries.Keys
  {
    if |path| > 0 && path[0].SKey? && path[0].name in data {
      NormalizeValuePaths(data[path[0].name], path[1..]);
    }
  }

  /** `normalizeNullEmpty` is idempotent. */
  lemma NormalizeNullEmptyIdempotent(data: Row)
    ensures NormalizeNullEmpty(NormalizeNullEmpty(data)) == NormalizeNullEmpty(data)
  {
    forall k | k in data
      ensures NormalizeValue(NormalizeValue(data[k])) == NormalizeValue(data[k])
    {
      NormalizeValueNoEmptyString(data[k]);
      NormalizeValueFixpoint(NormalizeValue(data[k]));
    }
  }

  // ---------------------------------------------------------------------
  // Inputs and outcome
  // ---------------------------------------------------------------------

  datatype Event = Created | Updated | Deleted
  {
    /** The event name the `events` setting lists. */
    function Name(): string
    {
      match this
      case Created => "created"
      case Updated => "updated"
      case Deleted => "deleted"
    }
  }

  /** The `audit-diff.*` settings `recordEvent` reads. */
  datatype Config = Config(
    enabled: bool,
    events: seq<string>,
    nullEqualsEmptyString: bool,
    skipIfOnlyTimestampsChanged: bool,
    storeFullSnapshot: bool,
    maskKeys: seq<string>,
    excludeKeys: seq<string>)

  /** The published config/audit-diff.php (it sets no `exclude_keys`). */
  const DefaultConfig := Config(
    true, ["updated"], true, true, false,
    ["password", "token", "secret", "api_key", "authorization"], [])

  /** What `recordEvent` asks of the Eloquent model. */
  datatype Entity = Entity(
    entityType: string,                 // get_class($model)
    entityId: string,                   // (string) $model->getKey()
    original: Row,                      // getOriginal()
    attributes: Row,                    // getAttributes()
    changes: set<string>,               // the keys of getChanges()
    createdAtColumn: Option<string>,    // getCreatedAtColumn()
    updatedAtColumn: Option<string>)    // getUpdatedAtColumn()

  /** A PHP-truthy column name: `array_filter` drops null, '' and '0'. */
  predicate Truthy(column: Option<string>)
  {
    column.Some? && column.value != "" && column.value != "0"
  }

  /** The timestamp column names that survive `array_filter`. */
  function TimestampKeys(e: Entity): set<string>
  {
    (if Truthy(e.createdAtColumn) then {e.createdAtColumn.value} else {})
    + (if Truthy(e.updatedAtColumn) then {e.updatedAtColumn.value} else {})
  }

  /** One entry of the `diff` column. */
  datatype Change = Change(before: Value, after: Value)

  type Diff = map<string, Change>

  /**
   * What `recordEvent` decides: no row, or a row whose `diff`, `before` and
   * `after` columns hold these (None is SQL null).
   */
  datatype Outcome =
    | Suppressed
    | Logged(diff: Option<Diff>, before: Option<Row>, after: Option<Row>)

  // ---------------------------------------------------------------------
  // The decision, as a function of the inputs
  // ---------------------------------------------------------------------

  /** The stored snapshots: excluded keys removed, then normalised at every
      depth when `null_equals_empty_string` is on. */
  function Prepare(cfg: Config, row: Row): Row
  {
    var r := ExcludeKeys(row, cfg.excludeKeys);
    if cfg.nullEqualsEmptyString then NormalizeNullEmpty(r) else r
  }

  /** The update loop's normalisation: only a top-level '' becomes null. */
  function TopLevelNormalize(nullEqualsEmpty: bool, v: Value): Value
  {
    if nullEqualsEmpty && v == Str("") then Null else v
  }

  /** `getOriginal($key)`, as the update loop compares it. */
  function OldValue(cfg: Config, e: Entity, key: string): Value
  {
    TopLevelNormalize(cfg.nullEqualsEmptyString, Lookup(e.original, key))
  }

  /** `Arr::get($model->getAttributes(), $key)`, as the update loop compares it. */
  function NewValue(cfg: Config, e: Entity, key: string): Value
  {
    TopLevelNormalize(cfg.nullEqualsEmptyString, Lookup(e.attributes, key))
  }

  /** The candidate keys that reach the diff: not excluded, and old and new
      differ once a top-level '' is null. */
  function ChangedKeys(cfg: Config, e: Entity, candidates: set<string>): set<string>
  {
    set k | k in candidates && k !in ExcludedSet(cfg.excludeKeys) && OldValue(cfg, e, k) != NewValue(cfg, e, k)
  }

  function DiffPartial(cfg: Config, e: Entity, candidates: set<string>): Diff
  {
    map k | k in ChangedKeys(cfg, e, candidates) :: Change(OldValue(cfg, e, k), NewValue(cfg, e, k))
  }

  function BeforePartial(cfg: Config, e: Entity, candidates: set<string>): Row
  {
    map k | k in ChangedKeys(cfg, e, candidates) :: OldValue(cfg, e, k)
  }

  function AfterPartial(cfg: Config, e: Entity, candidates: set<string>): Row
  {
    map k | k in ChangedKeys(cfg, e, candidates) :: NewValue(cfg, e, k)
  }

  function MaskOption(row: Option<Row>, maskKeys: seq<string>): Option<Row>
  {
    if row.Some? then Some(Mask(row.value, maskKeys)) else None
  }

  /** The masked diff: each entry read back from the masked snapshots, or
      kept when a side has no snapshot. */
  function RebuildDiff(diff: Diff, before: Option<Row>, after: Option<Row>): Diff
  {
    map k | k in diff ::
      Change(if before.Some? then Lookup(before.value, k) else diff[k].before,
             if after.Some? then Lookup(after.value, k) else diff[k].after)
  }

  /** Masking of the outcome, applied only when mask keys are configured. */
  function ApplyMasking(maskKeys: seq<string>, diff: Option<Diff>, before: Option<Row>, after: Option<Row>): Outcome
  {
    if |maskKeys| == 0 then Logged(diff, before, after)
    else
      var b := MaskOption(before, maskKeys);
      var a := MaskOption(after, maskKeys);
      Logged(if diff.Some? then Some(RebuildDiff(diff.value, b, a)) else None, b, a)
  }

  /** The outcome of one `recordEvent` call. */
  function Decide(cfg: Config, event: Event, e: Entity): Outcome
  {
    if !cfg.enabled || event.Name() !in cfg.events then Suppressed
    else
      var original := Prepare(cfg, e.original);
      var attributes := Prepare(cfg, e.attributes);
      match event
      case Updated =>
        var keys := ChangedKeys(cfg, e, e.changes);
        if e.changes == {} || keys == {} then Suppressed
        else if cfg.skipIfOnlyTimestampsChanged && keys <= TimestampKeys(e) then Suppressed
        else if cfg.storeFullSnapshot then
          ApplyMasking(cfg.maskKeys, Some(DiffPartial(cfg, e, e.changes)), Some(original), Some(attributes))
        else
          ApplyMasking(cfg.maskKeys, Some(DiffPartial(cfg, e, e.changes)),
                       Some(BeforePartial(cfg, e, e.changes)), Some(AfterPartial(cfg, e, e.changes)))
      case Created => ApplyMasking(cfg.maskKeys, None, None, Some(attributes))
      case Deleted => ApplyMasking(cfg.maskKeys, None, Some(original), None)
  }

  // ---------------------------------------------------------------------
  // The audit row
  // ---------------------------------------------------------------------

  /** The resolved actor (`ActorResolver::resolve()`). */
  datatype Actor = Actor(id: Option<string>, actorType: Option<string>)

  /** The resolved request metadata (`resolveRequestMeta()`). */
  datatype RequestMeta = RequestMeta(
    url: Option<string>, httpMethod: Option<string>, ip: Option<string>, userAgent: Option<string>)

  /** One `audit_logs` row. */
  datatype AuditRecord = AuditRecord(
    auditableType: string,
    auditableId: string,
    event: string,
    actorId: Option<string>,
    actorType: Option<string>,
    diff: Option<Diff>,
    before: Option<Row>,
    after: Option<Row>,
    url: Option<string>,
    httpMethod: Option<string>,
    ip: Option<string>,
    userAgent: Option<string>,
    createdAt: int)

  /** The row assembly: nothing when the outcome is suppressed. */
  function BuildRecord(e: Entity, event: Event, outcome: Outcome, actor: Actor, meta: RequestMeta, now: int)
    : Option<AuditRecord>
  {
    match outcome
    case Suppressed => None
    case Logged(diff, before, after) =>
      Some(AuditRecord(e.entityType, e.entityId, event.Name(), actor.id, actor.actorType,
                       diff, before, after, meta.url, meta.httpMethod, meta.ip, meta.userAgent, now))
  }

  // ---------------------------------------------------------------------
  // recordEvent, step by step
  // ---------------------------------------------------------------------

  /** `foreach ($excludeKeys as $k) unset($changes[$k]);` */
  method RemoveExcluded(changes: set<string>, excludeKeys: seq<string>) returns (rest: set<string>)
    ensures rest == changes - ExcludedSet(excludeKeys)
  {
    rest := changes;
    var i := 0;
    while i < |excludeKeys|
      invariant 0 <= i <= |excludeKeys|
      invariant rest == changes - ExcludedSet(excludeKeys[..i])
    {
      assert ExcludedSet(excludeKeys[..i + 1]) == ExcludedSet(excludeKeys[..i]) + {excludeKeys[i]};
      rest := rest - {excludeKeys[i]};
      i := i + 1;
    }
    assert excludeKeys[..i] == excludeKeys;
  }

  /** The loop over the changed keys that fills `$beforePartial`,
      `$afterPartial` and `$diffPartial`. */
  method CollectChanges(cfg: Config, e: Entity, changes: set<string>)
    returns (beforePartial: Row, afterPartial: Row, diffPartial: Diff)
    ensures diffPartial == DiffPartial(cfg, e, changes)
    ensures beforePartial == BeforePartial(cfg, e, changes)
    ensures afterPartial == AfterPartial(cfg, e, changes)
  {
    beforePartial, afterPartial, diffPartial := map[], map[], map[];
    var todo := changes;
    while todo != {}
      invariant todo <= changes
      invariant diffPartial == DiffPartial(cfg, e, changes - todo)
      invariant beforePartial == BeforePartial(cfg, e, changes - todo)
      invariant afterPartial == AfterPartial(cfg, e, changes - todo)
      decreases todo
    {
      var key :| key in todo;
      ghost var done := changes - todo;
      todo := todo - {key};
      assert changes - todo == done + {key};

      var oldValue := Lookup(e.original, key);
      var newValue := Lookup(e.attributes, key);

      if key in cfg.excludeKeys {
        assert ChangedKeys(cfg, e, changes - todo) == ChangedKeys(cfg, e, done);
        continue;
      }

      if cfg.nullEqualsEmptyString {
        oldValue := if oldValue == Str("") then Null else oldValue;
        newValue := if newValue == Str("") then Null else newValue;
      }

      if oldValue == newValue {
        assert ChangedKeys(cfg, e, changes - todo) == ChangedKeys(cfg, e, done);
        continue;
      }

      assert ChangedKeys(cfg, e, changes - todo) == ChangedKeys(cfg, e, done) + {key};
      beforePartial := beforePartial[key := oldValue];
      afterPartial := afterPartial[key := newValue];
      diffPartial := diffPartial[key := Change(oldValue, newValue)];
    }
    assert changes - todo == changes;
  }

  /** The `$maskedDiff` loop: each entry read back from the masked
      snapshots. */
  method RebuildMaskedDiff(diff: Diff, before: Option<Row>, after: Option<Row>) returns (maskedDiff: Diff)
    ensures maskedDiff == RebuildDiff(diff, before, after)
  {
    maskedDiff := map[];
    var todo := diff.Keys;
    while todo != {}
      invariant todo <= diff.Keys
      invariant maskedDiff.Keys == diff.Keys - todo
      invariant forall k :: k in maskedDiff ==> maskedDiff[k] == RebuildDiff(diff, before, after)[k]
      decreases todo
    {
      var k :| k in todo;
      todo := todo - {k};
      maskedDiff := maskedDiff[k := Change(
        if before.Some? then Lookup(before.value, k) else diff[k].before,
        if after.Some? then Lookup(after.value, k) else diff[k].after)];
    }
  }

  /**
   * `recordEvent($model, $event)`: the row to save, or nothing.  The actor,
   * the request metadata and the clock are passed in already resolved.
   */
  method RecordEvent(cfg: Config, event: Event, e: Entity, actor: Actor, meta: RequestMeta, now: int)
    returns (record: Option<AuditRecord>)
    ensures record == BuildRecord(e, event, Decide(cfg, event, e), actor, meta, now)
  {
    if !cfg.enabled { return None; }
    if event.Name() !in cfg.events { return None; }

    var timestampKeys := TimestampKeys(e);

    var original := ExcludeKeys(e.original, cfg.excludeKeys);
    var attributes := ExcludeKeys(e.attributes, cfg.excludeKeys);
    if cfg.nullEqualsEmptyString {
      original := NormalizeNullEmpty(original);
      attributes := NormalizeNullEmpty(attributes);
    }

    var diff: Option<Diff> := None;
    var before: Option<Row> := None;
    var after: Option<Row> := None;

    if event == Updated {
      var changes := e.changes;
      if changes == {} { return None; }

      changes := RemoveExcluded(changes, cfg.excludeKeys);
      assert ChangedKeys(cfg, e, changes) == ChangedKeys(cfg, e, e.changes);

      var beforePartial, afterPartial, diffPartial := CollectChanges(cfg, e, changes);
      if diffPartial == map[] {
        assert ChangedKeys(cfg, e, e.changes) == diffPartial.Keys;
        return None;
      }

      if cfg.skipIfOnlyTimestampsChanged {
        var nonTimestampKeys := diffPartial.Keys - timestampKeys;
        if nonTimestampKeys == {} { return None; }
      }

      if cfg.storeFullSnapshot {
        before, after := Some(original), Some(attributes);
      } else {
        before, after := Some(beforePartial), Some(afterPartial);
      }
      diff := Some(diffPartial);
    }

    // recordEvent's two store_full_snapshot branches store the same snapshot
    // for created and deleted, so each event has one assignment here.
    if event == Created {
      diff, before, after := None, None, Some(attributes);
    }
    if event == Deleted {
      diff, before, after := None, Some(original), None;
    }

    if |cfg.maskKeys| > 0 {
      if before.Some? { before := Some(Mask(before.value, cfg.maskKeys)); }
      if after.Some? { after := Some(Mask(after.value, cfg.maskKeys)); }
      if diff.Some? {
        var maskedDiff := RebuildMaskedDiff(diff.value, before, after);
        diff := Some(maskedDiff);
      }
    }

    record := Some(AuditRecord(e.entityType, e.entityId, event.Name(), actor.id, actor.actorType,
                               diff, before, after, meta.url, meta.httpMethod, meta.ip, meta.userAgent, now));
  }
}
