/**
 * What `recordEvent` promises, stated about `Decide` (and so, through
 * `RecordEvent`'s postcondition, about the procedure itself).
 */
module AuditableProperties {
  import opened Values
  import opened Masker
  import opened Auditable

  /** Nothing is recorded unless auditing is enabled and the event is listed;
      for created and deleted that is also enough. */
  lemma RecordedOnlyWhenEnabledAndTracked(cfg: Config, event: Event, e: Entity)
    ensures Decide(cfg, event, e) != Suppressed ==> cfg.enabled && event.Name() in cfg.events
    ensures event != Updated ==>
              (Decide(cfg, event, e) != Suppressed <==> cfg.enabled && event.Name() in cfg.events)
  {
  }

  /** An update is suppressed exactly when auditing is off, updates are not
      tracked, no key survives exclusion and normalisation, or (with
      skip_if_only_timestamps_changed) only timestamp columns survive. */
  lemma UpdateSuppressedIff(cfg: Config, e: Entity)
    ensures Decide(cfg, Updated, e) == Suppressed <==>
              || !cfg.enabled
              || "updated" !in cfg.events
              || ChangedKeys(cfg, e, e.changes) == {}
              || (cfg.skipIfOnlyTimestampsChanged && ChangedKeys(cfg, e, e.changes) <= TimestampKeys(e))
  {
  }

  /** An update writes no row when nothing changed, when every changed key
      is excluded, or when every change vanishes once a top-level '' is
      null. */
  lemma UpdateSuppressedCases(cfg: Config, e: Entity)
    requires || e.changes == {}
             || e.changes <= ExcludedSet(cfg.excludeKeys)
             || (forall k | k in e.changes :: OldValue(cfg, e, k) == NewValue(cfg, e, k))
    ensures Decide(cfg, Updated, e) == Suppressed
  {
  }

  /** The keys of a recorded diff are exactly the changed keys that are not
      excluded and whose old and new values differ after top-level ''-to-null
      normalisation. */
  lemma DiffKeysExactly(cfg: Config, e: Entity)
    ensures var o := Decide(cfg, Updated, e);
            o.Logged? ==>
              && o.diff.Some? && o.before.Some? && o.after.Some?
              && forall k :: k in o.diff.value <==>
                   k in e.changes && k !in ExcludedSet(cfg.excludeKeys) && OldValue(cfg, e, k) != NewValue(cfg, e, k)
  {
  }

  /** With skip_if_only_timestamps_changed, a recorded update has a
      non-timestamp key in its diff, and any such key lets the update
      through. */
  lemma TimestampOnlyRule(cfg: Config, e: Entity, key: string)
    requires cfg.skipIfOnlyTimestampsChanged
    ensures var o := Decide(cfg, Updated, e);
            o.Logged? ==> exists k :: k in o.diff.value && k !in TimestampKeys(e)
    ensures cfg.enabled && "updated" in cfg.events && key in ChangedKeys(cfg, e, e.changes) && key !in TimestampKeys(e)
            ==> Decide(cfg, Updated, e).Logged?
  {
    var o := Decide(cfg, Updated, e);
    if o.Logged? {
      var keys := ChangedKeys(cfg, e, e.changes);
      assert !(keys <= TimestampKeys(e));
      var k :| k in keys && k !in TimestampKeys(e);
      assert k in o.diff.value;
    }
  }

  /** Without store_full_snapshot, `before` and `after` hold exactly the diff's
      keys, and every diff entry pairs their values. */
  lemma PartialSnapshotShape(cfg: Config, e: Entity)
    requires !cfg.storeFullSnapshot
    ensures var o := Decide(cfg, Updated, e);
            o.Logged? ==>
              && o.diff.Some? && o.before.Some? && o.after.Some?
              && o.before.value.Keys == o.diff.value.Keys == o.after.value.Keys
              && o.before.value == Mask(BeforePartial(cfg, e, e.changes), cfg.maskKeys)
              && o.after.value == Mask(AfterPartial(cfg, e, e.changes), cfg.maskKeys)
              && forall k :: k in o.diff.value ==>
                   o.diff.value[k] == Change(o.before.value[k], o.after.value[k])
  {
  }

  /** With store_full_snapshot, `before` and `after` are the whole excluded,
      normalised (and masked) snapshots, while `diff` stays partial. */
  lemma FullSnapshotShape(cfg: Config, e: Entity)
    requires cfg.storeFullSnapshot
    ensures var o := Decide(cfg, Updated, e);
            o.Logged? ==>
              && o.before == Some(Mask(Prepare(cfg, e.original), cfg.maskKeys))
              && o.after == Some(Mask(Prepare(cfg, e.attributes), cfg.maskKeys))
              && o.diff.Some? && o.diff.value.Keys == ChangedKeys(cfg, e, e.changes)
  {
  }

  /** Without mask keys the diff holds, for every kept key, the two values
      the update loop compared, and they differ. */
  lemma UnmaskedDiffValues(cfg: Config, e: Entity)
    requires |cfg.maskKeys| == 0
    ensures var o := Decide(cfg, Updated, e);
            o.Logged? ==>
              && o.diff.Some?
              && forall k :: k in o.diff.value ==>
                   && o.diff.value[k] == Change(OldValue(cfg, e, k), NewValue(cfg, e, k))
                   && o.diff.value[k].before != o.diff.value[k].after
  {
  }

  /** With mask keys, each diff entry is read back from the masked `before`
      and `after`; a masked field shows the marker on both sides, except that
      a full snapshot lacking the column yields null on that side. */
  lemma MaskedDiffConsistent(cfg: Config, e: Entity)
    requires |cfg.maskKeys| > 0
    ensures var o := Decide(cfg, Updated, e);
            o.Logged? ==>
              && o.diff.Some? && o.before.Some? && o.after.Some?
              && (forall k :: k in o.diff.value ==>
                    o.diff.value[k] == Change(Lookup(o.before.value, k), Lookup(o.after.value, k)))
              && (forall k :: k in o.diff.value && Matches(SKey(k), MaskSet(cfg.maskKeys)) ==>
                    if cfg.storeFullSnapshot then
                      && o.diff.value[k].before == (if k in e.original then Redacted else Null)
                      && o.diff.value[k].after == (if k in e.attributes then Redacted else Null)
                    else o.diff.value[k] == Change(Redacted, Redacted))
  {
    var o := Decide(cfg, Updated, e);
    if o.Logged? && cfg.storeFullSnapshot {
      forall k | k in o.diff.value
        ensures k in Prepare(cfg, e.original) <==> k in e.original
        ensures k in Prepare(cfg, e.attributes) <==> k in e.attributes
      {
        assert k in ChangedKeys(cfg, e, e.changes);
      }
    }
  }

  /** `created` stores only the excluded, normalised (and masked)
      attributes as `after`, whatever store_full_snapshot says. */
  lemma CreatedSnapshot(cfg: Config, e: Entity, full: bool)
    ensures var o := Decide(cfg, Created, e);
            o.Logged? ==> o == Logged(None, None, Some(Mask(Prepare(cfg, e.attributes), cfg.maskKeys)))
    ensures Decide(cfg.(storeFullSnapshot := full), Created, e) == Decide(cfg, Created, e)
  {
  }

  /** `deleted` stores only the excluded, normalised (and masked) original
      as `before`, whatever store_full_snapshot says. */
  lemma DeletedSnapshot(cfg: Config, e: Entity, full: bool)
    ensures var o := Decide(cfg, Deleted, e);
            o.Logged? ==> o == Logged(None, Some(Mask(Prepare(cfg, e.original), cfg.maskKeys)), None)
    ensures Decide(cfg.(storeFullSnapshot := full), Deleted, e) == Decide(cfg, Deleted, e)
  {
  }

  /** A saved row has a diff exactly for updates, no `before` exactly for
      creations and no `after` exactly for deletions, names a tracked event,
      and copies the model's identity, the actor, the request metadata and the
      time. */
  lemma RecordShape(cfg: Config, event: Event, e: Entity, actor: Actor, meta: RequestMeta, now: int)
    ensures var r := BuildRecord(e, event, Decide(cfg, event, e), actor, meta, now);
            r.Some? ==>
              && r.value.event in cfg.events
              && (r.value.diff.None? <==> event != Updated)
              && (r.value.before.None? <==> event == Created)
              && (r.value.after.None? <==> event == Deleted)
              && r.value.auditableType == e.entityType && r.value.auditableId == e.entityId
              && r.value.actorId == actor.id && r.value.actorType == actor.actorType
              && r.value.url == meta.url && r.value.httpMethod == meta.httpMethod
              && r.value.ip == meta.ip && r.value.userAgent == meta.userAgent
              && r.value.createdAt == now
  {
  }
}
