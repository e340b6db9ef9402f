/**
 * Worked examples: the feature tests of the package, replayed on `Decide`,
 * and one update that shows the update loop's top-level-only normalisation.
 * Most use the tests' configuration (`DefaultConfig`); `CreatedAndDeleted`
 * also tracks created and deleted, and `ExcludedKeyNotInDiff` also excludes
 * `remember_token`, since the tests' configuration does neither.
 */
module AuditableExamples {
  import opened Values
  import opened Masker
  import opened Auditable
  import opened AuditableProperties

  /** The fixture model's timestamp columns. */
  function User(original: Row, attributes: Row, changes: set<string>): Entity
  {
    Entity("TestUser", "1", original, attributes, changes, Some("created_at"), Some("updated_at"))
  }

  /** The default mask keys are already lower case. */
  lemma DefaultMaskSet()
    ensures MaskSet(DefaultConfig.maskKeys) == {"password", "token", "secret", "api_key", "authorization"}
  {
    LowerOfLowerCase("password");
    LowerOfLowerCase("token");
    LowerOfLowerCase("secret");
    LowerOfLowerCase("api_key");
    LowerOfLowerCase("authorization");
  }

  /** Whether a plain lower-case column is masked by default. */
  lemma DefaultMatches(column: string)
    requires forall i :: 0 <= i < |column| ==> !('A' <= column[i] <= 'Z')
    ensures Matches(SKey(column), MaskSet(DefaultConfig.maskKeys)) <==>
              column in {"password", "token", "secret", "api_key", "authorization"}
  {
    DefaultMaskSet();
    LowerOfLowerCase(column);
  }

  /** Renaming a user records the name change (the timestamp column that
      changed alongside does not stop the row). */
  lemma UpdateRecordsDiff()
    ensures var e := User(map["name" := Str("A"), "updated_at" := Str("t1")],
                          map["name" := Str("B"), "updated_at" := Str("t2")],
                          {"name", "updated_at"});
            var o := Decide(DefaultConfig, Updated, e);
            o.Logged? && o.diff.Some? && "name" in o.diff.value &&
            o.diff.value["name"] == Change(Str("A"), Str("B"))
  {
    var e := User(map["name" := Str("A"), "updated_at" := Str("t1")],
                  map["name" := Str("B"), "updated_at" := Str("t2")],
                  {"name", "updated_at"});
    assert "name" in ChangedKeys(DefaultConfig, e, e.changes);
    DefaultMatches("name");
  }

  /** `touch()` changes only `updated_at`: no row. */
  lemma TouchIsSkipped()
    ensures var e := User(map["name" := Str("A"), "updated_at" := Str("t1")],
                          map["name" := Str("A"), "updated_at" := Str("t2")],
                          {"updated_at"});
            Decide(DefaultConfig, Updated, e) == Suppressed
  {
  }

  /** A password change shows the marker on both sides of the diff. */
  lemma PasswordIsMasked()
    ensures var e := User(map["name" := Str("A"), "password" := Str("old")],
                          map["name" := Str("A"), "password" := Str("new")],
                          {"password"});
            var o := Decide(DefaultConfig, Updated, e);
            o.Logged? && o.diff.Some? && "password" in o.diff.value &&
            o.diff.value["password"] == Change(Redacted, Redacted)
  {
    var e := User(map["name" := Str("A"), "password" := Str("old")],
                  map["name" := Str("A"), "password" := Str("new")],
                  {"password"});
    assert "password" in ChangedKeys(DefaultConfig, e, e.changes);
    DefaultMatches("password");
    MaskedDiffConsistent(DefaultConfig, e);
  }

  /** With created and deleted tracked, creating a user stores the
      attributes as `after` and deleting it stores them as `before`. */
  lemma CreatedAndDeleted()
    ensures var cfg := DefaultConfig.(events := ["created", "updated", "deleted"]);
            var e := User(map["name" := Str("A")], map["name" := Str("A")], {});
            && Decide(cfg, Created, e) == Logged(None, None, Some(map["name" := Str("A")]))
            && Decide(cfg, Deleted, e) == Logged(None, Some(map["name" := Str("A")]), None)
  {
    var cfg := DefaultConfig.(events := ["created", "updated", "deleted"]);
    var row := map["name" := Str("A")];
    DefaultMatches("name");
    assert NormalizeNullEmpty(row) == row;
    assert ExcludeKeys(row, []) == row;
    assert Mask(row, cfg.maskKeys) == row;
  }

  /** An excluded column never reaches the diff, even when it changed. */
  lemma ExcludedKeyNotInDiff()
    ensures var cfg := DefaultConfig.(excludeKeys := ["remember_token"]);
            var e := User(map["name" := Str("A"), "remember_token" := Str("SHOULD_NOT_LOG")],
                          map["name" := Str("B"), "remember_token" := Str("UPDATED")],
                          {"name", "remember_token"});
            var o := Decide(cfg, Updated, e);
            o.Logged? && o.diff.Some? && "remember_token" !in o.diff.value && "name" in o.diff.value
  {
    var cfg := DefaultConfig.(excludeKeys := ["remember_token"]);
    var e := User(map["name" := Str("A"), "remember_token" := Str("SHOULD_NOT_LOG")],
                  map["name" := Str("B"), "remember_token" := Str("UPDATED")],
                  {"name", "remember_token"});
    assert "name" in ChangedKeys(cfg, e, e.changes);
    assert "remember_token" in ExcludedSet(cfg.excludeKeys);
  }

  /** Under the tests' own configuration, which excludes nothing, a changed
      `remember_token` is recorded: the mask key `token` does not match it. */
  lemma RememberTokenKeptWithoutExclusion()
    ensures var e := User(map["name" := Str("A"), "remember_token" := Str("SHOULD_NOT_LOG")],
                          map["name" := Str("B"), "remember_token" := Str("UPDATED")],
                          {"name", "remember_token"});
            var o := Decide(DefaultConfig, Updated, e);
            o.Logged? && o.diff.Some? && "remember_token" in o.diff.value
  {
    var e := User(map["name" := Str("A"), "remember_token" := Str("SHOULD_NOT_LOG")],
                  map["name" := Str("B"), "remember_token" := Str("UPDATED")],
                  {"name", "remember_token"});
    assert "remember_token" in ChangedKeys(DefaultConfig, e, e.changes);
    DefaultMatches("remember_token");
  }

  /** A user whose `meta` column changes from {"a": ""} to {"a": null}. */
  function NestedUser(): Entity
  {
    User(map["meta" := Arr(map[SKey("a") := Str("")])],
         map["meta" := Arr(map[SKey("a") := Null])],
         {"meta"})
  }

  lemma NestedUserChanges()
    ensures var e := NestedUser();
            && ChangedKeys(DefaultConfig, e, e.changes) == {"meta"}
            && DiffPartial(DefaultConfig, e, e.changes) == map["meta" := Change(e.original["meta"], e.attributes["meta"])]
            && BeforePartial(DefaultConfig, e, e.changes) == map["meta" := e.original["meta"]]
            && AfterPartial(DefaultConfig, e, e.changes) == map["meta" := e.attributes["meta"]]
  {
    var e := NestedUser();
    assert e.original["meta"].entries[SKey("a")] != e.attributes["meta"].entries[SKey("a")];
    assert ChangedKeys(DefaultConfig, e, e.changes) == {"meta"};
  }

  lemma NestedUserUnmasked(row: Row)
    requires row.Keys == {"meta"} && row["meta"].Arr? && row["meta"].entries.Keys == {SKey("a")}
    requires !row["meta"].entries[SKey("a")].Arr?
    ensures Mask(row, DefaultConfig.maskKeys) == row
  {
    var maskSet := MaskSet(DefaultConfig.maskKeys);
    DefaultMatches("meta");
    DefaultMatches("a");
    assert Walk(row["meta"], SKey("meta"), maskSet) == row["meta"];
  }

  /** The update loop maps only a top-level '' to null: a nested '' that
      became null is recorded as a change although the two values normalise
      to the same snapshot value. */
  lemma NestedEmptyStringIsAChange()
    ensures var o := Decide(DefaultConfig, Updated, NestedUser());
            && o.Logged? && o.diff.Some? && "meta" in o.diff.value
            && o.diff.value["meta"].before != o.diff.value["meta"].after
            && NormalizeValue(o.diff.value["meta"].before) == NormalizeValue(o.diff.value["meta"].after)
  {
    var e := NestedUser();
    var cfg := DefaultConfig;
    NestedUserChanges();
    NestedUserUnmasked(BeforePartial(cfg, e, e.changes));
    NestedUserUnmasked(AfterPartial(cfg, e, e.changes));
    assert NormalizeValue(e.original["meta"]) == NormalizeValue(e.attributes["meta"]);
  }
}
