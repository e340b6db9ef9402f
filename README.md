# laravel-audit-diff: the audit decision engine

This project models the core of the `laravel-audit-diff` package. That core decides, for one
created, updated or deleted Eloquent model, whether an `audit_logs` row is written. It also
decides what the row's `diff`, `before` and `after` columns hold.

- `Values.dfy` (module `Values`): PHP values as a datatype. A value is null, a string, an
  integer, a boolean, or an array. An array maps string or integer keys to values. `Row` is a
  top-level attribute array keyed by column name. `Lookup` is `Arr::get` / `getOriginal($key)`
  with its null default.
- `Masker.dfy` (module `Masker`): `Masker::mask` and its recursive `$walker`, with ASCII
  `strtolower`. Also the lemmas on masking along every path of a nested array: what keeps its
  shape, what becomes `'***'`, and idempotence.
- `Auditable.dfy` (module `Auditable`): the `Auditable` trait.
  - `excludeKeys` and `normalizeNullEmpty` as functions.
  - The settings as an immutable `Config`. `DefaultConfig` is the published
    `config/audit-diff.php`.
  - What the model is asked for, as an `Entity`: `getOriginal()`, `getAttributes()`, the keys
    of `getChanges()`, the two timestamp column names, the class and key.
  - `Decide`: the outcome as a function of those inputs. It is one of: no row; a snapshot for
    created/deleted; a diff for updated.
  - `RecordEvent`: `recordEvent` step by step, with early returns. It uses three loops
    (`RemoveExcluded`, `CollectChanges`, `RebuildMaskedDiff`), and each loop is proved to agree
    with its comprehension.
  - `BuildRecord`: the row assembly from an already-resolved actor, request metadata and time.
- `AuditableProperties.dfy`: what `recordEvent` promises, proved about `Decide`. It covers
  when a row is suppressed, which keys reach the diff, the timestamp-only rule, partial and
  full snapshots, created/deleted shapes, and how masking shows up in the diff.
- `Examples.dfy`: the package's feature tests replayed on `Decide`, plus one update showing
  that the update loop normalises only the top level. Most replay under the tests'
  configuration; the two exceptions are listed below.

How the code behaves where it is easy to misread:

- **Comparing old and new values.** The update loop (src/Traits/Auditable.php:88-93) maps
  only a top-level `''` to null, so a nested `''` that becomes null is recorded as a change
  (`AuditableExamples.NestedEmptyStringIsAChange`). The stored snapshots are normalised at
  every depth (lines 58-61).
- **Rebuilding the diff.** `diff` is rebuilt from the masked `before`/`after` only when mask
  keys are configured (line 157).
  - With `store_full_snapshot`, the rebuilt entries come from the whole excluded (and, with
    `null_equals_empty_string`, deeply normalised) snapshots.
  - A masked column missing from the original therefore shows `null`, not `'***'`, on the
    before side (`AuditableProperties.MaskedDiffConsistent`).
- **The feature tests' own configuration** (tests/TestCase.php:27-33) does not support two of
  the tests, so their examples change one setting:
  - It configures `events` as `['updated']`. Under that setting a `created` or `deleted`
    event writes no row (`AuditableProperties.RecordedOnlyWhenEnabledAndTracked`).
    `AuditableExamples.CreatedAndDeleted` therefore replays
    tests/Feature/AuditDiffTest.php:52-71 with all three events tracked.
  - It sets no `exclude_keys`. Mask keys match by equality of lower-case forms, so `token`
    does not mask `remember_token`. Under that configuration `remember_token` stays in the
    diff (`AuditableExamples.RememberTokenKeptWithoutExclusion`).
    `AuditableExamples.ExcludedKeyNotInDiff` therefore replays
    tests/Feature/AuditDiffTest.php:73-87 with `exclude_keys` set to `['remember_token']`.
    The `test_users` table has no `remember_token` column (tests/TestCase.php:59-63). The
    test's actor `tester-1` comes from no configured resolver, and actor resolution is not
    part of this model.

## Model

| member | source | states |
|---|---|---|
| Masker.Mask | src/Support/Masker.php:12-40 | The result has exactly the input's top-level keys. An empty mask-key list returns the input unchanged. Every top-level key that matches holds `'***'`. |
| Masker.MatchesIff | src/Support/Masker.php:16-19 | A key is masked iff it is a string whose lower-case form equals the lower-case form of some mask key. Integer keys never match. |
| Masker.MaskKeysCaseInsensitive | src/Support/Masker.php:16 | Masking with the mask keys lower-cased first gives the same result: the case of the configured keys does not matter. |
| Masker.WalkIntKey | src/Support/Masker.php:19-29 | A value under an integer key is never replaced by the marker unless it already is one. It is walked exactly like a value under a non-matching string key. |
| Masker.WalkKeepsUnmatchedPaths | src/Support/Masker.php:18-31 | Along any path of non-matching keys, the walked value has an entry iff the input has one. Arrays there keep their key sets and scalars are unchanged. |
| Masker.WalkRedactsFirstMatch | src/Support/Masker.php:19-29 | Whatever lies under the first matching key of a path becomes `'***'`, at any depth and of any type. |
| Masker.WalkLeavesNoMatchUnredacted | src/Support/Masker.php:19-29 | In the walked value, every entry under a matching key is `'***'`. |
| Masker.WalkIdempotent | src/Support/Masker.php:18-31 | Walking a walked value again with the same keys changes nothing. |
| Masker.MaskKeepsUnmatchedPaths | src/Support/Masker.php:23-37 | For a whole row: along paths of non-matching keys, entries exist iff they exist in the input. Key sets at every level equal the input's and scalars are unchanged. |
| Masker.MaskRedactsMatchedPaths | src/Support/Masker.php:19-37 | For a whole row: any value under a matching key, at any depth and of any type, becomes `'***'`. |
| Masker.MaskLeavesNoMatchUnredacted | src/Support/Masker.php:19-37 | After masking, no matching key anywhere in the row holds anything but `'***'`. |
| Masker.MaskIdempotent | src/Support/Masker.php:12-40 | `mask(mask(x, ks), ks) == mask(x, ks)`. |
| Auditable.ExcludeKeys | src/Traits/Auditable.php:198-204 | The result's keys are the input's keys minus exactly the listed keys. Every remaining key keeps its value. |
| Auditable.NormalizeNullEmpty | src/Traits/Auditable.php:207-218 | The top-level key set is kept. |
| Auditable.NormalizeValuePaths | src/Traits/Auditable.php:207-218 | After normalisation, exactly the input's paths exist. An array keeps its key set. `''` becomes null at any depth. Every other scalar is unchanged. |
| Auditable.NormalizeValueNoEmptyString | src/Traits/Auditable.php:210-215 | A normalised value holds no empty string anywhere. |
| Auditable.NormalizeValueFixpoint | src/Traits/Auditable.php:207-218 | Normalisation leaves a value unchanged iff the value holds no empty string. |
| Auditable.NormalizeNullEmptyPaths | src/Traits/Auditable.php:207-218 | For a whole row: the key set at every level is kept, `''` becomes null at any depth, and every other scalar is unchanged. |
| Auditable.NormalizeNullEmptyIdempotent | src/Traits/Auditable.php:207-218 | `normalizeNullEmpty` is idempotent. |
| Auditable.RemoveExcluded | src/Traits/Auditable.php:72-74 | The unset loop leaves the changed keys minus exactly the excluded keys. |
| Auditable.CollectChanges | src/Traits/Auditable.php:76-104 | The loop fills `$diffPartial`, `$beforePartial` and `$afterPartial` with exactly these keys: not excluded, and old and new values differing once a top-level `''` is null. The values are those two compared values. |
| Auditable.RebuildMaskedDiff | src/Traits/Auditable.php:161-170 | The `$maskedDiff` loop gives, for every diff key, the entry read from the (masked) snapshots. A missing column reads as null. When a side has no snapshot, the old entry's side is kept. |
| Auditable.RecordEvent | src/Traits/Auditable.php:29-191 | The procedure returns exactly the row `Decide` and `BuildRecord` describe, or nothing when `Decide` suppresses it. |
| AuditableProperties.RecordedOnlyWhenEnabledAndTracked | src/Traits/Auditable.php:31-34 | A row is produced only if auditing is enabled and the event name is in the events list. For created and deleted this condition is also sufficient. |
| AuditableProperties.UpdateSuppressedIff | src/Traits/Auditable.php:67-114 | An update is suppressed iff one of these holds: auditing is off; updates are untracked; no changed key survives exclusion and comparison; or, with `skip_if_only_timestamps_changed`, every surviving key is a timestamp column. |
| AuditableProperties.UpdateSuppressedCases | src/Traits/Auditable.php:68-106 | An update writes no row when the change set is empty, when every changed key is excluded, or when every changed key's old and new values are equal after top-level `''`-to-null. |
| AuditableProperties.DiffKeysExactly | src/Traits/Auditable.php:72-104 | A key is in the recorded diff iff it came from the change set, is not excluded, and has differing old and new values after top-level `''`-to-null normalisation. |
| AuditableProperties.TimestampOnlyRule | src/Traits/Auditable.php:108-114 | With the skip setting on, a recorded update has a non-timestamp key in its diff. Any surviving non-timestamp key lets the update through. |
| AuditableProperties.PartialSnapshotShape | src/Traits/Auditable.php:97-125 | Without `store_full_snapshot`, `before` and `after` have exactly the diff's key set. They are the partial maps, masked when mask keys are set. `diff[k] == {before: before[k], after: after[k]}`. |
| AuditableProperties.FullSnapshotShape | src/Traits/Auditable.php:117-125 | With `store_full_snapshot`, `before` and `after` are the whole excluded, normalised (and masked) original and attribute snapshots. The diff keeps only the changed keys. |
| AuditableProperties.UnmaskedDiffValues | src/Traits/Auditable.php:88-104 | Without mask keys, each diff entry holds the two values the update loop compared, and these values differ. |
| AuditableProperties.MaskedDiffConsistent | src/Traits/Auditable.php:156-171 | With mask keys, each diff entry is read back from the masked `before`/`after`. A masked field shows `'***'` on both sides. With a full snapshot, a side whose snapshot lacks the column shows null instead. |
| AuditableProperties.CreatedSnapshot | src/Traits/Auditable.php:128-140 | `created` gives diff null, before null, and after the excluded, normalised (masked) attributes. The result does not depend on `store_full_snapshot`. |
| AuditableProperties.DeletedSnapshot | src/Traits/Auditable.php:142-154 | `deleted` gives diff null, after null, and before the excluded, normalised (masked) original. The result does not depend on `store_full_snapshot`. |
| AuditableProperties.RecordShape | src/Traits/Auditable.php:176-193 | A saved row names a tracked event. Its diff is null exactly when the event is not an update, before is null exactly for creations, and after is null exactly for deletions. It carries the model's class and key, the given actor id and type, the request url, method, ip and user agent, and the given time. |
| AuditableExamples.UpdateRecordsDiff | tests/Feature/AuditDiffTest.php:11-22 | Renaming A to B under the default settings records `name: {before: A, after: B}`. |
| AuditableExamples.TouchIsSkipped | tests/Feature/AuditDiffTest.php:24-36 | An update that changes only `updated_at` writes no row. |
| AuditableExamples.PasswordIsMasked | tests/Feature/AuditDiffTest.php:39-50 | A password change shows `'***'` on both sides of the diff. |
| AuditableExamples.CreatedAndDeleted | tests/Feature/AuditDiffTest.php:52-71 | With all events tracked, creating stores the attributes as `after` and deleting stores them as `before`. The other columns are null. |
| AuditableExamples.ExcludedKeyNotInDiff | tests/Feature/AuditDiffTest.php:73-87 | With `exclude_keys` set to `['remember_token']`, that column is absent from the diff although it changed, while the other change appears. |
| AuditableExamples.RememberTokenKeptWithoutExclusion | tests/TestCase.php:27-33 | Under the tests' own configuration (no `exclude_keys`), a changed `remember_token` is in the diff: the mask key `token` does not match it. |
| AuditableExamples.NestedEmptyStringIsAChange | src/Traits/Auditable.php:88-93 | A nested `''` that became null is recorded as a change, even though both values normalise to the same snapshot value. |

## Left out

- Framework wiring: `bootAuditable` registers Eloquent hooks. The three events are explicit `Event` arguments instead.
- Actor resolution (`ActorResolver::resolve`) and `resolveRequestMeta` call framework services and catch exceptions. The resolved actor id/type and url/method/ip/user agent are inputs.
- Persistence: `new AuditLog`, `now()`, `save()` and the JSON casts of `AuditLog`. The row is an `AuditRecord` value and the time is an integer input.
- Configuration: `config(...)` reads are fields of `Config`. Its `(bool)`/`(array)` casts of malformed settings are not modelled.
- The install command and the service provider: these are file-system and publishing glue.
- Entry order: PHP arrays keep entry order, but maps do not. PHP's `===` on two arrays that differ only in order says they differ; the model says they are equal.
- Dot notation: `Arr::get` and `getOriginal($key)` follow dotted paths into nested arrays. The model looks the key up only at the top level, with a null default.
- Numeric keys: PHP turns a numeric-string array key into an integer key. Top-level column names are kept as strings.
- Value types: floats, objects and date casts are not values of the model. Timestamps appear as strings.
- `Lower` follows PHP 8's ASCII-only `strtolower`. Locale-dependent lower-casing is not modelled.
