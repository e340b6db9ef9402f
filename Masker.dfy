/**
 * `Masker::mask`: case-insensitive redaction of configured keys anywhere in a
 * nested attribute array.  The recursive `$walker` closure becomes `Walk`; the
 * loops that fill fresh `$out` arrays become map comprehensions, since the
 * input is never modified.
 */
module Masker {
  import opened Values

  /** The marker that replaces a redacted value. */
  const Redacted: Value := Str("***")

  /** PHP's `strtolower` on one character: only ASCII letters change. */
  function LowerChar(c: char): char
  {
    if 'A' <= c <= 'Z' then (c as int + 32) as char else c
  }

  /** PHP's `strtolower`, character by character. */
  function Lower(s: string): string
  {
    seq(|s|, i requires 0 <= i < |s| => LowerChar(s[i]))
  }

  /** `array_fill_keys(array_map('strtolower', $maskKeys), true)`, as a set. */
  function MaskSet(maskKeys: seq<string>): set<string>
  {
    set k | k in maskKeys :: Lower(k)
  }

  /** The walker's guard: a string key whose lower-case form is a mask key. */
  predicate Matches(key: Key, maskSet: set<string>)
  {
    key.SKey? && Lower(key.name) in maskSet
  }

  /** The `$walker` closure: the value stored under `key`, masked. */
  function Walk(v: Value, key: Key, maskSet: set<string>): Value
  {
    if Matches(key, maskSet) then Redacted
    else match v
      case Arr(m) => Arr(map k | k in m :: Walk(m[k], k, maskSet))
      case _ => v
  }

  /** `Masker::mask($data, $maskKeys)`. */
  function Mask(data: Row, maskKeys: seq<string>): (r: Row)
    ensures r.Keys == data.Keys
    ensures |maskKeys| == 0 ==> r == data
    ensures forall k :: k in data && Matches(SKey(k), MaskSet(maskKeys)) ==> r[k] == Redacted
  {
    if |maskKeys| == 0 then data
    else map k | k in data :: Walk(data[k], SKey(k), MaskSet(maskKeys))
  }

  /** Every mask key, lower-cased. */
  function LowerAll(maskKeys: seq<string>): seq<string>
  {
    seq(|maskKeys|, i requires 0 <= i < |maskKeys| => Lower(maskKeys[i]))
  }

  // ---------------------------------------------------------------------
  // Case-insensitive matching
  // ---------------------------------------------------------------------

  lemma LowerIdempotent(s: string)
    ensures Lower(Lower(s)) == Lower(s)
  {
  }

  /** A string with no upper-case ASCII letter is its own lower-case form. */
  lemma LowerOfLowerCase(s: string)
    requires forall i :: 0 <= i < |s| ==> !('A' <= s[i] <= 'Z')
    ensures Lower(s) == s
  {
  }

  /** A key is masked iff it is a string whose lower-case form equals the
      lower-case form of some mask key. */
  lemma MatchesIff(key: Key, maskKeys: seq<string>)
    ensures Matches(key, MaskSet(maskKeys)) <==>
            key.SKey? && exists m :: m in maskKeys && Lower(m) == Lower(key.name)
  {
    if key.SKey? && Lower(key.name) in MaskSet(maskKeys) {
      var m :| m in maskKeys && Lower(m) == Lower(key.name);
    }
  }

  /** The case in which the mask keys are written does not matter. */
  lemma MaskKeysCaseInsensitive(data: Row, maskKeys: seq<string>)
    ensures Mask(data, LowerAll(maskKeys)) == Mask(data, maskKeys)
  {
    var lowered := LowerAll(maskKeys);
    forall m | m in MaskSet(maskKeys)
      ensures m in MaskSet(lowered)
    {
      var i :| 0 <= i < |maskKeys| && Lower(maskKeys[i]) == m;
      LowerIdempotent(maskKeys[i]);
      assert Lower(lowered[i]) == m;
    }
    forall m | m in MaskSet(lowered)
      ensures m in MaskSet(maskKeys)
    {
      var i :| 0 <= i < |lowered| && Lower(lowered[i]) == m;
      LowerIdempotent(maskKeys[i]);
      assert Lower(maskKeys[i]) == m;
    }
    assert MaskSet(lowered) == MaskSet(maskKeys);
  }

  /** An integer key is never masked itself: it is walked exactly like a
      string key that matches no mask key. */
  lemma WalkIntKey(v: Value, i: int, s: string, maskSet: set<string>)
    requires !Matches(SKey(s), maskSet)
    ensures Walk(v, IKey(i), maskSet) == Walk(v, SKey(s), maskSet)
    ensures Walk(v, IKey(i), maskSet) == Redacted ==> v == Redacted
  {
  }

  // ---------------------------------------------------------------------
  // What the walk does along a path
  // ---------------------------------------------------------------------

  /** Along a path of non-matching keys the masked value has exactly the
      input's entries, arrays keep their key sets and scalars are unchanged. */
  lemma {:induction false} WalkKeepsUnmatchedPaths(v: Value, key: Key, maskSet: set<string>, path: seq<Key>)
    requires !Matches(key, maskSet)
    requires forall i :: 0 <= i < |path| ==> !Matches(path[i], maskSet)
    ensures Get(Walk(v, key, maskSet), path).Some? <==> Get(v, path).Some?
    ensures Get(v, path).Some? && !Get(v, path).value.Arr? ==>
              Get(Walk(v, key, maskSet), path) == Get(v, path)
    ensures Get(v, path).Some? && Get(v, path).value.Arr? ==>
              Get(Walk(v, key, maskSet), path).value.Arr? &&
              Get(Walk(v, key, maskSet), path).value.entries.Keys == Get(v, path).value.entries.Keys
    decreases |path|
  {
    if path != [] && v.Arr? && path[0] in v.entries {
      WalkKeepsUnmatchedPaths(v.entries[path[0]], path[0], maskSet, path[1..]);
    }
  }

  /** Whatever lies under the first matching key of a path, at any depth and
      of any type, comes out as the marker. */
  lemma {:induction false} WalkRedactsFirstMatch(v: Value, key: Key, maskSet: set<string>, path: seq<Key>)
    requires forall i :: 0 <= i < |path| - 1 ==> !Matches(path[i], maskSet)
    requires if path == [] then Matches(key, maskSet)
             else !Matches(key, maskSet) && Matches(path[|path| - 1], maskSet)
    requires Get(v, path).Some?
    ensures Get(Walk(v, key, maskSet), path) == Some(Redacted)
    decreases |path|
  {
    if path != [] {
      var rest := path[1..];
      forall i | 0 <= i < |rest| - 1
        ensures !Matches(rest[i], maskSet)
      {
        assert rest[i] == path[i + 1];
      }
      if rest != [] {
        assert rest[|rest| - 1] == path[|path| - 1];
      }
      WalkRedactsFirstMatch(v.entries[path[0]], path[0], maskSet, rest);
    }
  }

  /** In the masked value no matching key holds anything but the marker. */
  lemma {:induction false} WalkLeavesNoMatchUnredacted(v: Value, key: Key, maskSet: set<string>, path: seq<Key>)
    requires |path| > 0 && Matches(path[|path| - 1], maskSet)
    requires Get(Walk(v, key, maskSet), path).Some?
    ensures Get(Walk(v, key, maskSet), path) == Some(Redacted)
    decreases |path|
  {
    if !Matches(key, maskSet) && v.Arr? && |path| > 1 {
      var rest := path[1..];
      assert rest[|rest| - 1] == path[|path| - 1];
      WalkLeavesNoMatchUnredacted(v.entries[path[0]], path[0], maskSet, rest);
    }
  }

  lemma {:induction false} WalkIdempotent(v: Value, key: Key, maskSet: set<string>)
    ensures Walk(Walk(v, key, maskSet), key, maskSet) == Walk(v, key, maskSet)
    decreases v
  {
    if !Matches(key, maskSet) && v.Arr? {
      var m := v.entries;
      forall k | k in m
        ensures Walk(Walk(m[k], k, maskSet), k, maskSet) == Walk(m[k], k, maskSet)
      {
        WalkIdempotent(m[k], k, maskSet);
      }
    }
  }

  // ---------------------------------------------------------------------
  // The same facts for Masker::mask on a top-level row
  // ---------------------------------------------------------------------

  /** Keys that do not match keep their key and, at every level below them,
      the key set and the scalars of the input. */
  lemma MaskKeepsUnmatchedPaths(data: Row, maskKeys: seq<string>, path: seq<Key>)
    requires forall i :: 0 <= i < |path| ==> !Matches(path[i], MaskSet(maskKeys))
    ensures GetRow(Mask(data, maskKeys), path).Some? <==> GetRow(data, path).Some?
    ensures GetRow(data, path).Some? && !GetRow(data, path).value.Arr? ==>
              GetRow(Mask(data, maskKeys), path) == GetRow(data, path)
    ensures GetRow(data, path).Some? && GetRow(data, path).value.Arr? ==>
              GetRow(Mask(data, maskKeys), path).value.Arr? &&
              GetRow(Mask(data, maskKeys), path).value.entries.Keys == GetRow(data, path).value.entries.Keys
  {
    if |maskKeys| > 0 && |path| > 0 && path[0].SKey? && path[0].name in data {
      var rest := path[1..];
      forall i | 0 <= i < |rest|
        ensures !Matches(rest[i], MaskSet(maskKeys))
      {
        assert rest[i] == path[i + 1];
      }
      WalkKeepsUnmatchedPaths(data[path[0].name], path[0], MaskSet(maskKeys), rest);
    }
  }

  /** Any value under a matching key becomes the marker, whatever its type or
      nesting depth. */
  lemma MaskRedactsMatchedPaths(data: Row, maskKeys: seq<string>, path: seq<Key>)
    requires |path| > 0 && Matches(path[|path| - 1], MaskSet(maskKeys))
    requires forall i :: 0 <= i < |path| - 1 ==> !Matches(path[i], MaskSet(maskKeys))
    requires GetRow(data, path).Some?
    ensures GetRow(Mask(data, maskKeys), path) == Some(Redacted)
  {
    var rest := path[1..];
    forall i | 0 <= i < |rest| - 1
      ensures !Matches(rest[i], MaskSet(maskKeys))
    {
      assert rest[i] == path[i + 1];
    }
    if rest != [] {
      assert rest[|rest| - 1] == path[|path| - 1];
    }
    WalkRedactsFirstMatch(data[path[0].name], path[0], MaskSet(maskKeys), rest);
  }

  /** After masking, no matching key anywhere in the tree holds anything
      other than the marker. */
  lemma MaskLeavesNoMatchUnredacted(data: Row, maskKeys: seq<string>, path: seq<Key>)
    requires |path| > 0 && Matches(path[|path| - 1], MaskSet(maskKeys))
    requires GetRow(Mask(data, maskKeys), path).Some?
    ensures GetRow(Mask(data, maskKeys), path) == Some(Redacted)
  {
    var rest := path[1..];
    if rest != [] {
      assert rest[|rest| - 1] == path[|path| - 1];
      WalkLeavesNoMatchUnredacted(data[path[0].name], path[0], MaskSet(maskKeys), rest);
    }
  }

  /** Masking twice with the same keys is masking once. */
  lemma MaskIdempotent(data: Row, maskKeys: seq<string>)
    ensures Mask(Mask(data, maskKeys), maskKeys) == Mask(data, maskKeys)
  {
    if |maskKeys| > 0 {
      forall k | k in data
        ensures Walk(Walk(data[k], SKey(k), MaskSet(maskKeys)), SKey(k), MaskSet(maskKeys))
             == Walk(data[k], SKey(k), MaskSet(maskKeys))
      {
        WalkIdempotent(data[k], SKey(k), MaskSet(maskKeys));
      }
    }
  }
}
