/**
 * Ruby's `Array#&` on key lists and the filter's `hash_pick` helper
 * built on it.
 */
module HashOps {
  import opened RubyData

  /** No element occurs twice in `s`. */
  ghost predicate Distinct(s: seq<string>) {
    forall i, j :: 0 <= i < j < |s| ==> s[i] != s[j]
  }

  /** The position of the first occurrence of `x` in `s`. */
  function FirstIndex(s: seq<string>, x: string): (i: nat)
    requires x in s
    ensures i < |s| && s[i] == x && x !in s[..i]
  {
    if s[0] == x then 0
    else
      var j := FirstIndex(s[1..], x);
      assert s[..j + 1] == [s[0]] + s[1..][..j];
      j + 1
  }

  /**
   * Ruby's `keys & present`: the keys that are also present, each once,
   * in the order of their first occurrence in `keys`.
   */
  function Intersection(keys: seq<string>, present: set<string>): (r: seq<string>)
    ensures forall k :: k in r <==> k in keys && k in present
    ensures Distinct(r)
    decreases |keys|
  {
    if keys == [] then []
    else
      var init, last := keys[..|keys| - 1], keys[|keys| - 1];
      assert keys == init + [last];
      var rest := Intersection(init, present);
      if last in present && last !in rest then rest + [last] else rest
  }

  /** Appending an element does not move the first occurrence of an element already there. */
  lemma FirstIndexInInit(keys: seq<string>, x: string)
    requires |keys| > 0 && x in keys[..|keys| - 1]
    ensures FirstIndex(keys, x) == FirstIndex(keys[..|keys| - 1], x)
  {
  }

  /** An element first occurring at the end has the last position. */
  lemma FirstIndexOfLast(keys: seq<string>)
    requires |keys| > 0 && keys[|keys| - 1] !in keys[..|keys| - 1]
    ensures FirstIndex(keys, keys[|keys| - 1]) == |keys| - 1
  {
  }

  /** The elements of `r` that occur in `keys` come in the order of their first occurrence there. */
  ghost predicate InFirstOccurrenceOrder(r: seq<string>, keys: seq<string>) {
    forall i, j :: 0 <= i < j < |r| && r[i] in keys && r[j] in keys ==>
      FirstIndex(keys, r[i]) < FirstIndex(keys, r[j])
  }

  /** `keys & present` lists its elements in the order in which they first occur in `keys`. */
  lemma {:induction false} IntersectionKeepsOrder(keys: seq<string>, present: set<string>)
    ensures InFirstOccurrenceOrder(Intersection(keys, present), keys)
  {
    if keys != [] {
      var init, last := keys[..|keys| - 1], keys[|keys| - 1];
      var rest := Intersection(init, present);
      IntersectionKeepsOrder(init, present);
      var r := Intersection(keys, present);
      assert r == rest || (r == rest + [last] && last !in init);
      forall i, j | 0 <= i < j < |r| && r[i] in keys && r[j] in keys
        ensures FirstIndex(keys, r[i]) < FirstIndex(keys, r[j])
      {
        assert r[i] == rest[i] && rest[i] in init;
        FirstIndexInInit(keys, rest[i]);
        if j < |rest| {
          assert r[j] == rest[j] && rest[j] in init;
          FirstIndexInInit(keys, rest[j]);
          assert FirstIndex(init, rest[i]) < FirstIndex(init, rest[j]);
        } else {
          FirstIndexOfLast(keys);
        }
      }
    }
  }

  /** `hash_pick(hash, *keys)`: the entries of `hash` whose key is requested; requested keys the hash lacks are dropped. */
  function HashPick(hash: Record, keys: seq<string>): (r: Record)
    ensures forall k :: k in r <==> k in keys && k in hash
    ensures forall k :: k in r ==> r[k] == hash[k]
  {
    map k | k in Intersection(keys, hash.Keys) :: hash[k]
  }

  /**
   * The hash `hash_pick` builds enumerates its keys as `keys & hash.keys`
   * lists them: exactly its keys, each once, in the order of `keys`.
   */
  lemma HashPickOrder(hash: Record, keys: seq<string>)
    ensures var order := Intersection(keys, hash.Keys);
      && (forall k :: k in order <==> k in HashPick(hash, keys))
      && Distinct(order)
      && InFirstOccurrenceOrder(order, keys)
  {
    IntersectionKeepsOrder(keys, hash.Keys);
  }
}
