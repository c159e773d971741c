/**
 * Python dictionaries as insertion-ordered sequences of (key, value) pairs.
 * Assigning to an existing key keeps its position; a new key goes last.
 */
module Dicts {
  import opened Wrappers

  type Dict<V> = seq<(string, V)>

  function Keys<V>(d: Dict<V>): (r: seq<string>)
    ensures |r| == |d| && forall i :: 0 <= i < |d| ==> r[i] == d[i].0
  {
    seq(|d|, i requires 0 <= i < |d| => d[i].0)
  }

  /** No key occurs twice (what a Python dict guarantees). */
  predicate DistinctKeys<V>(d: Dict<V>) {
    forall i, j :: 0 <= i < j < |d| ==> d[i].0 != d[j].0
  }

  /** The position of the first entry with key `key`. */
  function IndexOf<V>(d: Dict<V>, key: string): (r: Option<nat>)
    ensures r.Some? ==> r.value < |d| && d[r.value].0 == key
    ensures r.Some? ==> forall i :: 0 <= i < r.value ==> d[i].0 != key
    ensures r.None? ==> forall i :: 0 <= i < |d| ==> d[i].0 != key
  {
    if d == [] then None
    else if d[0].0 == key then Some(0)
    else match IndexOf(d[1..], key)
      case None => None
      case Some(k) => Some(k + 1)
  }

  /** Python `key in d`. */
  predicate HasKey<V>(d: Dict<V>, key: string) {
    IndexOf(d, key).Some?
  }

  /** Python `d.get(key)`. */
  function Get<V>(d: Dict<V>, key: string): (r: Option<V>)
    ensures r.Some? <==> HasKey(d, key)
  {
    match IndexOf(d, key)
    case None => None
    case Some(i) => Some(d[i].1)
  }

  /** With distinct keys, the entry at position `i` is what `Get` finds for its key. */
  lemma GetAt<V>(d: Dict<V>, i: nat)
    requires DistinctKeys(d) && i < |d|
    ensures IndexOf(d, d[i].0) == Some(i) && Get(d, d[i].0) == Some(d[i].1)
  {
  }

  /** Two dictionaries with the same key sequence find every key at the same position. */
  lemma {:induction false} IndexOfSameKeys<V>(d1: Dict<V>, d2: Dict<V>, key: string)
    requires Keys(d1) == Keys(d2)
    ensures IndexOf(d1, key) == IndexOf(d2, key)
    decreases |d1|
  {
    if d1 != [] {
      assert d1[0].0 == Keys(d1)[0] == Keys(d2)[0] == d2[0].0;
      assert Keys(d1[1..]) == Keys(d1)[1..] == Keys(d2)[1..] == Keys(d2[1..]);
      IndexOfSameKeys(d1[1..], d2[1..], key);
    }
  }

  /** Python `d[key] = value`. */
  function Put<V>(d: Dict<V>, key: string, value: V): (r: Dict<V>)
    ensures DistinctKeys(d) ==> DistinctKeys(r)
    ensures Get(r, key) == Some(value)
    ensures forall k :: k != key ==> Get(r, k) == Get(d, k)
    ensures Keys(r) == if HasKey(d, key) then Keys(d) else Keys(d) + [key]
  {
    match IndexOf(d, key)
    case Some(i) =>
      var r := d[i := (key, value)];
      assert Keys(r) == Keys(d);
      forall k ensures IndexOf(r, k) == IndexOf(d, k) {
        IndexOfSameKeys(r, d, k);
      }
      r
    case None =>
      var r := d + [(key, value)];
      forall k | k != key ensures IndexOf(r, k) == IndexOf(d, k) {
        IndexOfAppend(d, (key, value), k);
      }
      IndexOfAppend(d, (key, value), key);
      assert Keys(r) == Keys(d) + [key];
      r
  }

  /** Appending an entry does not move the keys already present. */
  lemma {:induction false} IndexOfAppend<V>(d: Dict<V>, e: (string, V), k: string)
    ensures IndexOf(d + [e], k) ==
      match IndexOf(d, k)
      case Some(i) => Some(i)
      case None => if e.0 == k then Some(|d|) else None
    decreases |d|
  {
    if d != [] {
      assert (d + [e])[1..] == d[1..] + [e];
      IndexOfAppend(d[1..], e, k);
    }
  }

  /** The value the last pair with key `k` carries, if any. */
  function LastValue<V>(ps: seq<(string, V)>, k: string): (r: Option<V>)
    ensures r.None? <==> forall i :: 0 <= i < |ps| ==> ps[i].0 != k
    ensures r.Some? ==> exists i :: 0 <= i < |ps| && ps[i] == (k, r.value) && forall j :: i < j < |ps| ==> ps[j].0 != k
  {
    if ps == [] then None
    else if ps[|ps| - 1].0 == k then Some(ps[|ps| - 1].1)
    else LastValue(ps[..|ps| - 1], k)
  }

  /** Assigning every pair of `ps` in order, starting from `d`. */
  function PutAll<V>(d: Dict<V>, ps: seq<(string, V)>): Dict<V> {
    if ps == [] then d
    else Put(PutAll(d, ps[..|ps| - 1]), ps[|ps| - 1].0, ps[|ps| - 1].1)
  }

  /** Assigning one more pair after `ps`. */
  lemma PutAllSnoc<V>(d: Dict<V>, ps: seq<(string, V)>, key: string, value: V)
    ensures PutAll(d, ps + [(key, value)]) == Put(PutAll(d, ps), key, value)
  {
    assert (ps + [(key, value)])[..|ps|] == ps;
  }

  /** Later assignments overwrite earlier ones: each key ends up with its last value. */
  lemma {:induction false} PutAllGet<V>(d: Dict<V>, ps: seq<(string, V)>, k: string)
    ensures Get(PutAll(d, ps), k) == if LastValue(ps, k).Some? then LastValue(ps, k) else Get(d, k)
    decreases |ps|
  {
    if ps != [] {
      PutAllGet(d, ps[..|ps| - 1], k);
    }
  }

  /** Assignments keep the keys distinct. */
  lemma {:induction false} PutAllDistinct<V>(d: Dict<V>, ps: seq<(string, V)>)
    requires DistinctKeys(d)
    ensures DistinctKeys(PutAll(d, ps))
    decreases |ps|
  {
    if ps != [] {
      PutAllDistinct(d, ps[..|ps| - 1]);
    }
  }

  /** Assigning pairs with distinct keys into an empty dictionary yields exactly those pairs. */
  lemma {:induction false} PutAllFresh<V>(ps: seq<(string, V)>)
    requires DistinctKeys(ps)
    ensures PutAll([], ps) == ps
    decreases |ps|
  {
    if ps != [] {
      var init := ps[..|ps| - 1];
      assert DistinctKeys(init);
      PutAllFresh(init);
      assert !HasKey(init, ps[|ps| - 1].0);
      assert init + [ps[|ps| - 1]] == ps;
    }
  }
}
