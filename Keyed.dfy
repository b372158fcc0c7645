/** Lists of records keyed by id, as the stores keep them: `findIndex` and
    `find` return the FIRST record with the key, a save replaces that record
    or appends, a delete keeps every record whose key differs. */
module Keyed {
  import opened Domain

  /** Index of the first record whose key is `k`. */
  function FirstIndex<T, K(==)>(xs: seq<T>, key: T -> K, k: K): (r: Option<nat>)
    ensures r.Some? ==> r.value < |xs| && key(xs[r.value]) == k
    ensures r.Some? ==> forall j :: 0 <= j < r.value ==> key(xs[j]) != k
    ensures r.None? <==> forall j :: 0 <= j < |xs| ==> key(xs[j]) != k
    decreases |xs|
  {
    if |xs| == 0 then None
    else if key(xs[0]) == k then Some(0)
    else match FirstIndex(xs[1..], key, k)
      case None => None
      case Some(i) => Some(i + 1)
  }

  /** The first record whose key is `k`, if any. */
  function Find<T, K(==)>(xs: seq<T>, key: T -> K, k: K): (r: Option<T>)
    ensures r.Some? ==> r.value in xs && key(r.value) == k
    ensures r.Some? ==> exists i :: 0 <= i < |xs| && xs[i] == r.value && forall j :: 0 <= j < i ==> key(xs[j]) != k
    ensures r.None? <==> forall i :: 0 <= i < |xs| ==> key(xs[i]) != k
  {
    match FirstIndex(xs, key, k)
    case None => None
    case Some(i) => Some(xs[i])
  }

  /** Save: replace the first record with `x`'s key, or append `x`. */
  function Upsert<T, K(==)>(xs: seq<T>, key: T -> K, x: T): (r: seq<T>)
    ensures x in r
    ensures |r| == if FirstIndex(xs, key, key(x)).Some? then |xs| else |xs| + 1
    ensures forall i :: 0 <= i < |xs| && key(xs[i]) != key(x) ==> r[i] == xs[i]
  {
    match FirstIndex(xs, key, key(x))
    case Some(i) => assert xs[i := x][i] == x; xs[i := x]
    case None => assert (xs + [x])[|xs|] == x; xs + [x]
  }

  /** Delete: keep exactly the records whose key is not `k`, in order. */
  function Remove<T, K(==)>(xs: seq<T>, key: T -> K, k: K): (r: seq<T>)
    ensures forall i :: 0 <= i < |r| ==> r[i] in xs && key(r[i]) != k
    ensures forall i :: 0 <= i < |xs| && key(xs[i]) != k ==> xs[i] in r
    ensures |r| <= |xs|
    decreases |xs|
  {
    if |xs| == 0 then []
    else if key(xs[0]) == k then Remove(xs[1..], key, k)
    else [xs[0]] + Remove(xs[1..], key, k)
  }

  /** Two lists with the same key at every position have the same first
      index for every key. */
  lemma SameKeysSameFirstIndex<T, K>(xs: seq<T>, ys: seq<T>, key: T -> K, k: K)
    requires |xs| == |ys|
    requires forall i :: 0 <= i < |xs| ==> key(xs[i]) == key(ys[i])
    ensures FirstIndex(xs, key, k) == FirstIndex(ys, key, k)
  {
    var a, b := FirstIndex(xs, key, k), FirstIndex(ys, key, k);
    if a.Some? {
      assert key(ys[a.value]) == k;
    }
    if b.Some? {
      assert key(xs[b.value]) == k;
    }
  }

  /** Replacing a record by one with the same key leaves every lookup's
      position unchanged. */
  lemma FirstIndexAfterUpdate<T, K>(xs: seq<T>, key: T -> K, i: nat, y: T, k: K)
    requires i < |xs| && key(y) == key(xs[i])
    ensures FirstIndex(xs[i := y], key, k) == FirstIndex(xs, key, k)
  {
    SameKeysSameFirstIndex(xs[i := y], xs, key, k);
  }

  /** Appending keeps every key that was present where it was, and makes a
      new key findable at the end. */
  lemma {:induction false} FirstIndexAfterAppend<T, K>(xs: seq<T>, key: T -> K, x: T, k: K)
    ensures FirstIndex(xs + [x], key, k) ==
      if FirstIndex(xs, key, k).Some? then FirstIndex(xs, key, k)
      else if key(x) == k then Some(|xs|) else None
    decreases |xs|
  {
    if |xs| > 0 && key(xs[0]) != k {
      assert (xs + [x])[1..] == xs[1..] + [x];
      FirstIndexAfterAppend(xs[1..], key, x, k);
    }
  }

  /** After a save, looking the saved key up yields the saved record, and
      every other key yields what it yielded before. */
  lemma FindAfterUpsert<T, K>(xs: seq<T>, key: T -> K, x: T, k: K)
    ensures Find(Upsert(xs, key, x), key, key(x)) == Some(x)
    ensures k != key(x) ==> Find(Upsert(xs, key, x), key, k) == Find(xs, key, k)
    ensures |Upsert(xs, key, x)| == if Find(xs, key, key(x)).Some? then |xs| else |xs| + 1
  {
    match FirstIndex(xs, key, key(x))
    case Some(i) =>
      FirstIndexAfterUpdate(xs, key, i, x, key(x));
      FirstIndexAfterUpdate(xs, key, i, x, k);
    case None =>
      FirstIndexAfterAppend(xs, key, x, key(x));
      FirstIndexAfterAppend(xs, key, x, k);
  }

  /** After a delete, the deleted key is gone, and every other key yields
      what it yielded before. */
  lemma {:induction false} FindAfterRemove<T, K>(xs: seq<T>, key: T -> K, k: K, k': K)
    ensures Find(Remove(xs, key, k), key, k) == None
    ensures k' != k ==> Find(Remove(xs, key, k), key, k') == Find(xs, key, k')
    decreases |xs|
  {
    if |xs| > 0 {
      FindAfterRemove(xs[1..], key, k, k');
      var rest := Remove(xs[1..], key, k);
      if key(xs[0]) != k {
        var r := [xs[0]] + rest;
        assert r[1..] == rest;
        if key(xs[0]) == k' {
          assert FirstIndex(r, key, k') == Some(0);
          assert FirstIndex(xs, key, k') == Some(0);
        } else if k' != k {
          FindTail(r, key, k');
          FindTail(xs, key, k');
        }
      } else if k' != k {
        FindTail(xs, key, k');
      }
    }
  }

  /** Looking a key up in a list whose head has another key is looking it up
      in the tail. */
  lemma FindTail<T, K>(xs: seq<T>, key: T -> K, k: K)
    requires |xs| > 0 && key(xs[0]) != k
    ensures Find(xs, key, k) == Find(xs[1..], key, k)
  {
  }
}
