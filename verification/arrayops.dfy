/**
 The array methods the marketplace store is built from: `findIndex`, `find`
 and `filter` over a JavaScript array, and the save-by-id idiom
 ("replace the element with the same id, or push") used for users and
 products. Elements are identified through a key function, so the same
 definitions serve users (by id or by e-mail), products (by id) and cart
 lines (by product id).
 */
module ArrayOps {

  datatype Option<+T> = None | Some(value: T)

  /** True when some element of xs has key k. */
  ghost predicate HasKey<T, K>(xs: seq<T>, key: T -> K, k: K)
  {
    exists i :: 0 <= i < |xs| && key(xs[i]) == k
  }

  /** No two elements of xs share a key. */
  ghost predicate UniqueBy<T, K>(xs: seq<T>, key: T -> K)
  {
    forall i, j :: 0 <= i < j < |xs| ==> key(xs[i]) != key(xs[j])
  }

  /** `findIndex(x => key(x) === k)`: the first index whose element has key k. */
  function IndexOfKey<T, K(==)>(xs: seq<T>, key: T -> K, k: K): (r: Option<nat>)
    ensures r.Some? ==> r.value < |xs| && key(xs[r.value]) == k
    ensures r.Some? ==> forall j :: 0 <= j < r.value ==> key(xs[j]) != k
    ensures r.None? <==> !HasKey(xs, key, k)
    decreases |xs|
  {
    if |xs| == 0 then None
    else if key(xs[0]) == k then Some(0)
    else match IndexOfKey(xs[1..], key, k)
      case None => None
      case Some(i) => Some(i + 1)
  }

  /** `find(x => key(x) === k)`: the first element that has key k. */
  function FindByKey<T, K(==)>(xs: seq<T>, key: T -> K, k: K): (r: Option<T>)
    ensures r.Some? ==> r.value in xs && key(r.value) == k
    ensures r.None? <==> !HasKey(xs, key, k)
    ensures r.Some? ==> exists i :: 0 <= i < |xs| && xs[i] == r.value && !HasKey(xs[..i], key, k)
  {
    match IndexOfKey(xs, key, k)
    case None => None
    case Some(i) =>
      assert !HasKey(xs[..i], key, k);
      Some(xs[i])
  }

  /** The index of the first element with key k is the one the first match lies at. */
  lemma IndexOfKeyAt<T, K>(xs: seq<T>, key: T -> K, k: K, i: nat)
    requires i < |xs| && key(xs[i]) == k
    requires forall j :: 0 <= j < i ==> key(xs[j]) != k
    ensures IndexOfKey(xs, key, k) == Some(i)
    ensures FindByKey(xs, key, k) == Some(xs[i])
  {
    var r := IndexOfKey(xs, key, k);
    assert r.Some?;
    assert key(xs[r.value]) == k;
    assert r.value <= i;
  }

  /** Overwriting the last element of xs + [x] gives xs + [y]. */
  lemma UpdateLast<T>(xs: seq<T>, x: T, y: T)
    ensures (xs + [x])[|xs| := y] == xs + [y]
  {
    var zs := (xs + [x])[|xs| := y];
    assert forall j :: 0 <= j < |xs| ==> zs[j] == xs[j];
  }

  /** Two prefixes commute when one of them is empty. */
  lemma SwapEmpty<T>(a: seq<T>, b: seq<T>, c: seq<T>)
    requires a == [] || b == []
    ensures a + (b + c) == b + (a + c)
  {
    if a == [] {
      assert a + (b + c) == b + c && a + c == c;
    } else {
      assert b + (a + c) == a + c && b + c == c;
    }
  }

  /** An element appended after a sequence without its key is the first match. */
  lemma IndexOfKeyAppend<T, K>(xs: seq<T>, x: T, key: T -> K)
    requires !HasKey(xs, key, key(x))
    ensures IndexOfKey(xs + [x], key, key(x)) == Some(|xs|)
  {
    var ys := xs + [x];
    assert forall j :: 0 <= j < |xs| ==> ys[j] == xs[j];
    IndexOfKeyAt(ys, key, key(x), |xs|);
  }

  /** The save-by-id idiom: replace the first element whose key is key(x) by
      x, in place, or append x when there is none. */
  function Upsert<T, K(==)>(xs: seq<T>, x: T, key: T -> K): (r: seq<T>)
    ensures HasKey(xs, key, key(x)) ==> |r| == |xs|
    ensures HasKey(xs, key, key(x)) ==>
      exists i :: 0 <= i < |xs| && key(xs[i]) == key(x) && !HasKey(xs[..i], key, key(x)) && r == xs[i := x]
    ensures !HasKey(xs, key, key(x)) ==> r == xs + [x]
    ensures forall j :: 0 <= j < |xs| && key(xs[j]) != key(x) ==> r[j] == xs[j]
    ensures FindByKey(r, key, key(x)) == Some(x)
    ensures UniqueBy(xs, key) ==> UniqueBy(r, key)
  {
    match IndexOfKey(xs, key, key(x))
    case Some(i) =>
      assert !HasKey(xs[..i], key, key(x));
      IndexOfKeyAt(xs[i := x], key, key(x), i);
      xs[i := x]
    case None =>
      IndexOfKeyAt(xs + [x], key, key(x), |xs|);
      xs + [x]
  }

  /** `filter(p)`: the elements of xs that satisfy p, in their original order. */
  function FilterWhere<T(!new)>(xs: seq<T>, p: T -> bool): (r: seq<T>)
    ensures |r| <= |xs|
    ensures forall y :: y in r <==> y in xs && p(y)
    ensures (forall i :: 0 <= i < |xs| ==> p(xs[i])) ==> r == xs
    decreases |xs|
  {
    if |xs| == 0 then []
    else if p(xs[0]) then [xs[0]] + FilterWhere(xs[1..], p)
    else FilterWhere(xs[1..], p)
  }

  /** Filtering distributes over concatenation, which is to say it keeps the
      surviving elements in their original relative order. */
  lemma {:induction false} FilterWhereConcat<T(!new)>(xs: seq<T>, ys: seq<T>, p: T -> bool)
    ensures FilterWhere(xs + ys, p) == FilterWhere(xs, p) + FilterWhere(ys, p)
    decreases |xs|
  {
    if |xs| == 0 {
      assert xs + ys == ys;
    } else {
      assert (xs + ys)[1..] == xs[1..] + ys;
      FilterWhereConcat(xs[1..], ys, p);
    }
  }

  /** Filtering keeps every surviving element as often as it occurred and
      drops every other one. */
  lemma {:induction false} FilterWhereCount<T(!new)>(xs: seq<T>, p: T -> bool, y: T)
    ensures multiset(FilterWhere(xs, p))[y] == if p(y) then multiset(xs)[y] else 0
    decreases |xs|
  {
    if |xs| > 0 {
      assert xs == [xs[0]] + xs[1..];
      FilterWhereCount(xs[1..], p, y);
    }
  }

  /** The predicate "key is not k", used to drop every element with key k. */
  function KeyIsNot<T, K(==)>(key: T -> K, k: K): T -> bool
  {
    y => key(y) != k
  }

  /** `filter(x => key(x) !== k)`: every element with key k removed. */
  function RemoveKey<T(!new), K(==)>(xs: seq<T>, key: T -> K, k: K): (r: seq<T>)
    ensures !HasKey(r, key, k)
    ensures forall y :: y in r <==> y in xs && key(y) != k
    ensures !HasKey(xs, key, k) ==> r == xs
    ensures HasKey(xs, key, k) ==> |r| < |xs|
  {
    assert forall y :: KeyIsNot(key, k)(y) == (key(y) != k);
    RemoveKeyShrinks(xs, key, k);
    FilterWhere(xs, KeyIsNot(key, k))
  }

  lemma {:induction false} RemoveKeyShrinks<T(!new), K>(xs: seq<T>, key: T -> K, k: K)
    ensures HasKey(xs, key, k) ==> |FilterWhere(xs, KeyIsNot(key, k))| < |xs|
    decreases |xs|
  {
    if HasKey(xs, key, k) && key(xs[0]) != k {
      var j :| 0 <= j < |xs| && key(xs[j]) == k;
      assert key(xs[1..][j - 1]) == k;
      RemoveKeyShrinks(xs[1..], key, k);
    }
  }

  /** Removing a key distributes over concatenation, so the elements kept
      stay in their original relative order. */
  lemma RemoveKeyConcat<T(!new), K>(xs: seq<T>, ys: seq<T>, key: T -> K, k: K)
    ensures RemoveKey(xs + ys, key, k) == RemoveKey(xs, key, k) + RemoveKey(ys, key, k)
  {
    FilterWhereConcat(xs, ys, KeyIsNot(key, k));
  }

  /** Replacing one element by another with the same key k is invisible once
      key k is removed. */
  lemma RemoveKeyReplace<T(!new), K>(xs: seq<T>, i: nat, x: T, key: T -> K)
    requires i < |xs| && key(x) == key(xs[i])
    ensures RemoveKey(xs[i := x], key, key(x)) == RemoveKey(xs, key, key(x))
  {
    var k := key(x);
    var pre, post := xs[..i], xs[i + 1..];
    calc {
      RemoveKey(xs[i := x], key, k);
      { assert xs[i := x] == pre + ([x] + post); }
      RemoveKey(pre + ([x] + post), key, k);
      { RemoveKeyConcat(pre, [x] + post, key, k); RemoveKeyDrop(x, post, key, k); }
      RemoveKey(pre, key, k) + RemoveKey(post, key, k);
      { RemoveKeyConcat(pre, [xs[i]] + post, key, k); RemoveKeyDrop(xs[i], post, key, k); }
      RemoveKey(pre + ([xs[i]] + post), key, k);
      { assert xs == pre + ([xs[i]] + post); }
      RemoveKey(xs, key, k);
    }
  }

  /** An element with key k in front vanishes when key k is removed. */
  lemma RemoveKeyDrop<T(!new), K>(x: T, xs: seq<T>, key: T -> K, k: K)
    requires key(x) == k
    ensures RemoveKey([x] + xs, key, k) == RemoveKey(xs, key, k)
  {
    assert ([x] + xs)[1..] == xs;
    assert KeyIsNot(key, k)(x) == false;
  }

  /** Dropping the element at index i, whose key is k, is invisible once key
      k is removed. */
  lemma RemoveKeyDelete<T(!new), K>(xs: seq<T>, i: nat, key: T -> K)
    requires i < |xs|
    ensures RemoveKey(xs[..i] + xs[i + 1..], key, key(xs[i])) == RemoveKey(xs, key, key(xs[i]))
  {
    var k := key(xs[i]);
    var pre, post := xs[..i], xs[i + 1..];
    calc {
      RemoveKey(xs, key, k);
      { assert xs == pre + ([xs[i]] + post); }
      RemoveKey(pre + ([xs[i]] + post), key, k);
      { RemoveKeyConcat(pre, [xs[i]] + post, key, k); RemoveKeyDrop(xs[i], post, key, k); }
      RemoveKey(pre, key, k) + RemoveKey(post, key, k);
      { RemoveKeyConcat(pre, post, key, k); }
      RemoveKey(pre + post, key, k);
    }
  }

  /** Removing a key twice is removing it once. */
  lemma RemoveKeyIdempotent<T(!new), K>(xs: seq<T>, key: T -> K, k: K)
    ensures RemoveKey(RemoveKey(xs, key, k), key, k) == RemoveKey(xs, key, k)
  {
  }

  /** Removing key k does not change a lookup of any other key. */
  lemma {:induction false} FindByKeyRemoveOther<T(!new), K>(xs: seq<T>, key: T -> K, k: K, q: K)
    requires q != k
    ensures FindByKey(RemoveKey(xs, key, k), key, q) == FindByKey(xs, key, q)
    decreases |xs|
  {
    if |xs| > 0 {
      FindByKeyRemoveOther(xs[1..], key, k, q);
      var rest := RemoveKey(xs[1..], key, k);
      assert xs == [xs[0]] + xs[1..];
      RemoveKeyConcat([xs[0]], xs[1..], key, k);
      if key(xs[0]) == q {
        IndexOfKeyAt(xs, key, q, 0);
        IndexOfKeyAt([xs[0]] + rest, key, q, 0);
      } else {
        FindByKeyCons(xs[0], xs[1..], key, q);
        if key(xs[0]) == k {
          assert RemoveKey(xs, key, k) == rest;
        } else {
          FindByKeyCons(xs[0], rest, key, q);
        }
      }
    }
  }

  /** A lookup past a first element with another key is a lookup in the rest. */
  lemma FindByKeyCons<T, K>(x: T, xs: seq<T>, key: T -> K, q: K)
    requires key(x) != q
    ensures FindByKey([x] + xs, key, q) == FindByKey(xs, key, q)
  {
    var ys := [x] + xs;
    assert ys[1..] == xs;
  }

  /** Filtering keeps keys unique. */
  lemma {:induction false} FilterWhereUnique<T(!new), K>(xs: seq<T>, p: T -> bool, key: T -> K)
    requires UniqueBy(xs, key)
    ensures UniqueBy(FilterWhere(xs, p), key)
    decreases |xs|
  {
    if |xs| > 0 {
      var rest := FilterWhere(xs[1..], p);
      FilterWhereUnique(xs[1..], p, key);
      forall y | y in rest ensures key(y) != key(xs[0]) {
        var j :| 0 <= j < |xs[1..]| && xs[1..][j] == y;
        assert xs[j + 1] == y;
      }
      var r := [xs[0]] + rest;
      assert forall j :: 0 < j < |r| ==> r[j] in rest;
    }
  }

  /** Removing a key keeps keys unique. */
  lemma RemoveKeyUnique<T(!new), K>(xs: seq<T>, key: T -> K, k: K)
    ensures UniqueBy(xs, key) ==> UniqueBy(RemoveKey(xs, key, k), key)
  {
    if UniqueBy(xs, key) {
      FilterWhereUnique(xs, KeyIsNot(key, k), key);
    }
  }
}
