// hash.c: a chained hash table that resizes in both directions.

module HashTable {
  import opened Basics
  import opened Bits

  // The elements of all buckets together.
  function Bag<T>(buckets: seq<seq<T>>): multiset<T>
  {
    if |buckets| == 0 then multiset{} else multiset(buckets[0]) + Bag(buckets[1..])
  }

  lemma AddSame<T>(a: multiset<T>, p: multiset<T>, x: multiset<T>, q: multiset<T>, y: multiset<T>)
    requires p + x == q + y
    ensures (a + p) + x == (a + q) + y
  {
    assert (a + p) + x == a + (p + x);
    assert (a + q) + y == a + (q + y);
  }

  lemma {:induction false} BagUpdate<T>(buckets: seq<seq<T>>, i: nat, s: seq<T>)
    requires i < |buckets|
    ensures Bag(buckets[i := s]) + multiset(buckets[i]) == Bag(buckets) + multiset(s)
  {
    var b' := buckets[i := s];
    if i > 0 {
      assert b'[1..] == buckets[1..][i - 1 := s];
      BagUpdate(buckets[1..], i - 1, s);
      assert buckets[1..][i - 1] == buckets[i] && b'[0] == buckets[0];
      AddSame(multiset(buckets[0]), Bag(b'[1..]), multiset(buckets[i]), Bag(buckets[1..]), multiset(s));
    } else {
      assert b'[1..] == buckets[1..];
    }
  }

  lemma {:induction false} BagHas<T>(buckets: seq<seq<T>>, x: T) returns (i: nat)
    requires x in Bag(buckets)
    ensures i < |buckets| && x in buckets[i]
  {
    if x in buckets[0] { i := 0; } else {
      var j := BagHas(buckets[1..], x);
      i := j + 1;
    }
  }

  lemma {:induction false} BagIn<T>(buckets: seq<seq<T>>, i: nat, x: T)
    requires i < |buckets| && x in buckets[i]
    ensures x in Bag(buckets)
  {
    if i > 0 { BagIn(buckets[1..], i - 1, x); }
  }

  function Empties<T>(n: nat): (r: seq<seq<T>>)
    ensures |r| == n && forall i: nat :: i < n ==> r[i] == []
  {
    seq(n, _ => [])
  }

  lemma {:induction false} BagEmpties<T>(n: nat)
    ensures Bag(Empties<T>(n)) == multiset{}
  {
    if n > 0 {
      assert Empties<T>(n)[1..] == Empties<T>(n - 1);
      BagEmpties<T>(n - 1);
    }
  }

  lemma WithoutBag<T>(s: seq<T>, k: nat)
    requires k < |s|
    ensures multiset(Without(s, k)) + multiset{s[k]} == multiset(s)
  {
    assert s == s[..k] + [s[k]] + s[k + 1..];
  }

  // ----- the caller's functions -----

  datatype Keying<!T> = Keying(hash: T -> nat, less: (T, T) -> bool)
  {
    predicate Same(a: T, b: T) { !less(a, b) && !less(b, a) }
  }

  // `less` is a strict weak order and equivalent elements have the same hash.
  ghost predicate Proper<T(!new)>(k: Keying<T>)
  {
    && (forall a: T :: !k.less(a, a))
    && (forall a: T, b: T, c: T :: k.less(a, b) && k.less(b, c) ==> k.less(a, c))
    && (forall a: T, b: T, c: T :: k.Same(a, b) && k.Same(b, c) ==> k.Same(a, c))
    && (forall a: T, b: T :: k.Same(a, b) ==> k.hash(a) == k.hash(b))
  }

  // No two elements are equivalent: the elements are the values of a finite map from equivalence classes.
  ghost predicate Mapping<T(!new)>(k: Keying<T>, m: multiset<T>)
  {
    (forall x: T :: m[x] <= 1) && forall x: T, y: T :: x in m && y in m && k.Same(x, y) ==> x == y
  }

  // The value the finite map holds for e.
  ghost predicate IsAt<T(!new)>(k: Keying<T>, m: multiset<T>, e: T, r: Option<T>)
  {
    match r
    case None => forall x: T :: x in m ==> !k.Same(x, e)
    case Some(x) => x in m && k.Same(x, e)
  }

  // A finite map holds at most one value for e.
  lemma IsAtOnce<T(!new)>(k: Keying<T>, m: multiset<T>, e: T, r: Option<T>, r': Option<T>)
    requires Proper(k) && Mapping(k, m) && IsAt(k, m, e, r) && IsAt(k, m, e, r')
    ensures r == r'
  {
    if r.Some? && r'.Some? {
      assert k.Same(e, r'.value);
      assert k.Same(r.value, r'.value);
    }
  }

  // find_bucket
  function Index<T>(k: Keying<T>, n: nat, e: T): nat
    requires n > 0
  {
    And(k.hash(e), n - 1)
  }

  // Every element is in its own bucket.
  ghost predicate Placed<T(!new)>(k: Keying<T>, buckets: seq<seq<T>>)
  {
    |buckets| > 0 && forall i: nat, x: T :: i < |buckets| && x in buckets[i] ==> Index(k, |buckets|, x) == i
  }

  lemma PlacedIndex<T(!new)>(k: Keying<T>, buckets: seq<seq<T>>, x: T)
    requires Placed(k, buckets) && x in Bag(buckets) && IsPower(|buckets|)
    ensures Index(k, |buckets|, x) < |buckets| && x in buckets[Index(k, |buckets|, x)]
  {
    var i := BagHas(buckets, x);
  }

  lemma IndexInside<T(!new)>(k: Keying<T>, n: nat, e: T)
    requires IsPower(n)
    ensures Index(k, n, e) < n
  {
    AndMask(k.hash(e), n);
  }

  // struct hash
  class Table<T(==, !new)> {
    const k: Keying<T>
    var elemCnt: nat
    var bucketCnt: nat
    var buckets: seq<seq<T>>

    ghost function Contents(): multiset<T>
      reads this`buckets
    {
      Bag(buckets)
    }

    ghost predicate Valid()
      reads this
    {
      && bucketCnt == |buckets| >= 4 && IsPower(bucketCnt)
      && Placed(k, buckets) && elemCnt == |Contents()| && Mapping(k, Contents())
    }

    // hash_init
    constructor (keying: Keying<T>)
      ensures k == keying && Valid() && Contents() == multiset{} && bucketCnt == 4
    {
      k := keying;
      elemCnt, bucketCnt := 0, 4;
      buckets := Empties(4);
      new;
      BagEmpties<T>(4);
      assert IsPower(4) by { assert IsPower(2); }
    }

    // find_elem
    method FindElem(b: nat, e: T) returns (r: Option<nat>)
      requires b < |buckets|
      ensures r.Some? ==> r.value < |buckets[b]| && k.Same(buckets[b][r.value], e)
      ensures r.None? ==> forall x: T :: x in buckets[b] ==> !k.Same(x, e)
    {
      var i := 0;
      while i < |buckets[b]|
        invariant 0 <= i <= |buckets[b]| && forall j: nat :: j < i ==> !k.Same(buckets[b][j], e)
      {
        if k.Same(buckets[b][i], e) { return Some(i); }
        i := i + 1;
      }
      r := None;
    }

    // hash_find
    method Find(e: T) returns (r: Option<T>)
      requires Valid() && Proper(k)
      ensures IsAt(k, Contents(), e, r)
    {
      IndexInside(k, bucketCnt, e);
      var b := Index(k, bucketCnt, e);
      var i := FindElem(b, e);
      if i.Some? {
        BagIn(buckets, b, buckets[b][i.value]);
        return Some(buckets[b][i.value]);
      }
      NotThere(k, buckets, e);
      r := None;
    }

    // insert_elem
    method InsertElem(b: nat, e: T)
      requires b < |buckets|
      modifies this`elemCnt, this`buckets
      ensures elemCnt == old(elemCnt) + 1 && buckets == old(buckets)[b := [e] + old(buckets)[b]]
      ensures Contents() == old(Contents()) + multiset{e}
    {
      BagUpdate(buckets, b, [e] + buckets[b]);
      PushFront(Bag(buckets[b := [e] + buckets[b]]), Bag(buckets), buckets[b], e);
      elemCnt := elemCnt + 1;
      buckets := buckets[b := [e] + buckets[b]];
    }

    // remove_elem
    method RemoveElem(b: nat, i: nat)
      requires b < |buckets| && i < |buckets[b]| && elemCnt > 0
      modifies this`elemCnt, this`buckets
      ensures elemCnt == old(elemCnt) - 1 && buckets == old(buckets)[b := Without(old(buckets)[b], i)]
      ensures Contents() == old(Contents()) - multiset{old(buckets)[b][i]}
    {
      BagUpdate(buckets, b, Without(buckets[b], i));
      WithoutBag(buckets[b], i);
      TakeOut(Bag(buckets[b := Without(buckets[b], i)]), Bag(buckets), Without(buckets[b], i), buckets[b],
              buckets[b][i]);
      elemCnt := elemCnt - 1;
      buckets := buckets[b := Without(buckets[b], i)];
    }

    // The number of buckets rehash asks for
    method PickCount() returns (n: nat)
      ensures IsPower(n) && 4 <= n && elemCnt < 4 * n && (n == 4 || 2 * n <= elemCnt)
    {
      n := elemCnt / 2;
      if n < 4 { n := 4; }
      ghost var start := n;
      ghost var p := TopBit(n);
      Above4(p);
      while TurnOff(n) != 0
        invariant p <= n <= start
        decreases n
      {
        TurnOffZero(n);
        TurnOffTop(n, p);
        n := TurnOff(n);
      }
      TurnOffZero(n);
      PowersApart(p, n);
    }

    // The inner loop of rehash: move the elements of one old bucket.
    method MoveBucket(old1: seq<T>)
      requires |buckets| == bucketCnt > 0 && IsPower(bucketCnt) && Placed(k, buckets)
      modifies this`buckets
      ensures |buckets| == bucketCnt && Placed(k, buckets) && Contents() == old(Contents()) + multiset(old1)
    {
      hide Placed, Bag, IsPower, Index;
      var j := 0;
      while j < |old1|
        invariant 0 <= j <= |old1| && |buckets| == bucketCnt && Placed(k, buckets)
        invariant Contents() == old(Contents()) + multiset(old1[..j])
      {
        var e := old1[j];
        IndexInside(k, bucketCnt, e);
        var b := Index(k, bucketCnt, e);
        BagUpdate(buckets, b, [e] + buckets[b]);
        PushFront(Bag(buckets[b := [e] + buckets[b]]), Bag(buckets), buckets[b], e);
        PlacedPush(k, buckets, e);
        buckets := buckets[b := [e] + buckets[b]];
        assert old1[..j + 1] == old1[..j] + [e];
        j := j + 1;
      }
      assert old1[..j] == old1;
    }

    // rehash; `memory` says whether the new bucket array can be allocated
    method Rehash(memory: bool)
      requires Valid()
      modifies this`buckets, this`bucketCnt
      ensures Valid() && Contents() == old(Contents())
      ensures memory ==> elemCnt < 4 * bucketCnt && (bucketCnt == 4 || 2 * bucketCnt <= elemCnt)
      ensures !memory ==> buckets == old(buckets) && bucketCnt == old(bucketCnt)
    {
      hide Mapping, Placed, Bag, Empties;
      var n := PickCount();
      if n == bucketCnt { return; }
      if !memory { return; }
      var oldBuckets := buckets;
      buckets := Empties(n);
      bucketCnt := n;
      BagEmpties<T>(n);
      PlacedEmpties<T>(k, n);
      BagPrefixes(oldBuckets);
      var i := 0;
      while i < |oldBuckets|
        invariant 0 <= i <= |oldBuckets| && |buckets| == bucketCnt == n && Placed(k, buckets)
        invariant Contents() == Bag(oldBuckets[..i])
      {
        MoveBucket(oldBuckets[i]);
        BagPrefix(oldBuckets, i);
        i := i + 1;
      }
    }

    // hash_insert
    method Insert(e: T, memory: bool) returns (found: Option<T>)
      requires Valid() && Proper(k)
      modifies this
      ensures Valid() && IsAt(k, old(Contents()), e, found)
      ensures Contents() == if found.None? then old(Contents()) + multiset{e} else old(Contents())
      ensures memory ==> elemCnt < 4 * bucketCnt
    {
      hide Mapping, Placed, Proper, Bag, IsPower, Index, Without;
      IndexInside(k, bucketCnt, e);
      var b := Index(k, bucketCnt, e);
      var i := FindElem(b, e);
      if i.Some? {
        BagIn(buckets, b, buckets[b][i.value]);
        found := Some(buckets[b][i.value]);
      } else {
        NotThere(k, buckets, e);
        MappingAdd(k, Contents(), e);
        PlacedPush(k, buckets, e);
        InsertElem(b, e);
        found := None;
      }
      Rehash(memory);
    }

    // hash_replace
    method Replace(e: T, memory: bool) returns (found: Option<T>)
      requires Valid() && Proper(k)
      modifies this
      ensures Valid() && IsAt(k, old(Contents()), e, found)
      ensures Contents() == (if found.None? then old(Contents())
        else old(Contents()) - multiset{found.value}) + multiset{e}
      ensures memory ==> elemCnt < 4 * bucketCnt
    {
      hide Mapping, Placed, Proper, Bag, IsPower, Index, Without;
      IndexInside(k, bucketCnt, e);
      var b := Index(k, bucketCnt, e);
      var i := FindElem(b, e);
      ghost var m := Contents();
      if i.Some? {
        BagIn(buckets, b, buckets[b][i.value]);
        found := Some(buckets[b][i.value]);
        MappingDrop(k, m, e, found.value);
        PlacedRemove(k, buckets, b, i.value);
        RemoveElem(b, i.value);
      } else {
        NotThere(k, buckets, e);
        found := None;
      }
      MappingAdd(k, Contents(), e);
      PlacedPush(k, buckets, e);
      InsertElem(b, e);
      Rehash(memory);
    }

    // hash_delete
    method Delete(e: T, memory: bool) returns (found: Option<T>)
      requires Valid() && Proper(k)
      modifies this
      ensures Valid() && IsAt(k, old(Contents()), e, found)
      ensures Contents() == if found.None? then old(Contents()) else old(Contents()) - multiset{found.value}
      ensures memory && found.Some? ==> elemCnt < 4 * bucketCnt
    {
      hide Mapping, Placed, Proper, Bag, IsPower, Index, Without;
      IndexInside(k, bucketCnt, e);
      var b := Index(k, bucketCnt, e);
      var i := FindElem(b, e);
      if i.None? {
        NotThere(k, buckets, e);
        return None;
      }
      BagIn(buckets, b, buckets[b][i.value]);
      found := Some(buckets[b][i.value]);
      MappingDrop(k, Contents(), e, found.value);
      PlacedRemove(k, buckets, b, i.value);
      RemoveElem(b, i.value);
      Rehash(memory);
    }
  }

  // hash_init, whose only failure is the allocation of the buckets
  method Init<T(==, !new)>(keying: Keying<T>, memory: bool) returns (h: Table?<T>)
    ensures h != null <==> memory
    ensures h != null ==> fresh(h) && h.k == keying && h.Valid() && h.Contents() == multiset{} && h.bucketCnt == 4
  {
    h := null;
    if memory { h := new Table(keying); }
  }

  lemma Above4(p: nat)
    requires IsPower(p) && p > 2
    ensures p >= 4
  {
    assert p % 2 == 0;
  }

  lemma PushFront<T>(after: multiset<T>, before: multiset<T>, s: seq<T>, e: T)
    requires after + multiset(s) == before + multiset([e] + s)
    ensures after == before + multiset{e}
  {
    assert multiset([e] + s) == multiset{e} + multiset(s);
    forall x: T ensures after[x] == (before + multiset{e})[x] {
      assert (after + multiset(s))[x] == (before + multiset([e] + s))[x];
    }
  }

  lemma TakeOut<T>(after: multiset<T>, before: multiset<T>, rest: seq<T>, s: seq<T>, e: T)
    requires after + multiset(s) == before + multiset(rest) && multiset(rest) + multiset{e} == multiset(s)
    ensures after == before - multiset{e} && e in before
  {
    forall x: T ensures after[x] + multiset{e}[x] == before[x] {
      assert (after + multiset(s))[x] == (before + multiset(rest))[x];
      assert (multiset(rest) + multiset{e})[x] == multiset(s)[x];
    }
  }

  lemma PlacedPush<T(!new)>(k: Keying<T>, buckets: seq<seq<T>>, e: T)
    requires Placed(k, buckets) && Index(k, |buckets|, e) < |buckets|
    ensures var b := Index(k, |buckets|, e); Placed(k, buckets[b := [e] + buckets[b]])
  {
  }

  lemma PlacedRemove<T(!new)>(k: Keying<T>, buckets: seq<seq<T>>, b: nat, i: nat)
    requires Placed(k, buckets) && b < |buckets| && i < |buckets[b]|
    ensures Placed(k, buckets[b := Without(buckets[b], i)])
  {
  }

  lemma MappingAdd<T(!new)>(k: Keying<T>, m: multiset<T>, e: T)
    requires Proper(k) && Mapping(k, m) && IsAt(k, m, e, None)
    ensures Mapping(k, m + multiset{e})
  {
    assert k.Same(e, e);
  }

  // An element equivalent to e can only be in e's bucket.
  lemma NotThere<T(!new)>(k: Keying<T>, buckets: seq<seq<T>>, e: T)
    requires Proper(k) && Placed(k, buckets) && IsPower(|buckets|) && Index(k, |buckets|, e) < |buckets|
    requires forall x: T :: x in buckets[Index(k, |buckets|, e)] ==> !k.Same(x, e)
    ensures IsAt(k, Bag(buckets), e, None)
  {
    forall x: T | x in Bag(buckets) ensures !k.Same(x, e) { PlacedIndex(k, buckets, x); }
  }

  lemma MappingDrop<T(!new)>(k: Keying<T>, m: multiset<T>, e: T, x: T)
    requires Proper(k) && Mapping(k, m) && x in m && k.Same(x, e)
    ensures Mapping(k, m - multiset{x}) && IsAt(k, m - multiset{x}, e, None)
  {
    forall y: T | y in m - multiset{x} ensures !k.Same(y, e) {
      assert k.Same(e, x);
      assert k.Same(y, e) && k.Same(e, x) ==> k.Same(y, x);
    }
  }

  lemma {:induction false} BagAppend<T>(a: seq<seq<T>>, b: seq<seq<T>>)
    ensures Bag(a + b) == Bag(a) + Bag(b)
  {
    if |a| > 0 {
      assert (a + b)[1..] == a[1..] + b;
      BagAppend(a[1..], b);
    } else {
      assert a + b == b;
    }
  }

  lemma BagPrefix<T>(buckets: seq<seq<T>>, i: nat)
    requires i < |buckets|
    ensures Bag(buckets[..i + 1]) == Bag(buckets[..i]) + multiset(buckets[i])
  {
    assert buckets[..i + 1] == buckets[..i] + [buckets[i]];
    BagAppend(buckets[..i], [buckets[i]]);
    assert [buckets[i]][1..] == [];
  }

  lemma PlacedEmpties<T(!new)>(k: Keying<T>, n: nat)
    requires n > 0
    ensures Placed(k, Empties<T>(n))
  {
  }

  lemma BagPrefixes<T>(buckets: seq<seq<T>>)
    ensures Bag(buckets[..0]) == multiset{} && Bag(buckets[..|buckets|]) == Bag(buckets)
  {
    assert buckets[..|buckets|] == buckets;
  }
}
