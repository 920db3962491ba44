// Whole runs of the hash table, and iteration over it.

module HashRuns {
  import opened Basics
  import opened Bits
  import opened HashTable

  datatype Request<T> = Insert(e: T) | Replace(e: T) | Lookup(e: T) | Delete(e: T)

  // What a finite map does: r is the value held before, m' the contents after.
  ghost predicate MapStep<T(!new)>(k: Keying<T>, m: multiset<T>, q: Request<T>, r: Option<T>, m': multiset<T>)
  {
    && IsAt(k, m, q.e, r)
    && match q
       case Insert(e) => m' == if r.None? then m + multiset{e} else m
       case Replace(e) => m' == (if r.None? then m else m - multiset{r.value}) + multiset{e}
       case Lookup(_) => m' == m
       case Delete(_) => m' == if r.None? then m else m - multiset{r.value}
  }

  ghost predicate MapRun<T(!new)>(k: Keying<T>, states: seq<multiset<T>>, qs: seq<Request<T>>, rs: seq<Option<T>>)
  {
    |states| == |rs| + 1 && |rs| <= |qs| && forall i: nat :: i < |rs| ==>
      MapStep(k, states[i], qs[i], rs[i], states[i + 1])
  }

  // The finite map determines every answer and every state, so neither the hash function's spread nor
  // failed allocations can show.
  lemma {:induction false} MapRunOnce<T(!new)>(k: Keying<T>, a: seq<multiset<T>>, b: seq<multiset<T>>,
                                        qs: seq<Request<T>>, rs: seq<Option<T>>, rs': seq<Option<T>>, n: nat)
    requires Proper(k) && MapRun(k, a, qs, rs) && MapRun(k, b, qs, rs') && |rs| == |rs'| && n <= |rs| && a[0] == b[0]
    requires Mapping(k, a[0])
    ensures a[..n + 1] == b[..n + 1] && rs[..n] == rs'[..n] && Mapping(k, a[n])
  {
    hide Proper, Mapping, MapStep;
    if n > 0 {
      MapRunOnce(k, a, b, qs, rs, rs', n - 1);
      assert a[n - 1] == a[..n][n - 1] && b[n - 1] == b[..n][n - 1];
      assert MapStep(k, a[n - 1], qs[n - 1], rs[n - 1], a[n - 1 + 1]);
      assert MapStep(k, b[n - 1], qs[n - 1], rs'[n - 1], b[n - 1 + 1]);
      StepOnce(k, a[n - 1], qs[n - 1], rs[n - 1], rs'[n - 1], a[n], b[n]);
      StepMapping(k, a[n - 1], qs[n - 1], rs[n - 1], a[n]);
      Longer(a, b, n);
      Longer(rs, rs', n - 1);
    }
  }

  lemma Longer<A>(a: seq<A>, b: seq<A>, n: nat)
    requires n < |a| && n < |b| && a[..n] == b[..n] && a[n] == b[n]
    ensures a[..n + 1] == b[..n + 1]
  {
    assert a[..n + 1] == a[..n] + [a[n]] && b[..n + 1] == b[..n] + [b[n]];
  }

  lemma StepOnce<T(!new)>(k: Keying<T>, m: multiset<T>, q: Request<T>, r: Option<T>, r': Option<T>, m1: multiset<T>,
                   m2: multiset<T>)
    requires Proper(k) && Mapping(k, m) && MapStep(k, m, q, r, m1) && MapStep(k, m, q, r', m2)
    ensures r == r' && m1 == m2
  {
    hide Proper, Mapping, IsAt;
    IsAtOnce(k, m, q.e, r, r');
  }

  lemma StepMapping<T(!new)>(k: Keying<T>, m: multiset<T>, q: Request<T>, r: Option<T>, m': multiset<T>)
    requires Proper(k) && Mapping(k, m) && MapStep(k, m, q, r, m')
    ensures Mapping(k, m')
  {
    hide Mapping;
    match q {
      case Insert(e) => if r.None? { MappingAdd(k, m, e); }
      case Replace(e) =>
        if r.Some? { MappingDrop(k, m, e, r.value); }
        MappingAdd(k, if r.None? then m else m - multiset{r.value}, e);
      case Lookup(_) =>
      case Delete(e) => if r.Some? { MappingDrop(k, m, e, r.value); }
    }
  }

  // One request to the table
  method Perform<T(==, !new)>(h: Table<T>, q: Request<T>, memory: bool) returns (r: Option<T>)
    requires h.Valid() && Proper(h.k)
    modifies h
    ensures h.Valid() && MapStep(h.k, old(h.Contents()), q, r, h.Contents())
  {
    hide Proper, IsAt, Mapping, Placed, Bag, IsPower;
    match q
    case Insert(e) => r := h.Insert(e, memory);
    case Replace(e) => r := h.Replace(e, memory);
    case Lookup(e) => r := h.Find(e);
    case Delete(e) => r := h.Delete(e, memory);
  }

  // Every run of requests, with memory[i] telling whether the i-th allocation succeeds
  method Serve<T(==, !new)>(h: Table<T>, qs: seq<Request<T>>, memory: seq<bool>) returns (rs: seq<Option<T>>,
                 ghost states: seq<multiset<T>>)
    requires h.Valid() && Proper(h.k) && |memory| == |qs|
    modifies h
    ensures h.Valid() && |rs| == |qs| && MapRun(h.k, states, qs, rs) && states[0] == old(h.Contents())
    ensures states[|qs|] == h.Contents()
  {
    hide Proper, MapStep;
    rs := [];
    states := [h.Contents()];
    while |rs| < |qs|
      invariant h.Valid() && |rs| <= |qs| && MapRun(h.k, states, qs, rs) && states[0] == old(h.Contents())
      invariant states[|rs|] == h.Contents()
    {
      var r := Perform(h, qs[|rs|], memory[|rs|]);
      ghost var m := h.Contents();
      RunGrows(h.k, states, qs, rs, r, m);
      rs := rs + [r];
      states := states + [m];
    }
  }

  lemma RunGrows<T(!new)>(k: Keying<T>, states: seq<multiset<T>>, qs: seq<Request<T>>, rs: seq<Option<T>>, r: Option<T>,
                   m: multiset<T>)
    requires MapRun(k, states, qs, rs) && |rs| < |qs| && MapStep(k, states[|rs|], qs[|rs|], r, m)
    ensures MapRun(k, states + [m], qs, rs + [r])
  {
    hide MapStep;
    var states', rs' := states + [m], rs + [r];
    forall i: nat | i < |rs'| ensures MapStep(k, states'[i], qs[i], rs'[i], states'[i + 1]) {
      if i < |rs| { assert MapStep(k, states[i], qs[i], rs[i], states[i + 1]); }
    }
  }

  // ----- iteration -----

  // The elements in the order the iterator visits them.
  function All<T>(buckets: seq<seq<T>>, n: nat): seq<T>
    requires n <= |buckets|
  {
    if n == 0 then [] else All(buckets, n - 1) + buckets[n - 1]
  }

  lemma {:induction false} AllBag<T>(buckets: seq<seq<T>>, n: nat)
    requires n <= |buckets|
    ensures multiset(All(buckets, n)) == Bag(buckets[..n])
  {
    if n > 0 {
      AllBag(buckets, n - 1);
      BagPrefix(buckets, n - 1);
    } else {
      assert buckets[..0] == [];
    }
  }

  lemma {:induction false} AllAt<T>(buckets: seq<seq<T>>, n: nat, b: nat, e: nat)
    requires b < n <= |buckets| && e < |buckets[b]|
    ensures |All(buckets, b)| + e < |All(buckets, n)| && All(buckets, n)[|All(buckets, b)| + e] == buckets[b][e]
  {
    if b < n - 1 { AllAt(buckets, n - 1, b, e); }
  }

  // struct hash_iterator: `elem` is a position in the bucket, -1 for the head of the list.
  class Cursor<T(==, !new)> {
    const h: Table<T>
    var bucket: nat
    var elem: int

    // hash_first
    constructor (h: Table<T>)
      requires h.Valid()
      ensures this.h == h && Valid() && Visited() == 0
    {
      this.h := h;
      bucket := 0;
      elem := -1;
    }

    ghost predicate Valid()
      reads this, h
    {
      bucket < |h.buckets| == h.bucketCnt && -1 <= elem < |h.buckets[bucket]|
    }

    // How many elements the iterator has returned.
    ghost function Visited(): nat
      requires Valid()
      reads this, h
    {
      |All(h.buckets, bucket)| + elem + 1
    }

    // hash_next
    method Next() returns (r: Option<T>)
      requires Valid()
      modifies this
      ensures r.None? <==> old(Visited()) == |All(h.buckets, h.bucketCnt)|
      ensures r.Some? ==>
        Valid() && old(Visited()) < |All(h.buckets, h.bucketCnt)| &&
          r == Some(All(h.buckets, h.bucketCnt)[old(Visited())])
      ensures r.Some? ==> Visited() == old(Visited()) + 1
    {
      ghost var seen := Visited();
      elem := elem + 1;
      while elem == |h.buckets[bucket]|
        invariant bucket < |h.buckets| && 0 <= elem <= |h.buckets[bucket]| && |All(h.buckets, bucket)| + elem == seen
        decreases |h.buckets| - bucket
      {
        if bucket + 1 >= h.bucketCnt {
          assert All(h.buckets, h.bucketCnt) == All(h.buckets, bucket) + h.buckets[bucket];
          return None;
        }
        bucket := bucket + 1;
        elem := 0;
      }
      AllAt(h.buckets, h.bucketCnt, bucket, elem);
      r := Some(h.buckets[bucket][elem]);
    }
  }

  // The iteration idiom: every element is visited, exactly once.
  method Visit<T(==, !new)>(h: Table<T>) returns (out: seq<T>)
    requires h.Valid()
    ensures multiset(out) == h.Contents() && |out| == h.elemCnt
  {
    hide All, Bag, Placed, IsPower, Mapping;
    var c := new Cursor(h);
    out := [];
    ghost var all := All(h.buckets, h.bucketCnt);
    var r := c.Next();
    while r.Some?
      invariant r.Some? ==> c.Valid() && c.Visited() == |out| + 1 && |out| < |all| && r.value == all[|out|]
      invariant |out| <= |all| && out == all[..|out|] && (r.None? ==> |out| == |all|)
      decreases |all| - |out|, r.Some?
    {
      out := out + [r.value];
      assert out == all[..|out|];
      r := c.Next();
    }
    assert out == all;
    AllBag(h.buckets, h.bucketCnt);
    BagPrefixes(h.buckets);
  }
}
