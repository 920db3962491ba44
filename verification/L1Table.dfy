// Writing a whole L1 table to disk.

module L1Table {
  import opened Arith
  import opened GuestWrite
  import opened Layout
  import opened Invariant

  function StoreL1(g: Geo, disk: Disk, at: nat, l1: seq<Entry>): (d: Disk)
    ensures |d| == |disk|
    decreases |l1|
  {
    if |l1| == 0 then disk
    else
      var n := Min(g.width, |l1|);
      StoreL1(g, SetBlock(disk, at, L1(l1[..n])), at + 1, l1[n..])
  }

  lemma {:induction false} StoreOutside(g: Geo, disk: Disk, at: nat, l1: seq<Entry>, x: nat)
    requires x < |disk| && InRun(x, at, L1Clusters(g, |l1|)) == 0
    ensures StoreL1(g, disk, at, l1)[x] == disk[x]
    decreases |l1|
  {
    if |l1| > 0 {
      var n := Min(g.width, |l1|);
      ClustersStep(g, |l1|);
      StoreOutside(g, SetBlock(disk, at, L1(l1[..n])), at + 1, l1[n..], x);
    }
  }

  lemma ClustersStep(g: Geo, size: nat)
    requires size > 0
    ensures L1Clusters(g, size) == 1 + L1Clusters(g, size - Min(g.width, size))
    ensures L1Clusters(g, 0) == 0
  {
    assert Row(g.width, size + g.width - 1) == Row(g.width, size - 1) + 1;
    assert size >= g.width ==> size - g.width + g.width - 1 == size - 1;
  }

  lemma {:induction false} StoreShape(g: Geo, disk: Disk, at: nat, l1: seq<Entry>)
    requires at + L1Clusters(g, |l1|) <= |disk|
    ensures L1Shape(g, StoreL1(g, disk, at, l1), at, |l1|)
    ensures |l1| > 0 ==> at < |disk| && StoreL1(g, disk, at, l1)[at] == L1(l1[..Min(g.width, |l1|)])
    decreases |l1|
  {
    if |l1| > 0 {
      var n := Min(g.width, |l1|);
      var d1 := SetBlock(disk, at, L1(l1[..n]));
      ClustersStep(g, |l1|);
      StoreOutside(g, d1, at + 1, l1[n..], at);
      StoreShape(g, d1, at + 1, l1[n..]);
    }
  }

  lemma {:induction false} StoreWord(g: Geo, disk: Disk, at: nat, l1: seq<Entry>, i: nat)
    requires at + L1Clusters(g, |l1|) <= |disk| && i < |l1|
    ensures L1Word(g, StoreL1(g, disk, at, l1), at, i) == l1[i]
    decreases |l1|
  {
    StoreShape(g, disk, at, l1);
    if i >= g.width {
      var n := g.width;
      ClustersStep(g, |l1|);
      StoreWord(g, SetBlock(disk, at, L1(l1[..n])), at + 1, l1[n..], i - n);
    }
  }

  // Reading back a table that was written gives that table.
  lemma StoreStored(g: Geo, disk: Disk, at: nat, l1: seq<Entry>)
    requires at + L1Clusters(g, |l1|) <= |disk|
    ensures Stored(g, StoreL1(g, disk, at, l1), at, l1)
  {
    StoreShape(g, disk, at, l1);
    forall i: nat | i < |l1| ensures ReadL1(g, StoreL1(g, disk, at, l1), at, |l1|)[i] == l1[i] {
      StoreWord(g, disk, at, l1, i);
    }
  }

  lemma {:induction false} ShapeBound(g: Geo, disk: Disk, at: nat, size: nat)
    requires L1Shape(g, disk, at, size) && size > 0
    ensures at + L1Clusters(g, size) <= |disk|
    decreases size
  {
    ClustersStep(g, size);
    if size > g.width { ShapeBound(g, disk, at + 1, size - g.width); }
  }

  lemma StoredTail(g: Geo, disk: Disk, at: nat, l1: seq<Entry>)
    requires Stored(g, disk, at, l1) && |l1| > g.width
    ensures Stored(g, disk, at + 1, l1[g.width..])
  {
    var rest := l1[g.width..];
    forall i: nat | i < |rest| ensures ReadL1(g, disk, at + 1, |rest|)[i] == rest[i] {
      assert ReadL1(g, disk, at, |l1|)[i + g.width] == l1[i + g.width];
    }
  }

  lemma StoredHead(g: Geo, disk: Disk, at: nat, l1: seq<Entry>)
    requires Stored(g, disk, at, l1) && |l1| > 0
    ensures at < |disk| && disk[at] == L1(l1[..Min(g.width, |l1|)])
  {
    var n := Min(g.width, |l1|);
    forall i: nat | i < n ensures disk[at].ents[i] == l1[i] {
      assert ReadL1(g, disk, at, |l1|)[i] == l1[i];
    }
  }

  // Rewriting a stored table with other COPIED flags changes only COPIED flags.
  lemma {:induction false} StoreSame(g: Geo, disk: Disk, at: nat, l1: seq<Entry>, l1': seq<Entry>, x: nat)
    requires Stored(g, disk, at, l1) && SameEnts(l1, l1') && x < |disk|
    ensures Same(disk[x], StoreL1(g, disk, at, l1')[x])
    decreases |l1|
  {
    if |l1| > 0 {
      var n := Min(g.width, |l1|);
      StoredHead(g, disk, at, l1);
      ShapeBound(g, disk, at, |l1|);
      ClustersStep(g, |l1|);
      if x == at {
        StoreShape(g, disk, at, l1');
      } else if |l1| > g.width {
        var d1 := SetBlock(disk, at, L1(l1'[..n]));
        StoredTail(g, disk, at, l1);
        StoredFrame(g, disk, d1, at + 1, l1[n..]);
        StoreSame(g, d1, at + 1, l1[n..], l1'[n..], x);
      }
    }
  }
}
