// The image that qcow_create lays out: header, L1 table, refcount table, one refcount block.

module Fresh {
  import opened Basics
  import opened Layout
  import opened Refcounts
  import opened Invariant
  import opened L1Table
  import opened Runs

  function ZeroL1(size: nat): (l1: seq<Entry>)
    ensures |l1| == size && forall i :: 0 <= i < size ==> l1[i] == Zero
  {
    seq(size, _ => Zero)
  }

  // Unwritten clusters and a refcount block.
  function Blank(total: nat, b: nat): (d: Disk)
    ensures |d| == total
  {
    seq(total, c => if c == b then Counts([]) else Other)
  }

  // `blocks` is the number of entries in the refcount table.
  function Created(g: Geo, blocks: nat, l1Size: nat): Img
    requires blocks > 0
  {
    var n := L1Clusters(g, l1Size);
    var total := blocks * g.reach;
    Img(g,
        StoreL1(g, Blank(total, n + 2), 1, ZeroL1(l1Size)),
        seq(blocks, k => if k == 0 then n + 2 else 0),
        seq(total, c => if c < n + 3 then 1 else 0),
        0, 0, ZeroL1(l1Size), 1, [], 0, 0, n + 1, 1)
  }

  lemma {:induction false} OneBlock(table: seq<nat>, n: nat, c: nat)
    requires 0 < n <= |table| && table[0] != 0 && forall k :: 0 < k < |table| ==> table[k] == 0
    ensures BlockRefs(table, n, c) == B2N(c == table[0])
  {
    if n > 1 { OneBlock(table, n - 1, c); }
  }

  lemma {:induction false} ZeroTree(g: Geo, d: Disk, l1: seq<Entry>, n: nat, c: nat)
    requires n <= |l1| && forall i :: 0 <= i < |l1| ==> l1[i] == Zero
    ensures TreeRefs(g, d, l1, n, c) == 0
  {
    if n > 0 { ZeroTree(g, d, l1, n - 1, c); }
  }

  lemma TotalEnough(g: Geo, blocks: nat)
    requires blocks > 0
    ensures g.reach <= blocks * g.reach
  {
    assert blocks * g.reach == (blocks - 1) * g.reach + g.reach;
  }

  // The four regions fit into the range of the first refcount block.
  lemma CreatedInv(g: Geo, blocks: nat, l1Size: nat)
    requires blocks > 0 && L1Clusters(g, l1Size) + 3 <= g.reach
    ensures Inv(Created(g, blocks, l1Size))
  {
    var st := Created(g, blocks, l1Size);
    var n := L1Clusters(g, l1Size);
    TotalEnough(g, blocks);
    forall c: nat ensures RcOf(st.rc, c) == B2N(c < n + 3) && st.Blk(c) == B2N(c == n + 2) && ActiveRefs(st, c) == 0 {
      OneBlock(st.table, |st.table|, c);
      ZeroTree(g, st.disk, st.l1, |st.l1|, c);
    }
    assert SnapClusters(g, 0) == 0;
    StoreStored(g, Blank(blocks * g.reach, n + 2), 1, ZeroL1(l1Size));
  }

  // A new image shows its backing file, and zeros past its end.
  lemma CreatedShows(env: Env, g: Geo, blocks: nat, l1Size: nat)
    requires blocks > 0
    ensures Shows(env, Created(g, blocks, l1Size), Flat((t: nat) => env.Backing(t), [], []))
  {
    var st := Created(g, blocks, l1Size);
    forall t: nat ensures SectorView(env, st, t) == env.Backing(t) {
      SectorNumOf(g, t);
    }
  }

  // Every run on a new image keeps its counts exact and shows what the flat disk shows.
  lemma CreatedRun(env: Env, g: Geo, blocks: nat, l1Size: nat, ops: seq<Op>, st': Img)
    requires env.Lawful() && blocks > 0 && L1Clusters(g, l1Size) + 3 <= g.reach
    requires Run(env, Created(g, blocks, l1Size), ops) == Some(st')
    ensures Inv(st')
    ensures Shows(env, st', FlatRun(Flat((t: nat) => env.Backing(t), [], []), ops))
  {
    CreatedInv(g, blocks, l1Size);
    CreatedShows(env, g, blocks, l1Size);
    RunRefines(env, Created(g, blocks, l1Size), Flat((t: nat) => env.Backing(t), [], []), ops, st');
  }
}
