// The on-disk layout of a qcow2 image and the references inside it.

module Layout {
  import opened Basics
  import opened Arith

  function ZeroSector(): Sector { seq(SECTOR, _ => 0) }

  // An L1 or L2 table word, decoded.  `at` is a cluster number.  A packed
  // (compressed) entry starts `off` bytes into host sector `sec` and covers `nb` sectors.
  datatype Entry =
    | Zero
    | Plain(at: nat, copied: bool)
    | Packed(sec: nat, off: nat, nb: nat)

  // What was last written to a cluster.
  datatype Block =
    | Data(sectors: seq<Sector>)
    | L2(ents: seq<Entry>)
    | L1(ents: seq<Entry>)
    | Counts(counts: seq<nat>)
    | Other

  type Disk = seq<Block>

  // Sectors, 64-bit words, 16-bit counts and bytes in a cluster.
  datatype Geo_ = Geo(spc: nat, width: nat, reach: nat, bytes: nat)
  type Geo = g: Geo_ | g.spc > 0 && g.width > 0 && g.reach > 0 && g.bytes > 0 witness Geo(1, 64, 256, 512)

  // ----- reading tables and sectors -----

  function Ents(disk: Disk, c: nat): seq<Entry>
  {
    if c < |disk| && disk[c].L2? then disk[c].ents else []
  }

  function L1Word(g: Geo, disk: Disk, at: nat, i: nat): Entry
  {
    var c := at + Row(g.width, i);
    var w := Col(g.width, i);
    if c < |disk| && disk[c].L1? && w < |disk[c].ents| then disk[c].ents[w] else Zero
  }

  function ReadL1(g: Geo, disk: Disk, at: nat, size: nat): (l1: seq<Entry>)
    ensures |l1| == size
  {
    seq(size, i requires 0 <= i < size => L1Word(g, disk, at, i))
  }

  function SectorAt(disk: Disk, c: nat, k: nat): Sector
  {
    if c < |disk| && disk[c].Data? && k < |disk[c].sectors| then disk[c].sectors[k] else ZeroSector()
  }

  // What a cluster holds, as sectors.
  function Raw(g: Geo, b: Block): (r: seq<Sector>)
    ensures |r| == g.spc
  {
    if b.Data? && |b.sectors| == g.spc then b.sectors else seq<Sector>(g.spc, _ => ZeroSector())
  }

  // ----- counting references -----

  function First(g: Geo, e: Entry): nat
    requires e.Packed?
  {
    Row(g.spc, e.sec)
  }

  // One past the last cluster a packed entry touches.
  function Past(g: Geo, e: Entry): nat
    requires e.Packed?
  {
    if e.nb == 0 then First(g, e) else Row(g.spc, e.sec + e.nb - 1) + 1
  }

  function B2N(b: bool): nat { if b then 1 else 0 }

  function InRun(c: nat, at: nat, n: nat): nat
  {
    B2N(at <= c < at + n)
  }

  function EntryRefs(g: Geo, e: Entry, c: nat): nat
  {
    match e
    case Zero => 0
    case Plain(at, _) => B2N(at == c)
    case Packed(_, _, _) => B2N(First(g, e) <= c < Past(g, e))
  }

  // References from the first n entries of an L2 table.
  function L2Refs(g: Geo, ents: seq<Entry>, n: nat, c: nat): nat
    requires n <= |ents|
  {
    if n == 0 then 0 else L2Refs(g, ents, n - 1, c) + EntryRefs(g, ents[n - 1], c)
  }

  // References made by one L1 entry: its L2 table and everything that table points to.
  function SlotRefs(g: Geo, disk: Disk, e: Entry, c: nat): nat
  {
    if e.Plain? then B2N(e.at == c) + L2Refs(g, Ents(disk, e.at), |Ents(disk, e.at)|, c) else 0
  }

  // References from the first n entries of an L1 table.
  function TreeRefs(g: Geo, disk: Disk, l1: seq<Entry>, n: nat, c: nat): nat
    requires n <= |l1|
  {
    if n == 0 then 0 else TreeRefs(g, disk, l1, n - 1, c) + SlotRefs(g, disk, l1[n - 1], c)
  }

  // Clusters holding an L1 table of the given number of entries.
  function L1Clusters(g: Geo, size: nat): nat
  {
    CeilDiv(size, g.width)
  }

  // What a caller says about a snapshot; a byte of a C string is a character below 256.
  datatype Info = Info(id: string, name: string, vmStateSize: nat, dateSec: nat, dateNsec: nat, vmClock: nat)

  datatype Snapshot = Snapshot(l1At: nat, l1Size: nat, info: Info)

  function SnapL1(g: Geo, disk: Disk, s: Snapshot): (l1: seq<Entry>)
    ensures |l1| == s.l1Size
  {
    ReadL1(g, disk, s.l1At, s.l1Size)
  }

  function SnapRefs(g: Geo, disk: Disk, s: Snapshot, c: nat): nat
  {
    InRun(c, s.l1At, L1Clusters(g, s.l1Size)) + TreeRefs(g, disk, SnapL1(g, disk, s), s.l1Size, c)
  }

  function SnapsRefs(g: Geo, disk: Disk, snaps: seq<Snapshot>, n: nat, c: nat): nat
    requires n <= |snaps|
  {
    if n == 0 then 0 else SnapsRefs(g, disk, snaps, n - 1, c) + SnapRefs(g, disk, snaps[n - 1], c)
  }

  // Refcount table entries (first n) that name cluster c.
  function BlockRefs(table: seq<nat>, n: nat, c: nat): nat
    requires n <= |table|
  {
    if n == 0 then 0 else BlockRefs(table, n - 1, c) + B2N(table[n - 1] == c && c != 0)
  }

  // ----- what the guest sees -----

  // The things a read needs besides the image: the backing file, the inflater
  // (stream, offset, sector index) and the sector cipher.
  datatype Env = Env(
    backing: seq<Sector>,
    inflate: (seq<Sector>, nat, nat) -> Sector,
    enc: (nat, Sector) -> Sector,
    dec: (nat, Sector) -> Sector)
  {
    ghost predicate Lawful() {
      forall n: nat, x: Sector :: dec(n, enc(n, x)) == x
    }

    function Backing(sn: nat): Sector {
      if sn < |backing| then backing[sn] else ZeroSector()
    }
  }

  function HostSector(g: Geo, disk: Disk, hs: nat): Sector
  {
    SectorAt(disk, Row(g.spc, hs), Col(g.spc, hs))
  }

  function Stream(g: Geo, disk: Disk, e: Entry): seq<Sector>
    requires e.Packed?
  {
    seq<Sector>(e.nb, q requires 0 <= q < e.nb => HostSector(g, disk, e.sec + q))
  }

  // Sector k of the cluster an L2 entry describes; sn is its guest sector number.
  function EntryView(env: Env, g: Geo, disk: Disk, e: Entry, sn: nat, k: nat): Sector
  {
    match e
    case Zero => env.Backing(sn)
    case Plain(at, _) => env.dec(sn, SectorAt(disk, at, k))
    case Packed(_, off, _) => env.inflate(Stream(g, disk, e), off, k)
  }

  function L2Word(disk: Disk, e1: Entry, j: nat): Entry
  {
    if e1.Plain? && j < |Ents(disk, e1.at)| then Ents(disk, e1.at)[j] else Zero
  }

  function SlotAt(l1: seq<Entry>, i: nat): Entry
  {
    if i < |l1| then l1[i] else Zero
  }

  // Guest sector number of sector k in the cluster at L1 index i, L2 index j.
  function SectorNum(g: Geo, i: nat, j: nat, k: nat): nat
  {
    (i * g.width + j) * g.spc + k
  }

  function TreeView(env: Env, g: Geo, disk: Disk, l1: seq<Entry>, i: nat, j: nat, k: nat): Sector
  {
    EntryView(env, g, disk, L2Word(disk, SlotAt(l1, i), j), SectorNum(g, i, j, k), k)
  }

  // ----- equality up to COPIED flags -----

  function Strip(e: Entry): Entry
  {
    if e.Plain? then Plain(e.at, false) else e
  }

  ghost predicate SameEnts(a: seq<Entry>, b: seq<Entry>)
  {
    |a| == |b| && forall j :: 0 <= j < |a| ==> Strip(a[j]) == Strip(b[j])
  }

  // Equal apart from COPIED flags in a table.
  ghost predicate Same(a: Block, b: Block)
  {
    a == b || (a.L2? && b.L2? && SameEnts(a.ents, b.ents)) || (a.L1? && b.L1? && SameEnts(a.ents, b.ents))
  }

  // Same, or data clusters of the same size: enough to keep references and kinds.
  ghost predicate Alike(a: Block, b: Block)
  {
    Same(a, b) || (a.Data? && b.Data? && |a.sectors| == |b.sectors|)
  }

  lemma {:induction false} L2RefsSame(g: Geo, a: seq<Entry>, b: seq<Entry>, n: nat, c: nat)
    requires SameEnts(a, b) && n <= |a|
    ensures L2Refs(g, a, n, c) == L2Refs(g, b, n, c)
  {
    if n > 0 {
      L2RefsSame(g, a, b, n - 1, c);
      assert Strip(a[n - 1]) == Strip(b[n - 1]);
    }
  }

  lemma SlotRefsSame(g: Geo, d: Disk, d': Disk, e: Entry, e': Entry, c: nat)
    requires |d| == |d'| && Strip(e) == Strip(e')
    requires e.Plain? && e.at < |d| ==> Alike(d[e.at], d'[e.at])
    ensures SlotRefs(g, d, e, c) == SlotRefs(g, d', e', c)
  {
    if e.Plain? && e.at < |d| && d[e.at].L2? {
      L2RefsSame(g, Ents(d, e.at), Ents(d', e.at), |Ents(d, e.at)|, c);
    }
  }

  // A tree whose clusters keep their contents (up to COPIED flags) makes the same references.
  lemma {:induction false} TreeFrame(g: Geo, d: Disk, d': Disk, l1: seq<Entry>, l1': seq<Entry>, n: nat, c: nat)
    requires |d| == |d'| && SameEnts(l1, l1') && n <= |l1|
    requires forall x: nat :: x < |d| && TreeRefs(g, d, l1, n, x) > 0 ==> Alike(d[x], d'[x])
    ensures TreeRefs(g, d, l1, n, c) == TreeRefs(g, d', l1', n, c)
  {
    if n > 0 {
      forall x: nat | x < |d| && TreeRefs(g, d, l1, n - 1, x) > 0
        ensures Alike(d[x], d'[x])
      {
        assert TreeRefs(g, d, l1, n, x) > 0;
      }
      TreeFrame(g, d, d', l1, l1', n - 1, c);
      var e := l1[n - 1];
      if e.Plain? && e.at < |d| {
        assert TreeRefs(g, d, l1, n, e.at) > 0;
      }
      assert Strip(l1[n - 1]) == Strip(l1'[n - 1]);
      SlotRefsSame(g, d, d', e, l1'[n - 1], c);
    }
  }

  // ----- each reference is counted -----

  lemma {:induction false} L2RefsAt(g: Geo, ents: seq<Entry>, n: nat, j: nat, c: nat)
    requires j < n <= |ents|
    ensures L2Refs(g, ents, n, c) >= EntryRefs(g, ents[j], c)
  {
    if j < n - 1 { L2RefsAt(g, ents, n - 1, j, c); }
  }

  lemma {:induction false} TreeRefsAt(g: Geo, d: Disk, l1: seq<Entry>, n: nat, i: nat, c: nat)
    requires i < n <= |l1|
    ensures TreeRefs(g, d, l1, n, c) >= SlotRefs(g, d, l1[i], c)
  {
    if i < n - 1 { TreeRefsAt(g, d, l1, n - 1, i, c); }
  }

  lemma {:induction false} TreeRefsAt2(g: Geo, d: Disk, l1: seq<Entry>, n: nat, i: nat, i2: nat, c: nat)
    requires i < i2 < n <= |l1|
    ensures TreeRefs(g, d, l1, n, c) >= SlotRefs(g, d, l1[i], c) + SlotRefs(g, d, l1[i2], c)
  {
    if i2 < n - 1 { TreeRefsAt2(g, d, l1, n - 1, i, i2, c); }
    else { TreeRefsAt(g, d, l1, n - 1, i, c); }
  }

  lemma {:induction false} SnapsRefsAt(g: Geo, d: Disk, snaps: seq<Snapshot>, n: nat, q: nat, c: nat)
    requires q < n <= |snaps|
    ensures SnapsRefs(g, d, snaps, n, c) >= SnapRefs(g, d, snaps[q], c)
  {
    if q < n - 1 { SnapsRefsAt(g, d, snaps, n - 1, q, c); }
  }

  lemma {:induction false} BlockRefsAt(table: seq<nat>, n: nat, k: nat)
    requires k < n <= |table| && table[k] != 0
    ensures BlockRefs(table, n, table[k]) >= 1
  {
    if k < n - 1 { BlockRefsAt(table, n - 1, k); }
  }

  lemma {:induction false} BlockRefsFind(table: seq<nat>, n: nat, c: nat) returns (k: nat)
    requires n <= |table| && BlockRefs(table, n, c) > 0
    ensures k < n && table[k] == c && c != 0
  {
    if table[n - 1] == c && c != 0 { k := n - 1; } else { k := BlockRefsFind(table, n - 1, c); }
  }

  // ----- point updates -----

  lemma {:induction false} L2RefsUpdate(g: Geo, ents: seq<Entry>, n: nat, j: nat, e: Entry, c: nat)
    requires j < |ents| && n <= |ents|
    ensures L2Refs(g, ents[j := e], n, c) + (if j < n then EntryRefs(g, ents[j], c) else 0)
         == L2Refs(g, ents, n, c) + (if j < n then EntryRefs(g, e, c) else 0)
  {
    if n > 0 { L2RefsUpdate(g, ents, n - 1, j, e, c); }
  }

  // Changing one slot of a tree changes its references by that slot's difference.
  lemma {:induction false} TreeRefsUpdate(g: Geo, d: Disk, d': Disk, l1: seq<Entry>, l1': seq<Entry>, n: nat, i: nat,
                                          c: nat)
    requires |l1| == |l1'| && i < |l1| && n <= |l1|
    requires forall k: nat :: k < |l1| && k != i ==> SlotRefs(g, d, l1[k], c) == SlotRefs(g, d', l1'[k], c)
    ensures TreeRefs(g, d', l1', n, c) + (if i < n then SlotRefs(g, d, l1[i], c) else 0)
         == TreeRefs(g, d, l1, n, c) + (if i < n then SlotRefs(g, d', l1'[i], c) else 0)
  {
    if n > 0 { TreeRefsUpdate(g, d, d', l1, l1', n - 1, i, c); }
  }

  lemma {:induction false} BlockRefsUpdate(table: seq<nat>, n: nat, k: nat, b: nat, c: nat)
    requires k < |table| && n <= |table| && table[k] == 0 && b != 0
    ensures BlockRefs(table[k := b], n, c) == BlockRefs(table, n, c) + (if k < n then B2N(b == c) else 0)
  {
    if n > 0 { BlockRefsUpdate(table, n - 1, k, b, c); }
  }

  // ----- reads depend only on referenced clusters -----

  lemma HostSectorFrame(g: Geo, d: Disk, d': Disk, e: Entry, q: nat)
    requires |d| == |d'| && e.Packed? && q < e.nb
    requires forall x: nat :: x < |d| && EntryRefs(g, e, x) > 0 ==> Same(d[x], d'[x])
    ensures HostSector(g, d, e.sec + q) == HostSector(g, d', e.sec + q)
  {
    var x := Row(g.spc, e.sec + q);
    RowMono(g.spc, e.sec, e.sec + q);
    RowMono(g.spc, e.sec + q, e.sec + e.nb - 1);
    if x < |d| { assert EntryRefs(g, e, x) > 0; }
  }

  lemma StreamFrame(g: Geo, d: Disk, d': Disk, e: Entry)
    requires |d| == |d'| && e.Packed?
    requires forall x: nat :: x < |d| && EntryRefs(g, e, x) > 0 ==> Same(d[x], d'[x])
    ensures Stream(g, d, e) == Stream(g, d', e)
  {
    forall q: nat | q < e.nb
      ensures Stream(g, d, e)[q] == Stream(g, d', e)[q]
    {
      HostSectorFrame(g, d, d', e, q);
    }
  }

  lemma EntryViewFrame(env: Env, g: Geo, d: Disk, d': Disk, e: Entry, e': Entry, sn: nat, k: nat)
    requires |d| == |d'| && Strip(e) == Strip(e')
    requires forall x: nat :: x < |d| && EntryRefs(g, e, x) > 0 ==> Same(d[x], d'[x])
    ensures EntryView(env, g, d, e, sn, k) == EntryView(env, g, d', e', sn, k)
  {
    match e
    case Zero =>
    case Plain(at, _) => if at < |d| { assert EntryRefs(g, e, at) > 0; }
    case Packed(_, _, _) => StreamFrame(g, d, d', e);
  }

  // A tree whose clusters keep their contents shows the guest the same data.
  lemma TreeViewFrame(env: Env, g: Geo, d: Disk, d': Disk, l1: seq<Entry>, l1': seq<Entry>, i: nat, j: nat, k: nat)
    requires |d| == |d'| && SameEnts(l1, l1')
    requires forall x: nat :: x < |d| && TreeRefs(g, d, l1, |l1|, x) > 0 ==> Same(d[x], d'[x])
    ensures TreeView(env, g, d, l1, i, j, k) == TreeView(env, g, d', l1', i, j, k)
  {
    if i < |l1| && l1[i].Plain? {
      var t := l1[i].at;
      assert Strip(l1[i]) == Strip(l1'[i]);
      TreeRefsAt(g, d, l1, |l1|, i, t);
      if t < |d| { assert Same(d[t], d'[t]); }
      var e, e' := L2Word(d, l1[i], j), L2Word(d', l1'[i], j);
      assert Strip(e) == Strip(e');
      forall x: nat | x < |d| && EntryRefs(g, e, x) > 0
        ensures Same(d[x], d'[x])
      {
        L2RefsAt(g, Ents(d, t), |Ents(d, t)|, j, x);
        TreeRefsAt(g, d, l1, |l1|, i, x);
      }
      EntryViewFrame(env, g, d, d', e, e', SectorNum(g, i, j, k), k);
    } else if i < |l1| {
      assert Strip(l1[i]) == Strip(l1'[i]);
    }
  }

  lemma L1WordInRun(g: Geo, size: nat, i: nat)
    requires i < size
    ensures Row(g.width, i) < L1Clusters(g, size)
  {
    RowMono(g.width, i, size - 1);
  }

  // An L1 table whose clusters keep their contents reads the same up to COPIED flags.
  lemma ReadL1Frame(g: Geo, d: Disk, d': Disk, at: nat, size: nat)
    requires |d| == |d'|
    requires forall x: nat :: x < |d| && InRun(x, at, L1Clusters(g, size)) > 0 ==> Alike(d[x], d'[x])
    ensures SameEnts(ReadL1(g, d, at, size), ReadL1(g, d', at, size))
  {
    forall i: nat | i < size
      ensures Strip(ReadL1(g, d, at, size)[i]) == Strip(ReadL1(g, d', at, size)[i])
    {
      L1WordInRun(g, size, i);
      var x := at + Row(g.width, i);
      if x < |d| { assert InRun(x, at, L1Clusters(g, size)) > 0; }
    }
  }

  lemma SnapFrame(g: Geo, d: Disk, d': Disk, s: Snapshot, c: nat)
    requires |d| == |d'|
    requires forall x: nat :: x < |d| && SnapRefs(g, d, s, x) > 0 ==> Alike(d[x], d'[x])
    ensures SameEnts(SnapL1(g, d, s), SnapL1(g, d', s))
    ensures SnapRefs(g, d', s, c) == SnapRefs(g, d, s, c)
  {
    ReadL1Frame(g, d, d', s.l1At, s.l1Size);
    TreeFrame(g, d, d', SnapL1(g, d, s), SnapL1(g, d', s), s.l1Size, c);
  }

  lemma {:induction false} SnapsFrame(g: Geo, d: Disk, d': Disk, snaps: seq<Snapshot>, n: nat, c: nat)
    requires |d| == |d'| && n <= |snaps|
    requires forall x: nat :: x < |d| && SnapsRefs(g, d, snaps, n, x) > 0 ==> Alike(d[x], d'[x])
    ensures SnapsRefs(g, d', snaps, n, c) == SnapsRefs(g, d, snaps, n, c)
  {
    if n > 0 {
      forall x: nat | x < |d| && SnapsRefs(g, d, snaps, n - 1, x) > 0 ensures Alike(d[x], d'[x]) {
        assert SnapsRefs(g, d, snaps, n, x) > 0;
      }
      SnapsFrame(g, d, d', snaps, n - 1, c);
      forall x: nat | x < |d| && SnapRefs(g, d, snaps[n - 1], x) > 0 ensures Alike(d[x], d'[x]) {
        assert SnapsRefs(g, d, snaps, n, x) > 0;
      }
      SnapFrame(g, d, d', snaps[n - 1], c);
    }
  }
}
