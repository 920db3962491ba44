// Reference counts as they are stored: a table of refcount blocks on the disk.

module Storage {
  import opened Arith
  import opened Layout

  // The count of cluster c, read from the disk.
  function StoredCount(g: Geo, disk: Disk, table: seq<nat>, c: nat): nat
  {
    var k := Row(g.reach, c);
    if k < |table| && table[k] != 0 && table[k] < |disk| && disk[table[k]].Counts? &&
      Col(g.reach, c) < |disk[table[k]].counts|
    then disk[table[k]].counts[Col(g.reach, c)] else 0
  }

  // The plain map of counts that the table and the blocks stand for.
  function CountMap(g: Geo, disk: Disk, table: seq<nat>): (rc: seq<nat>)
    ensures |rc| == |disk|
    ensures forall c: nat :: c < |disk| ==> rc[c] == StoredCount(g, disk, table, c)
  {
    seq(|disk|, c requires 0 <= c < |disk| => StoredCount(g, disk, table, c))
  }

  function Erase(b: Block): Block
  {
    if b.Counts? then Counts([]) else b
  }

  // The disk without the contents of its refcount blocks.
  function Erased(disk: Disk): (d: Disk)
    ensures |d| == |disk|
    ensures forall c: nat :: c < |disk| ==> d[c] == Erase(disk[c])
  {
    seq(|disk|, c requires 0 <= c < |disk| => Erase(disk[c]))
  }

  // Every entry of the refcount table names its own refcount block.
  ghost predicate BlocksOk(g: Geo, disk: Disk, table: seq<nat>)
  {
    && |disk| == |table| * g.reach
    && (forall k: nat :: k < |table| && table[k] != 0 ==>
          table[k] < |disk| && disk[table[k]].Counts? && |disk[table[k]].counts| == g.reach)
    && (forall k: nat, l: nat :: k < l < |table| && table[k] != 0 ==> table[k] != table[l])
  }

  ghost predicate IsBlock(table: seq<nat>, b: nat)
  {
    b != 0 && exists k: nat :: k < |table| && table[k] == b
  }

  // Storing one count updates the plain map at that cluster and nothing else.
  lemma StoreCount(g: Geo, disk: Disk, table: seq<nat>, c: nat, v: nat)
    requires BlocksOk(g, disk, table) && c < |disk| && Row(g.reach, c) < |table| && table[Row(g.reach, c)] != 0
    ensures var b := table[Row(g.reach, c)];
      && var disk' := disk[b := Counts(disk[b].counts[Col(g.reach, c) := v])];
      && BlocksOk(g, disk', table)
      && CountMap(g, disk', table) == CountMap(g, disk, table)[c := v]
      && Erased(disk') == Erased(disk)
  {
    var b := table[Row(g.reach, c)];
    var disk' := disk[b := Counts(disk[b].counts[Col(g.reach, c) := v])];
    forall x: nat | x < |disk| ensures CountMap(g, disk', table)[x] == CountMap(g, disk, table)[c := v][x] {
      if Row(g.reach, x) == Row(g.reach, c) && Col(g.reach, x) == Col(g.reach, c) { SameSlot(g.reach, x, c); }
    }
  }

  // Writing a cluster that is no refcount block leaves every count alone.
  lemma StoreBlock(g: Geo, disk: Disk, table: seq<nat>, x: nat, b: Block)
    requires BlocksOk(g, disk, table) && x < |disk| && !IsBlock(table, x)
    ensures var disk' := disk[x := b];
      && BlocksOk(g, disk', table)
      && CountMap(g, disk', table) == CountMap(g, disk, table)
      && Erased(disk') == Erased(disk)[x := Erase(b)]
  {
    var disk' := disk[x := b];
    forall k: nat | k < |table| && table[k] != 0 ensures table[k] != x { assert IsBlock(table, table[k]); }
    forall c: nat | c < |disk| ensures CountMap(g, disk', table)[c] == CountMap(g, disk, table)[c] {}
  }

  // Installing a zeroed block for a range that had none changes no count.
  lemma InstallBlock(g: Geo, disk: Disk, table: seq<nat>, k: nat, b: nat)
    requires BlocksOk(g, disk, table) && k < |table| && table[k] == 0 && 0 < b < |disk| && !IsBlock(table, b)
    ensures var disk' := disk[b := Counts(seq(g.reach, _ => 0))];
      && var table' := table[k := b];
      && BlocksOk(g, disk', table')
      && CountMap(g, disk', table') == CountMap(g, disk, table)
      && Erased(disk') == Erased(disk)[b := Counts([])]
  {
    var zeros: seq<nat> := seq(g.reach, _ => 0);
    var disk' := disk[b := Counts(zeros)];
    var table' := table[k := b];
    forall l: nat | l < |table| && table[l] != 0 ensures table[l] != b { assert IsBlock(table, table[l]); }
    forall c: nat | c < |disk| ensures CountMap(g, disk', table')[c] == CountMap(g, disk, table)[c] {}
  }

  lemma BlockRefsIs(table: seq<nat>, b: nat)
    ensures BlockRefs(table, |table|, b) > 0 <==> IsBlock(table, b)
  {
    if IsBlock(table, b) {
      var k: nat :| k < |table| && table[k] == b;
      BlockRefsAt(table, |table|, k);
    } else if BlockRefs(table, |table|, b) > 0 {
      var k := BlockRefsFind(table, |table|, b);
    }
  }

  // Guest reads never look into a refcount block.
  lemma ErasedSector(disk: Disk, c: nat, k: nat)
    ensures SectorAt(Erased(disk), c, k) == SectorAt(disk, c, k)
  {
  }

  lemma ErasedStream(g: Geo, disk: Disk, e: Entry)
    requires e.Packed?
    ensures Stream(g, Erased(disk), e) == Stream(g, disk, e)
  {
    forall q: nat | q < e.nb ensures Stream(g, Erased(disk), e)[q] == Stream(g, disk, e)[q] {
      ErasedSector(disk, Row(g.spc, e.sec + q), Col(g.spc, e.sec + q));
      assert HostSector(g, Erased(disk), e.sec + q) == HostSector(g, disk, e.sec + q);
    }
  }
}
