// Whole runs: an image behaves like a flat disk that can save and restore copies of itself.

module Runs {
  import opened Basics
  import opened Arith
  import opened Layout
  import opened Refcounts
  import opened SnapIds
  import opened Invariant
  import opened GuestWrite
  import opened DataWrite
  import opened SnapshotCreate
  import opened SnapshotGoto
  import opened SnapshotDelete
  import opened TableMoves
  import opened L1Grow

  // ----- guest sectors -----

  function SectorView(env: Env, st: Img, t: nat): Sector
  {
    var vc := Row(st.g.spc, t);
    View(env, st, Row(st.g.width, vc), Col(st.g.width, vc), Col(st.g.spc, t))
  }

  function SnapSector(env: Env, st: Img, q: nat, t: nat): Sector
    requires q < |st.snaps|
  {
    var vc := Row(st.g.spc, t);
    SnapView(env, st, q, Row(st.g.width, vc), Col(st.g.width, vc), Col(st.g.spc, t))
  }

  // The cipher and the backing file see the guest's own sector number.
  lemma SectorNumOf(g: Geo, t: nat)
    ensures SectorNum(g, Row(g.width, Row(g.spc, t)), Col(g.width, Row(g.spc, t)), Col(g.spc, t)) == t
  {
    RowColValue(g.spc, t);
    RowColValue(g.width, Row(g.spc, t));
  }

  // The part of a write that falls into one cluster, growing the L1 table if needed.
  function WriteCluster(env: Env, st: Img, i: nat, j: nat, lo: nat, buf: seq<Sector>): Option<Img>
  {
    var st1 :- GrowL1(st, i + 1);
    Write(env, st1, i, j, lo, buf)
  }

  // One turn of the loop in qcow_write: buf lies within one cluster.
  function WriteChunk(env: Env, st: Img, sn: nat, buf: seq<Sector>): Option<Img>
  {
    var vc := Row(st.g.spc, sn);
    WriteCluster(env, st, Row(st.g.width, vc), Col(st.g.width, vc), Col(st.g.spc, sn), buf)
  }

  ghost predicate SectorsWritten(env: Env, st: Img, st': Img, sn: nat, buf: seq<Sector>)
  {
    forall t: nat :: SectorView(env, st', t) == if sn <= t < sn + |buf| then buf[t - sn] else SectorView(env, st, t)
  }

  lemma WriteClusterCorrect(env: Env, st: Img, i: nat, j: nat, lo: nat, buf: seq<Sector>, st': Img)
    requires Inv(st) && env.Lawful() && WriteCluster(env, st, i, j, lo, buf) == Some(st')
    ensures Inv(st') && SavedKept(env, st, st') && st'.g == st.g
    ensures Written(env, st, st', i, j, lo, buf)
  {
    var st1 := GrowL1(st, i + 1).value;
    GrowCorrect(env, st, i + 1, st1);
    WriteCorrect(env, st1, i, j, lo, buf, st');
    SavedKeptTrans(env, st, st1, st');
    WrittenAfter(env, st, st1, st', i, j, lo, buf);
  }

  // Within one cluster, the sectors written are the guest sectors sn .. sn + |buf|.
  lemma WrittenSectors(env: Env, st: Img, st': Img, sn: nat, buf: seq<Sector>, t: nat)
    requires st'.g == st.g && Col(st.g.spc, sn) + |buf| <= st.g.spc
    requires Written(env, st, st', Row(st.g.width, Row(st.g.spc, sn)), Col(st.g.width, Row(st.g.spc, sn)),
                     Col(st.g.spc, sn), buf)
    ensures SectorView(env, st', t) == if sn <= t < sn + |buf| then buf[t - sn] else SectorView(env, st, t)
  {
    var g := st.g;
    var vs, vt := Row(g.spc, sn), Row(g.spc, t);
    if sn <= t < sn + |buf| {
      RowColShift(g.spc, sn, t - sn);
    } else if Row(g.width, vt) == Row(g.width, vs) && Col(g.width, vt) == Col(g.width, vs) {
      SameSlot(g.width, vt, vs);
      SameRow(g.spc, t, sn);
    }
  }

  lemma ChunkCorrect(env: Env, st: Img, sn: nat, buf: seq<Sector>, st1: Img)
    requires Inv(st) && env.Lawful() && Col(st.g.spc, sn) + |buf| <= st.g.spc
    requires WriteChunk(env, st, sn, buf) == Some(st1)
    ensures Inv(st1) && SavedKept(env, st, st1) && st1.g == st.g && SectorsWritten(env, st, st1, sn, buf)
  {
    var vc := Row(st.g.spc, sn);
    WriteClusterCorrect(env, st, Row(st.g.width, vc), Col(st.g.width, vc), Col(st.g.spc, sn), buf, st1);
    forall t: nat
      ensures SectorView(env, st1, t) == if sn <= t < sn + |buf| then buf[t - sn] else SectorView(env, st, t)
    {
      WrittenSectors(env, st, st1, sn, buf, t);
    }
  }

  // ----- operations -----

  datatype Op =
    | ChunkOp(sn: nat, buf: seq<Sector>)   // one turn of the qcow_write loop: sectors within one cluster
    | CreateOp(info: Info)
    | GotoOp(key: string)
    | DeleteOp(key: string)

  // find_snapshot_by_id over a list of infos
  function FindId(infos: seq<Info>, key: string, n: nat): (r: Option<nat>)
    requires n <= |infos|
    ensures r.Some? ==> r.value < |infos| && infos[r.value].id == key && forall k :: n <= k < r.value ==>
      infos[k].id != key
    ensures r.None? ==> forall k :: n <= k < |infos| ==> infos[k].id != key
    decreases |infos| - n
  {
    if n == |infos| then None else if infos[n].id == key then Some(n) else FindId(infos, key, n + 1)
  }

  function FindName(infos: seq<Info>, key: string, n: nat): (r: Option<nat>)
    requires n <= |infos|
    ensures r.Some? ==> r.value < |infos| && infos[r.value].name == key && forall k :: n <= k < r.value ==>
      infos[k].name != key
    ensures r.None? ==> forall k :: n <= k < |infos| ==> infos[k].name != key
    decreases |infos| - n
  {
    if n == |infos| then None else if infos[n].name == key then Some(n) else FindName(infos, key, n + 1)
  }

  // find_snapshot_by_id_or_name
  function Find(infos: seq<Info>, key: string): (r: Option<nat>)
    ensures r.Some? ==> r.value < |infos|
  {
    var byId := FindId(infos, key, 0);
    if byId.Some? then byId else FindName(infos, key, 0)
  }

  function Infos(snaps: seq<Snapshot>): (r: seq<Info>)
    ensures |r| == |snaps|
  {
    seq(|snaps|, q requires 0 <= q < |snaps| => snaps[q].info)
  }

  function Create(st: Img, info: Info): Option<Img>
  {
    var st1 :- AddSnap(st, info);
    WriteSnaps(st1)
  }

  function Delete(st: Img, q: nat): Option<Img>
  {
    var st1 :- DropSnap(st, q);
    WriteSnaps(st1)
  }

  // One request to the image.  A snapshot request that names no snapshot, or creates a taken id, fails and changes
  // nothing.
  function Step(env: Env, st: Img, op: Op): Option<Img>
  {
    match op
    case ChunkOp(sn, buf) => if Col(st.g.spc, sn) + |buf| > st.g.spc then None else WriteChunk(env, st, sn, buf)
    case CreateOp(info) =>
      var info1 := Named(Infos(st.snaps), info);
      if FindId(Infos(st.snaps), info1.id, 0).Some? then Some(st) else Create(st, info1)
    case GotoOp(key) =>
      var r := Find(Infos(st.snaps), key);
      if r.None? then Some(st) else GotoSnap(st, r.value)
    case DeleteOp(key) =>
      var r := Find(Infos(st.snaps), key);
      if r.None? then Some(st) else Delete(st, r.value)
  }

  function Run(env: Env, st: Img, ops: seq<Op>): Option<Img>
    decreases |ops|
  {
    if |ops| == 0 then Some(st)
    else
      var st1 :- Step(env, st, ops[0]);
      Run(env, st1, ops[1..])
  }

  // ----- the flat disk -----

  datatype Flat = Flat(active: nat -> Sector, infos: seq<Info>, saved: seq<nat -> Sector>)

  function FlatStep(fl: Flat, op: Op): (r: Flat)
    requires |fl.infos| == |fl.saved|
    ensures |r.infos| == |r.saved|
  {
    match op
    case ChunkOp(sn, buf) => fl.(active := (t: nat) => if sn <= t < sn + |buf| then buf[t - sn] else fl.active(t))
    case CreateOp(info) =>
      var info1 := Named(fl.infos, info);
      if FindId(fl.infos, info1.id, 0).Some? then fl
      else fl.(infos := fl.infos + [info1], saved := fl.saved + [fl.active])
    case GotoOp(key) =>
      var r := Find(fl.infos, key);
      if r.None? then fl else fl.(active := fl.saved[r.value])
    case DeleteOp(key) =>
      var r := Find(fl.infos, key);
      if r.None? then fl
      else fl.(infos := fl.infos[..r.value] + fl.infos[r.value + 1..],
               saved := fl.saved[..r.value] + fl.saved[r.value + 1..])
  }

  function FlatRun(fl: Flat, ops: seq<Op>): (r: Flat)
    requires |fl.infos| == |fl.saved|
    ensures |r.infos| == |r.saved|
    decreases |ops|
  {
    if |ops| == 0 then fl else FlatRun(FlatStep(fl, ops[0]), ops[1..])
  }

  // The image shows the flat disk, and each snapshot shows the copy saved for it.
  ghost predicate Shows(env: Env, st: Img, fl: Flat)
  {
    && |fl.infos| == |fl.saved| && fl.infos == Infos(st.snaps)
    && (forall t: nat :: SectorView(env, st, t) == fl.active(t))
    && (forall q: nat, t: nat :: q < |st.snaps| ==> SnapSector(env, st, q, t) == fl.saved[q](t))
  }

  lemma SavedKeptShows(env: Env, st: Img, st': Img, q: nat, t: nat)
    requires SavedKept(env, st, st') && q < |st.snaps| && st'.g == st.g
    ensures SnapSector(env, st', q, t) == SnapSector(env, st, q, t)
  {
    assert SnapKept(env, st, q, st', q);
  }

  lemma SameViewShows(env: Env, st: Img, st': Img, t: nat)
    requires SameView(env, st, st') && st'.g == st.g
    ensures SectorView(env, st', t) == SectorView(env, st, t)
  {
  }

  // Every snapshot still shows its saved copy.
  ghost predicate SavedShown(env: Env, st: Img, saved: seq<nat -> Sector>)
  {
    |saved| == |st.snaps| && forall q: nat, t: nat :: q < |st.snaps| ==> SnapSector(env, st, q, t) == saved[q](t)
  }

  lemma SavedStillShown(env: Env, st: Img, st': Img, saved: seq<nat -> Sector>)
    requires SavedKept(env, st, st') && st'.g == st.g && SavedShown(env, st, saved)
    ensures SavedShown(env, st', saved)
  {
    forall q: nat, t: nat | q < |st'.snaps| ensures SnapSector(env, st', q, t) == saved[q](t) {
      SavedKeptShows(env, st, st', q, t);
    }
  }

  lemma ChunkShows(env: Env, st: Img, fl: Flat, sn: nat, buf: seq<Sector>, st': Img)
    requires Inv(st) && env.Lawful() && Shows(env, st, fl) && Col(st.g.spc, sn) + |buf| <= st.g.spc
    requires WriteChunk(env, st, sn, buf) == Some(st')
    ensures Inv(st') && Shows(env, st', FlatStep(fl, ChunkOp(sn, buf)))
  {
    ChunkCorrect(env, st, sn, buf, st');
    WrittenShows(env, st, fl, sn, buf, st');
  }

  lemma WrittenShows(env: Env, st: Img, fl: Flat, sn: nat, buf: seq<Sector>, st': Img)
    requires Shows(env, st, fl) && SavedKept(env, st, st') && st'.g == st.g && SectorsWritten(env, st, st', sn, buf)
    ensures Shows(env, st', FlatStep(fl, ChunkOp(sn, buf)))
  {
    assert SavedShown(env, st, fl.saved);
    SavedStillShown(env, st, st', fl.saved);
    var fl' := FlatStep(fl, ChunkOp(sn, buf));
    forall t: nat ensures SectorView(env, st', t) == fl'.active(t) {
      assert SectorView(env, st, t) == fl.active(t);
    }
  }

  lemma GotoShows(env: Env, st: Img, fl: Flat, key: string, st': Img)
    requires Inv(st) && Shows(env, st, fl) && Step(env, st, GotoOp(key)) == Some(st')
    ensures Inv(st') && Shows(env, st', FlatStep(fl, GotoOp(key)))
  {
    var r := Find(Infos(st.snaps), key);
    if r.Some? {
      GotoCorrect(env, st, r.value, st');
      forall q: nat, t: nat | q < |st'.snaps| ensures SnapSector(env, st', q, t) == fl.saved[q](t) {
        SavedKeptShows(env, st, st', q, t);
      }
      forall t: nat ensures SectorView(env, st', t) == fl.saved[r.value](t) {
        assert SectorView(env, st', t) == SnapSector(env, st, r.value, t);
      }
    }
  }

  lemma AddShows(env: Env, st: Img, fl: Flat, info: Info, st1: Img)
    requires Inv(st) && Shows(env, st, fl) && AddSnap(st, info) == Some(st1)
    ensures Inv(st1) && Shows(env, st1, fl.(infos := fl.infos + [info], saved := fl.saved + [fl.active]))
  {
    AddSnapCorrect(env, st, info, st1);
    var n := |st.snaps|;
    var fl' := fl.(infos := fl.infos + [info], saved := fl.saved + [fl.active]);
    assert Infos(st1.snaps) == fl'.infos by {
      forall q: nat | q < n ensures st1.snaps[q] == st.snaps[q] { assert st1.snaps[..n][q] == st.snaps[q]; }
    }
    forall t: nat ensures SectorView(env, st1, t) == fl.active(t) { SameViewShows(env, st, st1, t); }
    forall q: nat, t: nat | q < |st1.snaps| ensures SnapSector(env, st1, q, t) == fl'.saved[q](t) {
      if q < n { assert SnapKept(env, st, q, st1, q); } else { assert SnapIs(env, st1, n, st); }
    }
  }

  lemma CreateShows(env: Env, st: Img, fl: Flat, info: Info, st': Img)
    requires Inv(st) && Shows(env, st, fl) && Step(env, st, CreateOp(info)) == Some(st')
    ensures Inv(st') && Shows(env, st', FlatStep(fl, CreateOp(info)))
  {
    var info1 := Named(fl.infos, info);
    if FindId(fl.infos, info1.id, 0).Some? { return; }
    var st1 := AddSnap(st, info1).value;
    AddShows(env, st, fl, info1, st1);
    TableShows(env, st1, FlatStep(fl, CreateOp(info)), st');
  }

  lemma DropSaved(env: Env, st: Img, saved: seq<nat -> Sector>, q: nat, st1: Img)
    requires SavedShown(env, st, saved) && q < |st.snaps| && |st1.snaps| == |st.snaps| - 1 && st1.g == st.g
    requires forall k: nat :: k < |st1.snaps| ==> SnapKept(env, st, Shift(q, k), st1, k)
    ensures SavedShown(env, st1, saved[..q] + saved[q + 1..])
  {
    var saved' := saved[..q] + saved[q + 1..];
    forall k: nat, t: nat | k < |st1.snaps| ensures SnapSector(env, st1, k, t) == saved'[k](t) {
      assert SnapKept(env, st, Shift(q, k), st1, k);
      assert saved'[k] == saved[Shift(q, k)];
      assert SnapSector(env, st1, k, t) == SnapSector(env, st, Shift(q, k), t);
    }
  }

  lemma WithoutInfos(snaps: seq<Snapshot>, q: nat)
    requires q < |snaps|
    ensures Infos(Without(snaps, q)) == Infos(snaps)[..q] + Infos(snaps)[q + 1..]
  {
  }

  lemma DropShows(env: Env, st: Img, fl: Flat, q: nat, st1: Img)
    requires Inv(st) && Shows(env, st, fl) && q < |st.snaps| && DropSnap(st, q) == Some(st1)
    ensures Inv(st1)
    ensures Shows(env, st1, fl.(infos := fl.infos[..q] + fl.infos[q + 1..], saved := fl.saved[..q] + fl.saved[q + 1..]))
  {
    DropCorrect(env, st, q, st1);
    DroppedShows(env, st, fl, q, st1);
  }

  lemma DroppedShows(env: Env, st: Img, fl: Flat, q: nat, st1: Img)
    requires Shows(env, st, fl) && q < |st.snaps| && st1.g == st.g && st1.snaps == Without(st.snaps, q)
    requires SameView(env, st, st1) && forall k: nat :: k < |st1.snaps| ==> SnapKept(env, st, Shift(q, k), st1, k)
    ensures Shows(env, st1, fl.(infos := fl.infos[..q] + fl.infos[q + 1..], saved := fl.saved[..q] + fl.saved[q + 1..]))
  {
    DropSaved(env, st, fl.saved, q, st1);
    WithoutInfos(st.snaps, q);
    forall t: nat ensures SectorView(env, st1, t) == fl.active(t) { SameViewShows(env, st, st1, t); }
  }

  lemma TableShows(env: Env, st: Img, fl: Flat, st': Img)
    requires Inv(st) && Shows(env, st, fl) && WriteSnaps(st) == Some(st')
    ensures Inv(st') && Shows(env, st', fl)
  {
    WriteSnapsCorrect(env, st, st');
    assert SavedShown(env, st, fl.saved);
    SavedStillShown(env, st, st', fl.saved);
    forall t: nat ensures SectorView(env, st', t) == fl.active(t) { SameViewShows(env, st, st', t); }
  }

  lemma DeleteShows(env: Env, st: Img, fl: Flat, key: string, st': Img)
    requires Inv(st) && Shows(env, st, fl) && Step(env, st, DeleteOp(key)) == Some(st')
    ensures Inv(st') && Shows(env, st', FlatStep(fl, DeleteOp(key)))
  {
    var r := Find(Infos(st.snaps), key);
    if r.Some? {
      var st1 := DropSnap(st, r.value).value;
      DropShows(env, st, fl, r.value, st1);
      TableShows(env, st1, FlatStep(fl, DeleteOp(key)), st');
    }
  }

  // Every run from a sound image keeps it sound (counts exact, flags right) and shows exactly what the
  // same run of the flat disk shows, in the active image and in every snapshot.
  lemma {:induction false} RunRefines(env: Env, st: Img, fl: Flat, ops: seq<Op>, st': Img)
    requires Inv(st) && env.Lawful() && Shows(env, st, fl) && Run(env, st, ops) == Some(st')
    ensures Inv(st') && Shows(env, st', FlatRun(fl, ops))
    decreases |ops|
  {
    if |ops| > 0 {
      var st1 := Step(env, st, ops[0]).value;
      match ops[0] {
        case ChunkOp(sn, buf) => ChunkShows(env, st, fl, sn, buf, st1);
        case CreateOp(info) => CreateShows(env, st, fl, info, st1);
        case GotoOp(key) => GotoShows(env, st, fl, key, st1);
        case DeleteOp(key) => DeleteShows(env, st, fl, key, st1);
      }
      RunRefines(env, st1, FlatStep(fl, ops[0]), ops[1..], st');
    }
  }

  // ----- whole writes -----

  function ChunkLen(g: Geo, sn: nat, len: nat): (n: nat)
    requires len > 0
    ensures 0 < n <= len && Col(g.spc, sn) + n <= g.spc
  {
    Min(g.spc - Col(g.spc, sn), len)
  }

  // The turns of the loop in qcow_write.
  function Chunks(g: Geo, sn: nat, buf: seq<Sector>): seq<Op>
    decreases |buf|
  {
    if |buf| == 0 then []
    else
      var n := ChunkLen(g, sn, |buf|);
      [ChunkOp(sn, buf[..n])] + Chunks(g, sn + n, buf[n..])
  }

  // A write of any length at any sector changes exactly those sectors of the flat disk.
  lemma {:induction false} ChunksWrite(g: Geo, fl: Flat, sn: nat, buf: seq<Sector>, t: nat)
    requires |fl.infos| == |fl.saved|
    ensures var fl' := FlatRun(fl, Chunks(g, sn, buf));
      && fl'.active(t) == (if sn <= t < sn + |buf| then buf[t - sn] else fl.active(t))
      && fl'.saved == fl.saved && fl'.infos == fl.infos
    decreases |buf|
  {
    if |buf| > 0 {
      var n := ChunkLen(g, sn, |buf|);
      var rest := Chunks(g, sn + n, buf[n..]);
      var ops := Chunks(g, sn, buf);
      assert ops[0] == ChunkOp(sn, buf[..n]) && ops[1..] == rest;
      ChunksWrite(g, FlatStep(fl, ops[0]), sn + n, buf[n..], t);
    }
  }
}
