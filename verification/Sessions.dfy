// Whole sessions with the driver: with all its caches it answers like a flat disk that can save
// and restore copies of itself.

module Sessions {
  import opened Basics
  import opened Layout
  import opened Refcounts
  import opened Invariant
  import opened Runs
  import opened Driver
  import opened Fresh

  // A request: a read, or a change; a ChunkOp here stands for a whole qcow_write of any length.
  datatype Request = Fetch(sn: nat, n: nat) | Change(op: Op)

  function FlatAfter(fl: Flat, reqs: seq<Request>): (r: Flat)
    requires |fl.infos| == |fl.saved|
    ensures |r.infos| == |r.saved|
    decreases |reqs|
  {
    if |reqs| == 0 then fl
    else match reqs[0]
      case Fetch(_, _) => FlatAfter(fl, reqs[1..])
      case Change(op) => FlatAfter(FlatStep(fl, op), reqs[1..])
  }

  // What a flat disk answers to the reads of a session.
  function FlatAnswers(fl: Flat, reqs: seq<Request>): seq<seq<Sector>>
    requires |fl.infos| == |fl.saved|
    decreases |reqs|
  {
    if |reqs| == 0 then []
    else match reqs[0]
      case Fetch(sn, n) => [seq<Sector>(n, t requires 0 <= t < n => fl.active(sn + t))] + FlatAnswers(fl, reqs[1..])
      case Change(op) => FlatAnswers(FlatStep(fl, op), reqs[1..])
  }

  // The image after a change; a write goes through chunk by chunk.
  function ImageStep(env: Env, st: Img, op: Op): Option<Img>
  {
    if op.ChunkOp? then Run(env, st, Chunks(st.g, op.sn, op.buf)) else Step(env, st, op)
  }

  // The image after a session, None once a request falls outside the model.
  function ImageAfter(env: Env, st: Img, reqs: seq<Request>): Option<Img>
    decreases |reqs|
  {
    if |reqs| == 0 then Some(st)
    else match reqs[0]
      case Fetch(_, _) => ImageAfter(env, st, reqs[1..])
      case Change(op) =>
        var st1 :- ImageStep(env, st, op);
        ImageAfter(env, st1, reqs[1..])
  }

  lemma FlatWrite(fl: Flat, sn: nat, buf: seq<Sector>, t: nat)
    requires |fl.infos| == |fl.saved|
    ensures var r := FlatStep(fl, ChunkOp(sn, buf));
      r.active(t) == (if sn <= t < sn + |buf| then buf[t - sn]
        else fl.active(t)) && r.infos == fl.infos && r.saved == fl.saved
  {
  }

  // Writing chunk by chunk shows what writing at once would show.
  lemma WholeWrite(env: Env, g: Geo, fl: Flat, sn: nat, buf: seq<Sector>, st: Img)
    requires |fl.infos| == |fl.saved| && Shows(env, st, FlatRun(fl, Chunks(g, sn, buf)))
    ensures Shows(env, st, FlatStep(fl, ChunkOp(sn, buf)))
  {
    hide SectorView, SnapSector, FlatRun, Chunks, FlatStep;
    var a, b := FlatRun(fl, Chunks(g, sn, buf)), FlatStep(fl, ChunkOp(sn, buf));
    forall t: nat ensures SectorView(env, st, t) == b.active(t) {
      ChunksWrite(g, fl, sn, buf, t);
      FlatWrite(fl, sn, buf, t);
      assert SectorView(env, st, t) == a.active(t);
    }
    ChunksWrite(g, fl, sn, buf, 0);
    FlatWrite(fl, sn, buf, 0);
  }

  // One change, through the caches.
  method Perform(d: Qcow2, op: Op, ghost fl: Flat) returns (ok: bool)
    requires d.Valid() && d.env.Lawful() && Shows(d.env, d.Abs(), fl)
    modifies d
    ensures ok <==> ImageStep(d.env, old(d.Abs()), op).Some?
    ensures ok ==> ImageStep(d.env, old(d.Abs()), op) == Some(d.Abs())
    ensures ok ==> d.Valid() && Shows(d.env, d.Abs(), FlatStep(fl, op))
  {
    hide Shows, Step, Inv, FlatStep;
    ghost var st := d.Abs();
    assert |fl.infos| == |fl.saved| by { ShowsShape(d.env, st, fl); }
    match op
    case ChunkOp(sn, buf) =>
      ok := d.Write(sn, buf);
      if ok {
        RunRefines(d.env, st, fl, Chunks(d.g, sn, buf), d.Abs());
        WholeWrite(d.env, d.g, fl, sn, buf, d.Abs());
      }
    case CreateOp(info) =>
      var r := d.SnapshotCreate(info);
      ok := !r.Stuck?;
      if ok { StepShows(d.env, st, fl, op, d.Abs()); }
    case GotoOp(key) =>
      var r := d.SnapshotGoto(key);
      ok := !r.Stuck?;
      if ok { StepShows(d.env, st, fl, op, d.Abs()); }
    case DeleteOp(key) =>
      var r := d.SnapshotDelete(key);
      ok := !r.Stuck?;
      if ok { StepShows(d.env, st, fl, op, d.Abs()); }
  }

  lemma ShowsShape(env: Env, st: Img, fl: Flat)
    requires Shows(env, st, fl)
    ensures |fl.infos| == |fl.saved|
  {
  }

  lemma StepShows(env: Env, st: Img, fl: Flat, op: Op, st': Img)
    requires Inv(st) && env.Lawful() && Shows(env, st, fl) && Step(env, st, op) == Some(st')
    ensures |fl.infos| == |fl.saved| && Shows(env, st', FlatStep(fl, op))
  {
    hide Step, Inv, Shows, FlatStep;
    ShowsShape(env, st, fl);
    RunOne(env, st, op, fl);
    RunRefines(env, st, fl, [op], st');
  }

  lemma RunOne(env: Env, st: Img, op: Op, fl: Flat)
    requires |fl.infos| == |fl.saved|
    ensures Run(env, st, [op]) == Step(env, st, op)
    ensures FlatRun(fl, [op]) == FlatStep(fl, op)
  {
    hide Step, FlatStep;
    assert [op][1..] == [];
  }

  lemma FetchShows(env: Env, st: Img, fl: Flat, sn: nat, n: nat, buf: seq<Sector>)
    requires Shows(env, st, fl) && |buf| == n && forall t: nat :: t < n ==> buf[t] == SectorView(env, st, sn + t)
    ensures buf == seq<Sector>(n, t requires 0 <= t < n => fl.active(sn + t))
  {
    hide SectorView, SnapSector;
    var flat := seq<Sector>(n, t requires 0 <= t < n => fl.active(sn + t));
    forall t: nat | t < n ensures buf[t] == flat[t] { assert SectorView(env, st, sn + t) == fl.active(sn + t); }
  }

  lemma FlatUnfold(fl: Flat, reqs: seq<Request>)
    requires |reqs| > 0 && |fl.infos| == |fl.saved|
    ensures reqs[0].Fetch? ==> FlatAfter(fl, reqs) == FlatAfter(fl, reqs[1..])
    ensures reqs[0].Fetch? ==>
      FlatAnswers(fl, reqs) == [seq<Sector>(reqs[0].n, t requires 0 <= t < reqs[0].n => fl.active(reqs[0].sn + t))] +
        FlatAnswers(fl, reqs[1..])
    ensures reqs[0].Change? ==> FlatAfter(fl, reqs) == FlatAfter(FlatStep(fl, reqs[0].op), reqs[1..])
    ensures reqs[0].Change? ==> FlatAnswers(fl, reqs) == FlatAnswers(FlatStep(fl, reqs[0].op), reqs[1..])
  {
    hide FlatStep;
  }

  lemma ImageUnfold(env: Env, st: Img, reqs: seq<Request>)
    requires |reqs| > 0
    ensures reqs[0].Fetch? ==> ImageAfter(env, st, reqs) == ImageAfter(env, st, reqs[1..])
    ensures reqs[0].Change? && ImageStep(env, st, reqs[0].op).None? ==> ImageAfter(env, st, reqs).None?
    ensures reqs[0].Change? && ImageStep(env, st, reqs[0].op).Some? ==>
      ImageAfter(env, st, reqs) == ImageAfter(env, ImageStep(env, st, reqs[0].op).value, reqs[1..])
  {
    hide ImageStep;
  }

  lemma ImageDone(env: Env, st: Img, reqs: seq<Request>)
    requires |reqs| == 0
    ensures ImageAfter(env, st, reqs) == Some(st)
  {
  }

  // Every session: each answer given is the flat disk's, up to the end or to the first request outside the model.
  method Serve(d: Qcow2, reqs: seq<Request>, ghost fl0: Flat) returns (answers: seq<seq<Sector>>, done: bool)
    requires d.Valid() && d.env.Lawful() && |fl0.infos| == |fl0.saved| && Shows(d.env, d.Abs(), fl0)
    modifies d
    ensures answers <= FlatAnswers(fl0, reqs)
    ensures done <==> ImageAfter(d.env, old(d.Abs()), reqs).Some?
    ensures done ==> ImageAfter(d.env, old(d.Abs()), reqs) == Some(d.Abs())
    ensures done ==> answers == FlatAnswers(fl0, reqs)
    ensures done ==> d.Valid() && Shows(d.env, d.Abs(), FlatAfter(fl0, reqs))
  {
    hide Shows, FlatAnswers, FlatAfter, FlatStep, Inv, ImageStep, ImageAfter;
    answers := [];
    ghost var fl := fl0;
    ghost var target := ImageAfter(d.env, d.Abs(), reqs);
    var k := 0;
    assert reqs[0..] == reqs;
    while k < |reqs|
      invariant 0 <= k <= |reqs| && d.Valid() && |fl.infos| == |fl.saved| && Shows(d.env, d.Abs(), fl)
      invariant FlatAfter(fl0, reqs) == FlatAfter(fl, reqs[k..])
      invariant FlatAnswers(fl0, reqs) == answers + FlatAnswers(fl, reqs[k..])
      invariant target == ImageAfter(d.env, d.Abs(), reqs[k..])
    {
      FlatUnfold(fl, reqs[k..]);
      ImageUnfold(d.env, d.Abs(), reqs[k..]);
      assert reqs[k..][1..] == reqs[k + 1..];
      match reqs[k] {
        case Fetch(sn, n) =>
          var buf := d.Read(sn, n);
          FetchShows(d.env, d.Abs(), fl, sn, n, buf);
          answers := answers + [buf];
        case Change(op) =>
          var ok := Perform(d, op, fl);
          if !ok { return answers, false; }
          fl := FlatStep(fl, op);
      }
      k := k + 1;
    }
    AnswersDone(fl0, fl, reqs, answers);
    ImageDone(d.env, d.Abs(), reqs[k..]);
    done := true;
  }

  lemma AnswersDone(fl0: Flat, fl: Flat, reqs: seq<Request>, answers: seq<seq<Sector>>)
    requires |fl0.infos| == |fl0.saved| && |fl.infos| == |fl.saved|
    requires FlatAfter(fl0, reqs) == FlatAfter(fl, reqs[|reqs|..])
    requires FlatAnswers(fl0, reqs) == answers + FlatAnswers(fl, reqs[|reqs|..])
    ensures FlatAfter(fl0, reqs) == fl && FlatAnswers(fl0, reqs) == answers
  {
  }

  // From a new image: every read of every session returns the last data written (or restored) there, or the backing
  // file's.
  method ServeNew(env: Env, g: Geo, blocks: nat, l1Size: nat, reqs: seq<Request>) returns (answers: seq<seq<Sector>>,
                  done: bool)
    requires env.Lawful() && blocks > 0 && L1Clusters(g, l1Size) + 3 <= g.reach
    ensures answers <= FlatAnswers(Flat((t: nat) => env.Backing(t), [], []), reqs)
    ensures done <==> ImageAfter(env, Created(g, blocks, l1Size), reqs).Some?
    ensures done ==> answers == FlatAnswers(Flat((t: nat) => env.Backing(t), [], []), reqs)
  {
    var d := new Qcow2(env, g, blocks, l1Size);
    CreatedShows(env, g, blocks, l1Size);
    answers, done := Serve(d, reqs, Flat((t: nat) => env.Backing(t), [], []));
  }
}

// Sessions with an encrypted image.
module EncryptedSessions {
  import opened Basics
  import opened Layout
  import opened Cipher
  import opened SectorCrypt
  import opened Fresh
  import opened Runs
  import opened Sessions

  // With AES keys of any size the answers are still the flat disk's.
  method ServeEncrypted(key: seq<bv8>, backing: seq<Sector>, inflate: (seq<Sector>, nat, nat) -> Sector,
                        g: Geo, blocks: nat, l1Size: nat, reqs: seq<Request>) returns (answers: seq<seq<Sector>>,
                            done: bool)
    requires KeySize(|key|) && blocks > 0 && L1Clusters(g, l1Size) + 3 <= g.reach
    ensures var env := AesEnv(key, backing, inflate);
      answers <= FlatAnswers(Flat((t: nat) => env.Backing(t), [], []), reqs)
    ensures var env := AesEnv(key, backing, inflate);
      && (done <==> ImageAfter(env, Created(g, blocks, l1Size), reqs).Some?)
      && (done ==> answers == FlatAnswers(Flat((t: nat) => env.Backing(t), [], []), reqs))
  {
    hide AesEnv, FlatAnswers;
    AesLawful(key, backing, inflate);
    answers, done := ServeNew(AesEnv(key, backing, inflate), g, blocks, l1Size, reqs);
  }
}
