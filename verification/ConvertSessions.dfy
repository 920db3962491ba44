// Filling a new image with compressed clusters, as qemu-img does, and then using it.

module ConvertSessions {
  import opened Basics
  import opened Layout
  import opened Refcounts
  import opened Invariant
  import opened Runs
  import opened Fresh
  import opened HostBytes
  import opened Conversion
  import opened PackCache
  import opened Driver
  import opened Sessions

  lemma ConvertUnfold(env: Env, deflate: Deflate, st: Img, jobs: seq<Job>)
    ensures |jobs| == 0 ==> Convert(env, deflate, st, jobs) == Some(st)
    ensures |jobs| > 0 && Compress(env, deflate, st, jobs[0].vc, jobs[0].data).None? ==>
      Convert(env, deflate, st, jobs).None?
    ensures |jobs| > 0 && Compress(env, deflate, st, jobs[0].vc, jobs[0].data).Some? ==>
      Convert(env, deflate, st, jobs) == Convert(env, deflate,
                                                 Compress(env, deflate, st, jobs[0].vc, jobs[0].data).value, jobs[1..])
  {
    hide Compress;
  }

  // Through the caches, a conversion goes through exactly when it does on the image without them, and ends in it.
  method ConvertAll(d: Qcow2, deflate: Deflate, jobs: seq<Job>, ghost reg: seq<Packet>) returns (done: bool)
    requires d.Valid() && d.env.Lawful() && Zlib(d.env, deflate) && Packs(deflate, d.Abs(), reg)
    requires CacheKnown(reg, d.cacheAt)
    requires forall q: nat :: q < |jobs| ==> |jobs[q].data| == d.g.spc
    modifies d
    ensures done <==> Convert(d.env, deflate, old(d.Abs()), jobs).Some?
    ensures done ==> Convert(d.env, deflate, old(d.Abs()), jobs) == Some(d.Abs()) && d.Valid()
  {
    hide Inv, Packs, Zlib, CacheKnown, Convert, Compress;
    ghost var target, now := Convert(d.env, deflate, d.Abs(), jobs), reg;
    var k := 0;
    assert jobs[0..] == jobs;
    while k < |jobs|
      invariant 0 <= k <= |jobs| && d.Valid() && Packs(deflate, d.Abs(), now) && CacheKnown(now, d.cacheAt)
      invariant target == Convert(d.env, deflate, d.Abs(), jobs[k..])
    {
      ConvertUnfold(d.env, deflate, d.Abs(), jobs[k..]);
      assert jobs[k..][1..] == jobs[k + 1..];
      done, now := d.WriteCompressed(deflate, jobs[k].vc, jobs[k].data, now);
      if !done { return; }
      k := k + 1;
    }
    ConvertUnfold(d.env, deflate, d.Abs(), jobs[k..]);
    done := true;
  }

  // Every read of every later session returns what the flat disk with the converted clusters returns.
  method ConvertAndServe(env: Env, deflate: Deflate, g: Geo, blocks: nat, l1Size: nat, jobs: seq<Job>,
                         reqs: seq<Request>)
    returns (answers: seq<seq<Sector>>, done: bool)
    requires env.Lawful() && Zlib(env, deflate) && Sized(g) && blocks > 0 && L1Clusters(g, l1Size) + 3 <= g.reach
    requires forall q: nat :: q < |jobs| ==> |jobs[q].data| == g.spc
    ensures answers <= FlatAnswers(FlatRun(Flat((t: nat) => env.Backing(t), [], []), Writes(g, jobs)), reqs)
    ensures var st := Convert(env, deflate, Created(g, blocks, l1Size), jobs);
      done <==> st.Some? && ImageAfter(env, st.value, reqs).Some?
    ensures done ==> answers == FlatAnswers(FlatRun(Flat((t: nat) => env.Backing(t), [], []), Writes(g, jobs)), reqs)
  {
    hide Inv, Packs, Zlib, Convert, FlatRun, FlatAnswers, Writes, Shows, ImageAfter, FlatAfter;
    var d := new Qcow2(env, g, blocks, l1Size);
    ghost var fl := Flat((t: nat) => env.Backing(t), [], []);
    CreatedPacks(deflate, g, blocks, l1Size);
    CreatedShows(env, g, blocks, l1Size);
    done := ConvertAll(d, deflate, jobs, []);
    answers := [];
    if done {
      ghost var reg := ConvertRefines(env, deflate, Created(g, blocks, l1Size), [], fl, jobs, d.Abs());
      answers, done := Serve(d, reqs, FlatRun(fl, Writes(g, jobs)));
    }
  }
}
