// The cluster cache across compressed writes.

module PackCache {
  import opened Basics
  import opened Layout
  import opened Refcounts
  import opened Compressed
  import opened ClusterCache
  import opened ByteAlloc
  import opened HostBytes
  import opened Conversion

  function EntryOf(deflate: Deflate, p: Packet): Entry
    requires |deflate(p.data)| > 0
  {
    PackedAt(p.at, |deflate(p.data)|)
  }

  function PlaceAt(p: Packet): Place { (p.at / SECTOR, p.at % SECTOR) }

  lemma FiledEntry(deflate: Deflate, st: Img, p: Packet)
    requires Filed(deflate, st, p)
    ensures |deflate(p.data)| > 0 && Reaches(st, EntryOf(deflate, p)) && PlaceOf(EntryOf(deflate, p)) == PlaceAt(p)
  {
    assert InTree(st.disk, st.l1, EntryOf(deflate, p));
  }

  // Every reachable compressed entry is that of a packet.
  lemma ReachedPacket(deflate: Deflate, st: Img, reg: seq<Packet>, e: Entry) returns (q: nat)
    requires Packs(deflate, st, reg) && Reaches(st, e)
    ensures q < |reg| && |deflate(reg[q].data)| > 0 && e == EntryOf(deflate, reg[q]) && PlaceOf(e) == PlaceAt(reg[q])
  {
    hide Handed, BytesAre;
    assert InTree(st.disk, st.l1, e);
    var k: nat, l: nat :| k < |st.l1| && L2Word(st.disk, st.l1[k], l) == e;
    assert Lists(reg, k, l);
    q :| q < |reg| && reg[q].i == k && reg[q].j == l;
    assert Filed(deflate, st, reg[q]);
  }

  // Streams start at different bytes.
  lemma PlacesApart(deflate: Deflate, st: Img, reg: seq<Packet>, a: nat, b: nat)
    requires Packs(deflate, st, reg) && a < |reg| && b < |reg| && PlaceAt(reg[a]) == PlaceAt(reg[b])
    ensures a == b
  {
    hide Filed, Listed, Counted, Spare;
    var rs := Ranges(deflate, reg);
    assert rs[a].off == rs[b].off && rs[a].len > 0 && rs[b].len > 0;
  }

  lemma PacksOnce(deflate: Deflate, st: Img, reg: seq<Packet>)
    requires Packs(deflate, st, reg)
    ensures PackedOnce(st)
  {
    hide Packs, EntryOf;
    forall a: Entry, b: Entry | Reaches(st, a) && Reaches(st, b) && a.sec == b.sec && a.off == b.off ensures a == b {
      var p := ReachedPacket(deflate, st, reg, a);
      var q := ReachedPacket(deflate, st, reg, b);
      PlacesApart(deflate, st, reg, p, q);
    }
  }

  lemma PacketInflated(env: Env, deflate: Deflate, st: Img, p: Packet)
    requires Zlib(env, deflate) && Filed(deflate, st, p)
    ensures |deflate(p.data)| > 0 && Inflated(env, st.g, st.disk, EntryOf(deflate, p)) == p.data
  {
    hide Stream, BytesAre;
    StreamBytes(st.g, st.disk, p.at, deflate(p.data));
    var r := Inflated(env, st.g, st.disk, EntryOf(deflate, p));
    forall k: nat | k < st.g.spc ensures r[k] == p.data[k] {}
  }

  // The cache is empty or holds the cluster of a packet.
  ghost predicate CacheKnown(reg: seq<Packet>, at: Option<Place>)
  {
    at.Some? ==> exists q: nat :: q < |reg| && PlaceAt(reg[q]) == at.value
  }

  // Whether a compressed write leaves the cluster cache coherent: unless the cache stands for the place
  // just written, with other data.
  lemma StaleExact(env: Env, deflate: Deflate, st: Img, reg: seq<Packet>, st': Img, p: Packet, at: Option<Place>,
                   cache: seq<Sector>)
    requires Zlib(env, deflate) && Packs(deflate, st, reg) && Packs(deflate, st', reg + [p]) && st'.g == st.g
    requires InflatedOk(env, st, at, cache)
    ensures InflatedOk(env, st', at, cache) <==> (at == Some(PlaceAt(p)) ==> cache == p.data)
  {
    hide Packs, EntryOf, Inflated, Zlib, Filed;
    var reg' := reg + [p];
    PacksFiled(deflate, st', reg', |reg|);
    FiledEntry(deflate, st', p);
    PacketInflated(env, deflate, st', p);
    if at.Some? && (at == Some(PlaceAt(p)) ==> cache == p.data) {
      forall e: Entry | Reaches(st', e) && PlaceOf(e) == at.value ensures cache == Inflated(env, st'.g, st'.disk, e) {
        var q := ReachedPacket(deflate, st', reg', e);
        if q < |reg| { OldInflated(env, deflate, st, reg, st', p, q, at, cache); } else { assert reg'[q] == p; }
      }
    }
  }

  lemma PacksFiled(deflate: Deflate, st: Img, reg: seq<Packet>, q: nat)
    requires Packs(deflate, st, reg) && q < |reg|
    ensures Filed(deflate, st, reg[q])
  {
  }

  lemma OldInflated(env: Env, deflate: Deflate, st: Img, reg: seq<Packet>, st': Img, p: Packet, q: nat,
                    at: Option<Place>, cache: seq<Sector>)
    requires Zlib(env, deflate) && Packs(deflate, st, reg) && Packs(deflate, st', reg + [p]) && st'.g == st.g
    requires InflatedOk(env, st, at, cache) && q < |reg| && at == Some(PlaceAt(reg[q]))
    ensures |deflate(reg[q].data)| > 0 && cache == Inflated(env, st'.g, st'.disk, EntryOf(deflate, reg[q]))
  {
    hide Packs, Reaches, EntryOf, Inflated, Zlib, Filed;
    assert (reg + [p])[q] == reg[q];
    PacksFiled(deflate, st, reg, q);
    PacksFiled(deflate, st', reg + [p], q);
    FiledEntry(deflate, st, reg[q]);
    PacketInflated(env, deflate, st, reg[q]);
    PacketInflated(env, deflate, st', reg[q]);
  }

  // A cache that stands for a packet stays coherent: the new stream starts elsewhere.
  lemma KnownStays(env: Env, deflate: Deflate, st: Img, reg: seq<Packet>, st': Img, p: Packet, at: Option<Place>,
                   cache: seq<Sector>)
    requires Zlib(env, deflate) && Packs(deflate, st, reg) && Packs(deflate, st', reg + [p]) && st'.g == st.g
    requires InflatedOk(env, st, at, cache) && CacheKnown(reg, at)
    ensures InflatedOk(env, st', at, cache) && CacheKnown(reg + [p], at)
  {
    hide Packs, InflatedOk, Zlib;
    StaleExact(env, deflate, st, reg, st', p, at, cache);
    if at.Some? {
      var reg' := reg + [p];
      var q: nat :| q < |reg| && PlaceAt(reg[q]) == at.value;
      assert reg'[q] == reg[q] && reg'[|reg|] == p;
      if at == Some(PlaceAt(p)) { PlacesApart(deflate, st', reg', q, |reg|); }
    }
  }
}
