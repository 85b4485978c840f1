/** The backend-address cache of main.go: a process-wide map from wire token
    to backend address, replaced wholesale by each write (copy on write) and
    flushed when it has grown to its maximum, and the read-through resolution
    of a header line that the per-connection handler performs with it. */
module AddrCache {
  import opened Common
  import opened AddressCodec

  /** _MaxBackendAddrCacheCount: the size at which a write flushes the cache. */
  const MaxBackendAddrCacheCount: nat := 1024 * 1024

  /** The snapshot a write of `key := val` publishes over the snapshot `m`,
      with `max` the flush threshold. */
  function CowInsert(m: map<Bytes, Bytes>, max: nat, key: Bytes, val: Bytes): (r: map<Bytes, Bytes>)
    // a read of the written key sees the written address
    ensures key in r && r[key] == val
    // below the threshold every other entry survives and nothing else appears
    ensures |m| < max ==> forall k :: k != key ==> (k in r <==> k in m)
    ensures |m| < max ==> forall k :: k in m && k != key ==> r[k] == m[k]
    // at the threshold, the written entry is the only one left
    ensures |m| >= max ==> r.Keys == {key}
    // the threshold is never exceeded
    ensures 1 <= max && |m| <= max ==> |r| <= max
  {
    if |m| < max then m[key := val] else map[key := val]
  }

  /** The snapshot after a sequence of writeBackendAddrCache calls, one atomic
      step each: since BackendAddrCache.Write publishes CowInsert of the
      snapshot it finds, the writes `writes[0]`, `writes[1]`, ... performed in
      that order on a cache holding `m` leave it holding this map. */
  function ApplyWrites(m: map<Bytes, Bytes>, max: nat, writes: seq<(Bytes, Bytes)>): map<Bytes, Bytes>
    decreases |writes|
  {
    if writes == [] then m
    else ApplyWrites(CowInsert(m, max, writes[0].0, writes[0].1), max, writes[1..])
  }

  lemma {:induction false} ApplyWritesBounded(m: map<Bytes, Bytes>, max: nat, writes: seq<(Bytes, Bytes)>)
    requires 1 <= max && |m| <= max
    ensures |ApplyWrites(m, max, writes)| <= max
    decreases |writes|
  {
    if writes != [] {
      ApplyWritesBounded(CowInsert(m, max, writes[0].0, writes[0].1), max, writes[1..]);
    }
  }

  /** Starting from the empty cache, no sequence of writes makes it hold more
      than `max` entries. */
  lemma {:induction false} WritesFromEmptyBounded(max: nat, writes: seq<(Bytes, Bytes)>)
    requires 1 <= max
    ensures |ApplyWrites(map[], max, writes)| <= max
  {
    ApplyWritesBounded(map[], max, writes);
  }

  /** The last write to a key is what a read of that key sees, whatever other
      keys were written before it. */
  lemma {:induction false} LastWriteWins(m: map<Bytes, Bytes>, max: nat, writes: seq<(Bytes, Bytes)>, key: Bytes, val: Bytes)
    ensures var r := ApplyWrites(m, max, writes + [(key, val)]);
            key in r && r[key] == val
    decreases |writes|
  {
    if writes == [] {
      assert writes + [(key, val)] == [(key, val)];
    } else {
      assert (writes + [(key, val)])[1..] == writes[1..] + [(key, val)];
      LastWriteWins(CowInsert(m, max, writes[0].0, writes[0].1), max, writes[1..], key, val);
    }
  }

  /** The published snapshot (_BackendAddrCache) and its flush threshold. The
      mutex that serialises writers and the atomic load of readers are not
      modelled: each operation is one atomic step. */
  class BackendAddrCache {
    var snapshot: map<Bytes, Bytes>
    const Max: nat

    ghost predicate Valid()
      reads this
    {
      1 <= Max && |snapshot| <= Max
    }

    /** The cache starts empty (init stores an empty map). */
    constructor (max: nat)
      requires 1 <= max
      ensures Valid()
      ensures Max == max && snapshot == map[]
    {
      Max := max;
      snapshot := map[];
    }

    /** readBackendAddrCache: a lookup in the current snapshot, with Go's zero
        value, the empty string, on a miss. */
    method Read(key: Bytes) returns (val: Bytes, ok: bool)
      ensures ok <==> key in snapshot
      ensures ok ==> val == snapshot[key]
      ensures !ok ==> val == []
    {
      ok := key in snapshot;
      val := if ok then snapshot[key] else [];
    }

    /** writeBackendAddrCache: builds a new map, copying every entry of the
        current snapshot unless it has reached Max, adds the new entry and
        publishes the new map. */
    method Write(key: Bytes, val: Bytes)
      requires Valid()
      modifies this
      ensures Valid()
      ensures snapshot == CowInsert(old(snapshot), Max, key, val)
    {
      var m1 := snapshot;
      var m2: map<Bytes, Bytes> := map[];
      if |m1| < Max {
        var pending := m1.Keys;
        while pending != {}
          invariant pending <= m1.Keys
          invariant m2.Keys == m1.Keys - pending
          invariant forall k :: k in m2 ==> m2[k] == m1[k]
          decreases |pending|
        {
          var k :| k in pending;
          m2 := m2[k := m1[k]];
          pending := pending - {k};
        }
        assert m2 == m1;
      }
      m2 := m2[key := val];
      snapshot := m2;
    }

    /** The resolve step of the per-connection handler: a cache hit answers
        at once; a miss decodes the line and, only when that succeeds, writes
        the address into the cache. */
    method Resolve(line: Bytes, c: Codec) returns (r: Result<Bytes, Error>)
      requires Valid()
      modifies this
      ensures Valid()
      // hit: the cached address, and the cache is left as it was
      ensures line in old(snapshot) ==> r == Ok(old(snapshot)[line]) && snapshot == old(snapshot)
      // miss: the codec decides the outcome
      ensures line !in old(snapshot) ==> r == Decode(c, line)
      ensures line !in old(snapshot) && r.Ok? ==> snapshot == CowInsert(old(snapshot), Max, line, r.value)
      // a line that fails is never cached
      ensures r.Err? ==> snapshot == old(snapshot)
    {
      var addr, ok := Read(line);
      if ok {
        return Ok(addr);
      }
      var decoded := c.base64Decode(line);
      if decoded.None? {
        return Err(Encoding);
      }
      var data := decoded.value;
      if !ValidKeySize(c.secret) {
        return Err(KeySize);
      }
      if |data| < AesBlockSize {
        return Err(CiphertextTooShort);
      }
      var iv, text := data[..AesBlockSize], data[AesBlockSize..];
      text := c.decrypt(c.secret, iv, text);
      if |text| < |c.salt| {
        return Err(SaltCheckFailed);
      }
      var addrLength := |text| - |c.salt|;
      if text[addrLength..] != c.salt {
        return Err(SaltNotMatch);
      }
      addr := text[..addrLength];
      Write(line, addr);
      r := Ok(addr);
    }
  }

  /** The cache process start creates (init, main.go:38-40) with the
      threshold _MaxBackendAddrCacheCount. */
  method InitCache() returns (cache: BackendAddrCache)
    ensures fresh(cache) && cache.Valid()
    ensures cache.Max == MaxBackendAddrCacheCount && cache.snapshot == map[]
  {
    cache := new BackendAddrCache(MaxBackendAddrCacheCount);
  }

  /** Resolving the same line twice: once the first resolution succeeds, the
      second is a cache hit that yields the same address without consulting
      the codec (it may be any codec at all) and leaves the cache unchanged. */
  method ResolveTwice(cache: BackendAddrCache, line: Bytes, c: Codec, other: Codec)
    returns (first: Result<Bytes, Error>, second: Result<Bytes, Error>)
    requires cache.Valid()
    modifies cache
    ensures cache.Valid()
    ensures first.Ok? ==> second == first
    ensures first.Ok? && line !in old(cache.snapshot)
            ==> cache.snapshot == CowInsert(old(cache.snapshot), cache.Max, line, first.value)
    ensures first.Ok? && line in old(cache.snapshot) ==> cache.snapshot == old(cache.snapshot)
  {
    first := cache.Resolve(line, c);
    second := cache.Resolve(line, other);
  }

  /** A connection whose line fails to resolve has no effect on the next one:
      the second line resolves exactly as it would have without the first. */
  method RejectedThenResolved(cache: BackendAddrCache, bad: Bytes, good: Bytes, c: Codec)
    returns (first: Result<Bytes, Error>, second: Result<Bytes, Error>)
    requires cache.Valid()
    modifies cache
    ensures cache.Valid()
    ensures first.Err? && good in old(cache.snapshot) ==> second == Ok(old(cache.snapshot)[good])
    ensures first.Err? && good !in old(cache.snapshot) ==> second == Decode(c, good)
  {
    first := cache.Resolve(bad, c);
    second := cache.Resolve(good, c);
  }
}
