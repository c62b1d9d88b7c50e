/** The materializer over the shared cache it reads, publishes to and evicts from. */
module PreparedCache {
  import opened Checked
  import opened Buffers
  import opened Hashing
  import opened PreparedAddress
  import opened Materialize

  const CACHE_READ_BLOCK_BYTES: nat := 0x10_0000

  /** Reads a cached payload block by block; a read may return fewer bytes than asked. */
  method ReadCacheEntry(env: Environment, s: Stored, validation: Validation) returns (r: Result<seq<byte>>)
    ensures r == ReadEntry(env, s, validation)
  {
    var bytes: seq<byte> := [];
    var hashed: seq<byte> := [];
    while |bytes| < s.info.length
      invariant |bytes| <= s.info.length && |bytes| <= |s.payload| && bytes == s.payload[..|bytes|]
      invariant validation.Full? ==> hashed == bytes
      decreases s.info.length - |bytes|
    {
      var remaining := s.info.length - |bytes|;
      var asked := if remaining < CACHE_READ_BLOCK_BYTES then remaining else CACHE_READ_BLOCK_BYTES;
      var left := |s.payload| - |bytes|;
      var most := if asked < left then asked else left;
      var read: nat :| read <= most && (most > 0 ==> read > 0);
      if read == 0 {
        return Err(Integrity);
      }
      var chunk := s.payload[|bytes|..|bytes| + read];
      if validation.Full? {
        hashed := hashed + chunk;
      }
      bytes := bytes + chunk;
    }
    if |s.payload| != s.info.length {
      return Err(Integrity);
    }
    assert bytes == s.payload;
    if validation.Full? && env.hash(hashed) != s.info.digest {
      return Err(Integrity);
    }
    return Ok(bytes);
  }

  class Materializer {
    const env: Environment
    const mode: Execution
    const validation: Validation
    var entries: Entries

    constructor (env: Environment, mode: Execution, validation: Validation, entries: Entries)
      ensures this.env == env && this.mode == mode && this.validation == validation && this.entries == entries
    {
      this.env, this.mode, this.validation, this.entries := env, mode, validation, entries;
    }

    method Evict(key: Digest)
      modifies this
      ensures entries == old(entries) - {key}
    {
      entries := entries - {key};
    }

    /** Publishes unless a fully valid entry is already there. */
    method PublishReader(a: Address, bytes: seq<byte>)
      modifies this
      ensures entries == Publish(env, old(entries), a, bytes)
    {
      if Lookup(env, entries, a, Full).None? {
        entries := entries[a.key := Stored(a.compatibility, EntryInfo(|bytes|, env.hash(bytes)), bytes)];
      }
    }

    /** A present entry of the binding's compatibility is delivered when its payload has the recorded
        and the planned length and, under full validation, the recorded digest; one of another
        length than planned or with another digest is evicted. */
    method TryCachedPrepared(b: Binding, address: Option<Address>) returns (r: Option<seq<byte>>)
      modifies this
      ensures match address
              case None => r == None && entries == old(entries)
              case Some(a) => (entries, r) == TryCached(env, old(entries), a, b, validation)
      ensures match address
              case None => r.None? && entries == old(entries)
              case Some(a) =>
                if !(a.key in old(entries) && old(entries)[a.key].compatibility == a.compatibility
                     && |old(entries)[a.key].payload| == old(entries)[a.key].info.length)
                then r.None? && entries == old(entries)
                else if |old(entries)[a.key].payload| == b.target.outputSize
                        && (validation.Full? ==> env.hash(old(entries)[a.key].payload) == old(entries)[a.key].info.digest)
                then r == Some(old(entries)[a.key].payload) && entries == old(entries)
                else r.None? && entries == old(entries) - {a.key}
    {
      if address.None? {
        return None;
      }
      var a := address.value;
      var found := Lookup(env, entries, a, Trusted);
      if found.None? {
        return None;
      }
      if found.value.info.length != b.target.outputSize {
        Evict(a.key);
        return None;
      }
      var read := ReadCacheEntry(env, found.value, validation);
      if read.Err? {
        Evict(a.key);
        return None;
      }
      return Some(read.value);
    }

    function CacheAddress(w: World, b: Binding): Option<Address>
      requires ValidBinding(w, b)
    {
      if HasFinalHostOutput(b) then Some(AddressOf(env, w, b)) else None
    }

    method MaterializeBaseBinding(w: World, b: Binding) returns (r: Result<Delivery>)
      requires ValidBinding(w, b)
      modifies this
      ensures (entries, r) == MaterializeBase(env, old(entries), w, b, mode, validation)
    {
      hide Execute, TryCached, Publish, ValidBinding, AddressOf;
      SourcesExist(w, b);
      if b.target.work.Chain? && b.sources[0].quantized && b.target.work.route.None? {
        return Err(Unsupported);
      }
      var address := CacheAddress(w, b);
      var hit := TryCachedPrepared(b, address);
      if hit.Some? {
        return Ok(Prepared(hit.value, FromCache));
      }
      r := Execute(env, w, b, mode);
      if r.Ok? && r.value.Prepared? && address.Some? {
        PublishReader(address.value, r.value.bytes);
      }
    }

    /** Materializes one binding; the base of an overlaid binding goes through the cache on its own.
        An intact payload of the planned length under the binding's address is delivered as it is. */
    method MaterializeOne(w: World, b: Binding) returns (r: Result<Delivery>)
      requires ValidBinding(w, b)
      modifies this
      ensures (entries, r) == MaterializeBinding(env, old(entries), w, b, mode, validation)
      ensures forall payload :: HasFinalHostOutput(b) && CachedFor(env, old(entries), w, b, payload) ==>
                r == Ok(Prepared(payload, FromCache)) && entries == old(entries)
    {
      forall payload | HasFinalHostOutput(b) && CachedFor(env, entries, w, b, payload)
        ensures MaterializeBinding(env, entries, w, b, mode, validation) == (entries, Ok(Prepared(payload, FromCache)))
      {
        CachedIsDelivered(env, entries, w, b, mode, validation, payload);
      }
      hide TryCached, MaterializeBase, AddressOf;
      if b.overlay.None? {
        r := MaterializeBaseBinding(w, b);
        return;
      }
      var hit := TryCachedPrepared(b, CacheAddress(w, b));
      if hit.Some? {
        return Ok(Prepared(hit.value, FromCache));
      }
      var base := MaterializeBaseBinding(w, b.Base());
      if base.Err? {
        return base;
      }
      return Ok(Overlaid(base.value, b.overlay.value));
    }

    /** Publishes bytes a provider made, of the planned length. */
    method PublishPreparedBytes(w: World, b: Binding, bytes: seq<byte>) returns (r: Result<()>)
      requires ValidBinding(w, b)
      modifies this
      ensures if |bytes| != b.target.outputSize then r == Err(Integrity) && entries == old(entries)
              else if !HasFinalHostOutput(b) then r == Err(Unsupported) && entries == old(entries)
              else r == Ok(()) && entries == Publish(env, old(entries), AddressOf(env, w, b), bytes)
    {
      if |bytes| != b.target.outputSize {
        return Err(Integrity);
      }
      var address := CacheAddress(w, b);
      if address.None? {
        return Err(Unsupported);
      }
      PublishReader(address.value, bytes);
      return Ok(());
    }
  }
}
