/** Materialization through a shared prepared cache, against materialization without one. */
module Materialize {
  import opened Checked
  import opened Buffers
  import opened Hashing
  import opened PreparedAddress

  datatype Origin = FromCache | FromSource | FromTransform | FromGraph

  datatype Delivery =
    | Prepared(bytes: seq<byte>, origin: Origin)
    | Handoff(target: Target, sources: seq<Source>, inputs: seq<seq<seq<byte>>>)
    | Overlaid(base: Delivery, overlay: Digest)

  datatype Execution = OnHost | Delegated

  datatype Validation = Trusted | Full

  // ----- without a cache -----

  predicate AnyQuantized(sources: seq<Source>) {
    exists i :: 0 <= i < |sources| && sources[i].quantized
  }

  function Sized(b: Binding, bytes: seq<byte>): Result<seq<byte>> {
    if |bytes| == b.target.outputSize then Ok(bytes) else Err(Integrity)
  }

  /** Host execution of a graph or of a transform chain, with the planned length enforced. */
  function HostBytes(env: Environment, w: World, b: Binding): Result<seq<byte>>
    requires ValidBinding(w, b)
  {
    var identity := b.target.work.Chain? && b.target.work.transforms == [];
    var computed :=
      if identity then Ok(SourceBytes(w, b)[0][0])
      else env.host(b.target, w.backend, SourceBytes(w, b));
    match computed
    case Err(e) => Err(e)
    case Ok(bytes) => Sized(b, bytes)
  }

  function ChainOrigin(b: Binding): Origin
    requires b.target.work.Chain?
  {
    if b.target.work.transforms == [] then FromSource else FromTransform
  }

  function HandoffOf(w: World, b: Binding): Delivery
    requires ValidBinding(w, b)
  {
    Handoff(b.target, b.sources, SourceBytes(w, b))
  }

  function DeliverBytes(bytes: Result<seq<byte>>, origin: Origin): Result<Delivery> {
    match bytes
    case Err(e) => Err(e)
    case Ok(value) => Ok(Prepared(value, origin))
  }

  /** The work after a cache miss, from the sources. */
  function Execute(env: Environment, w: World, b: Binding, mode: Execution): Result<Delivery>
    requires ValidBinding(w, b)
  {
    match b.target.work
    case Graph(_, _) =>
      if AnyQuantized(b.sources) then Err(Unsupported)
      else if mode.Delegated? then Ok(HandoffOf(w, b))
      else DeliverBytes(HostBytes(env, w, b), FromGraph)
    case Chain(_, recipe, route) =>
      if b.sources[0].quantized then
        if route.None? then Err(Unsupported) else Ok(HandoffOf(w, b))
      else if recipe.Some? then Ok(HandoffOf(w, b))
      else DeliverBytes(HostBytes(env, w, b), ChainOrigin(b))
  }

  function Uncached(env: Environment, w: World, b: Binding, mode: Execution): Result<Delivery>
    requires ValidBinding(w, b)
  {
    match b.overlay
    case None => Execute(env, w, b, mode)
    case Some(digest) =>
      match Execute(env, w, b.Base(), mode)
      case Err(e) => Err(e)
      case Ok(base) => Ok(Overlaid(base, digest))
  }

  /** Whether the final bytes are the consumer's to produce: overlays, recipes, quantized routes. */
  predicate ByProvider(b: Binding)
    requires b.sources != []
  {
    b.overlay.Some? || (b.target.work.Chain? && (b.sources[0].quantized || b.target.work.recipe.Some?))
  }

  /** The final host bytes a binding means, however they are obtained. */
  function Final(env: Environment, w: World, b: Binding): Result<seq<byte>>
    requires ValidBinding(w, b)
  {
    if ByProvider(b) then Sized(b, env.provider(b.target, w.backend, b.sources, SourceBytes(w, b), b.overlay))
    else if b.target.work.Graph? && AnyQuantized(b.sources) then Err(Unsupported)
    else HostBytes(env, w, b)
  }

  /** Where the host executes the binding itself, uncached delivery is the final bytes. */
  lemma HostDeliversFinal(env: Environment, w: World, b: Binding)
    requires ValidBinding(w, b) && !ByProvider(b)
    ensures match Uncached(env, w, b, OnHost)
            case Ok(d) => d.Prepared? && Final(env, w, b) == Ok(d.bytes)
            case Err(e) => Final(env, w, b) == Err(e)
  {
  }

  // ----- the shared cache -----

  datatype EntryInfo = EntryInfo(length: nat, digest: Digest)

  /** A published entry: its envelope, and its payload as it is on disk now. */
  datatype Stored = Stored(compatibility: Compatibility, info: EntryInfo, payload: seq<byte>)

  type Entries = map<Digest, Stored>

  /** The envelope describes the final bytes of some binding of some checkpoint. */
  ghost predicate DescribesFinal(env: Environment, key: Digest, s: Stored, w: World, b: Binding, bytes: seq<byte>) {
    && ValidWorld(env, w) && ValidBinding(w, b)
    && AddressOf(env, w, b) == Address(key, s.compatibility)
    && Final(env, w, b) == Ok(bytes)
    && s.info == EntryInfo(|bytes|, env.hash(bytes))
  }

  ghost predicate SoundEntry(env: Environment, key: Digest, s: Stored) {
    exists w, b, bytes :: DescribesFinal(env, key, s, w, b, bytes)
  }

  /** Every envelope is genuine; payloads may be anything. */
  ghost predicate Sound(env: Environment, entries: Entries) {
    forall key :: key in entries ==> SoundEntry(env, key, entries[key])
  }

  predicate IntactEntry(env: Environment, s: Stored) {
    s.info == EntryInfo(|s.payload|, env.hash(s.payload))
  }

  /** Every payload is the published one. */
  ghost predicate Intact(env: Environment, entries: Entries) {
    forall key :: key in entries ==> IntactEntry(env, entries[key])
  }

  /** Which payloads a lookup accepts under each validation. */
  predicate Accepted(env: Environment, s: Stored, validation: Validation) {
    |s.payload| == s.info.length && (validation.Full? ==> env.hash(s.payload) == s.info.digest)
  }

  function Lookup(env: Environment, entries: Entries, a: Address, validation: Validation): Option<Stored> {
    if a.key in entries && entries[a.key].compatibility == a.compatibility && Accepted(env, entries[a.key], validation)
    then Some(entries[a.key])
    else None
  }

  function ReadEntry(env: Environment, s: Stored, validation: Validation): Result<seq<byte>> {
    if Accepted(env, s, validation) then Ok(s.payload) else Err(Integrity)
  }

  function Publish(env: Environment, entries: Entries, a: Address, bytes: seq<byte>): Entries {
    if Lookup(env, entries, a, Full).Some? then entries
    else entries[a.key := Stored(a.compatibility, EntryInfo(|bytes|, env.hash(bytes)), bytes)]
  }

  /** A cached delivery attempt: the entries afterwards, and the bytes if there was a hit. */
  function TryCached(env: Environment, entries: Entries, a: Address, b: Binding, validation: Validation): (Entries, Option<seq<byte>>) {
    match Lookup(env, entries, a, Trusted)
    case None => (entries, None)
    case Some(s) =>
      if s.info.length != b.target.outputSize then (entries - {a.key}, None)
      else
        match ReadEntry(env, s, validation)
        case Ok(bytes) => (entries, Some(bytes))
        case Err(_) => (entries - {a.key}, None)
  }

  // ----- the state of the cache over calls -----

  lemma SoundRemoval(env: Environment, entries: Entries, key: Digest)
    ensures Sound(env, entries) ==> Sound(env, entries - {key})
    ensures Intact(env, entries) ==> Intact(env, entries - {key})
  {
    hide SoundEntry;
  }

  /** What an accepted entry under a binding's address holds. */
  lemma HitIsFinal(env: Environment, entries: Entries, w: World, b: Binding, validation: Validation)
    requires CollisionFree(env) && ValidWorld(env, w) && ValidBinding(w, b) && Sound(env, entries)
    requires validation.Full? || Intact(env, entries)
    requires Lookup(env, entries, AddressOf(env, w, b), validation).Some?
    ensures Final(env, w, b) == Ok(Lookup(env, entries, AddressOf(env, w, b), validation).value.payload)
  {
    hide AddressOf, CollisionFree, ValidWorld, ValidBinding, Final;
    var a := AddressOf(env, w, b);
    var s := entries[a.key];
    assert SoundEntry(env, a.key, s);
    var v, c, bytes :| DescribesFinal(env, a.key, s, v, c, bytes);
    SameFinal(env, w, b, v, c);
    SameHash(env, s.payload, bytes);
  }

  lemma SameHash(env: Environment, x: seq<byte>, y: seq<byte>)
    requires CollisionFree(env) && env.hash(x) == env.hash(y)
    ensures x == y
  {
  }

  /** Equal addresses mean equal final bytes. */
  lemma SameFinal(env: Environment, w: World, b: Binding, v: World, c: Binding)
    requires CollisionFree(env) && ValidWorld(env, w) && ValidWorld(env, v)
    requires ValidBinding(w, b) && ValidBinding(v, c) && AddressOf(env, w, b) == AddressOf(env, v, c)
    ensures Final(env, w, b) == Final(env, v, c)
  {
    hide AddressOf, CollisionFree, ValidWorld, SourceBytes;
    AddressDeterminesInputs(env, w, b, v, c);
  }

  lemma PublishKeepsSound(env: Environment, entries: Entries, w: World, b: Binding, bytes: seq<byte>)
    requires ValidWorld(env, w) && ValidBinding(w, b) && Sound(env, entries) && Final(env, w, b) == Ok(bytes)
    ensures Sound(env, Publish(env, entries, AddressOf(env, w, b), bytes))
    ensures Intact(env, entries) ==> Intact(env, Publish(env, entries, AddressOf(env, w, b), bytes))
  {
    hide AddressOf, ValidWorld, ValidBinding, Final, Lookup;
    var a := AddressOf(env, w, b);
    var s := Stored(a.compatibility, EntryInfo(|bytes|, env.hash(bytes)), bytes);
    assert DescribesFinal(env, a.key, s, w, b, bytes);
    assert SoundEntry(env, a.key, s);
    hide SoundEntry;
  }

  /** Under trusted metadata a hit holds the final bytes exactly when its payload is intact. */
  lemma TrustedHitIsFinalWhenIntact(env: Environment, entries: Entries, w: World, b: Binding)
    requires CollisionFree(env) && ValidWorld(env, w) && ValidBinding(w, b) && Sound(env, entries)
    requires Lookup(env, entries, AddressOf(env, w, b), Trusted).Some?
    ensures var s := Lookup(env, entries, AddressOf(env, w, b), Trusted).value;
            Final(env, w, b) == Ok(s.payload) <==> IntactEntry(env, s)
  {
    hide AddressOf, CollisionFree, ValidWorld, ValidBinding, Final;
    var a := AddressOf(env, w, b);
    var s := entries[a.key];
    assert SoundEntry(env, a.key, s);
    var v, c, bytes :| DescribesFinal(env, a.key, s, v, c, bytes);
    SameFinal(env, w, b, v, c);
    if IntactEntry(env, s) {
      SameHash(env, s.payload, bytes);
    }
  }

  // ----- materialization through the cache -----

  /** Executing an addressable binding after a miss: prepared bytes are published. */
  function AfterMiss(env: Environment, entries: Entries, w: World, b: Binding, mode: Execution): (Entries, Result<Delivery>)
    requires ValidBinding(w, b)
  {
    var made := Execute(env, w, b, mode);
    (if made.Ok? && made.value.Prepared? then Publish(env, entries, AddressOf(env, w, b), made.value.bytes) else entries, made)
  }

  /** The base route of a binding without an overlay. */
  function MaterializeBase(env: Environment, entries: Entries, w: World, b: Binding, mode: Execution, validation: Validation)
    : (Entries, Result<Delivery>)
    requires ValidBinding(w, b)
  {
    if b.target.work.Chain? && b.sources[0].quantized && b.target.work.route.None? then (entries, Err(Unsupported))
    else if !HasFinalHostOutput(b) then (entries, Execute(env, w, b, mode))
    else
      var a := AddressOf(env, w, b);
      var (left, hit) := TryCached(env, entries, a, b, validation);
      match hit
      case Some(bytes) => (left, Ok(Prepared(bytes, FromCache)))
      case None => AfterMiss(env, left, w, b, mode)
  }

  function MaterializeBinding(env: Environment, entries: Entries, w: World, b: Binding, mode: Execution, validation: Validation)
    : (Entries, Result<Delivery>)
    requires ValidBinding(w, b)
  {
    match b.overlay
    case None => MaterializeBase(env, entries, w, b, mode, validation)
    case Some(digest) =>
      var (left, hit) :=
        if HasFinalHostOutput(b) then TryCached(env, entries, AddressOf(env, w, b), b, validation) else (entries, None);
      match hit
      case Some(bytes) => (left, Ok(Prepared(bytes, FromCache)))
      case None =>
        var (rest, base) := MaterializeBase(env, left, w, b.Base(), mode, validation);
        match base
        case Err(e) => (rest, Err(e))
        case Ok(delivery) => (rest, Ok(Overlaid(delivery, digest)))
  }

  /** A cached result is the uncached one, or the final bytes taken from the cache. */
  ghost predicate AgreesBase(env: Environment, w: World, b: Binding, r: Result<Delivery>, u: Result<Delivery>)
    requires ValidBinding(w, b)
  {
    r == u || (r.Ok? && r.value.Prepared? && r.value.origin.FromCache? && Final(env, w, b) == Ok(r.value.bytes))
  }

  ghost predicate Agrees(env: Environment, w: World, b: Binding, mode: Execution, r: Result<Delivery>)
    requires ValidBinding(w, b)
  {
    || AgreesBase(env, w, b, r, Uncached(env, w, b, mode))
    || (r.Ok? && r.value.Overlaid? && b.overlay == Some(r.value.overlay)
        && AgreesBase(env, w, b.Base(), Ok(r.value.base), Execute(env, w, b.Base(), mode)))
  }

  lemma TryCachedIsFinal(env: Environment, entries: Entries, w: World, b: Binding, validation: Validation)
    requires CollisionFree(env) && ValidWorld(env, w) && ValidBinding(w, b) && Sound(env, entries)
    requires validation.Full? || Intact(env, entries)
    ensures var (left, hit) := TryCached(env, entries, AddressOf(env, w, b), b, validation);
            && Sound(env, left) && (Intact(env, entries) ==> Intact(env, left))
            && (hit.Some? ==> Final(env, w, b) == Ok(hit.value))
  {
    hide AddressOf, CollisionFree, ValidWorld, ValidBinding, Final, Sound, Intact, Accepted;
    var a := AddressOf(env, w, b);
    SoundRemoval(env, entries, a.key);
    if TryCached(env, entries, a, b, validation).1.Some? {
      HitIsFinal(env, entries, w, b, validation);
    }
  }

  lemma ExecutePreparesFinal(env: Environment, w: World, b: Binding, mode: Execution)
    requires ValidBinding(w, b) && b.overlay.None?
    ensures Execute(env, w, b, mode).Ok? && Execute(env, w, b, mode).value.Prepared? ==>
              Final(env, w, b) == Ok(Execute(env, w, b, mode).value.bytes)
  {
  }

  lemma AfterMissKeepsSound(env: Environment, entries: Entries, w: World, b: Binding, mode: Execution)
    requires ValidWorld(env, w) && ValidBinding(w, b) && Sound(env, entries) && b.overlay.None?
    ensures var (left, r) := AfterMiss(env, entries, w, b, mode);
            Sound(env, left) && (Intact(env, entries) ==> Intact(env, left)) && r == Execute(env, w, b, mode)
  {
    ExecutePreparesFinal(env, w, b, mode);
    hide AddressOf, ValidWorld, ValidBinding, Final, Sound, Intact, Publish, Execute;
    var made := Execute(env, w, b, mode);
    if made.Ok? && made.value.Prepared? {
      PublishKeepsSound(env, entries, w, b, made.value.bytes);
    }
  }

  lemma AgreesAsIs(env: Environment, w: World, b: Binding, u: Result<Delivery>)
    requires ValidBinding(w, b)
    ensures AgreesBase(env, w, b, u, u)
  {
  }

  lemma AgreesOnHit(env: Environment, w: World, b: Binding, bytes: seq<byte>, u: Result<Delivery>)
    requires ValidBinding(w, b) && Final(env, w, b) == Ok(bytes)
    ensures AgreesBase(env, w, b, Ok(Prepared(bytes, FromCache)), u)
  {
  }

  lemma BaseIsTransparent(env: Environment, entries: Entries, w: World, b: Binding, mode: Execution, validation: Validation)
    requires CollisionFree(env) && ValidWorld(env, w) && ValidBinding(w, b) && Sound(env, entries) && b.overlay.None?
    requires validation.Full? || Intact(env, entries)
    ensures Sound(env, MaterializeBase(env, entries, w, b, mode, validation).0)
    ensures Intact(env, entries) ==> Intact(env, MaterializeBase(env, entries, w, b, mode, validation).0)
    ensures AgreesBase(env, w, b, MaterializeBase(env, entries, w, b, mode, validation).1, Execute(env, w, b, mode))
  {
    hide AddressOf, CollisionFree, ValidWorld, ValidBinding, Final, Sound, Intact, TryCached, AfterMiss, Execute;
    hide HasFinalHostOutput, AgreesBase;
    ExecuteRefusesUnrouted(env, w, b, mode);
    SourcesExist(w, b);
    AgreesAsIs(env, w, b, Execute(env, w, b, mode));
    TryCachedIsFinal(env, entries, w, b, validation);
    var attempt := TryCached(env, entries, AddressOf(env, w, b), b, validation);
    AfterMissKeepsSound(env, attempt.0, w, b, mode);
    if attempt.1.Some? {
      AgreesOnHit(env, w, b, attempt.1.value, Execute(env, w, b, mode));
    }
  }

  lemma SourcesExist(w: World, b: Binding)
    requires ValidBinding(w, b)
    ensures b.sources != []
  {
  }

  lemma ExecuteRefusesUnrouted(env: Environment, w: World, b: Binding, mode: Execution)
    requires ValidBinding(w, b)
    ensures b.target.work.Chain? && b.sources[0].quantized && b.target.work.route.None? ==>
              Execute(env, w, b, mode) == Err(Unsupported)
  {
  }

  /** One materialization through a sound cache keeps it sound and agrees with materialization
      without a cache; with full validation this holds whatever the payloads on disk are. */
  lemma MaterializationIsTransparent(env: Environment, entries: Entries, w: World, b: Binding, mode: Execution,
                                     validation: Validation)
    requires CollisionFree(env) && ValidWorld(env, w) && ValidBinding(w, b) && Sound(env, entries)
    requires validation.Full? || Intact(env, entries)
    ensures var (left, r) := MaterializeBinding(env, entries, w, b, mode, validation);
            && Sound(env, left) && (Intact(env, entries) ==> Intact(env, left)) && Agrees(env, w, b, mode, r)
  {
    hide AddressOf, CollisionFree, ValidWorld, Final, Sound, Intact, TryCached, MaterializeBase, Execute;
    if b.overlay.None? {
      BaseIsTransparent(env, entries, w, b, mode, validation);
    } else {
      TryCachedIsFinal(env, entries, w, b, validation);
      var left := if HasFinalHostOutput(b) then TryCached(env, entries, AddressOf(env, w, b), b, validation).0 else entries;
      BaseIsTransparent(env, left, w, b.Base(), mode, validation);
    }
  }

  /** Where the host executes the binding, cached and uncached materialization fail alike or
      deliver the same bytes. */
  lemma HostTransparency(env: Environment, entries: Entries, w: World, b: Binding, validation: Validation)
    requires CollisionFree(env) && ValidWorld(env, w) && ValidBinding(w, b) && Sound(env, entries)
    requires validation.Full? || Intact(env, entries)
    requires !ByProvider(b)
    ensures var r, u := MaterializeBinding(env, entries, w, b, OnHost, validation).1, Uncached(env, w, b, OnHost);
            if u.Ok? then r.Ok? && r.value.Prepared? && u.value.Prepared? && r.value.bytes == u.value.bytes else r == u
  {
    hide CollisionFree, ValidWorld, ValidBinding, Final, Sound, Intact, MaterializeBinding, Uncached, Execute;
    MaterializationIsTransparent(env, entries, w, b, OnHost, validation);
    HostDeliversFinal(env, w, b);
  }

  /** After a host materialization the cache holds a fully valid entry for it: a corrupted
      payload has been evicted and recomputed. */
  lemma HostMaterializationRepairs(env: Environment, entries: Entries, w: World, b: Binding)
    requires CollisionFree(env) && ValidWorld(env, w) && ValidBinding(w, b) && Sound(env, entries)
    requires !ByProvider(b) && HasFinalHostOutput(b) && Uncached(env, w, b, OnHost).Ok?
    ensures var left := MaterializeBinding(env, entries, w, b, OnHost, Full).0;
            Lookup(env, left, AddressOf(env, w, b), Full).Some?
  {
    HostDeliversFinal(env, w, b);
    SourcesExist(w, b);
    ExecuteRefusesUnrouted(env, w, b, OnHost);
    var a := AddressOf(env, w, b);
    hide AddressOf, CollisionFree, ValidWorld, ValidBinding, Final, Sound, Execute, HasFinalHostOutput, Publish, TryCached, Lookup;
    var (left, hit) := TryCached(env, entries, a, b, Full);
    FullHitStays(env, entries, a, b);
    var made := Execute(env, w, b, OnHost);
    assert made.Ok? && made.value.Prepared?;
    PublishedIsAccepted(env, left, a, made.value.bytes);
  }

  lemma FullHitStays(env: Environment, entries: Entries, a: Address, b: Binding)
    ensures TryCached(env, entries, a, b, Full).1.Some? ==>
              Lookup(env, TryCached(env, entries, a, b, Full).0, a, Full).Some?
  {
  }

  lemma PublishedIsAccepted(env: Environment, entries: Entries, a: Address, bytes: seq<byte>)
    ensures Lookup(env, Publish(env, entries, a, bytes), a, Full).Some?
  {
  }

  // ----- the cache is used -----

  /** An intact entry of the planned length under the binding's address. */
  ghost predicate CachedFor(env: Environment, entries: Entries, w: World, b: Binding, payload: seq<byte>)
    requires ValidBinding(w, b)
  {
    var a := AddressOf(env, w, b);
    && a.key in entries && entries[a.key].compatibility == a.compatibility && entries[a.key].payload == payload
    && entries[a.key].info.length == |payload| && entries[a.key].info.digest == env.hash(payload)
    && |payload| == b.target.outputSize
  }

  /** A cached payload is delivered as it is, under either validation and in either execution
      mode, and the entries stay. */
  lemma CachedIsDelivered(env: Environment, entries: Entries, w: World, b: Binding, mode: Execution, validation: Validation,
                          payload: seq<byte>)
    requires ValidBinding(w, b) && HasFinalHostOutput(b) && CachedFor(env, entries, w, b, payload)
    ensures MaterializeBinding(env, entries, w, b, mode, validation) == (entries, Ok(Prepared(payload, FromCache)))
  {
    hide AddressOf, ValidBinding, Execute, AfterMiss;
    SourcesExist(w, b);
    var a := AddressOf(env, w, b);
    assert TryCached(env, entries, a, b, validation) == (entries, Some(payload));
  }

  lemma FinalIsPlanned(env: Environment, w: World, b: Binding)
    requires ValidBinding(w, b)
    ensures Final(env, w, b).Ok? ==> |Final(env, w, b).value| == b.target.outputSize
  {
  }

  lemma PublishedIsCached(env: Environment, entries: Entries, w: World, b: Binding, bytes: seq<byte>)
    requires CollisionFree(env) && ValidWorld(env, w) && ValidBinding(w, b) && Sound(env, entries)
    requires Final(env, w, b) == Ok(bytes)
    ensures CachedFor(env, Publish(env, entries, AddressOf(env, w, b), bytes), w, b, bytes)
  {
    hide AddressOf, CollisionFree, ValidWorld, ValidBinding, Final, Sound;
    FinalIsPlanned(env, w, b);
    if Lookup(env, entries, AddressOf(env, w, b), Full).Some? {
      HitIsFinal(env, entries, w, b, Full);
    }
  }

  /** Published final bytes are delivered from the cache by the next materialization. */
  lemma PublishedIsDelivered(env: Environment, entries: Entries, w: World, b: Binding, bytes: seq<byte>, mode: Execution,
                             validation: Validation)
    requires CollisionFree(env) && ValidWorld(env, w) && ValidBinding(w, b) && Sound(env, entries)
    requires HasFinalHostOutput(b) && Final(env, w, b) == Ok(bytes)
    ensures var published := Publish(env, entries, AddressOf(env, w, b), bytes);
            MaterializeBinding(env, published, w, b, mode, validation) == (published, Ok(Prepared(bytes, FromCache)))
  {
    hide AddressOf, CollisionFree, ValidWorld, ValidBinding, Final, Sound, Publish, MaterializeBinding, CachedFor;
    PublishedIsCached(env, entries, w, b, bytes);
    CachedIsDelivered(env, Publish(env, entries, AddressOf(env, w, b), bytes), w, b, mode, validation, bytes);
  }

  /** A binding the host executes is executed once: materialized again, the same bytes come from
      the cache. */
  lemma SecondDeliveryIsCached(env: Environment, entries: Entries, w: World, b: Binding, validation: Validation)
    requires CollisionFree(env) && ValidWorld(env, w) && ValidBinding(w, b) && Sound(env, entries)
    requires validation.Full? || Intact(env, entries)
    requires !ByProvider(b) && HasFinalHostOutput(b) && MaterializeBinding(env, entries, w, b, OnHost, validation).1.Ok?
    ensures var (left, first) := MaterializeBinding(env, entries, w, b, OnHost, validation);
            first.value.Prepared?
            && MaterializeBinding(env, left, w, b, OnHost, validation) == (left, Ok(Prepared(first.value.bytes, FromCache)))
  {
    var a := AddressOf(env, w, b);
    SourcesExist(w, b);
    HostDeliversFinal(env, w, b);
    TryCachedIsFinal(env, entries, w, b, validation);
    FirstDelivery(env, entries, w, b, validation);
    hide AddressOf, CollisionFree, ValidWorld, ValidBinding, Final, Sound, Intact, Execute, Publish, MaterializeBinding, CachedFor;
    var (left, first) := MaterializeBinding(env, entries, w, b, OnHost, validation);
    CachedIsDelivered(env, left, w, b, OnHost, validation, first.value.bytes);
  }

  /** After a delivery from the host or the cache, the delivered bytes are cached. */
  lemma FirstDelivery(env: Environment, entries: Entries, w: World, b: Binding, validation: Validation)
    requires CollisionFree(env) && ValidWorld(env, w) && ValidBinding(w, b) && Sound(env, entries)
    requires validation.Full? || Intact(env, entries)
    requires !ByProvider(b) && HasFinalHostOutput(b) && MaterializeBinding(env, entries, w, b, OnHost, validation).1.Ok?
    ensures var (left, first) := MaterializeBinding(env, entries, w, b, OnHost, validation);
            first.value.Prepared? && CachedFor(env, left, w, b, first.value.bytes)
  {
    SourcesExist(w, b);
    HostDeliversFinal(env, w, b);
    ExecuteRefusesUnrouted(env, w, b, OnHost);
    TryCachedIsFinal(env, entries, w, b, validation);
    FinalIsPlanned(env, w, b);
    hide AddressOf, CollisionFree, ValidWorld, ValidBinding, Final, Sound, Execute, HasFinalHostOutput, Publish;
    var a := AddressOf(env, w, b);
    var (left, hit) := TryCached(env, entries, a, b, validation);
    if hit.Some? {
      HitIsCached(env, entries, w, b, validation);
    } else {
      var made := Execute(env, w, b, OnHost);
      PublishedIsCached(env, left, w, b, made.value.bytes);
    }
  }

  lemma HitIsCached(env: Environment, entries: Entries, w: World, b: Binding, validation: Validation)
    requires ValidBinding(w, b) && (validation.Full? || Intact(env, entries))
    requires TryCached(env, entries, AddressOf(env, w, b), b, validation).1.Some?
    ensures var (left, hit) := TryCached(env, entries, AddressOf(env, w, b), b, validation);
            left == entries && CachedFor(env, entries, w, b, hit.value)
  {
    hide AddressOf, ValidBinding;
  }

  /** What is never cached needs no work: an untransformed plain tensor is delivered as the bytes of
      its span in the checkpoint file. */
  lemma UncachedChainIsSource(env: Environment, w: World, b: Binding, mode: Execution)
    requires ValidBinding(w, b) && b.target.work.Chain? && !b.sources[0].quantized && !HasFinalHostOutput(b)
    ensures b.overlay.None?
    ensures var span := b.sources[0].span;
            span.file < |w.files| && span.offset + span.length <= |w.files[span.file]|
            && Uncached(env, w, b, mode)
               == if span.length == b.target.outputSize
                  then Ok(Prepared(w.files[span.file][span.offset..span.offset + span.length], FromSource))
                  else Err(Integrity)
  {
    assert InFile(b.sources[0].Spans()[0], w);
  }

  // ----- sessions: any plans and checkpoints sharing one cache -----

  datatype Call =
    | Materialization(w: World, b: Binding, mode: Execution, validation: Validation)
    | ProviderPublication(w: World, b: Binding)
    | Tampering(key: Digest, payload: seq<byte>)
    | Eviction(key: Digest)

  /** A provider publishes the final bytes of an addressable binding. */
  ghost predicate ValidCall(env: Environment, call: Call) {
    match call
    case Materialization(w, b, _, _) => ValidWorld(env, w) && ValidBinding(w, b)
    case ProviderPublication(w, b) =>
      ValidWorld(env, w) && ValidBinding(w, b) && HasFinalHostOutput(b) && Final(env, w, b).Ok?
    case _ => true
  }

  ghost function Next(env: Environment, entries: Entries, call: Call): Entries
    requires ValidCall(env, call)
  {
    match call
    case Materialization(w, b, mode, validation) => MaterializeBinding(env, entries, w, b, mode, validation).0
    case ProviderPublication(w, b) => Publish(env, entries, AddressOf(env, w, b), Final(env, w, b).value)
    case Tampering(key, payload) => if key in entries then entries[key := entries[key].(payload := payload)] else entries
    case Eviction(key) => entries - {key}
  }

  ghost predicate ValidSession(env: Environment, calls: seq<Call>) {
    forall i :: 0 <= i < |calls| ==> ValidCall(env, calls[i])
  }

  ghost function Session(env: Environment, calls: seq<Call>): Entries
    requires ValidSession(env, calls)
  {
    if calls == [] then map[] else Next(env, Session(env, calls[..|calls| - 1]), calls[|calls| - 1])
  }

  /** Payloads may change only if every materialization validates in full. */
  ghost predicate Guarded(calls: seq<Call>) {
    || (forall i :: 0 <= i < |calls| && calls[i].Materialization? ==> calls[i].validation.Full?)
    || (forall i :: 0 <= i < |calls| ==> !calls[i].Tampering?)
  }

  lemma TamperingKeepsSound(env: Environment, entries: Entries, key: Digest, payload: seq<byte>)
    requires Sound(env, entries) && key in entries
    ensures Sound(env, entries[key := entries[key].(payload := payload)])
  {
    hide AddressOf, ValidWorld, ValidBinding, Final;
    var s := entries[key];
    assert SoundEntry(env, key, s);
    var v, c, bytes :| DescribesFinal(env, key, s, v, c, bytes);
    assert DescribesFinal(env, key, s.(payload := payload), v, c, bytes);
    hide DescribesFinal;
  }

  lemma CallKeepsSound(env: Environment, entries: Entries, call: Call)
    requires CollisionFree(env) && Sound(env, entries) && ValidCall(env, call)
    requires Intact(env, entries) || (call.Materialization? ==> call.validation.Full?)
    ensures Sound(env, Next(env, entries, call))
    ensures Intact(env, entries) && !call.Tampering? ==> Intact(env, Next(env, entries, call))
  {
    hide AddressOf, CollisionFree, ValidWorld, ValidBinding, Final, Sound, Intact, MaterializeBinding, Publish;
    match call
    case Materialization(w, b, mode, validation) => MaterializationIsTransparent(env, entries, w, b, mode, validation);
    case ProviderPublication(w, b) => PublishKeepsSound(env, entries, w, b, Final(env, w, b).value);
    case Tampering(key, payload) =>
      if key in entries {
        TamperingKeepsSound(env, entries, key, payload);
      }
    case Eviction(key) => SoundRemoval(env, entries, key);
  }

  lemma GuardedPrefix(calls: seq<Call>, n: nat)
    requires n <= |calls| && Guarded(calls)
    ensures Guarded(calls[..n])
  {
  }

  lemma {:induction false} SessionIsSound(env: Environment, calls: seq<Call>)
    requires CollisionFree(env) && ValidSession(env, calls) && Guarded(calls)
    ensures Sound(env, Session(env, calls))
    ensures (forall i :: 0 <= i < |calls| ==> !calls[i].Tampering?) ==> Intact(env, Session(env, calls))
  {
    if calls != [] {
      var n := |calls| - 1;
      GuardedPrefix(calls, n);
      SessionIsSound(env, calls[..n]);
      hide CollisionFree, ValidCall, Sound, Intact, Next;
      CallKeepsSound(env, Session(env, calls[..n]), calls[n]);
    }
  }

  /** Over any session of materializations of any bindings and checkpoints, publications,
      evictions and, under full validation, arbitrary payload corruption, every
      materialization agrees with the same materialization without a cache. */
  lemma SessionIsTransparent(env: Environment, calls: seq<Call>, k: nat)
    requires CollisionFree(env) && ValidSession(env, calls) && Guarded(calls)
    requires k < |calls| && calls[k].Materialization?
    ensures var call := calls[k];
            Agrees(env, call.w, call.b, call.mode,
                   MaterializeBinding(env, Session(env, calls[..k]), call.w, call.b, call.mode, call.validation).1)
  {
    var call := calls[k];
    assert ValidCall(env, call);
    GuardedPrefix(calls, k);
    SessionIsSound(env, calls[..k]);
    hide CollisionFree, ValidWorld, ValidBinding, Sound, Intact, Session, Agrees, MaterializeBinding;
    MaterializationIsTransparent(env, Session(env, calls[..k]), call.w, call.b, call.mode, call.validation);
  }
}
