/** The prepared-cache address of a binding, and what equal addresses guarantee. */
module PreparedAddress {
  import opened Checked
  import opened Buffers
  import opened Hashing
  import opened OverlayIdentity

  datatype Span = Span(file: nat, offset: nat, length: nat)

  /** A source tensor: its storage span, then the spans of quantized companions. */
  datatype Source = Source(name: seq<byte>, quantized: bool, span: Span, companions: seq<Span>, descriptor: seq<nat>) {
    function Spans(): (s: seq<Span>)
      ensures |s| > 0
    {
      [span] + companions
    }
  }

  datatype Work =
    | Graph(outputIsInput: bool, description: seq<nat>)
    | Chain(transforms: seq<nat>, recipe: Option<nat>, route: Option<bool>)

  /** The target contract: everything about a binding but its sources.  A quantized route, when
      there is one, either dequantizes on the host or does not. */
  datatype Target = Target(name: seq<byte>, work: Work, outputSize: nat, representation: seq<nat>)

  datatype Binding = Binding(target: Target, sources: seq<Source>, overlay: Option<Digest>) {
    /** The binding without its overlay. */
    function Base(): Binding {
      this.(overlay := None)
    }
  }

  /** An opened checkpoint with the source digests of its plan, and the plan's backend. */
  datatype World = World(files: seq<seq<byte>>, digests: seq<Digest>, backend: Digest)

  datatype OrderedSource = OrderedSource(source: Source, digests: seq<SourceDigest>)

  datatype Compatibility = Compatibility(transform: Digest, backend: Digest)

  datatype KeyInput = KeyInput(compatibility: Compatibility, sources: Digest, name: seq<byte>)

  datatype Address = Address(key: Digest, compatibility: Compatibility)

  /** Serialization, hashing, the deterministic host execution of a target on source bytes, and
      the final bytes a consumer of overlays, recipes or quantized routes produces. */
  datatype Environment = Environment(
    json: Target -> seq<byte>,
    digestBytes: Digest -> seq<byte>,
    hash: seq<byte> -> Digest,
    contractHash: seq<byte> -> Digest,
    sourcesHash: seq<OrderedSource> -> Digest,
    keyHash: KeyInput -> Digest,
    host: (Target, Digest, seq<seq<seq<byte>>>) -> Result<seq<byte>>,
    provider: (Target, Digest, seq<Source>, seq<seq<seq<byte>>>, Option<Digest>) -> seq<byte>)

  ghost predicate PrintableJson(env: Environment) {
    forall t, i :: 0 <= i < |env.json(t)| ==> env.json(t)[i] >= 32
  }

  ghost predicate CollisionFree(env: Environment) {
    && Injective(env.json) && PrintableJson(env)
    && Injective(env.digestBytes)
    && Injective(env.hash) && Injective(env.contractHash) && Injective(env.sourcesHash) && Injective(env.keyHash)
  }

  // ----- sources -----

  function SpanFiles(spans: seq<Span>): (files: seq<nat>)
    ensures |files| == |spans| && forall i :: 0 <= i < |spans| ==> files[i] == spans[i].file
  {
    if spans == [] then [] else SpanFiles(spans[..|spans| - 1]) + [spans[|spans| - 1].file]
  }

  function Ordinals(s: Source): seq<nat> {
    Deduplicated(SpanFiles(s.Spans()))
  }

  ghost predicate ValidWorld(env: Environment, w: World) {
    |w.digests| == |w.files| && forall i :: 0 <= i < |w.files| ==> w.digests[i] == env.hash(w.files[i])
  }

  predicate InFile(s: Span, w: World) {
    s.file < |w.files| && s.offset + s.length <= |w.files[s.file]|
  }

  /** Spans validated against the opened checkpoint. */
  ghost predicate ValidBinding(w: World, b: Binding) {
    && |w.digests| == |w.files|
    && b.sources != []
    && forall i, j :: 0 <= i < |b.sources| && 0 <= j < |b.sources[i].Spans()| ==> InFile(b.sources[i].Spans()[j], w)
  }

  lemma OrdinalsCovered(w: World, b: Binding, i: nat)
    requires ValidBinding(w, b) && i < |b.sources|
    ensures Covered(Ordinals(b.sources[i]), w.digests)
    ensures forall j :: 0 <= j < |b.sources[i].Spans()| ==> b.sources[i].Spans()[j].file in Ordinals(b.sources[i])
  {
    var spans := b.sources[i].Spans();
    var files := SpanFiles(spans);
    DeduplicatedIsAscending(files);
    forall k | 0 <= k < |Ordinals(b.sources[i])|
      ensures Ordinals(b.sources[i])[k] < |w.digests|
    {
      assert Ordinals(b.sources[i])[k] in files;
      var j :| 0 <= j < |files| && files[j] == Ordinals(b.sources[i])[k];
      assert InFile(spans[j], w);
    }
    forall j | 0 <= j < |spans|
      ensures spans[j].file in Ordinals(b.sources[i])
    {
      assert files[j] in files;
    }
  }

  function ReadSpan(w: World, s: Span): seq<byte>
    requires InFile(s, w)
  {
    w.files[s.file][s.offset..s.offset + s.length]
  }

  ghost predicate BytesAre(w: World, spans: seq<Span>, bytes: seq<seq<byte>>) {
    |bytes| == |spans| && forall j :: 0 <= j < |spans| ==> InFile(spans[j], w) && bytes[j] == ReadSpan(w, spans[j])
  }

  function ReadSpans(w: World, spans: seq<Span>): (bytes: seq<seq<byte>>)
    requires forall j :: 0 <= j < |spans| ==> InFile(spans[j], w)
    ensures BytesAre(w, spans, bytes)
  {
    if spans == [] then [] else ReadSpans(w, spans[..|spans| - 1]) + [ReadSpan(w, spans[|spans| - 1])]
  }

  ghost predicate AllBytesAre(w: World, sources: seq<Source>, bytes: seq<seq<seq<byte>>>) {
    |bytes| == |sources| && forall i :: 0 <= i < |sources| ==> BytesAre(w, sources[i].Spans(), bytes[i])
  }

  function ReadSources(w: World, sources: seq<Source>): (bytes: seq<seq<seq<byte>>>)
    requires forall i, j :: 0 <= i < |sources| && 0 <= j < |sources[i].Spans()| ==> InFile(sources[i].Spans()[j], w)
    ensures AllBytesAre(w, sources, bytes)
  {
    if sources == [] then []
    else
      var n := |sources| - 1;
      ReadSources(w, sources[..n]) + [ReadSpans(w, sources[n].Spans())]
  }

  function SourceBytes(w: World, b: Binding): (bytes: seq<seq<seq<byte>>>)
    requires ValidBinding(w, b)
    ensures AllBytesAre(w, b.sources, bytes)
  {
    ReadSources(w, b.sources)
  }

  // ----- the address -----

  /** Whether the binding ends in final host bytes that can be cached. */
  predicate HasFinalHostOutput(b: Binding)
    requires b.sources != []
  {
    match b.target.work
    case Graph(outputIsInput, _) => b.overlay.Some? || !outputIsInput
    case Chain(transforms, recipe, route) =>
      if b.sources[0].quantized then route == Some(true)
      else recipe.Some? || transforms != [] || b.overlay.Some?
  }

  function ContractBytes(env: Environment, t: Target, overlay: Option<Digest>): seq<byte> {
    env.json(t) + match overlay { case Some(d) => [1] + env.digestBytes(d) case None => [0] }
  }

  ghost predicate OrderedAre(w: World, sources: seq<Source>, os: seq<OrderedSource>) {
    |os| == |sources| && forall i :: 0 <= i < |sources| ==>
      Covered(Ordinals(sources[i]), w.digests) && os[i] == OrderedSource(sources[i], DigestsAt(Ordinals(sources[i]), w.digests))
  }

  function OrderedSources(w: World, sources: seq<Source>): (os: seq<OrderedSource>)
    requires forall i :: 0 <= i < |sources| ==> Covered(Ordinals(sources[i]), w.digests)
    ensures OrderedAre(w, sources, os)
  {
    if sources == [] then []
    else
      var n := |sources| - 1;
      OrderedSources(w, sources[..n]) + [OrderedSource(sources[n], DigestsAt(Ordinals(sources[n]), w.digests))]
  }

  lemma AllCovered(w: World, b: Binding)
    requires ValidBinding(w, b)
    ensures forall i :: 0 <= i < |b.sources| ==> Covered(Ordinals(b.sources[i]), w.digests)
  {
    forall i | 0 <= i < |b.sources|
      ensures Covered(Ordinals(b.sources[i]), w.digests)
    {
      OrdinalsCovered(w, b, i);
    }
  }

  function CompatibilityOf(env: Environment, w: World, b: Binding): Compatibility {
    Compatibility(env.contractHash(ContractBytes(env, b.target, b.overlay)), w.backend)
  }

  function AddressOf(env: Environment, w: World, b: Binding): Address
    requires ValidBinding(w, b)
  {
    AllCovered(w, b);
    var compatibility := CompatibilityOf(env, w, b);
    var content := env.sourcesHash(OrderedSources(w, b.sources));
    Address(env.keyHash(KeyInput(compatibility, content, b.target.name)), compatibility)
  }

  // ----- equal addresses -----

  lemma PrintablePrefix(env: Environment, t: Target, c: seq<byte>)
    requires PrintableJson(env) && env.json(t) <= c
    ensures forall k :: 0 <= k < |env.json(t)| ==> c[k] >= 32
  {
    forall k | 0 <= k < |env.json(t)|
      ensures c[k] >= 32
    {
      assert c[k] == env.json(t)[k];
    }
  }

  /** The contract bytes determine the target and the overlay: the flag is the first byte
      that cannot occur in JSON. */
  lemma ContractBytesAreInjective(env: Environment, t: Target, o: Option<Digest>, t': Target, o': Option<Digest>)
    requires Injective(env.json) && PrintableJson(env) && Injective(env.digestBytes)
    requires ContractBytes(env, t, o) == ContractBytes(env, t', o')
    ensures t == t' && o == o'
  {
    var j, j' := env.json(t), env.json(t');
    var c := ContractBytes(env, t, o);
    assert c[|j|] < 32 && c[|j'|] < 32;
    PrintablePrefix(env, t, c);
    PrintablePrefix(env, t', c);
    assert j == c[..|j|] == j';
    assert c[|j|] == (if o.Some? then 1 else 0) == (if o'.Some? then 1 else 0);
    if o.Some? {
      assert env.digestBytes(o.value) == c[|j| + 1..] == env.digestBytes(o'.value);
    }
  }

  /** Files with the same digests at the referenced ordinals hold the same source bytes. */
  lemma SameSpanBytes(env: Environment, w: World, v: World, s: Source, j: nat)
    requires ValidWorld(env, w) && ValidWorld(env, v) && Injective(env.hash)
    requires Covered(Ordinals(s), w.digests) && Covered(Ordinals(s), v.digests)
    requires DigestsAt(Ordinals(s), w.digests) == DigestsAt(Ordinals(s), v.digests)
    requires j < |s.Spans()| && s.Spans()[j].file in Ordinals(s)
    ensures s.Spans()[j].file < |w.files| && s.Spans()[j].file < |v.files|
    ensures w.files[s.Spans()[j].file] == v.files[s.Spans()[j].file]
  {
    var os, f := Ordinals(s), s.Spans()[j].file;
    hide Ordinals;
    var k :| 0 <= k < |os| && os[k] == f;
    assert DigestsAt(os, w.digests)[k].content == DigestsAt(os, v.digests)[k].content;
    assert env.hash(w.files[f]) == env.hash(v.files[f]);
  }

  lemma SameBytes(w: World, v: World, sources: seq<Source>, a: seq<seq<seq<byte>>>, b: seq<seq<seq<byte>>>)
    requires AllBytesAre(w, sources, a) && AllBytesAre(v, sources, b)
    requires forall i, j :: 0 <= i < |sources| && 0 <= j < |sources[i].Spans()| ==>
               InFile(sources[i].Spans()[j], w) && InFile(sources[i].Spans()[j], v)
               && ReadSpan(w, sources[i].Spans()[j]) == ReadSpan(v, sources[i].Spans()[j])
    ensures a == b
  {
    forall i | 0 <= i < |sources|
      ensures a[i] == b[i]
    {
      forall j | 0 <= j < |sources[i].Spans()|
        ensures a[i][j] == b[i][j]
      {
      }
    }
  }

  lemma SameKeyInput(env: Environment, w: World, b: Binding, v: World, c: Binding)
    requires CollisionFree(env) && ValidBinding(w, b) && ValidBinding(v, c)
    requires AddressOf(env, w, b) == AddressOf(env, v, c)
    ensures b.target == c.target && b.overlay == c.overlay && w.backend == v.backend
    ensures forall i :: 0 <= i < |b.sources| ==> Covered(Ordinals(b.sources[i]), w.digests)
    ensures forall i :: 0 <= i < |c.sources| ==> Covered(Ordinals(c.sources[i]), v.digests)
    ensures OrderedSources(w, b.sources) == OrderedSources(v, c.sources)
  {
    hide ContractBytes, Ordinals, OrderedSources, ValidBinding;
    AllCovered(w, b);
    AllCovered(v, c);
    ContractBytesAreInjective(env, b.target, b.overlay, c.target, c.overlay) by {
      assert env.contractHash(ContractBytes(env, b.target, b.overlay)) == env.contractHash(ContractBytes(env, c.target, c.overlay));
    }
    var content, content' := OrderedSources(w, b.sources), OrderedSources(v, c.sources);
    assert KeyInput(CompatibilityOf(env, w, b), env.sourcesHash(content), b.target.name)
           == KeyInput(CompatibilityOf(env, v, c), env.sourcesHash(content'), c.target.name);
    assert env.sourcesHash(content) == env.sourcesHash(content');
  }

  /** Equal addresses, even of bindings from different checkpoints and plans, mean the same
      target, overlay, backend and sources, and the same source bytes. */
  lemma AddressDeterminesInputs(env: Environment, w: World, b: Binding, v: World, c: Binding)
    requires CollisionFree(env) && ValidWorld(env, w) && ValidWorld(env, v)
    requires ValidBinding(w, b) && ValidBinding(v, c)
    requires AddressOf(env, w, b) == AddressOf(env, v, c)
    ensures b == c && w.backend == v.backend
    ensures SourceBytes(w, b) == SourceBytes(v, c)
  {
    hide AddressOf, OrderedSources, Ordinals, ReadSources;
    SameKeyInput(env, w, b, v, c);
    var os, os' := OrderedSources(w, b.sources), OrderedSources(v, c.sources);
    assert |b.sources| == |c.sources|;
    forall i | 0 <= i < |b.sources|
      ensures b.sources[i] == c.sources[i]
      ensures DigestsAt(Ordinals(b.sources[i]), w.digests) == DigestsAt(Ordinals(c.sources[i]), v.digests)
    {
      assert os[i] == os'[i];
    }
    assert b.sources == c.sources;
    forall i, j | 0 <= i < |b.sources| && 0 <= j < |b.sources[i].Spans()|
      ensures InFile(b.sources[i].Spans()[j], w) && InFile(b.sources[i].Spans()[j], v)
      ensures ReadSpan(w, b.sources[i].Spans()[j]) == ReadSpan(v, b.sources[i].Spans()[j])
    {
      OrdinalsCovered(w, b, i);
      SameSpanBytes(env, w, v, b.sources[i], j);
    }
    SameBytes(w, v, b.sources, SourceBytes(w, b), SourceBytes(v, c));
  }

  /** The files in which the sources lie have the same digests in both checkpoints. */
  ghost predicate SameFileDigests(w: World, v: World, b: Binding)
    requires ValidBinding(w, b) && ValidBinding(v, b)
  {
    forall i, j :: 0 <= i < |b.sources| && 0 <= j < |b.sources[i].Spans()| ==>
      w.digests[FileOf(w, b, i, j)] == v.digests[FileOf(v, b, i, j)]
  }

  function FileOf(w: World, b: Binding, i: nat, j: nat): (file: nat)
    requires ValidBinding(w, b) && i < |b.sources| && j < |b.sources[i].Spans()|
    ensures file < |w.digests|
  {
    assert InFile(b.sources[i].Spans()[j], w);
    b.sources[i].Spans()[j].file
  }

  lemma OrdinalHasSpan(s: Source, o: nat) returns (j: nat)
    requires o in Ordinals(s)
    ensures j < |s.Spans()| && s.Spans()[j].file == o
  {
    var files := SpanFiles(s.Spans());
    DeduplicatedIsAscending(files);
    assert o in files;
    j :| 0 <= j < |files| && files[j] == o;
  }

  lemma SameOrderedSources(w: World, v: World, b: Binding)
    requires ValidBinding(w, b) && ValidBinding(v, b) && SameFileDigests(w, v, b)
    ensures forall i :: 0 <= i < |b.sources| ==> Covered(Ordinals(b.sources[i]), w.digests) && Covered(Ordinals(b.sources[i]), v.digests)
    ensures OrderedSources(w, b.sources) == OrderedSources(v, b.sources)
  {
    AllCovered(w, b);
    AllCovered(v, b);
    var os, os' := OrderedSources(w, b.sources), OrderedSources(v, b.sources);
    hide OrderedSources, Ordinals, ValidBinding;
    forall i | 0 <= i < |b.sources| ensures os[i] == os'[i] {
      var ordinals := Ordinals(b.sources[i]);
      var ds, ds' := DigestsAt(ordinals, w.digests), DigestsAt(ordinals, v.digests);
      forall k | 0 <= k < |ordinals| ensures ds[k] == ds'[k] {
        var j := OrdinalHasSpan(b.sources[i], ordinals[k]);
        assert FileOf(w, b, i, j) == FileOf(v, b, i, j) == ordinals[k];
      }
    }
  }

  /** Two bindings have the same address if and only if they are the same binding under the same
      backend and the files their sources lie in have the same digests: nothing else of the
      plans or checkpoints counts. */
  lemma AddressIsExactly(env: Environment, w: World, b: Binding, v: World, c: Binding)
    requires CollisionFree(env) && ValidBinding(w, b) && ValidBinding(v, c)
    ensures AddressOf(env, w, b) == AddressOf(env, v, c)
            <==> b == c && w.backend == v.backend && SameFileDigests(w, v, b)
  {
    if b == c && w.backend == v.backend && SameFileDigests(w, v, b) {
      SameOrderedSources(w, v, b);
    }
    if AddressOf(env, w, b) == AddressOf(env, v, c) {
      SameKeyInput(env, w, b, v, c);
      SameSources(w, v, b, c);
    }
  }

  lemma SameSources(w: World, v: World, b: Binding, c: Binding)
    requires ValidBinding(w, b) && ValidBinding(v, c)
    requires b.target == c.target && b.overlay == c.overlay
    requires forall i :: 0 <= i < |b.sources| ==> Covered(Ordinals(b.sources[i]), w.digests)
    requires forall i :: 0 <= i < |c.sources| ==> Covered(Ordinals(c.sources[i]), v.digests)
    requires OrderedSources(w, b.sources) == OrderedSources(v, c.sources)
    ensures b == c && SameFileDigests(w, v, b)
  {
    var os, os' := OrderedSources(w, b.sources), OrderedSources(v, c.sources);
    hide OrderedSources, Ordinals;
    forall i | 0 <= i < |b.sources| ensures b.sources[i] == c.sources[i] {
      assert os[i] == os'[i];
    }
    assert b.sources == c.sources;
    forall i, j | 0 <= i < |b.sources| && 0 <= j < |b.sources[i].Spans()|
      ensures w.digests[FileOf(w, b, i, j)] == v.digests[FileOf(v, b, i, j)]
    {
      OrdinalsCovered(w, b, i);
      assert os[i] == os'[i];
      var ordinals := Ordinals(b.sources[i]);
      var k :| 0 <= k < |ordinals| && ordinals[k] == b.sources[i].Spans()[j].file;
      assert DigestsAt(ordinals, w.digests)[k] == DigestsAt(ordinals, v.digests)[k];
    }
  }
}
