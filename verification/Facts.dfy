/** Validated physical and logical facts of one dense tensor, and the logical tensor that a
    byte buffer denotes under them. */
module Facts {
  import opened Checked
  import opened Shapes
  import opened Strides
  import opened Buffers

  datatype DType =
    | Bool | U8 | I8 | U16 | I16 | U32 | I32 | U64 | I64
    | F16 | Bf16 | F32 | F64 | C64
    | F8E5M2 | F8E4M3 | F8E8M0 | F8E4M3Fnuz | F8E5M2Fnuz
  {
    function Bits(): nat {
      match this
      case U16 | I16 | F16 | Bf16 => 16
      case U32 | I32 | F32 => 32
      case U64 | I64 | F64 | C64 => 64
      case _ => 8
    }

    /** The scalar width in bytes; every dtype is byte-aligned. */
    function Width(): nat {
      Bits() / 8
    }

    function ByteLen(shape: Shape): Result<nat> {
      match CheckedElements(shape)
      case Err(e) => Err(e)
      case Ok(elements) => CheckedMul(elements, Width())
    }
  }

  datatype Layout = Contiguous | Custom(name: string)

  datatype Representation = Representation(dtype: DType, layout: Layout)

  datatype TensorFacts = TensorFacts(
    logicalShape: Shape,
    storageShape: Shape,
    logicalStrides: seq<nat>,
    storageStrides: seq<nat>,
    rep: Representation,
    byteLen: nat)
  {
    function Width(): nat {
      rep.dtype.Width()
    }

    /** Contiguous representation with equal logical and physical row-major order. */
    predicate Canonical() {
      rep.layout.Contiguous? && logicalShape == storageShape
      && ContiguousStrides(logicalShape) == Ok(logicalStrides)
      && logicalStrides == storageStrides
    }
  }

  /** Checked construction, in the order of the original checks. */
  function NewFacts(logicalShape: Shape, storageShape: Shape, logicalStrides: seq<nat>, storageStrides: seq<nat>,
                    rep: Representation, byteLen: nat): Result<TensorFacts>
  {
    if |logicalShape| > U32_MAX || |storageShape| > U32_MAX then Err(ResourceLimit)
    else if |logicalShape| != |storageShape| || |logicalShape| != |logicalStrides| || |logicalShape| != |storageStrides|
    then Err(InvalidFormat)
    else
      var logicalElements :- CheckedElements(logicalShape);
      var storageElements :- CheckedElements(storageShape);
      var _ :- ValidateDenseStrides(logicalShape, logicalStrides, logicalElements);
      var _ :- ValidateStorageStrides(logicalShape, storageStrides, logicalElements, storageElements);
      var _ :- ContiguousLayoutCheck(logicalShape, storageShape, storageStrides, rep.layout);
      var expected :- rep.dtype.ByteLen(storageShape);
      if byteLen != expected then Err(InvalidFormat)
      else Ok(TensorFacts(logicalShape, storageShape, logicalStrides, storageStrides, rep, byteLen))
  }

  function ContiguousLayoutCheck(logicalShape: Shape, storageShape: Shape, storageStrides: seq<nat>, layout: Layout)
    : Result<()>
  {
    if layout.Contiguous? then
      var expected :- ContiguousStrides(logicalShape);
      if storageShape != logicalShape || storageStrides != expected then Err(InvalidFormat) else Ok(())
    else Ok(())
  }

  function ContiguousFacts(shape: Shape, rep: Representation): Result<TensorFacts> {
    if !rep.layout.Contiguous? then Err(InvalidFormat)
    else
      var strides :- ContiguousStrides(shape);
      var byteLen :- rep.dtype.ByteLen(shape);
      NewFacts(shape, shape, strides, strides, rep, byteLen)
  }

  /** Facts that checked construction returns. */
  predicate ValidFacts(f: TensorFacts) {
    NewFacts(f.logicalShape, f.storageShape, f.logicalStrides, f.storageStrides, f.rep, f.byteLen) == Ok(f)
  }

  /** What validation guarantees to every kernel. */
  lemma ValidFactsGuarantee(f: TensorFacts)
    requires ValidFacts(f)
    ensures |f.logicalShape| == |f.storageShape| == |f.logicalStrides| == |f.storageStrides| <= U32_MAX
    ensures Elements(f.logicalShape) <= U64_MAX && Elements(f.storageShape) <= U64_MAX
    ensures f.byteLen == Elements(f.storageShape) * f.Width() <= U64_MAX && f.Width() > 0
    ensures Elements(f.logicalShape) > 0 ==>
              Injective(f.logicalShape, f.storageStrides)
              && Below(f.logicalShape, f.storageStrides, Elements(f.storageShape))
              && SuffixesFit(f.logicalShape)
    ensures f.rep.layout.Contiguous? ==>
              f.storageShape == f.logicalShape && ContiguousStrides(f.logicalShape) == Ok(f.storageStrides)
  {
    CheckedElementsIsProduct(f.logicalShape);
    CheckedElementsIsProduct(f.storageShape);
    if Elements(f.logicalShape) > 0 {
      StorageAcceptanceIsSound(f.logicalShape, f.storageStrides, Elements(f.storageShape));
      NonEmptySuffixesFit(f.logicalShape);
    }
  }

  /** A result of checked construction is valid facts carrying the arguments. */
  lemma NewFactsIsValid(logicalShape: Shape, storageShape: Shape, logicalStrides: seq<nat>, storageStrides: seq<nat>,
                        rep: Representation, byteLen: nat)
    ensures var r := NewFacts(logicalShape, storageShape, logicalStrides, storageStrides, rep, byteLen);
            r.Ok? ==> ValidFacts(r.value)
                      && r.value == TensorFacts(logicalShape, storageShape, logicalStrides, storageStrides, rep, byteLen)
  {
  }

  /** Which facts are accepted: the ranks agree, the counts fit, the logical strides map the
      coordinates one to one onto the elements, the storage strides keep every element apart
      inside the allocation, a contiguous layout is row-major, and the byte length is that of
      the storage. */
  lemma FactsAcceptedExactly(logicalShape: Shape, storageShape: Shape, logicalStrides: seq<nat>, storageStrides: seq<nat>,
                             rep: Representation, byteLen: nat)
    ensures NewFacts(logicalShape, storageShape, logicalStrides, storageStrides, rep, byteLen).Ok?
            <==> && |logicalShape| <= U32_MAX
                 && |logicalShape| == |storageShape| == |logicalStrides| == |storageStrides|
                 && PrefixesFit(logicalShape) && PrefixesFit(storageShape)
                 && (Elements(logicalShape) > 0 ==>
                       && Injective(logicalShape, logicalStrides)
                       && Below(logicalShape, logicalStrides, Elements(logicalShape))
                       && Onto(logicalShape, logicalStrides, Elements(logicalShape))
                       && Spaced(logicalShape, storageStrides)
                       && Offset(Furthest(logicalShape), storageStrides) < Elements(storageShape))
                 && (rep.layout.Contiguous? ==>
                       storageShape == logicalShape && SuffixesFit(logicalShape) && storageStrides == RowStrides(logicalShape))
                 && byteLen == Elements(storageShape) * rep.dtype.Width() <= U64_MAX
  {
    hide ValidateDenseStrides, ValidateStorageStrides, Elements, Injective, Below, Onto, Spaced, PrefixesFit, SuffixesFit, CheckedElements;
    CheckedElementsExactly(logicalShape);
    CheckedElementsExactly(storageShape);
    PrefixesFitWhole(logicalShape);
    PrefixesFitWhole(storageShape);
    if |logicalShape| == |logicalStrides| == |storageStrides| && PrefixesFit(logicalShape) && PrefixesFit(storageShape) {
      if Elements(logicalShape) > 0 {
        DenseAcceptanceIsBijection(logicalShape, logicalStrides);
        StorageAcceptedExactly(logicalShape, storageStrides, Elements(storageShape));
      } else {
        NoElementsAccepted(logicalShape, logicalStrides, storageStrides, Elements(storageShape));
      }
    }
  }

  lemma PrefixesFitWhole(shape: Shape)
    ensures PrefixesFit(shape) ==> Elements(shape) <= U64_MAX
  {
    assert shape[..|shape|] == shape;
  }

  lemma NoElementsAccepted(shape: Shape, logicalStrides: seq<nat>, storageStrides: seq<nat>, storageElements: nat)
    requires |shape| == |logicalStrides| == |storageStrides|
    ensures ValidateDenseStrides(shape, logicalStrides, 0).Ok?
    ensures ValidateStorageStrides(shape, storageStrides, 0, storageElements).Ok?
  {
  }

  lemma ContiguousFactsShape(shape: Shape, rep: Representation)
    ensures var r := ContiguousFacts(shape, rep);
            r.Ok? ==> ValidFacts(r.value) && r.value.Canonical() && r.value.logicalShape == shape && r.value.rep == rep
  {
  }

  /** Contiguous facts of a non-empty shape are rejected only for a size that does not fit:
      their strides always pass validation. */
  lemma ContiguousFactsAccepted(shape: Shape, rep: Representation)
    requires rep.layout.Contiguous? && |shape| <= U32_MAX && Elements(shape) > 0
    ensures ContiguousFacts(shape, rep).Ok? <==> Elements(shape) * rep.dtype.Width() <= U64_MAX
  {
    CheckedElementsIsProduct(shape);
    MulMono(1, rep.dtype.Width(), Elements(shape));
    if Elements(shape) * rep.dtype.Width() <= U64_MAX {
      NonEmptySuffixesFit(shape);
      RowMajorIsAccepted(shape);
    }
  }

  // ---------- Logical tensors ----------

  /** A logical tensor: its elements in row-major order. */
  datatype Tensor = Tensor(shape: Shape, elems: seq<Elem>) {
    ghost predicate Valid() {
      |elems| == Elements(shape)
    }

    /** The element at a coordinate vector. */
    ghost function At(c: seq<nat>): Elem
      requires Valid() && InBox(c, shape)
    {
      CoordsOfLinear(shape, c);
      elems[Linear(shape, c)]
    }
  }

  /** The storage position of each logical element, in row-major order. */
  ghost function StorageIndex(shape: Shape, strides: seq<nat>): (idx: seq<nat>)
    requires |shape| == |strides|
    ensures |idx| == Elements(shape)
  {
    seq(Elements(shape), l requires 0 <= l < Elements(shape) => Offset(Coords(shape, l), strides))
  }

  lemma StorageIndexIsExact(f: TensorFacts)
    requires ValidFacts(f)
    ensures |f.logicalShape| == |f.storageStrides|
    ensures var idx := StorageIndex(f.logicalShape, f.storageStrides);
            && (forall i :: 0 <= i < |idx| ==> idx[i] < Elements(f.storageShape))
            && (forall i, j :: 0 <= i < |idx| && 0 <= j < |idx| && i != j ==> idx[i] != idx[j])
  {
    ValidFactsGuarantee(f);
    var shape, strides := f.logicalShape, f.storageStrides;
    var idx := StorageIndex(shape, strides);
    forall i, j | 0 <= i < |idx| && 0 <= j < |idx| && i != j ensures idx[i] != idx[j] {
      LinearOfCoords(shape, i);
      LinearOfCoords(shape, j);
      assert Coords(shape, i) != Coords(shape, j);
    }
  }

  ghost function Gather(store: seq<Elem>, idx: seq<nat>): (r: seq<Elem>)
    requires forall i :: 0 <= i < |idx| ==> idx[i] < |store|
    ensures |r| == |idx|
  {
    seq(|idx|, i requires 0 <= i < |idx| => store[idx[i]])
  }

  /** The buffer has the recorded length. */
  predicate Sized(f: TensorFacts, bytes: seq<byte>) {
    |bytes| == f.byteLen
  }

  ghost function Store(f: TensorFacts, bytes: seq<byte>): (c: seq<Elem>)
    requires ValidFacts(f) && Sized(f, bytes)
    ensures |c| == Elements(f.storageShape)
  {
    ValidFactsGuarantee(f);
    Chunks(bytes, f.Width(), Elements(f.storageShape))
  }

  /** The logical tensor that a buffer denotes. */
  ghost function View(f: TensorFacts, bytes: seq<byte>): (t: Tensor)
    requires ValidFacts(f) && Sized(f, bytes)
    ensures t.Valid() && t.shape == f.logicalShape
  {
    StorageIndexIsExact(f);
    Tensor(f.logicalShape, Gather(Store(f, bytes), StorageIndex(f.logicalShape, f.storageStrides)))
  }

  /** Reading a view at a coordinate is reading the storage at its strided offset. */
  lemma ViewAt(f: TensorFacts, bytes: seq<byte>, c: seq<nat>)
    requires ValidFacts(f) && Sized(f, bytes) && InBox(c, f.logicalShape)
    ensures |f.storageStrides| == |c| && Offset(c, f.storageStrides) < Elements(f.storageShape)
    ensures View(f, bytes).At(c) == Store(f, bytes)[Offset(c, f.storageStrides)]
  {
    ValidFactsGuarantee(f);
    CoordsOfLinear(f.logicalShape, c);
  }

  /** Storage positions that no coordinate reaches hold zero. */
  ghost predicate PadsZero(f: TensorFacts, bytes: seq<byte>)
    requires ValidFacts(f) && Sized(f, bytes)
  {
    StorageIndexIsExact(f);
    forall o :: 0 <= o < Elements(f.storageShape) && o !in StorageIndex(f.logicalShape, f.storageStrides) ==>
                  Store(f, bytes)[o] == Zeros(f.Width())
  }

  /** Canonical storage is the row-major list itself, without padding. */
  lemma CanonicalView(f: TensorFacts, bytes: seq<byte>)
    requires ValidFacts(f) && f.Canonical() && Sized(f, bytes)
    ensures View(f, bytes).elems == Store(f, bytes) && PadsZero(f, bytes)
  {
    var shape := f.logicalShape;
    var idx := StorageIndex(shape, f.storageStrides);
    forall l | 0 <= l < |idx| ensures idx[l] == l {
      LinearOfCoords(shape, l);
      OffsetIsLinear(shape, Coords(shape, l));
    }
    StorageIndexIsExact(f);
    forall o | 0 <= o < Elements(shape) ensures o in idx {
      assert idx[o] == o;
    }
  }

  /** Two buffers with the same view and zero padding are the same bytes. */
  lemma ViewDeterminesBytes(f: TensorFacts, a: seq<byte>, b: seq<byte>)
    requires ValidFacts(f) && Sized(f, a) && Sized(f, b) && View(f, a) == View(f, b)
    requires PadsZero(f, a) && PadsZero(f, b)
    ensures a == b
  {
    ValidFactsGuarantee(f);
    StorageIndexIsExact(f);
    var idx := StorageIndex(f.logicalShape, f.storageStrides);
    forall o | 0 <= o < Elements(f.storageShape) ensures Store(f, a)[o] == Store(f, b)[o] {
      if o in idx {
        var i :| 0 <= i < |idx| && idx[i] == o;
        assert View(f, a).elems[i] == Store(f, a)[o] && View(f, b).elems[i] == Store(f, b)[o];
      }
    }
    ChunksDetermineBytes(a, b, f.Width(), Elements(f.storageShape));
  }

  /** Scattering a row-major list into a zeroed buffer stores exactly that tensor. */
  lemma ScatteredIsStored(f: TensorFacts, bytes: seq<byte>, elems: seq<Elem>)
    requires ValidFacts(f) && Sized(f, bytes) && |elems| == Elements(f.logicalShape)
    requires |f.logicalShape| == |f.storageStrides|
    requires var idx := StorageIndex(f.logicalShape, f.storageStrides);
             && (forall i :: 0 <= i < |idx| ==> idx[i] < Elements(f.storageShape))
             && Store(f, bytes)
                == Scattered(seq(Elements(f.storageShape), _ => Zeros(f.Width())), elems, idx, |idx|)
    ensures View(f, bytes).elems == elems && PadsZero(f, bytes)
  {
    StorageIndexIsExact(f);
    var idx := StorageIndex(f.logicalShape, f.storageStrides);
    var init := seq(Elements(f.storageShape), _ => Zeros(f.Width()));
    forall i | 0 <= i < |idx| ensures View(f, bytes).elems[i] == elems[i] {
      ScatterHit(init, elems, idx, |idx|, i);
    }
    forall o | 0 <= o < Elements(f.storageShape) && o !in idx ensures Store(f, bytes)[o] == Zeros(f.Width()) {
      ScatterMiss(init, elems, idx, |idx|, o);
    }
  }
}
