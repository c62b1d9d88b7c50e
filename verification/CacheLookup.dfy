/** A cache lookup beside one replacement: every file-system read may see a later moment of the
    publication than the read before it. */
module CacheLookup {
  import opened Checked
  import opened Buffers
  import opened CacheStore

  // ---------- The directory over time ----------

  /** Moments of one replacement.  A failed installation moves the old entry back. */
  datatype Moment = Before | Between | After | Removing(metadata: bool, payload: bool) | Removed | Restored

  /** The order of the moments; removal deletes the files of the old entry one by one. */
  predicate Leads(a: Moment, b: Moment) {
    match a
    case Before => true
    case Between => !b.Before?
    case After => b.After? || b.Removing? || b.Removed?
    case Removing(m, p) => (b.Removing? && (b.metadata ==> m) && (b.payload ==> p)) || b.Removed?
    case Removed => b.Removed?
    case Restored => b.Restored?
  }

  /** Successive reads see successive moments. */
  ghost predicate InOrder(moments: nat -> Moment) {
    forall i, j :: 0 <= i <= j ==> Leads(moments(i), moments(j))
  }

  /** The two names of the replaced key at one moment. */
  datatype Place = AtFinal | AtPrevious

  function EntryAt(before: Entry, after: Entry, place: Place, m: Moment): Option<Entry> {
    match place
    case AtFinal =>
      (match m
       case Before | Restored => Some(before)
       case Between => None
       case _ => Some(after))
    case AtPrevious =>
      (match m
       case Between | After => Some(before)
       case Removing(hasMetadata, hasPayload) =>
         Some(Entry(if hasMetadata then before.envelope else None, if hasPayload then before.payload else None))
       case _ => None)
  }

  // ---------- One entry path ----------

  datatype Validation = SizeOnly | Full

  datatype Request = Request(version: nat, namespace: nat, key: Key, compatibility: string, validation: Validation)

  /** A content digest of a payload. */
  type Digest = seq<byte> -> nat

  datatype Lookup = Hit(envelope: Envelope, payload: seq<byte>) | Miss

  predicate Accepts(r: Request, e: Envelope) {
    e.version == r.version && e.namespace == r.namespace && e.key == r.key && e.compatibility == r.compatibility
  }

  predicate PayloadFits(r: Request, digest: Digest, e: Envelope, payload: seq<byte>) {
    |payload| == e.payloadLen && (r.validation.Full? ==> digest(payload) == e.payloadDigest)
  }

  /** A complete generation that satisfies the request. */
  predicate Satisfies(r: Request, digest: Digest, e: Entry) {
    e.envelope.Some? && e.payload.Some? && Accepts(r, e.envelope.value)
    && PayloadFits(r, digest, e.envelope.value, e.payload.value)
  }

  /** Three reads: the directory, the envelope, and the payload file. */
  function LookupPath(r: Request, digest: Digest, directory: Option<Entry>, metadata: Option<Entry>, payload: Option<Entry>)
    : Lookup
  {
    if directory.None? then Miss
    else if metadata.None? || metadata.value.envelope.None? then Miss
    else if !Accepts(r, metadata.value.envelope.value) then Miss
    else if payload.None? || payload.value.payload.None? then Miss
    else if !PayloadFits(r, digest, metadata.value.envelope.value, payload.value.payload.value) then Miss
    else Hit(metadata.value.envelope.value, payload.value.payload.value)
  }

  /** The lookup of one place by the three reads from number `n` on. */
  function LookupAt(r: Request, digest: Digest, before: Entry, after: Entry, moments: nat -> Moment, place: Place, n: nat): Lookup {
    LookupPath(r, digest, EntryAt(before, after, place, moments(n)), EntryAt(before, after, place, moments(n + 1)),
               EntryAt(before, after, place, moments(n + 2)))
  }

  // ---------- The whole lookup ----------

  /** Replaced generations listed at one moment. */
  function Listed(m: Moment): nat {
    if m.Between? || m.After? || m.Removing? then 1 else 0
  }

  /** First attempt, listing of the replaced generations, second attempt, the listed ones, and a
      last attempt. */
  method LookupEntry(r: Request, digest: Digest, before: Entry, after: Entry, moments: nat -> Moment) returns (result: Lookup)
    ensures result == LookupResult(r, digest, before, after, moments)
  {
    var first := LookupAt(r, digest, before, after, moments, AtFinal, 0);
    if first.Hit? {
      return first;
    }
    var previous := Listed(moments(3));
    var retry := LookupAt(r, digest, before, after, moments, AtFinal, 4);
    if retry.Hit? {
      return retry;
    }
    var k := 0;
    while k < previous
      invariant 0 <= k <= previous
      invariant k > 0 ==> LookupAt(r, digest, before, after, moments, AtPrevious, 7).Miss?
    {
      var lookup := LookupAt(r, digest, before, after, moments, AtPrevious, 7 + 3 * k);
      if lookup.Hit? {
        return lookup;
      }
      k := k + 1;
    }
    return LookupAt(r, digest, before, after, moments, AtFinal, 10);
  }

  function LookupResult(r: Request, digest: Digest, before: Entry, after: Entry, moments: nat -> Moment): Lookup {
    var first := LookupAt(r, digest, before, after, moments, AtFinal, 0);
    var retry := LookupAt(r, digest, before, after, moments, AtFinal, 4);
    var previous := LookupAt(r, digest, before, after, moments, AtPrevious, 7);
    if first.Hit? then first
    else if retry.Hit? then retry
    else if Listed(moments(3)) > 0 && previous.Hit? then previous
    else LookupAt(r, digest, before, after, moments, AtFinal, 10)
  }

  /** Whatever happens meanwhile, a hit carries an envelope of the requested version, namespace,
      key and compatibility, a payload of the recorded length and, under full validation, of the
      recorded digest. */
  lemma HitAnswersRequest(r: Request, digest: Digest, before: Entry, after: Entry, moments: nat -> Moment)
    ensures var result := LookupResult(r, digest, before, after, moments);
            result.Hit? ==>
              && result.envelope.version == r.version && result.envelope.namespace == r.namespace
              && result.envelope.key == r.key && result.envelope.compatibility == r.compatibility
              && |result.payload| == result.envelope.payloadLen
              && (r.validation.Full? ==> digest(result.payload) == result.envelope.payloadDigest)
  {
    hide EntryAt;
  }

  /** Without a replacement a lookup hits exactly a complete entry that answers the request, and
      returns it whole. */
  lemma UndisturbedLookup(r: Request, digest: Digest, entry: Entry, after: Entry, moments: nat -> Moment)
    requires forall i :: moments(i) == Before
    ensures LookupResult(r, digest, entry, after, moments)
            == if entry.envelope.Some? && entry.payload.Some?
                  && entry.envelope.value.version == r.version && entry.envelope.value.namespace == r.namespace
                  && entry.envelope.value.key == r.key && entry.envelope.value.compatibility == r.compatibility
                  && |entry.payload.value| == entry.envelope.value.payloadLen
                  && (r.validation.Full? ==> digest(entry.payload.value) == entry.envelope.value.payloadDigest)
               then Hit(entry.envelope.value, entry.payload.value)
               else Miss
  {
  }

  predicate Whole(result: Lookup, e: Entry) {
    e.envelope.Some? && e.payload.Some? && result == Hit(e.envelope.value, e.payload.value)
  }

  /** The whole replacement happens between reading the old envelope and opening the payload. */
  predicate TornRead(moments: nat -> Moment) {
    moments(1).Before? && (moments(2).After? || moments(2).Removing? || moments(2).Removed?)
  }

  /** A reader beside at most one replacement never misses, when both generations satisfy it: it
      hits, and it hits one whole generation unless the replacement happens entirely between
      its first two file reads and the new payload passes for the old one. */
  lemma NeverMisses(r: Request, digest: Digest, before: Entry, after: Entry, moments: nat -> Moment)
    requires InOrder(moments) && Satisfies(r, digest, before) && Satisfies(r, digest, after)
    ensures var result := LookupResult(r, digest, before, after, moments);
            result.Hit?
            && (Whole(result, before) || Whole(result, after)
                || (TornRead(moments) && result == Hit(before.envelope.value, after.payload.value)))
  {
    hide Accepts, PayloadFits;
    assert Leads(moments(0), moments(1)) && Leads(moments(1), moments(2)) && Leads(moments(2), moments(3));
    assert Leads(moments(3), moments(4)) && Leads(moments(4), moments(5)) && Leads(moments(5), moments(6));
    assert Leads(moments(6), moments(7)) && Leads(moments(7), moments(8)) && Leads(moments(8), moments(9));
    assert Leads(moments(9), moments(10)) && Leads(moments(10), moments(11)) && Leads(moments(11), moments(12));
    assert Leads(moments(7), moments(10)) && Leads(moments(8), moments(10)) && Leads(moments(3), moments(7));
  }

  /** The lookup returns neither whole generation. */
  predicate Mixes(r: Request, digest: Digest, before: Entry, after: Entry, moments: nat -> Moment) {
    !Whole(LookupResult(r, digest, before, after, moments), before)
    && !Whole(LookupResult(r, digest, before, after, moments), after)
  }

  /** Exactly when a lookup returns mixed generations: a torn read whose new payload fits the old
      envelope, and differs from the generations it mixes. */
  lemma MixesExactlyWhenTorn(r: Request, digest: Digest, before: Entry, after: Entry, moments: nat -> Moment)
    requires InOrder(moments) && Satisfies(r, digest, before) && Satisfies(r, digest, after)
    requires before.envelope != after.envelope && before.payload != after.payload
    ensures Mixes(r, digest, before, after, moments)
            <==> TornRead(moments) && moments(0).Before?
                 && PayloadFits(r, digest, before.envelope.value, after.payload.value)
  {
    NeverMisses(r, digest, before, after, moments);
    assert Leads(moments(0), moments(1)) && Leads(moments(1), moments(2));
  }

  /** Two generations can be mixed in some interleaving if and only if the new payload fits the old
      envelope, which can be checked before any lookup. */
  lemma MixableExactlyWhenPayloadFits(r: Request, digest: Digest, before: Entry, after: Entry)
    requires Satisfies(r, digest, before) && Satisfies(r, digest, after)
    requires before.envelope != after.envelope && before.payload != after.payload
    ensures (exists moments :: InOrder(moments) && Mixes(r, digest, before, after, moments))
            <==> PayloadFits(r, digest, before.envelope.value, after.payload.value)
  {
    if moments :| InOrder(moments) && Mixes(r, digest, before, after, moments) {
      MixesExactlyWhenTorn(r, digest, before, after, moments);
    }
    var torn: nat -> Moment := n => if n < 2 then Before else After;
    assert InOrder(torn) && TornRead(torn) && torn(0).Before?;
    MixesExactlyWhenTorn(r, digest, before, after, torn);
  }

  /** Full validation with a digest that separates the two payloads always returns one whole
      generation. */
  lemma FullValidationIsWhole(r: Request, digest: Digest, before: Entry, after: Entry, moments: nat -> Moment)
    requires InOrder(moments) && Satisfies(r, digest, before) && Satisfies(r, digest, after)
    requires r.validation.Full? && (digest(before.payload.value) == digest(after.payload.value) ==> before.payload == after.payload)
    ensures var result := LookupResult(r, digest, before, after, moments);
            result.Hit? && (result.payload == before.payload.value || result.payload == after.payload.value)
            && digest(result.payload) == result.envelope.payloadDigest
            && (Whole(result, before) || Whole(result, after)
                || (before.payload == after.payload && result.envelope == before.envelope.value))
  {
    NeverMisses(r, digest, before, after, moments);
  }

  /** Size validation can mix generations of equal payload length. */
  lemma SizeValidationCanMix()
    ensures exists r, digest, before, after, moments ::
              InOrder(moments) && Satisfies(r, digest, before) && Satisfies(r, digest, after)
              && Mixes(r, digest, before, after, moments)
  {
    var r := Request(1, 0, 0, "", SizeOnly);
    var digest: Digest := payload => if payload == [0] then 0 else 1;
    var before := Entry(Some(Envelope(1, 0, 0, "", 1, 0)), Some([0]));
    var after := Entry(Some(Envelope(1, 0, 0, "", 1, 1)), Some([1]));
    assert Satisfies(r, digest, before) && Satisfies(r, digest, after);
    MixableExactlyWhenPayloadFits(r, digest, before, after);
  }
}
