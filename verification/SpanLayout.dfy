/** Byte spans placed in a file: sorting them, and what a single pass over neighbours in the
    sorted order decides about the whole layout. */
module SpanLayout {

  /** A named item that claims the bytes `start <= p < end`. */
  datatype Placed<+T> = Placed(start: nat, end: nat, name: seq<nat>, item: T)

  /** Byte-wise lexicographic order of names. */
  predicate NameLe(a: seq<nat>, b: seq<nat>) {
    a == [] || (b != [] && (a[0] < b[0] || (a[0] == b[0] && NameLe(a[1..], b[1..]))))
  }

  /** The order of the keys `(start, end, name)`. */
  predicate Before<T>(a: Placed<T>, b: Placed<T>) {
    a.start < b.start || (a.start == b.start && (a.end < b.end || (a.end == b.end && NameLe(a.name, b.name))))
  }

  predicate Sorted<T>(s: seq<Placed<T>>) {
    |s| <= 1 || (Before(s[0], s[1]) && Sorted(s[1..]))
  }

  function Insert<T>(x: Placed<T>, s: seq<Placed<T>>): seq<Placed<T>> {
    if s == [] || Before(x, s[0]) then [x] + s else [s[0]] + Insert(x, s[1..])
  }

  function Sort<T>(s: seq<Placed<T>>): seq<Placed<T>> {
    if s == [] then [] else Insert(s[0], Sort(s[1..]))
  }

  lemma {:induction false} NameLeTotal(a: seq<nat>, b: seq<nat>)
    ensures NameLe(a, b) || NameLe(b, a)
  {
    if a != [] && b != [] && a[0] == b[0] {
      NameLeTotal(a[1..], b[1..]);
    }
  }

  lemma {:induction false} InsertKeepsOrder<T>(x: Placed<T>, s: seq<Placed<T>>)
    requires Sorted(s)
    ensures Sorted(Insert(x, s))
  {
    if s != [] && !Before(x, s[0]) {
      NameLeTotal(x.name, s[0].name);
      InsertKeepsOrder(x, s[1..]);
      assert Insert(x, s)[1..] == Insert(x, s[1..]);
    } else {
      assert Insert(x, s)[1..] == s;
    }
  }

  lemma {:induction false} InsertContents<T>(x: Placed<T>, s: seq<Placed<T>>)
    ensures multiset(Insert(x, s)) == multiset([x]) + multiset(s)
  {
    if s != [] && !Before(x, s[0]) {
      InsertContents(x, s[1..]);
      assert s == [s[0]] + s[1..];
    }
  }

  /** Sorting orders the spans and keeps every one of them. */
  lemma {:induction false} SortSorts<T>(s: seq<Placed<T>>)
    ensures Sorted(Sort(s)) && multiset(Sort(s)) == multiset(s)
  {
    if s != [] {
      SortSorts(s[1..]);
      InsertKeepsOrder(s[0], Sort(s[1..]));
      InsertContents(s[0], Sort(s[1..]));
      assert s == [s[0]] + s[1..];
    }
  }

  lemma {:induction false} InsertMembers<T>(x: Placed<T>, s: seq<Placed<T>>, e: Placed<T>)
    ensures |Insert(x, s)| == |s| + 1
    ensures e in Insert(x, s) <==> e == x || e in s
  {
    if s != [] && !Before(x, s[0]) {
      InsertMembers(x, s[1..], e);
      assert e in s <==> e == s[0] || e in s[1..];
    }
  }

  lemma {:induction false} SortMember<T>(s: seq<Placed<T>>, e: Placed<T>)
    ensures |Sort(s)| == |s|
    ensures e in Sort(s) <==> e in s
  {
    if s != [] {
      SortMember(s[1..], e);
      InsertMembers(s[0], Sort(s[1..]), e);
      assert e in s <==> e == s[0] || e in s[1..];
    }
  }

  lemma SortMembers<T>(s: seq<Placed<T>>)
    ensures forall e :: e in Sort(s) <==> e in s
  {
    hide Sort;
    forall e
      ensures e in Sort(s) <==> e in s
    {
      SortMember(s, e);
    }
  }

  /** Every span starts at or after `low`, ends at or before `high`, and does not end before it starts. */
  predicate Within<T>(s: seq<Placed<T>>, low: nat, high: nat) {
    forall i :: 0 <= i < |s| ==> low <= s[i].start <= s[i].end <= high
  }

  lemma SortWithin<T>(s: seq<Placed<T>>, low: nat, high: nat)
    requires Within(s, low, high)
    ensures Within(Sort(s), low, high)
  {
    forall i | 0 <= i < |Sort(s)|
      ensures low <= Sort(s)[i].start <= Sort(s)[i].end <= high
    {
      SortMember(s, Sort(s)[i]);
    }
  }

  lemma {:induction false} HeadStartsFirst<T>(s: seq<Placed<T>>)
    requires s != [] && Sorted(s)
    ensures forall i :: 0 <= i < |s| ==>
              s[0].start < s[i].start || (s[0].start == s[i].start && s[0].end <= s[i].end)
  {
    if |s| > 1 {
      HeadStartsFirst(s[1..]);
      forall i | 0 < i < |s|
        ensures s[0].start < s[i].start || (s[0].start == s[i].start && s[0].end <= s[i].end)
      {
        assert s[i] == s[1..][i - 1];
      }
    }
  }

  // ----- exact tiling -----

  /** How many spans claim byte `p`. */
  function Claims<T>(s: seq<Placed<T>>, p: nat): nat {
    if s == [] then 0 else (if s[0].start <= p < s[0].end then 1 else 0) + Claims(s[1..], p)
  }

  /** No empty span lies strictly inside another span. */
  ghost predicate EmptyOnBoundaries<T>(s: seq<Placed<T>>) {
    forall a, b :: a in s && b in s && a.start == a.end ==> !(b.start < a.start < b.end)
  }

  /** Each byte of `[low, high)` is claimed exactly once, and empty spans sit on boundaries. */
  ghost predicate Tiles<T>(s: seq<Placed<T>>, low: nat, high: nat) {
    (forall p :: low <= p < high ==> Claims(s, p) == 1) && EmptyOnBoundaries(s)
  }

  /** The cursor check: each span starts where the one before ended, and the last ends at `high`. */
  predicate Chained<T>(s: seq<Placed<T>>, cursor: nat, high: nat) {
    if s == [] then cursor == high else s[0].start == cursor && Chained(s[1..], s[0].end, high)
  }

  lemma {:induction false} InsertClaims<T>(x: Placed<T>, s: seq<Placed<T>>, p: nat)
    ensures Claims(Insert(x, s), p) == Claims([x] + s, p)
  {
    assert ([x] + s)[1..] == s;
    if s != [] && !Before(x, s[0]) {
      InsertClaims(x, s[1..], p);
      assert ([x] + s[1..])[1..] == s[1..];
      assert Insert(x, s)[1..] == Insert(x, s[1..]);
    }
  }

  lemma {:induction false} SortClaims<T>(s: seq<Placed<T>>, p: nat)
    ensures Claims(Sort(s), p) == Claims(s, p)
  {
    if s != [] {
      SortClaims(s[1..], p);
      InsertClaims(s[0], Sort(s[1..]), p);
      assert ([s[0]] + Sort(s[1..]))[1..] == Sort(s[1..]);
    }
  }

  lemma SortTiles<T>(s: seq<Placed<T>>, low: nat, high: nat)
    ensures Tiles(Sort(s), low, high) <==> Tiles(s, low, high)
  {
    hide Sort, Claims;
    SortMembers(s);
    forall p: nat
      ensures Claims(Sort(s), p) == Claims(s, p)
    {
      SortClaims(s, p);
    }
    assert EmptyOnBoundaries(Sort(s)) <==> EmptyOnBoundaries(s);
  }

  lemma {:induction false} UnclaimedBelow<T>(s: seq<Placed<T>>, p: nat)
    requires forall i :: 0 <= i < |s| ==> p < s[i].start
    ensures Claims(s, p) == 0
  {
    if s != [] {
      UnclaimedBelow(s[1..], p);
    }
  }

  lemma {:induction false} ClaimedByMember<T>(s: seq<Placed<T>>, p: nat, i: nat)
    requires i < |s| && s[i].start <= p < s[i].end
    ensures Claims(s, p) >= 1
  {
    if i > 0 {
      ClaimedByMember(s[1..], p, i - 1);
    }
  }

  /** A byte claimed once has one claimant: some span holds it and no other does. */
  lemma {:induction false} OneClaimant<T>(s: seq<Placed<T>>, p: nat) returns (k: nat)
    requires Claims(s, p) == 1
    ensures k < |s| && forall i :: 0 <= i < |s| ==> (s[i].start <= p < s[i].end <==> i == k)
  {
    if s[0].start <= p < s[0].end {
      k := 0;
      forall i | 0 < i < |s|
        ensures !(s[i].start <= p < s[i].end)
      {
        if s[i].start <= p < s[i].end {
          ClaimedByMember(s[1..], p, i - 1);
        }
      }
    } else {
      var j := OneClaimant(s[1..], p);
      k := j + 1;
      forall i | 0 < i < |s|
        ensures s[i].start <= p < s[i].end <==> i == k
      {
        assert s[i] == s[1..][i - 1];
      }
    }
  }

  lemma {:induction false} ChainedBounds<T>(s: seq<Placed<T>>, cursor: nat, high: nat)
    requires Chained(s, cursor, high)
    requires forall i :: 0 <= i < |s| ==> s[i].start <= s[i].end
    ensures cursor <= high && Within(s, cursor, high)
  {
    if s != [] {
      ChainedBounds(s[1..], s[0].end, high);
      forall i | 0 < i < |s|
        ensures cursor <= s[i].start <= s[i].end <= high
      {
        assert s[i] == s[1..][i - 1];
      }
    }
  }

  lemma {:induction false} ChainedTiles<T>(s: seq<Placed<T>>, cursor: nat, high: nat)
    requires Chained(s, cursor, high) && Within(s, cursor, high)
    ensures Tiles(s, cursor, high)
  {
    if s != [] {
      var rest, end := s[1..], s[0].end;
      ChainedBounds(rest, end, high);
      ChainedTiles(rest, end, high);
      forall p | cursor <= p < high
        ensures Claims(s, p) == 1
      {
        if p < end {
          UnclaimedBelow(rest, p);
        }
      }
      forall a, b | a in s && b in s && a.start == a.end
        ensures !(b.start < a.start < b.end)
      {
        assert a == s[0] || a in rest;
        assert b == s[0] || b in rest;
      }
    }
  }

  /** In a sorted tiling the first span starts at the cursor. */
  lemma HeadAtCursor<T>(s: seq<Placed<T>>, cursor: nat, high: nat)
    requires s != [] && Sorted(s) && Within(s, cursor, high) && Tiles(s, cursor, high)
    ensures s[0].start == cursor
  {
    HeadStartsFirst(s);
    if cursor < s[0].start {
      UnclaimedBelow(s, cursor);
      assert false;
    }
  }

  lemma StartsAfterHead<T>(s: seq<Placed<T>>, cursor: nat, high: nat, i: nat)
    requires 0 < i < |s| && Sorted(s) && Within(s, cursor, high) && Tiles(s, cursor, high)
    ensures s[0].end <= s[i].start
  {
    HeadStartsFirst(s);
    var p := s[i].start;
    if p < s[i].end {
      ClaimedByMember(s[1..], p, i - 1);
      assert Claims(s, p) == 1;
    } else {
      assert s[i] in s && s[0] in s;
    }
  }

  /** In a sorted tiling every later span starts at or after the end of the first. */
  lemma RestAfterHead<T>(s: seq<Placed<T>>, cursor: nat, high: nat)
    requires s != [] && Sorted(s) && Within(s, cursor, high) && Tiles(s, cursor, high)
    ensures Within(s[1..], s[0].end, high)
  {
    forall i | 0 < i < |s|
      ensures s[0].end <= s[i].start
    {
      StartsAfterHead(s, cursor, high, i);
    }
  }

  lemma {:induction false} TilesChained<T>(s: seq<Placed<T>>, cursor: nat, high: nat)
    requires cursor <= high && Sorted(s) && Within(s, cursor, high) && Tiles(s, cursor, high)
    ensures Chained(s, cursor, high)
  {
    if s == [] {
      assert cursor < high ==> Claims(s, cursor) == 1;
    } else {
      HeadAtCursor(s, cursor, high);
      RestAfterHead(s, cursor, high);
      var rest := s[1..];
      forall p | s[0].end <= p < high
        ensures Claims(rest, p) == 1
      {
        assert Claims(s, p) == 1;
      }
      TilesChained(rest, s[0].end, high);
    }
  }

  /** Sorting and one pass with a cursor decide whether the spans, in whatever order they
      were given, divide `[0, high)` exactly. */
  lemma CursorDecidesTiling<T>(s: seq<Placed<T>>, high: nat)
    requires Within(s, 0, high)
    ensures Chained(Sort(s), 0, high) <==> Tiles(s, 0, high)
  {
    SortSorts(s);
    SortWithin(s, 0, high);
    SortTiles(s, 0, high);
    if Chained(Sort(s), 0, high) {
      ChainedTiles(Sort(s), 0, high);
    }
    if Tiles(s, 0, high) {
      TilesChained(Sort(s), 0, high);
    }
  }

  // ----- pairwise disjointness -----

  /** One span ends before the other starts. */
  predicate Apart<T>(a: Placed<T>, b: Placed<T>) {
    a.end <= b.start || b.end <= a.start
  }

  ghost predicate ApartFrom<T>(x: Placed<T>, s: seq<Placed<T>>) {
    forall i :: 0 <= i < |s| ==> Apart(x, s[i])
  }

  ghost predicate PairwiseApart<T>(s: seq<Placed<T>>) {
    forall i, j :: 0 <= i < j < |s| ==> Apart(s[i], s[j])
  }

  /** The neighbour check on a sorted sequence. */
  predicate NeighboursApart<T>(s: seq<Placed<T>>) {
    |s| <= 1 || (s[0].end <= s[1].start && NeighboursApart(s[1..]))
  }

  lemma PairwiseApartCons<T>(x: Placed<T>, s: seq<Placed<T>>)
    ensures PairwiseApart([x] + s) <==> ApartFrom(x, s) && PairwiseApart(s)
  {
    var all := [x] + s;
    if PairwiseApart(all) {
      forall i | 0 <= i < |s|
        ensures Apart(x, s[i])
      {
        assert Apart(all[0], all[i + 1]);
      }
      forall i, j | 0 <= i < j < |s|
        ensures Apart(s[i], s[j])
      {
        assert Apart(all[i + 1], all[j + 1]);
      }
    }
    if ApartFrom(x, s) && PairwiseApart(s) {
      forall i, j | 0 <= i < j < |all|
        ensures Apart(all[i], all[j])
      {
        if i > 0 {
          assert Apart(s[i - 1], s[j - 1]);
        }
      }
    }
  }

  lemma ApartFromCons<T>(y: Placed<T>, x: Placed<T>, s: seq<Placed<T>>)
    ensures ApartFrom(y, [x] + s) <==> Apart(y, x) && ApartFrom(y, s)
  {
    var all := [x] + s;
    if ApartFrom(y, all) {
      assert Apart(y, all[0]);
      forall i | 0 <= i < |s|
        ensures Apart(y, s[i])
      {
        assert Apart(y, all[i + 1]);
      }
    }
  }

  lemma {:induction false} InsertApartFrom<T>(y: Placed<T>, x: Placed<T>, s: seq<Placed<T>>)
    ensures ApartFrom(y, Insert(x, s)) <==> Apart(y, x) && ApartFrom(y, s)
  {
    if s == [] || Before(x, s[0]) {
      ApartFromCons(y, x, s);
    } else {
      InsertApartFrom(y, x, s[1..]);
      ApartFromCons(y, s[0], Insert(x, s[1..]));
      ApartFromCons(y, s[0], s[1..]);
      assert [s[0]] + s[1..] == s;
    }
  }

  lemma {:induction false} InsertPairwiseApart<T>(x: Placed<T>, s: seq<Placed<T>>)
    ensures PairwiseApart(Insert(x, s)) <==> ApartFrom(x, s) && PairwiseApart(s)
  {
    if s == [] || Before(x, s[0]) {
      PairwiseApartCons(x, s);
    } else {
      InsertPairwiseApart(x, s[1..]);
      PairwiseApartCons(s[0], Insert(x, s[1..]));
      PairwiseApartCons(s[0], s[1..]);
      InsertApartFrom(s[0], x, s[1..]);
      ApartFromCons(x, s[0], s[1..]);
      assert [s[0]] + s[1..] == s;
    }
  }

  lemma {:induction false} SortApartFrom<T>(x: Placed<T>, s: seq<Placed<T>>)
    ensures ApartFrom(x, Sort(s)) <==> ApartFrom(x, s)
  {
    if s != [] {
      SortApartFrom(x, s[1..]);
      InsertApartFrom(x, s[0], Sort(s[1..]));
      ApartFromCons(x, s[0], s[1..]);
      assert [s[0]] + s[1..] == s;
    }
  }

  lemma {:induction false} SortPairwiseApart<T>(s: seq<Placed<T>>)
    ensures PairwiseApart(Sort(s)) <==> PairwiseApart(s)
  {
    if s != [] {
      SortPairwiseApart(s[1..]);
      InsertPairwiseApart(s[0], Sort(s[1..]));
      SortApartFrom(s[0], s[1..]);
      PairwiseApartCons(s[0], s[1..]);
      assert [s[0]] + s[1..] == s;
    }
  }

  lemma {:induction false} NeighboursDecide<T>(s: seq<Placed<T>>)
    requires Sorted(s) && forall i :: 0 <= i < |s| ==> s[i].start <= s[i].end
    ensures NeighboursApart(s) <==> PairwiseApart(s)
  {
    if |s| > 1 {
      var rest := s[1..];
      NeighboursDecide(rest);
      PairwiseApartCons(s[0], rest);
      HeadStartsFirst(s);
      HeadStartsFirst(rest);
      assert [s[0]] + rest == s;
      if ApartFrom(s[0], rest) {
        assert Apart(s[0], rest[0]);
      }
    }
  }

  lemma SortKeepsDirection<T>(s: seq<Placed<T>>)
    requires forall i :: 0 <= i < |s| ==> s[i].start <= s[i].end
    ensures forall i :: 0 <= i < |Sort(s)| ==> Sort(s)[i].start <= Sort(s)[i].end
  {
    hide Sort;
    forall i | 0 <= i < |Sort(s)|
      ensures Sort(s)[i].start <= Sort(s)[i].end
    {
      SortMember(s, Sort(s)[i]);
    }
  }

  /** Sorting and comparing neighbours decide whether any two spans, in whatever order they
      were given, overlap. */
  lemma NeighbourCheckDecidesDisjointness<T>(s: seq<Placed<T>>)
    requires forall i :: 0 <= i < |s| ==> s[i].start <= s[i].end
    ensures NeighboursApart(Sort(s)) <==> PairwiseApart(s)
  {
    hide Sort, Sorted, NeighboursApart, PairwiseApart;
    SortSorts(s);
    SortPairwiseApart(s);
    SortKeepsDirection(s);
    NeighboursDecide(Sort(s));
  }
}
