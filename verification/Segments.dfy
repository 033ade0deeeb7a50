/** Cutting chunk records into bounded segments (`workers/segment_io.py`). */
module Segments {
  import opened Seqs
  import opened Wrappers

  const SEGMENT_CHUNKS := 64
  const SEGMENT_BYTES := 1048576

  function Total<T>(size: T -> nat, rs: seq<T>): nat {
    if rs == [] then 0 else Total(size, rs[..|rs| - 1]) + size(rs[|rs| - 1])
  }

  lemma TotalSnoc<T>(size: T -> nat, rs: seq<T>, n: nat)
    requires n < |rs|
    ensures Total(size, rs[..n + 1]) == Total(size, rs[..n]) + size(rs[n])
  {
    assert rs[..n + 1][..n] == rs[..n];
  }

  /** Length of the first segment: as many records as fit its count and byte bounds. */
  function FitFrom<T>(size: T -> nat, rs: seq<T>, n: nat): (r: nat)
    requires n <= |rs|
    ensures n <= r <= |rs|
    decreases |rs| - n
  {
    if n == |rs| || n >= SEGMENT_CHUNKS || Total(size, rs[..n]) + size(rs[n]) > SEGMENT_BYTES then n
    else FitFrom(size, rs, n + 1)
  }

  function First<T>(size: T -> nat, rs: seq<T>): nat { FitFrom(size, rs, 0) }

  /** The first segment is maximal within the bounds. */
  lemma {:induction false} FitMaximal<T>(size: T -> nat, rs: seq<T>, n: nat)
    requires n <= |rs| && n <= SEGMENT_CHUNKS && Total(size, rs[..n]) <= SEGMENT_BYTES
    ensures var r := FitFrom(size, rs, n);
            && r <= SEGMENT_CHUNKS && Total(size, rs[..r]) <= SEGMENT_BYTES
            && (r < |rs| ==> r == SEGMENT_CHUNKS || Total(size, rs[..r + 1]) > SEGMENT_BYTES)
    decreases |rs| - n
  {
    if n < |rs| {
      TotalSnoc(size, rs, n);
      if n < SEGMENT_CHUNKS && Total(size, rs[..n]) + size(rs[n]) <= SEGMENT_BYTES {
        FitMaximal(size, rs, n + 1);
      }
    }
  }

  lemma {:induction false} FitStable<T>(size: T -> nat, a: seq<T>, b: seq<T>, n: nat)
    requires n <= |a|
    ensures var r := FitFrom(size, a, n);
            (r < |a| || r >= SEGMENT_CHUNKS) ==> FitFrom(size, a + b, n) == r
    ensures FitFrom(size, a, n) <= FitFrom(size, a + b, n)
    decreases |a| - n
  {
    if n < |a| {
      SplitConcat(a, b, n);
      FitStable(size, a, b, n + 1);
    }
  }

  /** A record too large for any segment stands where the first segment ends. */
  predicate Blocked<T>(size: T -> nat, rs: seq<T>) {
    var n := First(size, rs);
    n < |rs| && size(rs[n]) > SEGMENT_BYTES
  }

  /** The first segment is closed: nothing that follows can still join it. */
  predicate Closed<T>(size: T -> nat, rs: seq<T>) {
    var n := First(size, rs);
    n < |rs| || n == SEGMENT_CHUNKS
  }

  /** `segment_prefix`: the loop over running totals. */
  method SegmentPrefix<T>(rs: seq<T>, size: T -> nat, final: bool) returns (r: Result<nat>)
    ensures r == if Blocked(size, rs) then Failure
                 else Success(if final || Closed(size, rs) then First(size, rs) else 0)
  {
    var total, length := 0, 0;
    while length < |rs|
      invariant length <= |rs| && length <= SEGMENT_CHUNKS
      invariant total == Total(size, rs[..length]) <= SEGMENT_BYTES
      invariant FitFrom(size, rs, length) == First(size, rs)
    {
      var amount := size(rs[length]);
      if amount > SEGMENT_BYTES {
        return Failure;
      }
      if length == SEGMENT_CHUNKS || total + amount > SEGMENT_BYTES {
        return Success(length);
      }
      TotalSnoc(size, rs, length);
      total := total + amount;
      length := length + 1;
    }
    FitMaximal(size, rs, 0);
    return Success(if final || length == SEGMENT_CHUNKS then length else 0);
  }

  lemma FirstPositive<T>(size: T -> nat, rs: seq<T>)
    requires rs != [] && !Blocked(size, rs)
    ensures First(size, rs) > 0
  {
    assert Total(size, rs[..0]) == 0;
  }

  // ----- all segments -----

  /** All segments of a complete record list, in one pass. */
  function Segmented<T>(size: T -> nat, rs: seq<T>): Result<seq<seq<T>>>
    decreases |rs|
  {
    if rs == [] then Success([])
    else if Blocked(size, rs) then Failure
    else
      FirstPositive(size, rs);
      var n := First(size, rs);
      Prepend([rs[..n]], Segmented(size, rs[n..]))
  }

  function Prepend<T>(segments: seq<seq<T>>, r: Result<seq<seq<T>>>): Result<seq<seq<T>>> {
    if r.Failure? then Failure else Success(segments + r.value)
  }

  /** Segments cut so far, and the records that do not fill one yet. */
  datatype Flushed<T> = Flushed(segments: seq<seq<T>>, rest: seq<T>)

  function PrependFlushed<T>(segments: seq<seq<T>>, r: Result<Flushed<T>>): Result<Flushed<T>> {
    if r.Failure? then Failure else Success(Flushed(segments + r.value.segments, r.value.rest))
  }

  function Flush<T>(size: T -> nat, rs: seq<T>): Result<Flushed<T>>
    decreases |rs|
  {
    if rs == [] then Success(Flushed([], []))
    else if Blocked(size, rs) then Failure
    else if !Closed(size, rs) then Success(Flushed([], rs))
    else
      FirstPositive(size, rs);
      var n := First(size, rs);
      PrependFlushed([rs[..n]], Flush(size, rs[n..]))
  }

  lemma FirstExtend<T>(size: T -> nat, a: seq<T>, b: seq<T>)
    requires Closed(size, a)
    ensures First(size, a + b) == First(size, a) && Closed(size, a + b)
    ensures Blocked(size, a) ==> Blocked(size, a + b)
    ensures Blocked(size, a + b) ==> Blocked(size, a) || (First(size, a) == |a| && Blocked(size, b))
  {
    hide FitFrom;
    FitStable(size, a, b, 0);
    FitMaximal(size, a, 0);
    if First(size, a) == |a| && Blocked(size, a + b) {
      FitStops(size, b);
    }
  }

  lemma FitStops<T>(size: T -> nat, b: seq<T>)
    requires b != [] && size(b[0]) > SEGMENT_BYTES
    ensures First(size, b) == 0 && Blocked(size, b)
  {
  }

  /** Flushing records as they arrive cuts where one pass over all of them would. */
  lemma {:induction false} FlushThenSegments<T>(size: T -> nat, a: seq<T>, b: seq<T>)
    ensures Segmented(size, a + b)
            == match Flush(size, a)
               case Failure => Failure
               case Success(f) => Prepend(f.segments, Segmented(size, f.rest + b))
    decreases |a|
  {
    hide FitFrom, First, Closed, Blocked;
    if a == [] {
      assert a + b == b;
      PrependNone(Segmented(size, b));
    } else if Blocked(size, a) {
      BlockedClosed(size, a);
      FirstExtend(size, a, b);
    } else if !Closed(size, a) {
      PrependNone(Segmented(size, a + b));
    } else {
      FirstExtend(size, a, b);
      FirstPositive(size, a);
      var n := First(size, a);
      CutWithin(size, a);
      SplitConcat(a, b, n);
      FlushThenSegments(size, a[n..], b);
      if Blocked(size, a + b) {
        assert a[n..] == [] && a[n..] + b == b;
        assert b != [] by { BlockedNonEmpty(size, b); }
      } else {
        PrependTwice([a[..n]], Flush(size, a[n..]), size, b);
      }
    }
  }

  lemma BlockedNonEmpty<T>(size: T -> nat, b: seq<T>)
    requires Blocked(size, b)
    ensures b != []
  {
  }

  lemma CutWithin<T>(size: T -> nat, a: seq<T>)
    ensures First(size, a) <= |a|
  {
  }

  lemma BlockedClosed<T>(size: T -> nat, a: seq<T>)
    requires Blocked(size, a)
    ensures Closed(size, a)
  {
  }

  lemma PrependNone<T>(r: Result<seq<seq<T>>>)
    ensures Prepend([], r) == r
  {
    if r.Success? { assert [] + r.value == r.value; }
  }

  lemma PrependTwice<T>(s: seq<seq<T>>, f: Result<Flushed<T>>, size: T -> nat, b: seq<T>)
    ensures f.Success? ==> Prepend(s, Prepend(f.value.segments, Segmented(size, f.value.rest + b)))
                           == Prepend(s + f.value.segments, Segmented(size, f.value.rest + b))
  {
    hide Segmented;
    if f.Success? && Segmented(size, f.value.rest + b).Success? {
      Assoc(s, f.value.segments, Segmented(size, f.value.rest + b).value);
    }
  }

  lemma {:induction false} FlushThenFlush<T>(size: T -> nat, a: seq<T>, b: seq<T>)
    ensures Flush(size, a + b)
            == match Flush(size, a)
               case Failure => Failure
               case Success(f) => PrependFlushed(f.segments, Flush(size, f.rest + b))
    decreases |a|
  {
    hide FitFrom, First, Closed, Blocked;
    if a == [] {
      assert a + b == b;
      FlushedNone(Flush(size, b));
    } else if Blocked(size, a) {
      BlockedClosed(size, a);
      FirstExtend(size, a, b);
    } else if !Closed(size, a) {
      FlushedNone(Flush(size, a + b));
    } else {
      FirstExtend(size, a, b);
      FirstPositive(size, a);
      var n := First(size, a);
      CutWithin(size, a);
      SplitConcat(a, b, n);
      FlushThenFlush(size, a[n..], b);
      if Blocked(size, a + b) {
        assert a[n..] == [] && a[n..] + b == b;
        assert b != [] by { BlockedNonEmpty(size, b); }
      } else {
        FlushedTwice([a[..n]], Flush(size, a[n..]), size, b);
      }
    }
  }

  lemma FlushedNone<T>(r: Result<Flushed<T>>)
    ensures PrependFlushed([], r) == r
  {
    if r.Success? { assert [] + r.value.segments == r.value.segments; }
  }

  lemma FlushedTwice<T>(s: seq<seq<T>>, f: Result<Flushed<T>>, size: T -> nat, b: seq<T>)
    ensures f.Success? ==> PrependFlushed(s, PrependFlushed(f.value.segments, Flush(size, f.value.rest + b)))
                           == PrependFlushed(s + f.value.segments, Flush(size, f.value.rest + b))
  {
    hide Flush;
    if f.Success? && Flush(size, f.value.rest + b).Success? {
      Assoc(s, f.value.segments, Flush(size, f.value.rest + b).value.segments);
    }
  }

  // ----- what segments are -----

  function Flat<T>(segments: seq<seq<T>>): seq<T> {
    if segments == [] then [] else segments[0] + Flat(segments[1..])
  }

  lemma {:induction false} FlatConcat<T>(a: seq<seq<T>>, b: seq<seq<T>>)
    ensures Flat(a + b) == Flat(a) + Flat(b)
  {
    if a == [] {
      assert a + b == b;
    } else {
      assert (a + b)[1..] == a[1..] + b;
      FlatConcat(a[1..], b);
      Assoc(a[0], Flat(a[1..]), Flat(b));
    }
  }

  lemma FlatEmpty<T>()
    ensures Flat<T>([]) == []
  {
  }

  lemma FlatPush<T>(a: seq<seq<T>>, x: seq<T>)
    ensures Flat(a + [x]) == Flat(a) + x
  {
    FlatConcat(a, [x]);
    assert [x][1..] == [] && Flat([x]) == x + Flat([x][1..]);
  }

  /** One more list, and where it lies in the whole. */
  lemma FlatSlices<T>(lists: seq<seq<T>>, i: nat)
    requires i < |lists|
    ensures Flat(lists[..i + 1]) == Flat(lists[..i]) + lists[i] && Flat(lists[..i + 1]) <= Flat(lists)
    ensures Flat(lists)[|Flat(lists[..i])|..|Flat(lists[..i + 1])|] == lists[i]
  {
    hide Flat;
    assert lists[..i] + [lists[i]] == lists[..i + 1];
    FlatPush(lists[..i], lists[i]);
    assert lists[..i + 1] + lists[i + 1..] == lists;
    FlatConcat(lists[..i + 1], lists[i + 1..]);
  }

  ghost predicate Bounded<T>(size: T -> nat, s: seq<T>) {
    0 < |s| <= SEGMENT_CHUNKS && Total(size, s) <= SEGMENT_BYTES
  }

  /** Flushing loses and reorders nothing; segments are within bounds, and so is the rest. */
  lemma {:induction false} FlushFaithful<T>(size: T -> nat, rs: seq<T>)
    requires Flush(size, rs).Success?
    ensures var f := Flush(size, rs).value;
            && Flat(f.segments) + f.rest == rs
            && (forall i :: 0 <= i < |f.segments| ==> Bounded(size, f.segments[i]))
            && |f.rest| < SEGMENT_CHUNKS && Total(size, f.rest) <= SEGMENT_BYTES
    decreases |rs|
  {
    hide FitFrom, First, Closed, Blocked, Total;
    if rs == [] {
      NothingWeighs(size);
    } else {
      FirstBounds(size, rs);
      if Closed(size, rs) {
        FirstPositive(size, rs);
        var n := First(size, rs);
        FlushFaithful(size, rs[n..]);
        var g := Flush(size, rs[n..]).value;
        assert Flush(size, rs).value.segments[1..] == g.segments;
        Assoc(rs[..n], Flat(g.segments), g.rest);
        assert rs[..n] + rs[n..] == rs;
      }
    }
  }

  lemma NothingWeighs<T>(size: T -> nat)
    ensures Total(size, []) == 0
  {
  }

  lemma FirstBounds<T>(size: T -> nat, rs: seq<T>)
    ensures var n := First(size, rs);
            && n <= |rs| && n <= SEGMENT_CHUNKS && Total(size, rs[..n]) <= SEGMENT_BYTES
            && (!Closed(size, rs) ==> |rs| < SEGMENT_CHUNKS && Total(size, rs) <= SEGMENT_BYTES)
  {
    hide FitFrom;
    FitMaximal(size, rs, 0);
    assert rs[..|rs|] == rs;
  }

  lemma {:induction false} SegmentsFaithful<T>(size: T -> nat, rs: seq<T>)
    requires Segmented(size, rs).Success?
    ensures var s := Segmented(size, rs).value;
            Flat(s) == rs && forall i :: 0 <= i < |s| ==> Bounded(size, s[i])
    decreases |rs|
  {
    hide FitFrom;
    if rs != [] {
      FitMaximal(size, rs, 0);
      FirstPositive(size, rs);
      var n := First(size, rs);
      SegmentsFaithful(size, rs[n..]);
      assert Segmented(size, rs).value[1..] == Segmented(size, rs[n..]).value;
      assert rs[..n] + rs[n..] == rs;
    }
  }

  lemma {:induction false} TotalCovers<T>(size: T -> nat, rs: seq<T>, i: nat)
    requires i < |rs|
    ensures size(rs[i]) <= Total(size, rs)
  {
    if i < |rs| - 1 {
      TotalCovers(size, rs[..|rs| - 1], i);
    }
  }

  lemma {:induction false} TotalGrows<T>(size: T -> nat, rs: seq<T>, k: nat)
    requires k <= |rs|
    ensures Total(size, rs[..k]) <= Total(size, rs)
    decreases |rs| - k
  {
    if k < |rs| {
      TotalSnoc(size, rs, k);
      TotalGrows(size, rs, k + 1);
    } else {
      assert rs[..k] == rs;
    }
  }

  lemma {:induction false} TotalConcat<T>(size: T -> nat, a: seq<T>, b: seq<T>)
    ensures Total(size, a + b) == Total(size, a) + Total(size, b)
  {
    if b == [] {
      assert a + b == a;
    } else {
      var n := |b| - 1;
      assert (a + b)[..|a| + n] == a + b[..n];
      TotalConcat(size, a, b[..n]);
    }
  }

  /** Every record of bounded segments fits a segment. */
  lemma {:induction false} BoundedFits<T>(size: T -> nat, segments: seq<seq<T>>, i: nat)
    requires i < |Flat(segments)| && forall k :: 0 <= k < |segments| ==> Bounded(size, segments[k])
    ensures size(Flat(segments)[i]) <= SEGMENT_BYTES
  {
    hide Total;
    if i < |segments[0]| {
      TotalCovers(size, segments[0], i);
    } else {
      BoundedFits(size, segments[1..], i - |segments[0]|);
    }
  }

  /** Segmentation fails exactly when some record is too large for any segment. */
  lemma {:induction false} SegmentationFails<T>(size: T -> nat, rs: seq<T>)
    ensures Segmented(size, rs).Failure? <==> exists i :: 0 <= i < |rs| && size(rs[i]) > SEGMENT_BYTES
    decreases |rs|
  {
    hide FitFrom, Total;
    if rs != [] && !Blocked(size, rs) {
      FirstPositive(size, rs);
      FirstBounds(size, rs);
      var n := First(size, rs);
      SegmentationFails(size, rs[n..]);
      forall i | 0 <= i < n ensures size(rs[i]) <= SEGMENT_BYTES { TotalCovers(size, rs[..n], i); }
      forall i | n <= i < |rs| ensures rs[i] == rs[n..][i - n] {}
    }
  }

  /** The `flush` loop: cut prefixes off `records` while they form a segment. */
  method FlushRecords<T>(records: seq<T>, size: T -> nat, final: bool) returns (r: Result<Flushed<T>>)
    ensures !final ==> r == Flush(size, records)
    ensures final ==> r == match Segmented(size, records)
                           case Failure => Failure
                           case Success(s) => Success(Flushed(s, []))
  {
    hide FitFrom, First, Closed, Blocked;
    var pending, prepared: seq<seq<T>> := records, [];
    FlushedNone(Flush(size, pending));
    PrependNone(Segmented(size, pending));
    while true
      invariant !final ==> Flush(size, records) == PrependFlushed(prepared, Flush(size, pending))
      invariant final ==> Segmented(size, records) == Prepend(prepared, Segmented(size, pending))
      decreases |pending|
    {
      FirstBounds(size, pending);
      EmptyOpen<T>(size);
      var length := SegmentPrefix(pending, size, final);
      if length.Failure? {
        BlockedNonEmpty(size, pending);
        return Failure;
      }
      if length.value == 0 {
        break;
      }
      FlushedOnce(prepared, pending[..length.value], Flush(size, pending[length.value..]));
      PrependOnce(prepared, pending[..length.value], Segmented(size, pending[length.value..]));
      prepared := prepared + [pending[..length.value]];
      pending := pending[length.value..];
    }
    if pending != [] && !Blocked(size, pending) {
      FirstPositive(size, pending);
    }
    assert prepared + [] == prepared;
    return Success(Flushed(prepared, pending));
  }

  lemma EmptyOpen<T>(size: T -> nat)
    ensures First<T>(size, []) == 0 && !Closed<T>(size, []) && !Blocked<T>(size, [])
  {
  }

  lemma FlushedOnce<T>(s: seq<seq<T>>, x: seq<T>, r: Result<Flushed<T>>)
    ensures PrependFlushed(s, PrependFlushed([x], r)) == PrependFlushed(s + [x], r)
  {
    if r.Success? { Assoc(s, [x], r.value.segments); }
  }

  lemma PrependOnce<T>(s: seq<seq<T>>, x: seq<T>, r: Result<seq<seq<T>>>)
    ensures Prepend(s, Prepend([x], r)) == Prepend(s + [x], r)
  {
    if r.Success? { Assoc(s, [x], r.value); }
  }
}
