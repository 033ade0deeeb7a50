/** Segments of a decoder's whole output, saved one by one and replayed after a crash
    (`workers/decoded_segments.py`). */
module DecodedSegments {
  import opened Seqs
  import opened Wrappers
  import opened Segments

  /** The saved segment that starts at ordinal `position`; `at` is the start of the first. */
  function Lookup<T>(saved: seq<seq<T>>, at: nat, position: nat): Option<seq<T>> {
    if saved == [] then None
    else if at == position then Some(saved[0])
    else Lookup(saved[1..], at + |saved[0]|, position)
  }

  ghost predicate NonEmpty<T>(segments: seq<seq<T>>) { forall i :: 0 <= i < |segments| ==> segments[i] != [] }

  ghost predicate Numbered<T>(records: seq<T>, ordinal: T -> int, start: int) {
    forall i :: 0 <= i < |records| ==> ordinal(records[i]) == start + i
  }

  lemma {:induction false} LookupNext<T>(done: seq<seq<T>>, saved: seq<seq<T>>, start: nat)
    requires done <= saved && |done| < |saved| && NonEmpty(saved)
    ensures Lookup(saved, start, start + |Flat(done)|) == Some(saved[|done|])
    ensures |Flat(done)| < |Flat(saved)|
  {
    if done != [] {
      LookupNext(done[1..], saved[1..], start + |saved[0]|);
    }
  }

  /** A closed prefix is cut the same way whatever follows it. */
  lemma CutKeeps<T>(size: T -> nat, pending: seq<T>, rest: seq<T>)
    requires Closed(size, pending) && !Blocked(size, pending) && pending != []
    ensures var n := First(size, pending);
            && 0 < n <= |pending|
            && Segmented(size, pending + rest) == Prepend([pending[..n]], Segmented(size, pending[n..] + rest))
  {
    hide FitFrom, First, Closed, Blocked;
    var n := First(size, pending);
    FirstExtend(size, pending, rest);
    FirstPositive(size, pending);
    CutWithin(size, pending);
    SplitConcat(pending, rest, n);
    if Blocked(size, pending + rest) {
      assert pending[n..] + rest == rest;
      BlockedNonEmpty(size, rest);
    }
  }

  /** What is left at the end is the last segment. */
  lemma LastSegment<T>(size: T -> nat, pending: seq<T>)
    requires !Closed(size, pending)
    ensures Segmented(size, pending) == Success(if pending == [] then [] else [pending])
  {
    hide FitFrom;
    if pending != [] {
      CutWithin(size, pending);
      assert pending[..|pending|] == pending && pending[|pending|..] == [];
      assert Segmented(size, pending[|pending|..]) == Success([]);
      assert [pending] + [] == [pending];
    }
  }

  /** The segments in the table: what this attempt confirmed or added, or the longer saved list. */
  function Table<T>(saved: seq<seq<T>>, done: seq<seq<T>>): seq<seq<T>> { if |done| < |saved| then saved else done }

  ghost predicate Comparable<T>(a: seq<T>, b: seq<T>) { a <= b || b <= a }

  function Max(a: nat, b: nat): nat { if a < b then b else a }

  /** `save`: compare with the saved segment, or store a new one and advance the count. */
  method Save<T(==)>(segment: seq<T>, done: seq<seq<T>>, saved: seq<seq<T>>, position: nat, savedCount: nat, count: nat, start: nat, ordinal: T -> int)
    returns (ok: bool, total: nat)
    requires Comparable(done, saved) && NonEmpty(saved) && segment != []
    requires position == start + |Flat(done)| && savedCount == start + |Flat(saved)| && count == Max(savedCount, position)
    ensures ok <==> Numbered(segment, ordinal, position) && Comparable(done + [segment], saved)
    ensures ok ==> total == Max(savedCount, position + |segment|)
  {
    hide Flat, Lookup;
    total := count;
    if exists i :: 0 <= i < |segment| && ordinal(segment[i]) != position + i {
      return false, total;
    }
    FlatPush(done, segment);
    if position < savedCount {
      if |saved| <= |done| {
        LongerFlat(saved, done);
      }
      LookupNext(done, saved, start);
      assert saved[..|done| + 1] == done + [saved[|done|]];
      var before := Lookup(saved, start, position);
      ok := before == Some(segment);
      if ok {
        LongerFlat(done + [segment], saved);
      }
    } else {
      if |done| < |saved| {
        LookupNext(done, saved, start);
      }
      ok, total := true, position + |segment|;
    }
  }

  lemma LongerFlat<T>(a: seq<seq<T>>, b: seq<seq<T>>)
    requires a <= b
    ensures |Flat(a)| <= |Flat(b)|
  {
    assert b == a + b[|a|..];
    FlatConcat(a, b[|a|..]);
  }

  /** The segments confirmed so far begin the segmentation of all records. */
  ghost predicate Underway<T>(size: T -> nat, records: seq<T>, done: seq<seq<T>>) {
    var p := |Flat(done)|;
    p <= |records| && Segmented(size, records) == Prepend(done, Segmented(size, records[p..]))
  }

  /** The next segment, cut from the records that follow the confirmed ones. */
  ghost predicate Next<T>(size: T -> nat, records: seq<T>, done: seq<seq<T>>, segment: seq<T>) {
    var p := |Flat(done)|;
    && p + |segment| <= |records| && segment == records[p..p + |segment|]
    && Segmented(size, records[p..]) == Prepend([segment], Segmented(size, records[p + |segment|..]))
  }

  lemma UnderwayStep<T>(size: T -> nat, records: seq<T>, done: seq<seq<T>>, segment: seq<T>)
    requires Underway(size, records, done) && Next(size, records, done, segment)
    ensures Underway(size, records, done + [segment])
  {
    hide Segmented;
    var p := |Flat(done)|;
    PrependOnce(done, segment, Segmented(size, records[p + |segment|..]));
    FlatPush(done, segment);
  }

  lemma UnderwayPrefix<T>(size: T -> nat, records: seq<T>, done: seq<seq<T>>)
    requires Underway(size, records, done)
    ensures Segmented(size, records).Success? ==> done <= Segmented(size, records).value
  {
  }

  /** The first segment of the pending records is the next one. */
  lemma PendingCut<T>(size: T -> nat, records: seq<T>, done: seq<seq<T>>, i: nat)
    requires |Flat(done)| <= i <= |records| && var pending := records[|Flat(done)|..i];
             pending != [] && Closed(size, pending) && !Blocked(size, pending)
    ensures var pending := records[|Flat(done)|..i];
            0 < First(size, pending) <= |pending| && Next(size, records, done, pending[..First(size, pending)])
  {
    hide FitFrom, First, Closed, Blocked, Segmented, Flat;
    var p := |Flat(done)|;
    var pending := records[p..i];
    var n := First(size, pending);
    CutKeeps(size, pending, records[i..]);
    assert pending + records[i..] == records[p..];
    assert pending[n..] + records[i..] == records[p + n..];
    assert pending[..n] == records[p..p + n];
  }

  lemma PendingBlocked<T>(size: T -> nat, records: seq<T>, done: seq<seq<T>>, i: nat)
    requires Underway(size, records, done) && |Flat(done)| <= i <= |records|
    requires Blocked(size, records[|Flat(done)|..i])
    ensures Segmented(size, records).Failure?
  {
    hide FitFrom, First, Closed, Blocked, Flat;
    var p := |Flat(done)|;
    BlockedClosed(size, records[p..i]);
    FirstExtend(size, records[p..i], records[i..]);
    assert records[p..i] + records[i..] == records[p..];
    BlockedNonEmpty(size, records[p..]);
  }

  lemma PendingLast<T>(size: T -> nat, records: seq<T>, done: seq<seq<T>>)
    requires |Flat(done)| < |records| && !Closed(size, records[|Flat(done)|..])
    ensures Next(size, records, done, records[|Flat(done)|..])
  {
    hide FitFrom, First, Closed, Blocked, Flat;
    var p := |Flat(done)|;
    LastSegment(size, records[p..]);
    assert records[p..] == records[p..p + |records[p..]|] && records[p + |records[p..]|..] == [];
    assert [records[p..]] + [] == [records[p..]];
  }

  lemma PrefixesComparable<T>(a: seq<T>, b: seq<T>, whole: seq<T>)
    requires a <= whole && b <= whole
    ensures Comparable(a, b)
  {
    if |a| <= |b| {
      assert a == whole[..|a|] == b[..|a|];
    } else {
      assert b == whole[..|b|] == a[..|b|];
    }
  }

  /** The saved segments are what an earlier attempt on the same output stored. */
  ghost predicate Accepted<T>(size: T -> nat, records: seq<T>, ordinal: T -> int, start: nat, saved: seq<seq<T>>) {
    && Numbered(records, ordinal, start)
    && Segmented(size, records).Success? && saved <= Segmented(size, records).value
  }

  /** What holds between two segments of an attempt. */
  ghost predicate Replaying<T>(size: T -> nat, records: seq<T>, ordinal: T -> int, start: nat, saved: seq<seq<T>>, done: seq<seq<T>>) {
    && Underway(size, records, done) && NonEmpty(saved) && NonEmpty(done) && Comparable(done, saved)
    && Numbered(records[..|Flat(done)|], ordinal, start)
  }

  /** What the table then holds. */
  lemma Standing<T>(size: T -> nat, records: seq<T>, ordinal: T -> int, start: nat, saved: seq<seq<T>>, done: seq<seq<T>>)
    requires Replaying(size, records, ordinal, start, saved, done)
    ensures var stored := Table(saved, done);
            && saved <= stored && NonEmpty(stored)
            && (Segmented(size, records).Success? && saved <= Segmented(size, records).value ==>
                  stored <= Segmented(size, records).value)
  {
    UnderwayPrefix(size, records, done);
  }

  /** `save` accepts the next segment of every acceptable replay, and its acceptance keeps the
      replay on course. */
  lemma SaveOutcome<T>(size: T -> nat, records: seq<T>, ordinal: T -> int, start: nat, saved: seq<seq<T>>, done: seq<seq<T>>, segment: seq<T>)
    requires Replaying(size, records, ordinal, start, saved, done)
    requires Next(size, records, done, segment) && segment != []
    ensures var ok := Numbered(segment, ordinal, start + |Flat(done)|) && Comparable(done + [segment], saved);
            && (ok ==> Replaying(size, records, ordinal, start, saved, done + [segment]))
            && (!ok ==> !Accepted(size, records, ordinal, start, saved))
  {
    hide Segmented, Flat;
    var p := |Flat(done)|;
    UnderwayStep(size, records, done, segment);
    UnderwayPrefix(size, records, done + [segment]);
    FlatPush(done, segment);
    if Numbered(records, ordinal, start) {
      forall i | 0 <= i < |segment| ensures ordinal(segment[i]) == start + p + i { assert segment[i] == records[p + i]; }
    }
    if Segmented(size, records).Success? && saved <= Segmented(size, records).value {
      PrefixesComparable(done + [segment], saved, Segmented(size, records).value);
    }
    if Numbered(segment, ordinal, start + p) {
      forall i | 0 <= i < p + |segment| ensures ordinal(records[i]) == start + i {
        if i < p {
          assert records[i] == records[..p][i];
        } else {
          assert records[i] == segment[i - p];
        }
      }
    }
  }

  lemma Begin<T>(size: T -> nat, records: seq<T>, ordinal: T -> int, start: nat, saved: seq<seq<T>>)
    requires NonEmpty(saved)
    ensures Flat<T>([]) == [] && Replaying(size, records, ordinal, start, saved, [])
  {
    assert records[0..] == records;
    PrependNone(Segmented(size, records));
  }

  /** At the end of the records the confirmed segments are all there are. */
  lemma Ended<T>(size: T -> nat, records: seq<T>, ordinal: T -> int, start: nat, saved: seq<seq<T>>, done: seq<seq<T>>)
    requires Replaying(size, records, ordinal, start, saved, done) && |Flat(done)| == |records|
    ensures Segmented(size, records) == Success(done) && Numbered(records, ordinal, start)
    ensures |Flat(saved)| <= |Flat(done)| <==> saved <= done
  {
    assert records[|records|..] == [] && records[..|records|] == records;
    assert done + [] == done;
    if done <= saved && |done| < |saved| {
      LookupNext(done, saved, start);
    } else {
      LongerFlat(saved, done);
    }
  }

  /** One attempt. It stores segments as it cuts them; the process dies when it comes to
      segment number `stop`, if there is one. */
  method PrepareDecoded<T(==)>(size: T -> nat, records: seq<T>, ordinal: T -> int, start: nat, saved: seq<seq<T>>, stop: Option<nat>)
    returns (r: Result<nat>, stored: seq<seq<T>>)
    requires NonEmpty(saved)
    ensures saved <= stored && NonEmpty(stored)
    ensures Segmented(size, records).Success? && saved <= Segmented(size, records).value ==>
              stored <= Segmented(size, records).value
    ensures r.Success? ==> r.value == start + |records| && Segmented(size, records) == Success(stored)
    ensures r.Success? ==> Accepted(size, records, ordinal, start, saved)
    ensures stop.None? && Accepted(size, records, ordinal, start, saved) ==> r.Success?
  {
    hide FitFrom, First, Closed, Blocked, Segmented, Flat, Lookup, Next, Total, Underway, Numbered, NonEmpty, Table;
    var pending, position, done: seq<seq<T>> := [], start, [];
    var savedCount := start + |Flat(saved)|;
    var count, ok := savedCount, true;
    Begin(size, records, ordinal, start, saved);
    EmptyOpen<T>(size);
    var i := 0;
    while i < |records|
      invariant 0 <= |Flat(done)| <= i <= |records| && position == start + |Flat(done)| && count == Max(savedCount, position)
      invariant pending == records[|Flat(done)|..i] && !Closed(size, pending)
      invariant Replaying(size, records, ordinal, start, saved, done)
    {
      pending := pending + [records[i]];
      i := i + 1;
      while true
        invariant 0 <= |Flat(done)| <= i <= |records| && position == start + |Flat(done)| && count == Max(savedCount, position)
        invariant pending == records[|Flat(done)|..i]
        invariant Replaying(size, records, ordinal, start, saved, done)
        decreases |pending|
      {
        EmptyOpen<T>(size);
        Standing(size, records, ordinal, start, saved, done);
        var length := SegmentPrefix(pending, size, false);
        if length.Failure? {
          PendingBlocked(size, records, done, i);
          return Failure, Table(saved, done);
        }
        if length.value == 0 {
          if pending != [] {
            FirstPositive(size, pending);
          }
          break;
        }
        PendingCut(size, records, done, i);
        var segment := pending[..length.value];
        SaveOutcome(size, records, ordinal, start, saved, done, segment);
        if stop == Some(|done|) {
          return Failure, Table(saved, done);
        }
        ok, count := Save(segment, done, saved, position, savedCount, count, start, ordinal);
        if !ok {
          return Failure, Table(saved, done);
        }
        FlatPush(done, segment);
        done, position, pending := done + [segment], position + |segment|, pending[length.value..];
      }
    }
    Standing(size, records, ordinal, start, saved, done);
    if pending != [] {
      assert pending == records[|Flat(done)|..];
      PendingLast(size, records, done);
      SaveOutcome(size, records, ordinal, start, saved, done, pending);
      if stop == Some(|done|) {
        return Failure, Table(saved, done);
      }
      ok, count := Save(pending, done, saved, position, savedCount, count, start, ordinal);
      if !ok {
        return Failure, Table(saved, done);
      }
      FlatPush(done, pending);
      done, position := done + [pending], position + |pending|;
      Standing(size, records, ordinal, start, saved, done);
    }
    Ended(size, records, ordinal, start, saved, done);
    TableDone(saved, done);
    return if position != count then Failure else Success(position), Table(saved, done);
  }

  lemma TableDone<T>(saved: seq<seq<T>>, done: seq<seq<T>>)
    ensures saved <= done ==> Table(saved, done) == done
  {
  }

  /** Whatever crashes came before, the attempt that completes leaves exactly the segments of an
      uninterrupted one; no replay is rejected for what an earlier attempt stored. */
  method Recover<T(==)>(size: T -> nat, records: seq<T>, ordinal: T -> int, start: nat, crashes: seq<nat>)
    returns (r: Result<nat>, stored: seq<seq<T>>)
    requires Numbered(records, ordinal, start)
    ensures r.Success? <==> Segmented(size, records).Success?
    ensures r.Success? ==> r.value == start + |records| && Segmented(size, records) == Success(stored)
    ensures r.Success? ==> Flat(stored) == records && forall k :: 0 <= k < |stored| ==> Bounded(size, stored[k])
  {
    hide Segmented, Numbered, Bounded;
    stored := [];
    for k := 0 to |crashes|
      invariant NonEmpty(stored) && (Segmented(size, records).Success? ==> stored <= Segmented(size, records).value)
    {
      r, stored := PrepareDecoded(size, records, ordinal, start, stored, Some(crashes[k]));
    }
    r, stored := PrepareDecoded(size, records, ordinal, start, stored, None);
    if r.Success? {
      SegmentsFaithful(size, records);
    }
  }
}
