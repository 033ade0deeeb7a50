/** Paging through the segments of a published extraction for a line range
    (`internal/server/segment_reads.go`, `workers/segment_io.py`). */
module SegmentReads {
  import opened Bytes
  import opened Seqs
  import opened Wrappers
  import opened Redaction
  import opened Chunking
  import opened Segments
  import opened LineReads
  import ChunkFacts
  import NativeTurns

  const PAGE_SEGMENTS := 8
  const QUERY_ROWS := 512
  const READ_BYTES := 33554432

  type Segment = seq<Chunk>

  // ----- segments and their line ranges -----

  /** At most 64 chunks with consecutive ordinals. */
  ghost predicate Sound(m: Segment) {
    0 < |m| <= SEGMENT_CHUNKS && forall k :: 0 <= k < |m| ==> m[k].ordinal == m[0].ordinal + k
  }

  /** Sound segments, each after the one before. */
  ghost predicate Rising(members: seq<Segment>) {
    && (forall i :: 0 <= i < |members| ==> Sound(members[i]))
    && (forall i, j :: 0 <= i < j < |members| ==> members[i][0].ordinal + |members[i]| <= members[j][0].ordinal)
  }

  /** The line range a segment is stored with: smallest start and largest end of its chunks. */
  function Low(m: Segment): (r: nat)
    requires m != []
    ensures forall k :: 0 <= k < |m| ==> r <= m[k].lineStart
    ensures exists k :: 0 <= k < |m| && r == m[k].lineStart
  {
    if |m| == 1 then m[0].lineStart
    else
      var rest := Low(m[1..]);
      assert forall k :: 1 <= k < |m| ==> m[k] == m[1..][k - 1];
      if m[0].lineStart < rest then m[0].lineStart else rest
  }

  function High(m: Segment): (r: nat)
    requires m != []
    ensures forall k :: 0 <= k < |m| ==> m[k].lineEnd <= r
    ensures exists k :: 0 <= k < |m| && r == m[k].lineEnd
  {
    if |m| == 1 then m[0].lineEnd
    else
      var rest := High(m[1..]);
      assert forall k :: 1 <= k < |m| ==> m[k] == m[1..][k - 1];
      if m[0].lineEnd > rest then m[0].lineEnd else rest
  }

  predicate Matches(m: Segment, a: nat, b: nat) { m != [] && High(m) >= a && Low(m) <= b }

  predicate Meets(row: Chunk, a: nat, b: nat) { row.lineEnd >= a && row.lineStart <= b }

  /** The rows of a range, in order. */
  function Keep(rows: seq<Chunk>, a: nat, b: nat): seq<Chunk> {
    if rows == [] then [] else Keep(rows[..|rows| - 1], a, b) + if Meets(rows[|rows| - 1], a, b) then [rows[|rows| - 1]] else []
  }

  function KeepSegments(members: seq<Segment>, a: nat, b: nat): seq<Segment> {
    if members == [] then [] else (if Matches(members[0], a, b) then [members[0]] else []) + KeepSegments(members[1..], a, b)
  }

  lemma {:induction false} KeepConcat(x: seq<Chunk>, y: seq<Chunk>, a: nat, b: nat)
    ensures Keep(x + y, a, b) == Keep(x, a, b) + Keep(y, a, b)
  {
    if y == [] {
      assert x + y == x;
    } else {
      var n := |y| - 1;
      assert (x + y)[..|x| + n] == x + y[..n];
      KeepConcat(x, y[..n], a, b);
    }
  }

  lemma {:induction false} KeepNothing(rows: seq<Chunk>, a: nat, b: nat)
    requires forall k :: 0 <= k < |rows| ==> !Meets(rows[k], a, b)
    ensures Keep(rows, a, b) == []
  {
    if rows != [] {
      KeepNothing(rows[..|rows| - 1], a, b);
    }
  }

  /** The segment prefilter drops no row of the range. */
  lemma {:induction false} PrefilterKeepsRows(members: seq<Segment>, a: nat, b: nat)
    ensures Keep(Flat(KeepSegments(members, a, b)), a, b) == Keep(Flat(members), a, b)
  {
    hide Keep, Low, High;
    if members != [] {
      var m, rest := members[0], members[1..];
      PrefilterKeepsRows(rest, a, b);
      KeepConcat(m, Flat(rest), a, b);
      if Matches(m, a, b) {
        var kept := KeepSegments(rest, a, b);
        assert ([m] + kept)[1..] == kept;
        KeepConcat(m, Flat(kept), a, b);
      } else {
        KeepNothing(m, a, b);
        assert [] + KeepSegments(rest, a, b) == KeepSegments(rest, a, b);
      }
    }
  }

  lemma {:induction false} KeptMembers(members: seq<Segment>, a: nat, b: nat)
    ensures forall m :: m in KeepSegments(members, a, b) ==> m in members
  {
    if members != [] {
      KeptMembers(members[1..], a, b);
    }
  }

  lemma {:induction false} KeptRising(members: seq<Segment>, a: nat, b: nat)
    requires Rising(members)
    ensures Rising(KeepSegments(members, a, b))
  {
    hide Low, High, Matches;
    if members != [] {
      var rest := members[1..];
      assert forall i :: 0 <= i < |rest| ==> rest[i] == members[i + 1];
      KeptRising(rest, a, b);
      KeptMembers(rest, a, b);
      var kept: seq<Segment> := KeepSegments(rest, a, b);
      assert Sound(members[0]) && forall i :: 0 <= i < |kept| ==> Sound(kept[i]);
      forall i | 0 <= i < |kept| ensures members[0][0].ordinal + |members[0]| <= kept[i][0].ordinal {
        assert kept[i] in rest;
        var k :| 0 <= k < |rest| && rest[k] == kept[i];
      }
    }
  }

  // ----- paging -----

  function After(members: seq<Segment>, last: int): seq<Segment> {
    if members == [] then []
    else (if members[0] != [] && members[0][0].ordinal > last then [members[0]] else []) + After(members[1..], last)
  }

  function Take<T>(n: nat, s: seq<T>): seq<T> { if |s| <= n then s else s[..n] }

  /** `readSegments`: the next members in the range. */
  function Page(members: seq<Segment>, last: int, a: nat, b: nat): seq<Segment> {
    Take(PAGE_SEGMENTS, After(KeepSegments(members, a, b), last))
  }

  lemma {:induction false} AfterIs(members: seq<Segment>, last: int, j: nat)
    requires j <= |members| && Rising(members)
    requires forall i :: 0 <= i < j ==> members[i][0].ordinal <= last
    requires forall i :: j <= i < |members| ==> members[i][0].ordinal > last
    ensures After(members, last) == members[j..]
  {
    hide Sound;
    if members != [] {
      var rest := members[1..];
      assert forall i :: 0 <= i < |rest| ==> rest[i] == members[i + 1];
      assert Sound(members[0]);
      assert members[0] != [] by { SoundNonEmpty(members[0]); }
      AfterIs(rest, last, if j == 0 then 0 else j - 1);
      if j == 0 {
        assert [members[0]] + rest == members;
      } else {
        assert rest[j - 1..] == members[j..];
      }
    }
  }

  lemma SoundNonEmpty(m: Segment)
    requires Sound(m)
    ensures 0 < |m| <= SEGMENT_CHUNKS
  {
  }

  ghost predicate Increasing(rows: seq<Chunk>) { forall i, j :: 0 <= i < j < |rows| ==> rows[i].ordinal < rows[j].ordinal }

  ghost predicate From(rows: seq<Chunk>, at: int) { forall i :: 0 <= i < |rows| ==> rows[i].ordinal >= at }

  lemma {:induction false} FlatIncreasing(members: seq<Segment>)
    requires Rising(members)
    ensures Increasing(Flat(members))
    ensures members != [] ==> From(Flat(members), members[0][0].ordinal)
  {
    if members != [] {
      var m, rest := members[0], members[1..];
      assert forall i :: 0 <= i < |rest| ==> rest[i] == members[i + 1];
      FlatIncreasing(rest);
      if rest != [] {
        assert From(Flat(rest), m[0].ordinal + |m|);
      }
    }
  }

  lemma {:induction false} KeepIncreasing(rows: seq<Chunk>, a: nat, b: nat)
    requires Increasing(rows)
    ensures Increasing(Keep(rows, a, b)) && |Keep(rows, a, b)| <= |rows|
    ensures forall row :: row in Keep(rows, a, b) ==> row in rows
  {
    if rows != [] {
      var n := |rows| - 1;
      KeepIncreasing(rows[..n], a, b);
      var kept := Keep(rows[..n], a, b);
      forall i | 0 <= i < |kept| ensures kept[i].ordinal < rows[n].ordinal {
        assert kept[i] in rows[..n];
        var k :| 0 <= k < n && rows[..n][k] == kept[i];
      }
    }
  }

  /** Eight segments hold at most 512 rows. */
  lemma {:induction false} PageSize(members: seq<Segment>)
    requires forall i :: 0 <= i < |members| ==> Sound(members[i])
    ensures |Flat(members)| <= SEGMENT_CHUNKS * |members|
  {
    if members != [] {
      PageSize(members[1..]);
    }
  }

  lemma {:induction false} FlatMember(members: seq<Segment>, row: Chunk) returns (i: nat)
    requires row in Flat(members) && forall k :: 0 <= k < |members| ==> Sound(members[k])
    ensures i < |members| && row in members[i]
    ensures members[i] != [] && members[i][0].ordinal <= row.ordinal < members[i][0].ordinal + |members[i]|
  {
    hide Flat;
    FlatUnfold(members);
    if row in members[0] {
      i := 0;
      var k :| 0 <= k < |members[0]| && members[0][k] == row;
    } else {
      var j := FlatMember(members[1..], row);
      i := j + 1;
    }
  }

  lemma FlatUnfold(members: seq<Segment>)
    ensures Flat(members) == if members == [] then [] else members[0] + Flat(members[1..])
  {
  }

  datatype Rows = Rows(rows: seq<Chunk>) | TooLarge | Outside

  function Length(row: Chunk): nat { |row.content| }

  /** The rows of a range, unless there are too many bytes of them. */
  function RowsOf(wanted: seq<Chunk>): Rows { if Total(Length, wanted) > READ_BYTES then TooLarge else Rows(wanted) }

  predicate Inside(segments: seq<Segment>, row: Chunk) {
    exists i :: 0 <= i < |segments| && segments[i] != [] && segments[i][0].ordinal <= row.ordinal < segments[i][0].ordinal + |segments[i]|
  }

  /** The next row comes after the one before it and adds its length. */
  lemma NextRow(wanted: seq<Chunk>, start: seq<Chunk>, rows: seq<Chunk>, k: nat)
    requires start + rows <= wanted && Increasing(wanted) && k < |rows|
    ensures var before, row := start + rows[..k], rows[k];
            && row in rows && before + [row] == start + rows[..k + 1]
            && (before != [] ==> before[|before| - 1].ordinal < row.ordinal)
            && Total(Length, before + [row]) == Total(Length, before) + |row.content| <= Total(Length, wanted)
  {
    hide Total;
    var before, row := start + rows[..k], rows[k];
    assert before == wanted[..|before|] && row == wanted[|before|] && before + [row] == wanted[..|before| + 1];
    TotalSnoc(Length, wanted, |before|);
    TotalGrows(Length, wanted, |before| + 1);
  }

  /** The rows of one page: all in the pinned segments, in order, within the byte budget. */
  method TakeRows(rows: seq<Chunk>, segments: seq<Segment>, start: seq<Chunk>, size: nat, lastChunk: int, ghost wanted: seq<Chunk>)
    returns (r: Rows, bytes: nat, last: int)
    requires start + rows <= wanted && Increasing(wanted)
    requires lastChunk == if start == [] then -1 else start[|start| - 1].ordinal
    requires size == Total(Length, start) <= READ_BYTES
    requires forall row :: row in rows ==> Inside(segments, row)
    ensures r != Outside && (r.TooLarge? ==> Total(Length, wanted) > READ_BYTES)
    ensures r.Rows? ==> r.rows == start + rows && bytes == Total(Length, start + rows) <= READ_BYTES
    ensures r.Rows? ==> last == if start + rows == [] then -1 else (start + rows)[|start + rows| - 1].ordinal
  {
    hide Total, Inside, Increasing;
    bytes, last := size, lastChunk;
    var result := start;
    var k := 0;
    while k < |rows|
      invariant 0 <= k <= |rows| && result == start + rows[..k] && bytes == Total(Length, result) <= READ_BYTES
      invariant last == if result == [] then -1 else result[|result| - 1].ordinal
    {
      var row := rows[k];
      NextRow(wanted, start, rows, k);
      if last >= row.ordinal || !Inside(segments, row) {
        return Outside, bytes, last;
      }
      last := row.ordinal;
      bytes := bytes + |row.content|;
      if bytes > READ_BYTES {
        return TooLarge, bytes, last;
      }
      result, k := result + [row], k + 1;
    }
    assert rows[..k] == rows;
    return Rows(result), bytes, last;
  }

  /** `readSegmentRows`: exactly the rows of the range, in order; the row limit never truncates
      and no row is ever taken for a stray one. */
  method ReadSegmentRows(members: seq<Segment>, a: nat, b: nat) returns (r: Rows)
    requires Rising(members)
    ensures r == RowsOf(Keep(Flat(members), a, b))
  {
    hide Rising, Keep, Flat, KeepSegments, After, Total, Sound;
    ghost var kept := KeepSegments(members, a, b);
    ghost var wanted := Keep(Flat(kept), a, b);
    PrefilterKeepsRows(members, a, b);
    KeptRising(members, a, b);
    FlatIncreasing(kept);
    KeepIncreasing(Flat(kept), a, b);
    assert Keep(Flat<Chunk>([]), a, b) == [] by { NothingKept(a, b); }
    NothingWeighs(Length);
    var result: seq<Chunk>, bytes := [], 0;
    var lastSegment: int, lastChunk: int := -1, -1;
    ghost var j := 0;
    while true
      invariant 0 <= j <= |kept| && result == Keep(Flat(kept[..j]), a, b)
      invariant bytes == Total(Length, result) <= READ_BYTES
      invariant lastChunk == if result == [] then -1 else result[|result| - 1].ordinal
      invariant j == 0 ==> lastSegment == -1
      invariant j > 0 ==> kept[j - 1] != [] && lastSegment == kept[j - 1][0].ordinal
      decreases |kept| - j
    {
      var segments := Page(members, lastSegment, a, b);
      PageIs(kept, lastSegment, j);
      if |segments| == 0 {
        assert kept[..j] == kept;
        return RowsOf(result);
      }
      ghost var e := j + |segments|;
      assert segments == kept[j..e];
      var rows := Take(QUERY_ROWS, Keep(Flat(segments), a, b));
      PageRows(kept, j, e, a, b);
      var step;
      step, bytes, lastChunk := TakeRows(rows, segments, result, bytes, lastChunk, wanted);
      if !step.Rows? {
        return step;
      }
      result, j := step.rows, e;
      lastSegment := segments[|segments| - 1][0].ordinal;
      if |segments| < PAGE_SEGMENTS {
        assert kept[..j] == kept;
        return RowsOf(result);
      }
    }
  }

  lemma NothingKept(a: nat, b: nat)
    ensures Keep(Flat<Chunk>([]), a, b) == []
  {
  }

  lemma PageIs(kept: seq<Segment>, last: int, j: nat)
    requires Rising(kept) && j <= |kept|
    requires j == 0 ==> last == -1
    requires j > 0 ==> kept[j - 1] != [] && last == kept[j - 1][0].ordinal
    ensures After(kept, last) == kept[j..]
    ensures forall i :: 0 <= i < |kept| ==> kept[i] != []
  {
    hide After;
    assert forall i :: 0 <= i < |kept| ==> Sound(kept[i]);
    forall i | j <= i < |kept| ensures kept[i][0].ordinal > last {
      if j > 0 { assert kept[j - 1][0].ordinal + |kept[j - 1]| <= kept[i][0].ordinal; }
    }
    forall i | 0 <= i < j ensures kept[i][0].ordinal <= last {
      if i < j - 1 { assert kept[i][0].ordinal + |kept[i]| <= kept[j - 1][0].ordinal; }
    }
    AfterIs(kept, last, j);
  }

  /** A page's rows continue the rows read so far, are not truncated, and lie in its segments. */
  lemma PageRows(kept: seq<Segment>, j: nat, e: nat, a: nat, b: nat)
    requires Rising(kept) && j <= e <= |kept| && e - j <= PAGE_SEGMENTS
    ensures var rows := Keep(Flat(kept[j..e]), a, b);
            && Take(QUERY_ROWS, rows) == rows
            && Keep(Flat(kept[..j]), a, b) + rows == Keep(Flat(kept[..e]), a, b) <= Keep(Flat(kept), a, b)
            && forall row :: row in rows ==> Inside(kept[j..e], row)
  {
    hide Keep, Flat, Inside;
    var part := kept[j..e];
    assert forall i :: 0 <= i < |part| ==> part[i] == kept[j + i] && Sound(part[i]);
    assert Rising(part);
    PageSize(part);
    FlatIncreasing(part);
    KeepIncreasing(Flat(part), a, b);
    assert kept[..e] == kept[..j] + part && kept == kept[..e] + kept[e..];
    FlatConcat(kept[..j], part);
    FlatConcat(kept[..e], kept[e..]);
    KeepConcat(Flat(kept[..j]), Flat(part), a, b);
    KeepConcat(Flat(kept[..e]), Flat(kept[e..]), a, b);
    forall row | row in Keep(Flat(part), a, b) ensures Inside(part, row) {
      var i := FlatMember(part, row);
      InsideAt(part, row, i);
    }
  }

  lemma InsideAt(segments: seq<Segment>, row: Chunk, i: nat)
    requires i < |segments| && segments[i] != [] && segments[i][0].ordinal <= row.ordinal < segments[i][0].ordinal + |segments[i]|
    ensures Inside(segments, row)
  {
  }

  // ----- the whole read -----

  /** Segments of consecutively numbered chunks rise. */
  lemma {:induction false} NumberedRise(members: seq<Segment>, at: nat)
    requires forall i :: 0 <= i < |members| ==> 0 < |members[i]| <= SEGMENT_CHUNKS
    requires forall k :: 0 <= k < |Flat(members)| ==> Flat(members)[k].ordinal == at + k
    ensures Rising(members)
    ensures forall i :: 0 <= i < |members| ==> members[i][0].ordinal >= at
  {
    hide Flat;
    FlatUnfold(members);
    if members != [] {
      var m, rest := members[0], members[1..];
      forall k | 0 <= k < |Flat(rest)| ensures Flat(rest)[k].ordinal == at + |m| + k {
        assert Flat(rest)[k] == Flat(members)[|m| + k];
      }
      forall k | 0 <= k < |m| ensures m[k].ordinal == at + k { assert m[k] == Flat(members)[k]; }
      NumberedRise(rest, at + |m|);
      assert forall i :: 1 <= i < |members| ==> members[i] == rest[i - 1];
    }
  }

  /** Rows outside the range contribute nothing to its lines. */
  lemma {:induction false} KeepLines(rows: seq<Chunk>, a: nat, b: nat, l: nat)
    requires a <= l <= b
    ensures Joined(Keep(rows, a, b), l) == Joined(rows, l) && (Covers(Keep(rows, a, b), l) <==> Covers(rows, l))
  {
    hide Covers, Joined;
    if rows != [] {
      var n := |rows| - 1;
      KeepLines(rows[..n], a, b, l);
      assert rows == rows[..n] + [rows[n]];
      JoinedConcat(rows[..n], [rows[n]], l);
      JoinedOne(rows[n], l);
      if Meets(rows[n], a, b) {
        JoinedConcat(Keep(rows[..n], a, b), [rows[n]], l);
      } else {
        assert Keep(rows[..n], a, b) + [] == Keep(rows[..n], a, b);
      }
    }
  }

  lemma {:induction false} KeepSelect(rows: seq<Chunk>, a: nat, b: nat, from: nat)
    requires a <= from
    ensures Select(Keep(rows, a, b), from, b) == Select(rows, from, b)
    decreases b - from
  {
    hide Covers, Joined, Keep;
    if from <= b {
      KeepSelect(rows, a, b, from + 1);
      KeepLines(rows, a, b, from);
    }
  }

  lemma {:induction false} KeepRanged(rows: seq<Chunk>, a: nat, b: nat)
    requires forall i :: 0 <= i < |rows| ==> Ranged(rows[i])
    ensures forall i :: 0 <= i < |Keep(rows, a, b)| ==> Ranged(Keep(rows, a, b)[i])
  {
    hide Ranged;
    if rows != [] {
      KeepRanged(rows[..|rows| - 1], a, b);
    }
  }

  lemma {:induction false} KeepInOrder(rows: seq<Chunk>, a: nat, b: nat)
    requires InOrder(rows)
    ensures InOrder(Keep(rows, a, b))
    ensures forall row :: row in Keep(rows, a, b) ==> row in rows
  {
    hide Less;
    if rows != [] {
      var n := |rows| - 1;
      KeepInOrder(rows[..n], a, b);
      var kept := Keep(rows[..n], a, b);
      forall i | 0 <= i < |kept| ensures !Less(rows[n], kept[i]) {
        assert kept[i] in rows[..n];
        var k :| 0 <= k < n && rows[..n][k] == kept[i];
      }
    }
  }

  datatype Answer = Lines(lines: seq<Numbered>) | Refused | Unavailable

  /** Validation of the requested range. */
  predicate ValidRange(start: int, end: int) { start > 0 && end > 0 && end >= start && end - start <= 999 }

  lemma ChunksRanged(c: Setup, input: seq<byte>, chunks: seq<Chunk>)
    requires c.Valid() && Whole(c, input) == Success(chunks)
    ensures forall i :: 0 <= i < |chunks| ==> Ranged(chunks[i]) && chunks[i].ordinal == i
  {
    hide Output, Text, Whole, Record, ChunkFacts.Tiles, ChunkFacts.StartOf;
    var items := Text(input);
    ChunkFacts.WholeTiles(c, input);
    forall i | 0 <= i < |chunks| ensures Ranged(chunks[i]) && chunks[i].ordinal == i {
      ChunkFacts.TileAt(c, items, chunks, 0, |Output(items)|, 0, i);
      var at := ChunkFacts.StartOf(chunks, i);
      RecordLines(c, items, at, at + |chunks[i].content|, i);
      RecordOrdinal(c, items, at, at + |chunks[i].content|, i);
    }
  }

  lemma RecordOrdinal(c: Setup, items: seq<Item>, left: nat, right: nat, ordinal: nat)
    requires left <= right <= |Output(items)|
    ensures Record(c, items, left, right, ordinal).ordinal == ordinal
  {
  }

  /** A line read of a published text file: exactly the lines `a` to `b` of the redacted text
      that exist, whatever chunks and segments they lie in. */
  method ReadFileLines(c: Setup, ghost input: seq<byte>, members: seq<Segment>, a: int, b: int) returns (r: Answer)
    requires c.Valid() && Whole(c, input) == Success(Flat(members))
    requires forall i :: 0 <= i < |members| ==> 0 < |members[i]| <= SEGMENT_CHUNKS
    ensures !ValidRange(a, b) ==> r == Refused
    ensures ValidRange(a, b) && Total(Length, Keep(Flat(members), a, b)) > READ_BYTES ==> r == Refused
    ensures ValidRange(a, b) && Total(Length, Keep(Flat(members), a, b)) <= READ_BYTES ==>
              var lines := LinesOf(Output(Text(input)), c.firstLine, a, b);
              r == if lines == [] then Unavailable else Lines(lines)
  {
    hide Flat, Keep, Total, Whole, Output, Text, LinesOf, Select, Ranged, Rising, InOrder, Sort;
    if !ValidRange(a, b) {
      return Refused;
    }
    ChunksRanged(c, input, Flat(members));
    NumberedRise(members, 0);
    var rows := ReadSegmentRows(members, a, b);
    if !rows.Rows? {
      return Refused;
    }
    KeepRanged(Flat(members), a, b);
    KeepSelect(Flat(members), a, b, a);
    SelectIsLines(c, input, Flat(members), a, b);
    PassInOrder(c, input, Flat(members));
    KeepInOrder(Flat(members), a, b);
    SortKeeps(rows.rows);
    var lines := Reassemble(Sort(rows.rows), a, b);
    return if lines == [] then Unavailable else Lines(lines);
  }

  /** The segments of a complete extraction, however it was reached, are ready for line reads. */
  lemma CompletedIsReadable(size: Chunk -> nat, bytes: seq<byte>, job: NativeTurns.Job)
    requires NativeTurns.Sound(size, bytes, job) && job.complete
    ensures NativeTurns.NATIVE.Valid() && Whole(NativeTurns.NATIVE, bytes) == Success(Flat(job.segments))
    ensures forall i :: 0 <= i < |job.segments| ==> 0 < |job.segments[i]| <= SEGMENT_CHUNKS
  {
    hide Whole, Segmented, NativeTurns.Faithful;
    SegmentsFaithful(size, Whole(NativeTurns.NATIVE, bytes).value);
  }
}
