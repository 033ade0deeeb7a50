/** Reading a line range back from stored chunks (`internal/server/handlers.go`,
    `internal/server/segment_reads.go`, `workers/segment_io.py`). */
module LineReads {
  import opened Bytes
  import opened Seqs
  import opened Wrappers
  import DataUrl
  import opened Redaction
  import opened Chunking
  import opened ChunkFacts
  import opened Segments

  // ----- lines of a text -----

  /** The bytes of line `k`, without its line feed: those that follow exactly `k` line feeds. */
  function Line(s: seq<byte>, k: int): seq<byte> {
    if s == [] then []
    else
      var init, b := s[..|s| - 1], s[|s| - 1];
      Line(init, k) + if b != NEWLINE && Newlines(init) == k then [b] else []
  }

  lemma {:induction false} LineConcat(a: seq<byte>, b: seq<byte>, k: int)
    ensures Line(a + b, k) == Line(a, k) + Line(b, k - Newlines(a))
  {
    if b == [] {
      assert a + b == a;
    } else {
      var n := |b| - 1;
      assert (a + b)[..|a| + n] == a + b[..n];
      LineConcat(a, b[..n], k);
      NewlinesConcat(a, b[..n]);
    }
  }

  lemma {:induction false} LineOutside(s: seq<byte>, k: int)
    requires k < 0 || k > Newlines(s) || (k == Newlines(s) && (s == [] || s[|s| - 1] == NEWLINE))
    ensures Line(s, k) == []
  {
    if s != [] {
      LineOutside(s[..|s| - 1], if k < 0 then k else if s[|s| - 1] == NEWLINE then Newlines(s) + 1 else k);
      if s[|s| - 1] == NEWLINE && k >= 0 {
        LineBeyond(s[..|s| - 1], k);
      }
    }
  }

  lemma {:induction false} LineBeyond(s: seq<byte>, k: int)
    requires k > Newlines(s)
    ensures Line(s, k) == []
  {
    if s != [] {
      LineBeyond(s[..|s| - 1], k);
    }
  }

  /** How many lines a text has. */
  function LineCount(s: seq<byte>): nat { if s == [] then 0 else Newlines(s[..|s| - 1]) + 1 }

  /** `strings.SplitAfter` on line feeds. */
  function SplitAfter(s: seq<byte>): (r: seq<seq<byte>>)
    ensures |r| > 0
  {
    if s == [] then [[]] else Push(SplitAfter(s[..|s| - 1]), s[|s| - 1])
  }

  function Push(parts: seq<seq<byte>>, b: byte): (r: seq<seq<byte>>)
    requires |parts| > 0
    ensures |r| == |parts| + (if b == NEWLINE then 1 else 0)
    ensures forall i :: 0 <= i < |parts| - 1 ==> r[i] == parts[i]
    ensures r[|parts| - 1] == parts[|parts| - 1] + [b]
    ensures b == NEWLINE ==> r[|parts|] == []
  {
    parts[..|parts| - 1] + [parts[|parts| - 1] + [b]] + if b == NEWLINE then [[]] else []
  }

  function TrimNewline(s: seq<byte>): seq<byte> {
    if s != [] && s[|s| - 1] == NEWLINE then s[..|s| - 1] else s
  }

  lemma LineStep(s: seq<byte>, k: int)
    requires s != []
    ensures var init, b := s[..|s| - 1], s[|s| - 1];
            Line(s, k) == if b != NEWLINE && Newlines(init) == k then Line(init, k) + [b] else Line(init, k)
    ensures Newlines(s) == Newlines(s[..|s| - 1]) + if s[|s| - 1] == NEWLINE then 1 else 0
  {
  }

  /** The parts are the lines of the text, the last one still open. */
  ghost predicate AreLines(parts: seq<seq<byte>>, s: seq<byte>) {
    && |parts| == Newlines(s) + 1 && NEWLINE !in parts[Newlines(s)]
    && forall i :: 0 <= i < |parts| ==> TrimNewline(parts[i]) == Line(s, i)
  }

  lemma PushLines(parts: seq<seq<byte>>, s: seq<byte>)
    requires s != [] && AreLines(parts, s[..|s| - 1])
    ensures AreLines(Push(parts, s[|s| - 1]), s)
  {
    hide Line, Newlines, Push, TrimNewline;
    var init, b := s[..|s| - 1], s[|s| - 1];
    var n, more := |parts| - 1, Push(parts, b);
    LineBeyond(init, n + 1);
    Trimmed(parts[n], b);
    forall i | 0 <= i < |more| ensures TrimNewline(more[i]) == Line(s, i) {
      LineStep(s, i);
    }
    LineStep(s, n);
  }

  lemma Trimmed(part: seq<byte>, b: byte)
    requires NEWLINE !in part
    ensures TrimNewline(part) == part && TrimNewline([]) == []
    ensures TrimNewline(part + [b]) == if b == NEWLINE then part else part + [b]
  {
    assert (part + [b])[..|part|] == part;
  }

  /** Splitting yields the lines of the text. */
  lemma {:induction false} SplitLines(s: seq<byte>)
    ensures AreLines(SplitAfter(s), s)
  {
    if s != [] {
      SplitLines(s[..|s| - 1]);
      PushLines(SplitAfter(s[..|s| - 1]), s);
    }
  }

  /** The first `n` lines of a text, each closed by a line feed. */
  function FirstLines(s: seq<byte>, n: nat): seq<byte> {
    if n == 0 then [] else FirstLines(s, n - 1) + Line(s, n - 1) + [NEWLINE]
  }

  lemma {:induction false} FirstLinesSame(s: seq<byte>, t: seq<byte>, n: nat)
    requires forall k :: 0 <= k < n ==> Line(s, k) == Line(t, k)
    ensures FirstLines(s, n) == FirstLines(t, n)
  {
    if n > 0 {
      FirstLinesSame(s, t, n - 1);
    }
  }

  /** All closed lines and the open one are the text. */
  lemma {:induction false} OpenLines(s: seq<byte>)
    ensures FirstLines(s, Newlines(s)) + Line(s, Newlines(s)) == s
  {
    if s == [] {
      assert FirstLines(s, 0) == [] && Line(s, 0) == [];
    } else {
      OpenLines(s[..|s| - 1]);
      OpenLinesStep(s);
    }
  }

  lemma OpenLinesStep(s: seq<byte>)
    requires s != [] && var init := s[..|s| - 1]; FirstLines(init, Newlines(init)) + Line(init, Newlines(init)) == init
    ensures FirstLines(s, Newlines(s)) + Line(s, Newlines(s)) == s
  {
    hide Line, Newlines, FirstLines;
    var init, b := s[..|s| - 1], s[|s| - 1];
    var q := Newlines(init);
    forall k | 0 <= k < q ensures Line(s, k) == Line(init, k) { LineStep(s, k); }
    FirstLinesSame(s, init, q);
    LineStep(s, q);
    var front, line := FirstLines(init, q), Line(init, q);
    assert s == init + [b];
    Assoc(front, line, [b]);
    if b == NEWLINE {
      LineOutside(s, q + 1);
      OneMoreLine(s, q);
      assert s + [] == s;
    }
  }

  lemma OneMoreLine(s: seq<byte>, n: nat)
    ensures FirstLines(s, n + 1) == FirstLines(s, n) + Line(s, n) + [NEWLINE]
  {
  }

  /** A text is its lines, each closed by a line feed, the last one perhaps not. */
  lemma LinesAreText(s: seq<byte>)
    ensures FirstLines(s, LineCount(s)) == if s == [] || s[|s| - 1] == NEWLINE then s else s + [NEWLINE]
  {
    if s != [] {
      hide Line, Newlines;
      OpenLines(s);
      LineStep(s, 0);
      if s[|s| - 1] == NEWLINE {
        LineOutside(s, Newlines(s));
      }
    }
  }

  lemma {:induction false} LineHasNoFeed(s: seq<byte>, k: int)
    ensures NEWLINE !in Line(s, k)
  {
    if s != [] {
      LineHasNoFeed(s[..|s| - 1], k);
    }
  }

  // ----- reassembly -----

  /** What one row contributes to line `l`. */
  function Piece(row: Chunk, l: nat): seq<byte> {
    if row.lineStart <= l <= row.lineEnd then Line(row.content, l - row.lineStart) else []
  }

  function Joined(rows: seq<Chunk>, l: nat): seq<byte> {
    if rows == [] then [] else Joined(rows[..|rows| - 1], l) + Piece(rows[|rows| - 1], l)
  }

  predicate Covers(rows: seq<Chunk>, l: nat) {
    exists i :: 0 <= i < |rows| && rows[i].lineStart <= l <= rows[i].lineEnd
  }

  /** Rows as the chunker makes them: the line range ends within the content. */
  predicate Ranged(row: Chunk) {
    1 <= row.lineStart <= row.lineEnd <= row.lineStart + Newlines(row.content)
  }

  datatype Numbered = Numbered(number: nat, content: seq<byte>)

  /** Lines `a` to `b` of the rows, those that exist. */
  function Select(rows: seq<Chunk>, a: nat, b: nat): seq<Numbered>
    decreases b - a
  {
    if a > b then []
    else (if Covers(rows, a) then [Numbered(a, Joined(rows, a))] else []) + Select(rows, a + 1, b)
  }

  lemma JoinedSnoc(rows: seq<Chunk>, r: nat, l: nat)
    requires r < |rows|
    ensures Joined(rows[..r + 1], l) == Joined(rows[..r], l) + Piece(rows[r], l)
    ensures Covers(rows[..r + 1], l) <==> Covers(rows[..r], l) || rows[r].lineStart <= l <= rows[r].lineEnd
  {
    var more, less := rows[..r + 1], rows[..r];
    assert more[..r] == less && more[r] == rows[r];
    assert forall i :: 0 <= i < r ==> less[i] == more[i];
    if Covers(less, l) {
      var i :| 0 <= i < r && less[i].lineStart <= l <= less[i].lineEnd;
      assert more[i].lineStart <= l <= more[i].lineEnd;
    }
    if rows[r].lineStart <= l <= rows[r].lineEnd {
      assert more[r].lineStart <= l;
    }
  }

  /** Only covered lines have content. */
  lemma {:induction false} JoinedCovered(rows: seq<Chunk>, l: nat)
    requires !Covers(rows, l)
    ensures Joined(rows, l) == []
  {
    if rows != [] {
      var n := |rows| - 1;
      assert rows[..n + 1] == rows;
      JoinedSnoc(rows, n, l);
      JoinedCovered(rows[..n], l);
    }
  }

  ghost predicate Complete(byLine: map<nat, seq<byte>>, rows: seq<Chunk>, a: nat, b: nat) {
    forall l ::
      && (l in byLine <==> a <= l <= b && Covers(rows, l))
      && (l in byLine ==> byLine[l] == Joined(rows, l))
  }

  /** `byLine` after the first `i` lines of a row. */
  ghost function Spread(before: map<nat, seq<byte>>, row: Chunk, i: nat, a: nat, b: nat): map<nat, seq<byte>> {
    if i == 0 then before
    else
      var m, number := Spread(before, row, i - 1, a, b), row.lineStart + i - 1;
      if a <= number <= b then m[number := (if number in m then m[number] else []) + Line(row.content, i - 1)] else m
  }

  lemma {:induction false} SpreadAt(before: map<nat, seq<byte>>, row: Chunk, i: nat, a: nat, b: nat, l: nat)
    ensures var m := Spread(before, row, i, a, b);
            var added := a <= l <= b && row.lineStart <= l < row.lineStart + i;
            && (l in m <==> l in before || added)
            && (l in m ==> m[l] == (if l in before then before[l] else []) + if added then Line(row.content, l - row.lineStart) else [])
  {
    hide Line;
    if i > 0 {
      SpreadAt(before, row, i - 1, a, b, l);
    }
  }

  /** The inner loop: the lines of one row. */
  method AddRow(rows: seq<Chunk>, r: nat, before: map<nat, seq<byte>>, a: nat, b: nat) returns (byLine: map<nat, seq<byte>>)
    requires r < |rows| && Ranged(rows[r]) && Complete(before, rows[..r], a, b)
    ensures Complete(byLine, rows[..r + 1], a, b)
  {
    hide Joined, Line, SplitAfter, TrimNewline, Newlines, Covers, Piece, Complete;
    var row := rows[r];
    var lines := SplitAfter(row.content);
    SplitLines(row.content);
    byLine := before;
    var i := 0;
    while i < |lines| && row.lineStart + i <= row.lineEnd
      invariant 0 <= i <= |lines| && row.lineStart + i <= row.lineEnd + 1
      invariant byLine == Spread(before, row, i, a, b)
    {
      var number := row.lineStart + i;
      if a <= number <= b {
        byLine := byLine[number := (if number in byLine then byLine[number] else []) + TrimNewline(lines[i])];
      }
      i := i + 1;
    }
    RowAdded(rows, r, before, a, b);
  }

  lemma RowAdded(rows: seq<Chunk>, r: nat, before: map<nat, seq<byte>>, a: nat, b: nat)
    requires r < |rows| && Ranged(rows[r]) && Complete(before, rows[..r], a, b)
    ensures Complete(Spread(before, rows[r], rows[r].lineEnd + 1 - rows[r].lineStart, a, b), rows[..r + 1], a, b)
  {
    hide Joined, Line, Covers, Piece, Spread;
    var row := rows[r];
    var i := row.lineEnd + 1 - row.lineStart;
    var after := Spread(before, row, i, a, b);
    forall l: nat
      ensures l in after <==> a <= l <= b && Covers(rows[..r + 1], l)
      ensures l in after ==> after[l] == Joined(rows[..r + 1], l)
    {
      SpreadAt(before, row, i, a, b, l);
      JoinedSnoc(rows, r, l);
      PieceOf(row, l);
      if !Covers(rows[..r], l) {
        JoinedCovered(rows[..r], l);
      }
    }
  }

  lemma PieceOf(row: Chunk, l: nat)
    ensures Piece(row, l) == if row.lineStart <= l <= row.lineEnd then Line(row.content, l - row.lineStart) else []
  {
  }

  /** The reassembly of `readFileLines` over rows in chunk order. */
  method Reassemble(rows: seq<Chunk>, a: nat, b: nat) returns (lines: seq<Numbered>)
    requires forall i :: 0 <= i < |rows| ==> Ranged(rows[i])
    ensures lines == Select(rows, a, b)
  {
    hide Joined, Covers, Ranged;
    var byLine: map<nat, seq<byte>> := map[];
    assert forall l :: !Covers(rows[..0], l) by { NoneCover(rows); }
    for r := 0 to |rows|
      invariant Complete(byLine, rows[..r], a, b)
    {
      byLine := AddRow(rows, r, byLine, a, b);
    }
    assert rows[..|rows|] == rows;
    lines := [];
    var number := a;
    assert [] + Select(rows, a, b) == Select(rows, a, b);
    while number <= b
      invariant a <= number && (a <= b ==> number <= b + 1)
      invariant lines + Select(rows, number, b) == Select(rows, a, b)
    {
      if number in byLine {
        Assoc(lines, [Numbered(number, byLine[number])], Select(rows, number + 1, b));
        lines := lines + [Numbered(number, byLine[number])];
      } else {
        assert [] + Select(rows, number + 1, b) == Select(rows, number + 1, b);
      }
      number := number + 1;
    }
  }

  lemma NoneCover(rows: seq<Chunk>)
    ensures forall l :: !Covers(rows[..0], l)
  {
  }

  // ----- the order of the rows -----

  /** The order `readFileLines` sorts by. */
  predicate Less(a: Chunk, b: Chunk) { a.lineStart < b.lineStart || (a.lineStart == b.lineStart && a.ordinal < b.ordinal) }

  ghost predicate InOrder(rows: seq<Chunk>) { forall i, j :: 0 <= i < j < |rows| ==> !Less(rows[j], rows[i]) }

  function Insert(rows: seq<Chunk>, row: Chunk): seq<Chunk> {
    if rows == [] || !Less(row, rows[|rows| - 1]) then rows + [row]
    else Insert(rows[..|rows| - 1], row) + [rows[|rows| - 1]]
  }

  /** The stable sort. */
  function Sort(rows: seq<Chunk>): seq<Chunk> {
    if rows == [] then [] else Insert(Sort(rows[..|rows| - 1]), rows[|rows| - 1])
  }

  lemma LessIsOrder(a: Chunk, b: Chunk, c: Chunk)
    ensures Less(a, b) ==> !Less(b, a)
    ensures !Less(b, a) && !Less(c, b) ==> !Less(c, a)
  {
  }

  lemma {:induction false} InsertOrders(rows: seq<Chunk>, row: Chunk)
    requires InOrder(rows)
    ensures InOrder(Insert(rows, row)) && multiset(Insert(rows, row)) == multiset(rows) + multiset{row}
  {
    hide Less;
    if rows != [] {
      var init, last := rows[..|rows| - 1], rows[|rows| - 1];
      assert rows == init + [last];
      LessIsOrder(row, last, row);
      if Less(row, last) {
        InsertOrders(init, row);
        var r := Insert(init, row);
        forall i | 0 <= i < |r| ensures !Less(last, r[i]) {
          assert r[i] in multiset(r);
          assert r[i] == row || r[i] in init;
        }
      } else {
        forall i | 0 <= i < |init| ensures !Less(row, rows[i]) { LessIsOrder(rows[i], last, row); }
      }
    }
  }

  lemma {:induction false} SortOrders(rows: seq<Chunk>)
    ensures InOrder(Sort(rows)) && multiset(Sort(rows)) == multiset(rows)
  {
    if rows != [] {
      var n := |rows| - 1;
      SortOrders(rows[..n]);
      InsertOrders(Sort(rows[..n]), rows[n]);
      assert rows == rows[..n] + [rows[n]];
    }
  }

  /** Rows already in order stay as they are. */
  lemma {:induction false} SortKeeps(rows: seq<Chunk>)
    requires InOrder(rows)
    ensures Sort(rows) == rows
  {
    if rows != [] {
      var n := |rows| - 1;
      SortKeeps(rows[..n]);
      assert rows == rows[..n] + [rows[n]];
    }
  }

  // ----- chunks of a whole pass hold the lines of the redacted text -----

  lemma {:induction false} JoinedConcat(x: seq<Chunk>, y: seq<Chunk>, l: nat)
    ensures Joined(x + y, l) == Joined(x, l) + Joined(y, l)
    ensures Covers(x + y, l) <==> Covers(x, l) || Covers(y, l)
    decreases |y|
  {
    hide Joined, Covers, Piece;
    if y == [] {
      assert x + y == x;
      NoneCover(y);
      assert y[..0] == y;
      JoinedCovered(y, l);
    } else {
      var n := |y| - 1;
      JoinedConcat(x, y[..n], l);
      assert (x + y)[..|x| + n] == x + y[..n] && (x + y)[..|x| + n + 1] == x + y && y[..n + 1] == y;
      JoinedSnoc(x + y, |x| + n, l);
      JoinedSnoc(y, n, l);
      Assoc(Joined(x, l), Joined(y[..n], l), Piece(y[n], l));
    }
  }

  lemma NewlinesSplit(s: seq<byte>, left: nat, right: nat)
    requires left <= right <= |s|
    ensures Newlines(s[..right]) == Newlines(s[..left]) + Newlines(s[left..right])
  {
    assert s[..right] == s[..left] + s[left..right];
    NewlinesConcat(s[..left], s[left..right]);
  }

  /** The line range of a record is that of its first and last byte. */
  lemma RecordLines(c: Setup, items: seq<Item>, left: nat, right: nat, ordinal: nat)
    requires left < right <= |Output(items)|
    ensures var o, row := Output(items), Record(c, items, left, right, ordinal);
            && row.content == o[left..right]
            && row.lineStart == c.firstLine + Newlines(o[..left])
            && row.lineEnd == c.firstLine + Newlines(o[..right - 1])
            && row.lineStart <= row.lineEnd <= row.lineStart + Newlines(row.content)
  {
    hide Output, SourceAt, Touches, Newlines;
    var o := Output(items);
    NewlinesSplit(o, left, right);
    NewlinesSplit(o, left, right - 1);
    LineStep(o[left..right], 0);
    assert o[left..right][..right - left - 1] == o[left..right - 1];
  }

  /** A record contributes to each line exactly its bytes of that line. */
  lemma RecordPiece(c: Setup, items: seq<Item>, left: nat, right: nat, ordinal: nat, l: nat)
    requires left < right <= |Output(items)|
    ensures var o, row := Output(items), Record(c, items, left, right, ordinal);
            Piece(row, l) == Line(o[left..right], l - c.firstLine - Newlines(o[..left]))
  {
    hide Output, SourceAt, Touches, Newlines, Line, Record;
    var o, row := Output(items), Record(c, items, left, right, ordinal);
    RecordLines(c, items, left, right, ordinal);
    if !(row.lineStart <= l <= row.lineEnd) {
      LineStep(o[left..right], 0);
      NewlinesSplit(o, left, right - 1);
      assert o[left..right][..right - left - 1] == o[left..right - 1];
      LineOutside(o[left..right], l - row.lineStart);
    }
  }

  /** Consecutive records hold, line by line, the text between their ends. */
  lemma {:induction false} TilesLines(c: Setup, items: seq<Item>, chunks: seq<Chunk>, left: nat, right: nat, ordinal: nat, l: nat)
    requires right <= |Output(items)| && Tiles(c, items, chunks, left, right, ordinal)
    ensures left <= right
    ensures var o := Output(items);
            && Joined(chunks, l) == Line(o[left..right], l - c.firstLine - Newlines(o[..left]))
            && (Covers(chunks, l) <==>
                  left < right && c.firstLine + Newlines(o[..left]) <= l <= c.firstLine + Newlines(o[..right - 1]))
    decreases |chunks|
  {
    hide Output, Newlines, Line, Record, Joined, Covers, Piece, Acceptable;
    var o := Output(items);
    if chunks == [] {
      NoneCover(chunks);
      assert chunks[..0] == chunks;
      JoinedCovered(chunks, l);
      EmptyLine(o[left..right], l - c.firstLine - Newlines(o[..left]));
    } else {
      var middle := left + |chunks[0].content|;
      TilesLines(c, items, chunks[1..], middle, right, ordinal + 1, l);
      assert chunks == [chunks[0]] + chunks[1..];
      JoinedConcat([chunks[0]], chunks[1..], l);
      JoinedOne(chunks[0], l);
      RecordPiece(c, items, left, middle, ordinal, l);
      RecordLines(c, items, left, middle, ordinal);
      assert o[left..right] == o[left..middle] + o[middle..right];
      LineConcat(o[left..middle], o[middle..right], l - c.firstLine - Newlines(o[..left]));
      NewlinesSplit(o, left, middle);
      NewlinesStep(o, middle);
      if middle < right {
        NewlinesSplit(o, middle, right - 1);
        NewlinesSplit(o, left, middle - 1);
      }
    }
  }

  lemma EmptyLine(s: seq<byte>, k: int)
    requires s == []
    ensures Line(s, k) == []
  {
  }

  lemma JoinedOne(row: Chunk, l: nat)
    ensures Joined([row], l) == Piece(row, l) && (Covers([row], l) <==> row.lineStart <= l <= row.lineEnd)
  {
    assert [row][..0] == [];
    assert Joined([], l) == [];
    assert [row][0] == row;
  }

  lemma NewlinesStep(s: seq<byte>, k: nat)
    requires 0 < k <= |s|
    ensures Newlines(s[..k - 1]) <= Newlines(s[..k]) <= Newlines(s[..k - 1]) + 1
  {
    assert s[..k][..k - 1] == s[..k - 1];
  }

  /** Lines `a` to `b` of a text whose first line has number `first`, those that exist. */
  function LinesOf(text: seq<byte>, first: nat, a: nat, b: nat): seq<Numbered>
    decreases b - a
  {
    if a > b then []
    else (if first <= a < first + LineCount(text) then [Numbered(a, Line(text, a - first))] else []) + LinesOf(text, first, a + 1, b)
  }

  lemma {:induction false} SelectIsLines(c: Setup, input: seq<byte>, chunks: seq<Chunk>, a: nat, b: nat)
    requires c.Valid() && Whole(c, input) == Success(chunks)
    ensures Select(chunks, a, b) == LinesOf(Output(Text(input)), c.firstLine, a, b)
    decreases b - a
  {
    hide Output, Text, Newlines, Line, Joined, Covers, Whole, Tiles;
    if a <= b {
      SelectIsLines(c, input, chunks, a + 1, b);
      var o := Output(Text(input));
      WholeTiles(c, input);
      TilesLines(c, Text(input), chunks, 0, |o|, 0, a);
      assert o[0..|o|] == o && o[..0] == [];
      assert Newlines([]) == 0 by { NoNewlines([]); }
    }
  }

  /** Lines are numbered as in the source: every item of the redacted text follows as many line
      feeds as the source bytes it stands for. */
  lemma {:induction false} NumberedAsSource(input: seq<byte>, k: nat)
    requires k <= |Text(input)|
    ensures var items := Text(input)[..k];
            Consumed(items) <= |input| && Newlines(Output(items)) == Newlines(input[..Consumed(items)])
  {
    hide Text, Output, Newlines, Consumed, DataUrl.PayloadLength, DataUrl.IsHeader;
    if k == 0 {
      assert Text(input)[..0] == [] && input[..0] == [];
      OutputEmpty();
    } else {
      NumberedAsSource(input, k - 1);
      var before, x := Text(input)[..k - 1], Text(input)[k - 1];
      assert Text(input)[..k] == before + [x];
      TextTruthful(input);
      assert Truthful(input, Text(input), k - 1);
      OutputSnoc(before, x);
      ConsumedOne(x);
      NewlinesConcat(Output(before), Image(x));
      var at := Consumed(before);
      var to := at + Consumed([x]);
      assert to <= |input|;
      NewlinesSplit(input, at, to);
      if x.Plain? {
        assert input[at..to] == Image(x);
      } else {
        NoNewlines(Image(x));
        assert Invisible(input[at..to]) by { assert input[at..to] == input[at..][..to - at]; }
        NoNewlines(input[at..to]);
      }
    }
  }

  lemma ConsumedOne(x: Item)
    ensures Consumed([x]) == if x.Plain? then 1 else x.count
  {
    assert [x][..0] == [];
  }

  /** Along a pass, line starts never go down: chunk order is the order the reader sorts by. */
  lemma {:induction false} LineStartsRise(c: Setup, input: seq<byte>, chunks: seq<Chunk>, i: nat, j: nat)
    requires Whole(c, input) == Success(chunks) && i <= j < |chunks|
    ensures chunks[i].lineStart <= chunks[j].lineStart && chunks[j].ordinal == j
    decreases j
  {
    hide Output, Text, Newlines, Whole, Tiles, StartOf, SourceAt, Touches, LineEnd, Acceptable;
    var items := Text(input);
    var o := Output(items);
    WholeTiles(c, input);
    TileAt(c, items, chunks, 0, |o|, 0, j);
    if i < j {
      LineStartsRise(c, input, chunks, i, j - 1);
      TileAt(c, items, chunks, 0, |o|, 0, j - 1);
      NewlinesSplit(o, StartOf(chunks, j - 1), StartOf(chunks, j));
    }
  }

  lemma PassInOrder(c: Setup, input: seq<byte>, chunks: seq<Chunk>)
    requires Whole(c, input) == Success(chunks)
    ensures InOrder(chunks)
  {
    hide Whole;
    forall i, j | 0 <= i < j < |chunks| ensures !Less(chunks[j], chunks[i]) {
      LineStartsRise(c, input, chunks, i, j);
      LineStartsRise(c, input, chunks, i, i);
    }
  }
}
