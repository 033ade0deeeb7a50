/** What the chunks of a whole pass say about the source. */
module ChunkFacts {
  import opened Bytes
  import opened Seqs
  import opened Wrappers
  import opened DataUrl
  import opened Redaction
  import opened Utf8
  import opened Chunking

  // ----- chunks tile the output -----

  /** Consecutive records from `left` to `right`, each acceptable and at most `target` long. */
  ghost predicate Tiles(c: Setup, items: seq<Item>, chunks: seq<Chunk>, left: nat, right: nat, ordinal: nat)
    requires right <= |Output(items)|
  {
    if chunks == [] then left == right
    else
      var middle := left + |chunks[0].content|;
      && left < middle <= right && |chunks[0].content| <= c.target
      && chunks[0] == Record(c, items, left, middle, ordinal)
      && Acceptable(chunks[0].content)
      && Tiles(c, items, chunks[1..], middle, right, ordinal + 1)
  }

  lemma {:induction false} RunTiles(c: Setup, items: seq<Item>, left: nat, ordinal: nat)
    requires left <= |Output(items)| && Run(c, items, left, ordinal).ok
    ensures var p := Run(c, items, left, ordinal); Tiles(c, items, p.chunks, left, p.left, ordinal)
    decreases |Output(items)| - left
  {
    hide Run, Output, CutLength, WellFormed, SourceAt, Touches, Newlines;
    RunUnfold(c, items, left, ordinal);
    var o, p := Output(items), Run(c, items, left, ordinal);
    if |o| - left > c.target {
      var right := left + CutLength(o[left..], c.target);
      RunTiles(c, items, right, ordinal + 1);
      assert p.chunks[1..] == Run(c, items, right, ordinal + 1).chunks;
    }
  }

  lemma {:induction false} TilesSnoc(c: Setup, items: seq<Item>, chunks: seq<Chunk>, left: nat, middle: nat, right: nat,
                                     ordinal: nat)
    requires middle < right <= |Output(items)| && right - middle <= c.target
    requires Tiles(c, items, chunks, left, middle, ordinal) && Acceptable(Output(items)[middle..right])
    ensures Tiles(c, items, chunks + [Record(c, items, middle, right, ordinal + |chunks|)], left, right, ordinal)
  {
    hide Output, WellFormed, SourceAt, Touches, Newlines, LineEnd;
    var last := Record(c, items, middle, right, ordinal + |chunks|);
    if chunks == [] {
      assert [last][1..] == [];
    } else {
      TilesSnoc(c, items, chunks[1..], left + |chunks[0].content|, middle, right, ordinal + 1);
      assert (chunks + [last])[1..] == chunks[1..] + [last];
    }
  }

  lemma WholeTiles(c: Setup, input: seq<byte>)
    requires Whole(c, input).Success?
    ensures Tiles(c, Text(input), Whole(c, input).value, 0, |Output(Text(input))|, 0)
  {
    hide Run, Output, Text, Record, WellFormed, Tiles;
    var items := Text(input);
    var p := Run(c, items, 0, 0);
    RunTiles(c, items, 0, 0);
    if p.left < |Output(items)| {
      assert Output(items)[p.left..|Output(items)|] == Output(items)[p.left..];
      TilesSnoc(c, items, p.chunks, 0, p.left, |Output(items)|, 0);
    }
  }

  /** Output position where chunk `i` starts. */
  function StartOf(chunks: seq<Chunk>, i: nat): nat
    requires i <= |chunks|
  {
    if i == 0 then 0 else |chunks[0].content| + StartOf(chunks[1..], i - 1)
  }

  lemma {:induction false} TileAt(c: Setup, items: seq<Item>, chunks: seq<Chunk>, left: nat, right: nat, ordinal: nat, i: nat)
    requires right <= |Output(items)| && Tiles(c, items, chunks, left, right, ordinal) && i < |chunks|
    ensures var at := left + StartOf(chunks, i);
            && StartOf(chunks, i + 1) == StartOf(chunks, i) + |chunks[i].content|
            && left + StartOf(chunks, i + 1) <= right
            && (i + 1 == |chunks| ==> left + StartOf(chunks, i + 1) == right)
            && 0 < |chunks[i].content| <= c.target && Acceptable(chunks[i].content)
            && chunks[i] == Record(c, items, at, at + |chunks[i].content|, ordinal + i)
    decreases i
  {
    hide Output, WellFormed, Record, Acceptable;
    if i > 0 {
      TileAt(c, items, chunks[1..], left + |chunks[0].content|, right, ordinal + 1, i - 1);
      assert StartOf(chunks, i + 1) == |chunks[0].content| + StartOf(chunks[1..], i);
    } else {
      assert StartOf(chunks, 1) == |chunks[0].content| + StartOf(chunks[1..], 0);
      if |chunks| > 1 {
        TilesWithin(c, items, chunks[1..], left + |chunks[0].content|, right, ordinal + 1);
      }
    }
  }

  lemma TilesWithin(c: Setup, items: seq<Item>, chunks: seq<Chunk>, left: nat, right: nat, ordinal: nat)
    requires right <= |Output(items)| && Tiles(c, items, chunks, left, right, ordinal)
    ensures left <= right
  {
    hide Output, WellFormed, Record;
  }

  // ----- source ranges -----

  /** Output position `pos` is strictly inside the marker that is item `k`. */
  ghost predicate InsideMarker(items: seq<Item>, k: nat, pos: nat) {
    k < |items| && items[k].Redacted? && |Output(items[..k])| < pos < |Output(items[..k + 1])|
  }

  /** At a cut, the two sides agree on the source position, unless the cut is inside a
      marker: then they are the two ends of its payload. */
  lemma {:induction false} CutSides(items: seq<Item>, pos: nat) returns (k: int)
    requires pos <= |Output(items)|
    ensures k < 0 ==> SourceAt(items, pos, false) == SourceAt(items, pos, true)
    ensures k >= 0 ==>
              && InsideMarker(items, k, pos) && k < |items| && items[k].Redacted?
              && SourceAt(items, pos, false) == Consumed(items[..k])
              && SourceAt(items, pos, true) == Consumed(items[..k]) + items[k].count
    ensures k < 0 ==> forall j: nat :: !InsideMarker(items, j, pos)
  {
    hide Output, SourceAt, Consumed;
    if items == [] {
      OutputEmpty();
      SourceAtEnds(items, false);
      SourceAtEnds(items, true);
      k := -1;
    } else {
      var init, x := items[..|items| - 1], items[|items| - 1];
      assert items == init + [x];
      OutputSnoc(init, x);
      SourceAtSnoc(init, x, pos, false);
      SourceAtSnoc(init, x, pos, true);
      OutputGrows(items);
      if pos <= |Output(init)| {
        k := CutSides(init, pos);
        SourceAtEnds(init, true);
        SourceAtEnds(init, false);
        if k >= 0 {
          assert items[..k] == init[..k] && items[..k + 1] == init[..k + 1];
        } else {
          forall j: nat ensures !InsideMarker(items, j, pos) {
            if j < |init| {
              assert items[..j] == init[..j] && items[..j + 1] == init[..j + 1];
              assert !InsideMarker(init, j, pos);
            } else {
              assert items[..|init|] == init;
            }
          }
        }
      } else {
        assert items[..|init|] == init && items[..|items|] == items;
        k := if pos < |Output(items)| then |init| else -1;
      }
    }
  }

  lemma OutputEmpty()
    ensures Output([]) == [] && Consumed([]) == 0
  {
  }

  lemma OutputGrows(items: seq<Item>)
    ensures forall j: nat :: j <= |items| ==> |Output(items[..j])| <= |Output(items)|
  {
    hide Output;
    forall j: nat | j <= |items| ensures |Output(items[..j])| <= |Output(items)| {
      assert items == items[..j] + items[j..];
      OutputConcat(items[..j], items[j..]);
    }
  }

  /** Output that no marker touches is a copy of its source range. */
  lemma {:induction false} Verbatim(s: seq<byte>, items: seq<Item>, left: nat, right: nat)
    requires left < right <= |Output(items)| && !Touches(items, left, right)
    requires forall k :: 0 <= k < |items| ==> Truthful(s, items, k)
    ensures var from, to := SourceAt(items, left, false), SourceAt(items, right, true);
            from <= to <= |s| && Output(items)[left..right] == s[from..to]
    decreases |items|
  {
    hide Output, SourceAt, Touches, Truthful, Consumed;
    if items == [] {
      OutputEmpty();
    } else {
      var init, x := items[..|items| - 1], items[|items| - 1];
      assert items == init + [x];
      OutputSnoc(init, x);
      SourceAtSnoc(init, x, left, false);
      SourceAtSnoc(init, x, right, true);
      TouchesSnoc(init, x, left, right);
      forall k | 0 <= k < |init| ensures Truthful(s, init, k) {
        TruthfulInit(s, init, x, k);
      }
      if right <= |Output(init)| {
        Verbatim(s, init, left, right);
        SourceAtEnds(init, true);
        assert (Output(init) + Image(x))[left..right] == Output(init)[left..right];
      } else {
        TruthfulPlain(s, init, x);
        assert right == |Output(init)| + 1;
        SourceAtEnds(init, true);
        SourceAtEnds(init, false);
        if left < |Output(init)| {
          TouchesLess(init, left, |Output(init)|, right);
          Verbatim(s, init, left, |Output(init)|);
          var from, to := SourceAt(init, left, false), Consumed(init);
          assert (Output(init) + Image(x))[left..right] == Output(init)[left..] + [x.b];
          assert s[from..to + 1] == s[from..to] + [s[to]];
        } else {
          assert (Output(init) + Image(x))[left..right] == [x.b];
        }
      }
    }
  }

  lemma TruthfulInit(s: seq<byte>, init: seq<Item>, x: Item, k: nat)
    requires k < |init| && Truthful(s, init + [x], k)
    ensures Truthful(s, init, k)
  {
    hide PayloadLength, IsHeader, Consumed;
    SplitConcat(init, [x], k);
  }

  lemma TruthfulPlain(s: seq<byte>, init: seq<Item>, x: Item)
    requires Truthful(s, init + [x], |init|)
    ensures x.Plain? ==> Consumed(init) < |s| && s[Consumed(init)] == x.b
  {
    hide PayloadLength, IsHeader, Consumed;
    assert (init + [x])[..|init|] == init;
  }

  lemma {:induction false} TouchesLess(items: seq<Item>, left: nat, middle: nat, right: nat)
    requires middle <= right && !Touches(items, left, right)
    ensures !Touches(items, left, middle)
  {
    if items != [] {
      TouchesLess(items[..|items| - 1], left, middle, right);
    }
  }

  /** Chunk `i` is recorded from its place in the redacted text. */
  lemma PlacedAt(c: Setup, input: seq<byte>, chunks: seq<Chunk>, i: nat)
    requires Whole(c, input) == Success(chunks) && i < |chunks|
    ensures var items, left, right := Text(input), StartOf(chunks, i), StartOf(chunks, i + 1);
            && left < right <= |Output(items)| && (i == 0 ==> left == 0) && (i + 1 == |chunks| ==> right == |Output(items)|)
            && chunks[i].ordinal == i && chunks[i].content == Output(items)[left..right] && chunks[i].redacted == Touches(items, left, right)
            && chunks[i].byteStart == c.origin + SourceAt(items, left, false)
            && chunks[i].byteEnd == c.origin + SourceAt(items, right, true)
  {
    hide Output, Text, SourceAt, Touches, Tiles, Whole, Acceptable, StartOf;
    var items := Text(input);
    WholeTiles(c, input);
    TileAt(c, items, chunks, 0, |Output(items)|, 0, i);
    StartAtZero(chunks);
  }

  /** Two chunks abut, or overlap in the payload of the marker that the cut is inside of. */
  lemma JoinedAt(c: Setup, input: seq<byte>, chunks: seq<Chunk>, i: nat)
    requires Whole(c, input) == Success(chunks) && i + 1 < |chunks|
    ensures var next, cut := chunks[i + 1], StartOf(chunks, i + 1);
            || (next.byteStart == chunks[i].byteEnd && forall k: nat :: !InsideMarker(Text(input), k, cut))
            || exists k: nat ::
                 && InsideMarker(Text(input), k, cut) && k < |Text(input)| && Text(input)[k].Redacted?
                 && next.byteStart == c.origin + Consumed(Text(input)[..k])
                 && chunks[i].byteEnd == next.byteStart + Text(input)[k].count
  {
    hide Output, Text, SourceAt, Touches, Consumed, Whole, StartOf, InsideMarker;
    PlacedAt(c, input, chunks, i);
    PlacedAt(c, input, chunks, i + 1);
    var _ := CutSides(Text(input), StartOf(chunks, i + 1));
  }

  /** What the locations of a complete pass promise: chunk 0 starts at the origin, the last
      one ends at the end of the source, and each cut either abuts or, inside a marker,
      overlaps in exactly that marker's payload. A chunk that is not flagged equals its
      source range byte for byte. */
  lemma ChunkRanges(c: Setup, input: seq<byte>, chunks: seq<Chunk>, i: nat)
    requires c.Valid() && Whole(c, input) == Success(chunks) && i < |chunks|
    ensures chunks[i].ordinal == i
    ensures i == 0 ==> chunks[i].byteStart == c.origin
    ensures i + 1 == |chunks| ==> chunks[i].byteEnd == c.origin + |input|
    ensures i + 1 < |chunks| ==>
              var next, cut := chunks[i + 1], StartOf(chunks, i + 1);
              || (next.byteStart == chunks[i].byteEnd && forall k: nat :: !InsideMarker(Text(input), k, cut))
              || exists k: nat ::
                   && InsideMarker(Text(input), k, cut) && k < |Text(input)| && Text(input)[k].Redacted?
                   && next.byteStart == c.origin + Consumed(Text(input)[..k])
                   && chunks[i].byteEnd == next.byteStart + Text(input)[k].count
    ensures !chunks[i].redacted ==>
              var from, to := chunks[i].byteStart - c.origin, chunks[i].byteEnd - c.origin;
              0 <= from <= to <= |input| && chunks[i].content == input[from..to]
  {
    hide Output, Text, SourceAt, Touches, Consumed, Truthful, Whole, StartOf, InsideMarker;
    var items := Text(input);
    PlacedAt(c, input, chunks, i);
    TextTruthful(input);
    if i == 0 {
      SourceAtStart(items, false);
    }
    if i + 1 == |chunks| {
      SourceAtEnds(items, true);
    } else {
      JoinedAt(c, input, chunks, i);
    }
    if !chunks[i].redacted {
      Verbatim(input, items, StartOf(chunks, i), StartOf(chunks, i + 1));
    }
  }

  lemma StartAtZero(chunks: seq<Chunk>)
    ensures StartOf(chunks, 0) == 0
  {
  }

  lemma {:induction false} SourceAtStart(items: seq<Item>, end: bool)
    ensures SourceAt(items, 0, end) == 0
  {
    if items == [] {
      OutputEmpty();
    } else {
      var init, x := items[..|items| - 1], items[|items| - 1];
      assert items == init + [x];
      OutputSnoc(init, x);
      SourceAtSnoc(init, x, 0, end);
      SourceAtStart(init, end);
    }
  }

  // ----- which inputs are accepted -----

  /** A cut right after ASCII splits well-formedness exactly. */
  lemma AsciiCut(a: seq<byte>, b: seq<byte>)
    requires a == [] || a[|a| - 1] < 128
    ensures WellFormed(a + b) <==> WellFormed(a) && WellFormed(b)
  {
    hide WellFormed;
    if a == [] {
      assert a + b == b;
      AsciiWellFormed([]);
    } else {
      if WellFormed(a + b) { SplitAfterAscii(a, b); }
      if WellFormed(a) && WellFormed(b) { ConcatWellFormed(a, b); }
    }
  }

  /** Redacted text is well-formed UTF-8, has a NUL, and has as many line feeds, exactly as
      the source. */
  ghost predicate SameText(a: seq<byte>, b: seq<byte>) {
    && (WellFormed(a) <==> WellFormed(b))
    && (0 in a <==> 0 in b)
    && Newlines(a) == Newlines(b)
  }

  lemma SameTextAfter(h: seq<byte>, a: seq<byte>, b: seq<byte>)
    requires h == [] || h[|h| - 1] < 128
    requires SameText(a, b)
    ensures SameText(h + a, h + b)
  {
    hide WellFormed, Newlines;
    AsciiCut(h, a);
    AsciiCut(h, b);
    NewlinesConcat(h, a);
    NewlinesConcat(h, b);
  }

  ghost predicate Invisible(p: seq<byte>) {
    forall i :: 0 <= i < |p| ==> 0 < p[i] < 128 && p[i] != NEWLINE
  }

  lemma {:induction false} NoNewlines(p: seq<byte>)
    requires Invisible(p)
    ensures Newlines(p) == 0
  {
    if p != [] {
      NoNewlines(p[..|p| - 1]);
    }
  }

  /** Printable ASCII without line feeds may be replaced by other such text. */
  lemma SameTextReplace(p: seq<byte>, q: seq<byte>, a: seq<byte>, b: seq<byte>)
    requires Invisible(p) && Invisible(q) && SameText(a, b)
    ensures SameText(p + a, q + b)
  {
    hide WellFormed, Newlines;
    AsciiWellFormed(p);
    AsciiWellFormed(q);
    AsciiCut(p, a);
    AsciiCut(q, b);
    NoNewlines(p);
    NoNewlines(q);
    NewlinesConcat(p, a);
    NewlinesConcat(q, b);
  }

  lemma MarkerInvisible(n: nat)
    ensures Invisible(Output(Marked(n)))
  {
    if n > 0 {
      assert Marked(n)[..0] == [];
    }
  }

  lemma {:induction false} RedactionKeepsText(s: seq<byte>)
    ensures SameText(s, Output(Text(s)))
    decreases |s|, 0
  {
    hide Text, Payload, Output, FindStart, HeaderLength, IsHeader, PayloadLength, SameText;
    TextUnfold(s);
    var p := FindStart(s, 0);
    if p < 0 {
      OutputPlains(s);
      SameTextSelf(s);
    } else {
      var n := HeaderLength(s[p..]);
      var cut := p + (if n > 0 then n else 5);
      var h, t := s[..cut], s[cut..];
      assert s == h + t;
      OutputPlains(h);
      if n == 0 {
        RedactionKeepsText(t);
        OutputConcat(Plains(h), Text(t));
        SameTextAfter(h, t, Output(Text(t)));
      } else {
        assert h[|h| - 1] == s[p..][n - 1];
        PayloadKeepsText(t);
        OutputConcat(Plains(h), Payload(t, 0));
        SameTextAfter(h, t, Output(Payload(t, 0)));
      }
    }
  }

  lemma SameTextSelf(s: seq<byte>)
    ensures SameText(s, s)
  {
  }

  lemma {:induction false} PayloadKeepsText(t: seq<byte>)
    ensures SameText(t, Output(Payload(t, 0)))
    decreases |t|, 1
  {
    hide Text, Output, PayloadLength, SameText;
    var m := PayloadLength(t);
    RedactionKeepsText(t[m..]);
    assert t == t[..m] + t[m..];
    assert Invisible(t[..m]);
    MarkerInvisible(m);
    OutputConcat(Marked(m), Text(t[m..]));
    SameTextReplace(t[..m], Output(Marked(m)), t[m..], Output(Text(t[m..])));
  }

  /** On well-formed text without NUL no cut is rejected, for any target of at least four. */
  lemma {:induction false} RunAccepts(c: Setup, items: seq<Item>, left: nat, ordinal: nat)
    requires c.Valid() && left <= |Output(items)|
    requires WellFormed(Output(items)[left..]) && 0 !in Output(items)[left..]
    ensures var p := Run(c, items, left, ordinal);
            && p.ok && WellFormed(Output(items)[p.left..]) && 0 !in Output(items)[p.left..]
            && (left < |Output(items)| ==> p.left < |Output(items)|)
    decreases |Output(items)| - left
  {
    hide Run, Output, CutLength, WellFormed, Record;
    RunUnfold(c, items, left, ordinal);
    var o := Output(items);
    if |o| - left > c.target {
      var n := CutLength(o[left..], c.target);
      GoodCut(o[left..], c.target);
      DropDrop(o, left, n);
      assert o[left..][..n] == o[left..left + n];
      RunAccepts(c, items, left + n, ordinal + 1);
    }
  }

  lemma GoodCut(s: seq<byte>, target: nat)
    requires target >= 4 && |s| > target && WellFormed(s)
    ensures var n := CutLength(s, target); n > 0 && WellFormed(s[..n]) && WellFormed(s[n..])
  {
    hide WellFormed, LastNewline, Boundary;
    var n := CutLength(s, target);
    assert s == s[..n] + s[n..];
    if LastNewline(s, target) >= 0 {
      SplitAfterAscii(s[..n], s[n..]);
    } else {
      assert n > 0 by {
        ContinuationRun(s, target - 3);
      }
      SplitWellFormed(s[..n], s[n..]);
    }
  }

  lemma {:induction false} TilesWellFormed(c: Setup, items: seq<Item>, chunks: seq<Chunk>, left: nat, right: nat, ordinal: nat)
    requires right <= |Output(items)| && Tiles(c, items, chunks, left, right, ordinal)
    ensures left <= right && WellFormed(Output(items)[left..right]) && 0 !in Output(items)[left..right]
  {
    hide Output, WellFormed, SourceAt, Touches, LineEnd;
    if chunks == [] {
      AsciiWellFormed(Output(items)[left..right]);
    } else {
      var o, middle := Output(items), left + |chunks[0].content|;
      TilesWellFormed(c, items, chunks[1..], middle, right, ordinal + 1);
      assert o[left..right] == o[left..middle] + o[middle..right];
      ConcatWellFormed(o[left..middle], o[middle..right]);
    }
  }

  /** The stream accepts exactly well-formed UTF-8 without NUL, whatever the target. */
  lemma AcceptsExactlyText(c: Setup, input: seq<byte>)
    requires c.Valid()
    ensures Whole(c, input).Success? <==> WellFormed(input) && 0 !in input
  {
    hide Run, Output, Text, WellFormed, Record, Tiles;
    var items := Text(input);
    var o := Output(items);
    RedactionKeepsText(input);
    assert o[0..] == o && o[0..|o|] == o;
    if WellFormed(o) && 0 !in o {
      RunAccepts(c, items, 0, 0);
    }
    if Whole(c, input).Success? {
      WholeTiles(c, input);
      TilesWellFormed(c, items, Whole(c, input).value, 0, |o|, 0);
    }
  }

  /** Every chunk is well-formed, not empty and at most `target` bytes, and the chunks one
      after the other are the redacted text. */
  lemma ChunkShape(c: Setup, input: seq<byte>, chunks: seq<Chunk>, i: nat)
    requires c.Valid() && Whole(c, input) == Success(chunks) && i < |chunks|
    ensures 0 < |chunks[i].content| <= c.target && WellFormed(chunks[i].content) && 0 !in chunks[i].content
    ensures var at := StartOf(chunks, i);
            at + |chunks[i].content| <= |Output(Text(input))|
            && Output(Text(input))[at..at + |chunks[i].content|] == chunks[i].content
            && (i + 1 == |chunks| ==> at + |chunks[i].content| == |Output(Text(input))|)
  {
    hide Output, Text, WellFormed, Tiles, SourceAt, Touches, LineEnd, Whole;
    WholeTiles(c, input);
    TileAt(c, Text(input), chunks, 0, |Output(Text(input))|, 0, i);
  }

  // ----- where chunks end -----

  /** A chunk of [at, at + target] that is not the last ends after the last line feed in reach, or,
      if there is none, as far on as it can without splitting a character. */
  ghost predicate EndsWell(o: seq<byte>, at: nat, end: nat, target: nat) {
    && at < end <= at + target < |o|
    && (|| (o[end - 1] == NEWLINE && forall j :: end <= j < at + target ==> o[j] != NEWLINE)
        || (&& (forall j :: at <= j < at + target ==> o[j] != NEWLINE)
            && !Continuation(o[end]) && forall j :: end < j <= at + target ==> Continuation(o[j])))
  }

  lemma CutEndsWell(o: seq<byte>, at: nat, target: nat)
    requires at + target < |o| && CutLength(o[at..], target) > 0
    ensures EndsWell(o, at, at + CutLength(o[at..], target), target)
  {
    hide LastNewline, Boundary, Continuation;
    var t := o[at..];
    assert forall j :: 0 <= j < |t| ==> t[j] == o[at + j];
    var newline := LastNewline(t, target);
    if newline >= 0 {
      forall j | at + newline + 1 <= j < at + target ensures o[j] != NEWLINE { assert t[j - at] != NEWLINE; }
    } else {
      var end := Boundary(t, target);
      forall j | at <= j < at + target ensures o[j] != NEWLINE { assert t[j - at] != NEWLINE; }
      forall j | at + end < j <= at + target ensures Continuation(o[j]) { assert Continuation(t[j - at]); }
    }
  }

  lemma {:induction false} RunEndsWell(c: Setup, items: seq<Item>, left: nat, ordinal: nat, i: nat)
    requires left <= |Output(items)| && i < |Run(c, items, left, ordinal).chunks|
    ensures var at := left + StartOf(Run(c, items, left, ordinal).chunks, i);
            EndsWell(Output(items), at, at + |Run(c, items, left, ordinal).chunks[i].content|, c.target)
    decreases |Output(items)| - left
  {
    hide Run, Output, CutLength, WellFormed, SourceAt, Touches, Newlines, EndsWell;
    RunUnfold(c, items, left, ordinal);
    var o, p := Output(items), Run(c, items, left, ordinal);
    var right := left + CutLength(o[left..], c.target);
    if i == 0 {
      StartAtZero(p.chunks);
      CutEndsWell(o, left, c.target);
    } else {
      var rest := Run(c, items, right, ordinal + 1).chunks;
      assert p.chunks[1..] == rest;
      RunEndsWell(c, items, right, ordinal + 1, i - 1);
      StartNext(p.chunks, i);
    }
  }

  lemma StartNext(chunks: seq<Chunk>, i: nat)
    requires 0 < i <= |chunks|
    ensures StartOf(chunks, i) == |chunks[0].content| + StartOf(chunks[1..], i - 1)
  {
  }

  lemma {:induction false} StartOfPrefix(a: seq<Chunk>, b: seq<Chunk>, i: nat)
    requires i <= |a|
    ensures StartOf(a + b, i) == StartOf(a, i)
  {
    if i > 0 {
      assert (a + b)[1..] == a[1..] + b;
      StartOfPrefix(a[1..], b, i - 1);
    }
  }

  /** Every chunk of a pass but the last ends well, and the last takes all that is left. */
  lemma ChunkEnds(c: Setup, input: seq<byte>, chunks: seq<Chunk>, i: nat)
    requires Whole(c, input) == Success(chunks) && i < |chunks|
    ensures var o, at := Output(Text(input)), StartOf(chunks, i);
            if i + 1 < |chunks| then EndsWell(o, at, at + |chunks[i].content|, c.target)
            else at + |chunks[i].content| == |o| <= at + c.target
  {
    hide Run, Output, Text, WellFormed, EndsWell, StartOf, SourceAt, Touches, Newlines, Record, Tiles;
    var items := Text(input);
    var o, p := Output(items), Run(c, items, 0, 0);
    WholeTiles(c, input);
    TileAt(c, items, chunks, 0, |o|, 0, i);
    if i < |p.chunks| {
      RunEndsWell(c, items, 0, 0, i);
      StartOfPrefix(p.chunks, chunks[|p.chunks|..], i);
      assert chunks == p.chunks + chunks[|p.chunks|..];
      assert chunks[i] == p.chunks[i];
      if i + 1 == |chunks| {
        EndsBefore(o, StartOf(chunks, i), StartOf(chunks, i) + |chunks[i].content|, c.target);
      }
    }
  }

  lemma EndsBefore(o: seq<byte>, at: nat, end: nat, target: nat)
    requires EndsWell(o, at, end, target)
    ensures end < |o|
  {
  }

  // ----- the redaction flag -----

  /** The marker that is item `k` has output in [left, right). */
  ghost predicate MarkerWithin(items: seq<Item>, k: nat, left: int, right: int) {
    k < |items| && items[k].Redacted? && |Output(items[..k])| < right && |Output(items[..k + 1])| > left
  }

  lemma {:induction false} TouchesIs(items: seq<Item>, left: int, right: int)
    ensures Touches(items, left, right) <==> exists k: nat :: MarkerWithin(items, k, left, right)
  {
    hide Output;
    if items != [] {
      var n := |items| - 1;
      TouchesIs(items[..n], left, right);
      forall k: nat | k < n ensures MarkerWithin(items, k, left, right) <==> MarkerWithin(items[..n], k, left, right) {
        assert items[..n][..k] == items[..k] && items[..n][..k + 1] == items[..k + 1];
      }
      assert items[..n + 1] == items;
      assert Touches(items, left, right) <==> Touches(items[..n], left, right) || MarkerWithin(items, n, left, right);
      if Touches(items[..n], left, right) {
        var k: nat :| MarkerWithin(items[..n], k, left, right);
        assert MarkerWithin(items, k, left, right);
      }
      if k: nat :| MarkerWithin(items, k, left, right) {
        assert k == n || MarkerWithin(items[..n], k, left, right);
      }
    }
  }

  /** A chunk is flagged exactly when some of a marker is in it. */
  lemma ChunkFlagged(c: Setup, input: seq<byte>, chunks: seq<Chunk>, i: nat)
    requires Whole(c, input) == Success(chunks) && i < |chunks|
    ensures var at := StartOf(chunks, i);
            var end := at + |chunks[i].content|;
            chunks[i].redacted <==> exists k: nat :: MarkerWithin(Text(input), k, at, end)
  {
    hide Output, Text, WellFormed, SourceAt, Newlines, Tiles, StartOf, Whole;
    WholeTiles(c, input);
    TileAt(c, Text(input), chunks, 0, |Output(Text(input))|, 0, i);
    TouchesIs(Text(input), StartOf(chunks, i), StartOf(chunks, i) + |chunks[i].content|);
  }
}
