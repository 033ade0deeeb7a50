/** Bytes and what the redactor of `workers/base64_redaction.py` counts in them. */
module Bytes {
  type byte = b: int | 0 <= b < 256

  const NEWLINE: byte := 10

  /** Number of line feeds, as `bytes.count(b"\n")`. */
  function Newlines(s: seq<byte>): nat {
    if s == [] then 0 else Newlines(s[..|s| - 1]) + (if s[|s| - 1] == NEWLINE then 1 else 0)
  }

  lemma {:induction false} NewlinesConcat(a: seq<byte>, b: seq<byte>)
    ensures Newlines(a + b) == Newlines(a) + Newlines(b)
  {
    if b == [] {
      assert a + b == a;
    } else {
      assert (a + b)[..|a + b| - 1] == a + b[..|b| - 1];
      NewlinesConcat(a, b[..|b| - 1]);
    }
  }
}

/** Facts about sequences that the other modules lean on. */
module Seqs {
  lemma Assoc<T>(a: seq<T>, b: seq<T>, c: seq<T>)
    ensures (a + b) + c == a + (b + c)
  {
  }

  lemma SplitConcat<T>(a: seq<T>, b: seq<T>, k: nat)
    requires k <= |a|
    ensures (a + b)[..k] == a[..k] && (a + b)[k..] == a[k..] + b
  {
  }

  lemma SuffixConcat<T>(a: seq<T>, b: seq<T>, k: nat)
    requires k <= |b|
    ensures (a + b)[|a| + k..] == b[k..] && (a + b)[..|a| + k] == a + b[..k]
  {
  }

  lemma SliceOfSlice<T>(a: seq<T>, i: nat, j: nat, p: nat, q: nat)
    requires i <= j <= |a| && p <= q <= j - i
    ensures a[i..j][p..q] == a[i + p..i + q]
  {
    var s, t := a[i..j][p..q], a[i + p..i + q];
    assert |s| == |t|;
    forall k | 0 <= k < |s| ensures s[k] == t[k] {
      assert a[i..j][p + k] == a[i + p + k];
    }
  }

  lemma DropDrop<T>(a: seq<T>, i: nat, j: nat)
    requires i + j <= |a|
    ensures a[i..][j..] == a[i + j..] && a[..i] + a[i..][..j] == a[..i + j]
  {
  }
}

module Wrappers {
  datatype Option<+T> = None | Some(value: T)
  datatype Result<+T> = Failure | Success(value: T)
}

/** What the redactor recognises: starts, headers and payload tokens. */
module DataUrl {
  import opened Bytes
  import opened Seqs

  const HEADER_LIMIT := 4096

  /** The replacement text `[base64 image]`. */
  const MARKER: seq<byte> := [91, 98, 97, 115, 101, 54, 52, 32, 105, 109, 97, 103, 101, 93]

  function Lower(b: byte): byte { if 65 <= b <= 90 then b + 32 else b }

  /** `data:` at offset `i`, in any case. */
  predicate StartsAt(s: seq<byte>, i: nat) {
    && i + 5 <= |s|
    && Lower(s[i]) == 100 && Lower(s[i + 1]) == 97 && Lower(s[i + 2]) == 116 && Lower(s[i + 3]) == 97
    && s[i + 4] == 58
  }

  /** The first `data:` at or after `i`, or -1. */
  function FindStart(s: seq<byte>, i: nat): (r: int)
    requires i <= |s|
    ensures r == -1 || (i <= r <= |s| - 5 && StartsAt(s, r))
    ensures forall j :: i <= j && (r == -1 || j < r) ==> !StartsAt(s, j)
    decreases |s| - i
  {
    if i == |s| then -1 else if StartsAt(s, i) then i else FindStart(s, i + 1)
  }

  /** The first comma at or after `i` and below `limit`, or -1. */
  function FindComma(s: seq<byte>, i: nat, limit: nat): (r: int)
    ensures r == -1 || (i <= r < |s| && r < limit && s[r] == 44)
    ensures forall j :: i <= j < |s| && j < limit && (r == -1 || j < r) ==> s[j] != 44
    decreases |s| - i
  {
    if i >= |s| || i >= limit then -1 else if s[i] == 44 then i else FindComma(s, i + 1, limit)
  }

  // ----- headers -----

  predicate TokenChar(b: byte) {
    var c := Lower(b);
    97 <= c <= 122 || 48 <= c <= 57 || c in {33, 35, 36, 38, 94, 95, 46, 43, 42, 45}
  }

  /** A parameter value ends at a comma, semicolon, quote, angle bracket or white space. */
  predicate ValueChar(b: byte) {
    b !in {44, 59, 34, 39, 60, 62, 32} && !(9 <= b <= 13)
  }

  /** Length of the run of token characters from `i`. */
  function TokenRun(s: seq<byte>, i: nat): (n: nat)
    ensures i + n <= |s| || n == 0
    decreases |s| - i
  {
    if i < |s| && TokenChar(s[i]) then 1 + TokenRun(s, i + 1) else 0
  }

  function ValueRun(s: seq<byte>, i: nat): (n: nat)
    ensures i + n <= |s| || n == 0
    decreases |s| - i
  {
    if i < |s| && ValueChar(s[i]) then 1 + ValueRun(s, i + 1) else 0
  }

  /** `;base64,` at `i`, ending the sequence. */
  predicate Base64Suffix(s: seq<byte>, i: nat) {
    && i + 8 == |s|
    && s[i] == 59 && Lower(s[i + 1]) == 98 && Lower(s[i + 2]) == 97 && Lower(s[i + 3]) == 115
    && Lower(s[i + 4]) == 101 && s[i + 5] == 54 && s[i + 6] == 52 && s[i + 7] == 44
  }

  /** Zero or more `;name=value` parameters and then `;base64,`. */
  predicate ParametersAt(s: seq<byte>, i: nat)
    decreases |s| - i
  {
    || Base64Suffix(s, i)
    || (&& i < |s| && s[i] == 59
        && var name := TokenRun(s, i + 1);
           && name > 0 && i + 1 + name < |s| && s[i + 1 + name] == 61
           && var value := ValueRun(s, i + 2 + name);
              value > 0 && ParametersAt(s, i + 2 + name + value))
  }

  /** The optional media type (its slash may be escaped as in JSON) and the parameters. */
  predicate IsHeader(s: seq<byte>) {
    && StartsAt(s, 0)
    && var kind := TokenRun(s, 5);
       if kind == 0 then ParametersAt(s, 5)
       else
         var slash := 5 + kind;
         && slash < |s|
         && var next := if s[slash] == 92 then slash + 1 else slash;
            && next < |s| && s[next] == 47
            && var sub := TokenRun(s, next + 1);
               sub > 0 && ParametersAt(s, next + 1 + sub)
  }

  /** Length of the header that `t` begins with, or 0. Only the first comma below the
      limit can end it. */
  function HeaderLength(t: seq<byte>): (n: nat)
    ensures n <= |t| && n <= HEADER_LIMIT
    ensures n > 0 ==> t[n - 1] == 44 && IsHeader(t[..n])
  {
    var comma := FindComma(t, 0, HEADER_LIMIT);
    if comma >= 0 && IsHeader(t[..comma + 1]) then comma + 1 else 0
  }

  lemma HeaderDecision(t: seq<byte>)
    ensures var comma := FindComma(t, 0, HEADER_LIMIT);
            HeaderLength(t) == if comma >= 0 && IsHeader(t[..comma + 1]) then comma + 1 else 0
  {
  }

  // ----- payloads -----

  predicate Base64Char(b: byte) {
    48 <= b <= 57 || 65 <= b <= 90 || 97 <= b <= 122 || b == 43 || b == 47 || b == 61
  }

  /** Two hexadecimal digits naming a base64 character. */
  predicate HexPair(a: byte, b: byte) {
    || (a == 50 && b in {98, 66, 102, 70})
    || (a == 51 && (48 <= b <= 57 || b == 100 || b == 68))
    || ((a == 52 || a == 54) && (49 <= b <= 57 || 97 <= b <= 102 || 65 <= b <= 70))
    || ((a == 53 || a == 55) && (48 <= b <= 57 || b == 97 || b == 65))
  }

  /** Length of the payload token `s` begins with (a base64 character, an escaped slash, a
      JSON or a percent escape), or 0. */
  function TokenLength(s: seq<byte>): (n: nat)
    ensures n <= |s|
    ensures forall i :: 0 <= i < n ==> 0 < s[i] < 128 && s[i] != NEWLINE
  {
    if s == [] then 0
    else if Base64Char(s[0]) then 1
    else if s[0] == 92 then
      if |s| >= 2 && s[1] == 47 then 2
      else if |s| >= 6 && s[1] == 117 && s[2] == 48 && s[3] == 48 && HexPair(s[4], s[5]) then 6
      else 0
    else if s[0] == 37 && |s| >= 3 && HexPair(s[1], s[2]) then 3
    else 0
  }

  /** Length of the longest run of payload tokens at the front of `s`. */
  function PayloadLength(s: seq<byte>): (n: nat)
    ensures n <= |s| && (n == 0 <==> TokenLength(s) == 0)
    ensures forall i :: 0 <= i < n ==> 0 < s[i] < 128 && s[i] != NEWLINE
  {
    var n := TokenLength(s);
    if n == 0 then 0 else n + PayloadLength(s[n..])
  }

  /** An escape that more input could still complete. */
  predicate Unfinished(s: seq<byte>) {
    s == [] || (s[0] == 92 && |s| < 6) || (s[0] == 37 && |s| < 3)
  }

  lemma {:induction false} CommaStable(t: seq<byte>, f: seq<byte>, i: nat, limit: nat)
    requires FindComma(t, i, limit) >= 0 || |t| >= limit
    ensures FindComma(t + f, i, limit) == FindComma(t, i, limit)
    decreases |t| - i
  {
    if i < |t| && i < limit && t[i] != 44 {
      CommaStable(t, f, i + 1, limit);
    }
  }

  lemma {:induction false} HeaderStable(t: seq<byte>, f: seq<byte>)
    requires FindComma(t, 0, HEADER_LIMIT) >= 0 || |t| >= HEADER_LIMIT
    ensures HeaderLength(t + f) == HeaderLength(t)
  {
    hide IsHeader, FindComma, HeaderLength;
    CommaStable(t, f, 0, HEADER_LIMIT);
    HeaderDecision(t);
    HeaderDecision(t + f);
    var p := FindComma(t, 0, HEADER_LIMIT);
    if p >= 0 {
      SplitConcat(t, f, p + 1);
    }
  }

  lemma TokenStable(s: seq<byte>, f: seq<byte>)
    ensures TokenLength(s) > 0 ==> TokenLength(s + f) == TokenLength(s)
    ensures !Unfinished(s) ==> TokenLength(s + f) == TokenLength(s)
  {
  }

  /** Matching a payload in two goes matches what one go would. */
  lemma {:induction false} PayloadSplit(s: seq<byte>, f: seq<byte>)
    ensures PayloadLength(s + f) == PayloadLength(s) + PayloadLength(s[PayloadLength(s)..] + f)
  {
    hide TokenLength;
    var n := TokenLength(s);
    if n == 0 {
      assert s[0..] + f == s + f;
    } else {
      TokenStable(s, f);
      SplitConcat(s, f, n);
      PayloadSplit(s[n..], f);
      DropDrop(s, n, PayloadLength(s[n..]));
    }
  }
}

/** Redaction of a whole input, and what it means for a parser to produce it piece by piece. */
module Redaction {
  import opened Bytes
  import opened Seqs
  import opened Wrappers
  import opened DataUrl

  /** One unit of redacted text: a source byte kept as it is, or one marker standing for
      `count` payload bytes. */
  datatype Item = Plain(b: byte) | Redacted(count: nat)

  function Plains(s: seq<byte>): (r: seq<Item>)
    ensures |r| == |s| && forall i :: 0 <= i < |s| ==> r[i] == Plain(s[i])
  {
    seq(|s|, i requires 0 <= i < |s| => Plain(s[i]))
  }

  lemma PlainsConcat(a: seq<byte>, b: seq<byte>)
    ensures Plains(a + b) == Plains(a) + Plains(b)
  {
  }

  function Marked(count: nat): seq<Item> { if count > 0 then [Redacted(count)] else [] }

  // ----- whole-input specification -----

  /** Redaction of complete text outside any payload. */
  function Text(s: seq<byte>): seq<Item>
    decreases |s|, 0
  {
    var p := FindStart(s, 0);
    if p < 0 then Plains(s)
    else
      var n := HeaderLength(s[p..]);
      if n > 0 then Plains(s[..p + n]) + Payload(s[p + n..], 0)
      else Plains(s[..p + 5]) + Text(s[p + 5..])
  }

  /** Redaction of complete text inside a payload of which `removed` bytes are already gone. */
  function Payload(s: seq<byte>, removed: nat): seq<Item>
    decreases |s|, 1
  {
    var n := PayloadLength(s);
    Marked(removed + n) + Text(s[n..])
  }

  /** The parser's memory between blocks. */
  datatype Parse = Parse(pending: seq<byte>, payload: bool, removed: nat) {
    function Then(f: seq<byte>): Parse { this.(pending := pending + f) }
  }

  /** What is still to be produced if the input ends after `p.pending`. */
  function Rest(p: Parse): seq<Item> {
    if p.payload then Payload(p.pending, p.removed) else Text(p.pending)
  }

  /** Producing `out` and moving from `a` to `b` loses nothing, whatever input follows
      (nothing may follow when `eof`). */
  ghost predicate Refines(eof: bool, a: Parse, out: seq<Item>, b: Parse) {
    forall f: seq<byte> :: (eof ==> f == []) ==> Rest(a.Then(f)) == out + Rest(b.Then(f))
  }

  lemma RefinesNothing(eof: bool, a: Parse)
    ensures Refines(eof, a, [], a)
  {
    hide Rest;
  }

  lemma RefinesAtEnd(a: Parse, out: seq<Item>)
    requires Refines(true, a, out, Parse([], false, 0))
    ensures out == Rest(a)
  {
    assert a.Then([]) == a;
    assert Rest(a.Then([])) == out + Rest(Parse([], false, 0).Then([]));
  }

  lemma RefinesTrans(eof: bool, a: Parse, x: seq<Item>, b: Parse, y: seq<Item>, c: Parse)
    requires Refines(eof, a, x, b) && Refines(eof, b, y, c)
    ensures Refines(eof, a, x + y, c)
  {
    hide Rest;
    forall f: seq<byte> | eof ==> f == []
      ensures Rest(a.Then(f)) == (x + y) + Rest(c.Then(f))
    {
      assert x + (y + Rest(c.Then(f))) == (x + y) + Rest(c.Then(f));
    }
  }

  // ----- one lemma for each branch of the parser -----

  lemma PayloadStepAt(p: seq<byte>, removed: nat, f: seq<byte>)
    ensures var n := PayloadLength(p);
            Payload(p + f, removed) == Payload(p[n..] + f, removed + n)
  {
    hide Text, PayloadLength;
    var n := PayloadLength(p);
    PayloadSplit(p, f);
    var m := PayloadLength(p[n..] + f);
    assert (p + f)[n + m..] == (p[n..] + f)[m..];
  }

  lemma PayloadStep(eof: bool, p: seq<byte>, removed: nat)
    ensures var n := PayloadLength(p);
            Refines(eof, Parse(p, true, removed), [], Parse(p[n..], true, removed + n))
  {
    hide Text, Payload, PayloadLength;
    var n := PayloadLength(p);
    forall f: seq<byte> | eof ==> f == []
      ensures Rest(Parse(p, true, removed).Then(f)) == [] + Rest(Parse(p[n..], true, removed + n).Then(f))
    {
      PayloadStepAt(p, removed, f);
    }
  }

  lemma PayloadEnd(eof: bool, p: seq<byte>, removed: nat)
    requires TokenLength(p) == 0 && (eof || !Unfinished(p))
    ensures Refines(eof, Parse(p, true, removed), Marked(removed), Parse(p, false, 0))
  {
    hide Text;
    forall f: seq<byte> | eof ==> f == []
      ensures Payload(p + f, removed) == Marked(removed) + Text(p + f)
    {
      if eof { assert p + f == p; }
      TokenStable(p, f);
      assert (p + f)[0..] == p + f;
    }
  }

  lemma StartShift(h: seq<byte>, t: seq<byte>)
    requires forall j :: 0 <= j < |h| ==> !StartsAt(h + t, j)
    ensures FindStart(h + t, 0) == (if FindStart(t, 0) < 0 then -1 else FindStart(t, 0) + |h|)
  {
    var p, q := FindStart(h + t, 0), FindStart(t, 0);
    assert forall j: nat :: StartsAt(t, j) == StartsAt(h + t, j + |h|);
    if p >= 0 { assert StartsAt(t, p - |h|); }
    if q >= 0 { assert StartsAt(h + t, q + |h|); }
  }

  lemma TextUnfold(s: seq<byte>)
    ensures var p := FindStart(s, 0);
            if p < 0 then Text(s) == Plains(s)
            else var n := HeaderLength(s[p..]);
                 Text(s) == if n > 0 then Plains(s[..p + n]) + Payload(s[p + n..], 0)
                            else Plains(s[..p + 5]) + Text(s[p + 5..])
  {
    hide Payload, HeaderLength, FindStart;
  }

  lemma NoStartLater(s: seq<byte>, k: nat)
    requires k <= |s| && FindStart(s, 0) < 0
    ensures FindStart(s[k..], 0) < 0
  {
    assert s == s[..k] + s[k..];
    StartShift(s[..k], s[k..]);
  }

  /** Bytes before any possible start are copied. */
  lemma TextSkip(h: seq<byte>, t: seq<byte>)
    requires forall j :: 0 <= j < |h| ==> !StartsAt(h + t, j)
    ensures Text(h + t) == Plains(h) + Text(t)
  {
    hide Text, Plains, FindStart, StartsAt;
    StartShift(h, t);
    if FindStart(t, 0) < 0 {
      TextSkipAll(h, t);
    } else {
      TextSkipToStart(h, t);
    }
  }

  lemma TextSkipAll(h: seq<byte>, t: seq<byte>)
    requires FindStart(t, 0) < 0 && FindStart(h + t, 0) < 0
    ensures Text(h + t) == Plains(h) + Text(t)
  {
    hide Text, Payload, HeaderLength, FindStart, StartsAt, Plains;
    TextUnfold(h + t);
    TextUnfold(t);
    PlainsConcat(h, t);
  }

  lemma TextSkipToStart(h: seq<byte>, t: seq<byte>)
    requires FindStart(t, 0) >= 0 && FindStart(h + t, 0) == |h| + FindStart(t, 0)
    ensures Text(h + t) == Plains(h) + Text(t)
  {
    hide Text, Payload, HeaderLength, FindStart, IsHeader, StartsAt, Plains;
    TextUnfold(h + t);
    TextUnfold(t);
    var q := FindStart(t, 0);
    SuffixConcat(h, t, q);
    var n := HeaderLength(t[q..]);
    var cut := if n > 0 then n else 5;
    SuffixConcat(h, t, q + cut);
    PlainsConcat(h, t[..q + cut]);
    Assoc(Plains(h), Plains(t[..q + cut]), if n > 0 then Payload(t[q + n..], 0) else Text(t[q + 5..]));
  }

  lemma SkipStep(eof: bool, p: seq<byte>, k: nat)
    requires k <= |p|
    requires forall j :: 0 <= j < k ==> !StartsAt(p, j)
    requires eof || k == 0 || k + 4 <= |p| || StartsAt(p, k)
    ensures Refines(eof, Parse(p, false, 0), Plains(p[..k]), Parse(p[k..], false, 0))
  {
    hide Text;
    forall f: seq<byte> | eof ==> f == []
      ensures Text(p + f) == Plains(p[..k]) + Text(p[k..] + f)
    {
      if eof { assert p + f == p; }
      forall j | 0 <= j < k ensures !StartsAt(p + f, j) {
        assert !StartsAt(p, j);
      }
      Assoc(p[..k], p[k..], f);
      assert p[..k] + p[k..] == p;
      TextSkip(p[..k], p[k..] + f);
    }
  }

  lemma TextAtStart(s: seq<byte>)
    requires StartsAt(s, 0)
    ensures var n := HeaderLength(s);
            Text(s) == if n > 0 then Plains(s[..n]) + Payload(s[n..], 0) else Plains(s[..5]) + Text(s[5..])
  {
    hide Text, Payload, HeaderLength;
    TextUnfold(s);
    assert s[0..] == s;
  }

  /** At a start whose header is decided: a valid header opens a payload, anything else
      lets five bytes through. */
  lemma HeaderStep(eof: bool, p: seq<byte>)
    requires StartsAt(p, 0)
    requires eof || FindComma(p, 0, HEADER_LIMIT) >= 0 || |p| >= HEADER_LIMIT
    ensures var n := HeaderLength(p);
            var cut := if n > 0 then n else 5;
            Refines(eof, Parse(p, false, 0), Plains(p[..cut]), Parse(p[cut..], n > 0, 0))
  {
    hide Payload, Text, HeaderLength, FindComma, IsHeader;
    var n := HeaderLength(p);
    var cut := if n > 0 then n else 5;
    forall f: seq<byte> | eof ==> f == []
      ensures Rest(Parse(p, false, 0).Then(f)) == Plains(p[..cut]) + Rest(Parse(p[cut..], n > 0, 0).Then(f))
    {
      if eof { assert p + f == p; } else { HeaderStable(p, f); }
      TextAtStart(p + f);
      SplitConcat(p, f, cut);
    }
  }

  // ----- what the specification means -----

  /** Source bytes that items stand for. */
  function Consumed(items: seq<Item>): nat {
    if items == [] then 0
    else Consumed(items[..|items| - 1]) + (match items[|items| - 1] case Plain(_) => 1 case Redacted(n) => n)
  }

  lemma {:induction false} ConsumedConcat(a: seq<Item>, b: seq<Item>)
    ensures Consumed(a + b) == Consumed(a) + Consumed(b)
  {
    if b == [] {
      assert a + b == a;
    } else {
      assert (a + b)[..|a + b| - 1] == a + b[..|b| - 1];
      ConsumedConcat(a, b[..|b| - 1]);
    }
  }

  lemma {:induction false} ConsumedPlains(s: seq<byte>)
    ensures Consumed(Plains(s)) == |s|
  {
    if s != [] {
      ConsumedPlains(s[..|s| - 1]);
      assert Plains(s)[..|s| - 1] == Plains(s[..|s| - 1]);
    }
  }

  /** The item at `k` says the truth about `s`: a kept byte is the source byte at its place,
      and a marker stands for exactly the longest payload at its place, which is not empty
      and directly follows a valid header. */
  ghost predicate Truthful(s: seq<byte>, items: seq<Item>, k: nat)
    requires k < |items|
  {
    var at := Consumed(items[..k]);
    match items[k]
    case Plain(b) => at < |s| && s[at] == b
    case Redacted(n) =>
      && n > 0 && at + n <= |s| && PayloadLength(s[at..]) == n
      && exists h: nat :: h < at && at - h <= HEADER_LIMIT && IsHeader(s[h..at])
  }

  ghost predicate AllTruthful(s: seq<byte>, items: seq<Item>) {
    && Consumed(items) == |s|
    && forall k :: 0 <= k < |items| ==> Truthful(s, items, k)
  }

  lemma TruthfulPlains(s: seq<byte>)
    ensures AllTruthful(s, Plains(s))
  {
    ConsumedPlains(s);
    forall k | 0 <= k < |s| ensures Truthful(s, Plains(s), k) {
      assert Plains(s)[..k] == Plains(s[..k]);
      ConsumedPlains(s[..k]);
    }
  }

  /** Truth about two parts is truth about the whole. */
  lemma TruthfulConcat(s: seq<byte>, x: seq<Item>, t: seq<byte>, y: seq<Item>)
    requires AllTruthful(s, x) && AllTruthful(t, y)
    requires forall k :: 0 <= k < |x| ==> x[k].Plain?
    ensures AllTruthful(s + t, x + y)
  {
    ConsumedConcat(x, y);
    forall k | 0 <= k < |x + y| ensures Truthful(s + t, x + y, k) {
      if k < |x| {
        assert (x + y)[..k] == x[..k];
        assert Truthful(s, x, k);
      } else {
        TruthfulShift(s, x, t, y, k - |x|);
      }
    }
  }

  lemma TruthfulShift(s: seq<byte>, x: seq<Item>, t: seq<byte>, y: seq<Item>, k: nat)
    requires Consumed(x) == |s| && k < |y| && Truthful(t, y, k)
    ensures Truthful(s + t, x + y, |x| + k)
  {
    hide PayloadLength, IsHeader, Consumed;
    var at := Consumed(y[..k]);
    assert Consumed((x + y)[..|x| + k]) == |s| + at by {
      SuffixConcat(x, y, k);
      ConsumedConcat(x, y[..k]);
    }
    assert (x + y)[|x| + k] == y[k];
    if y[k].Redacted? {
      assert (s + t)[|s| + at..] == t[at..] by { SuffixConcat(s, t, at); }
      var h: nat :| h < at && at - h <= HEADER_LIMIT && IsHeader(t[h..at]);
      assert (s + t)[|s| + h..|s| + at] == t[h..at];
    }
  }

  /** Redaction is faithful: nothing is lost, nothing else is removed. */
  lemma {:induction false} TextTruthful(s: seq<byte>)
    ensures AllTruthful(s, Text(s))
    decreases |s|
  {
    hide Text, Payload, FindStart, HeaderLength, IsHeader, PayloadLength, Truthful;
    TextUnfold(s);
    var p := FindStart(s, 0);
    if p < 0 {
      TruthfulPlains(s);
    } else {
      var n := HeaderLength(s[p..]);
      var cut := p + (if n > 0 then n else 5);
      assert s == s[..cut] + s[cut..];
      TruthfulPlains(s[..cut]);
      if n == 0 {
        TextTruthful(s[cut..]);
        TruthfulConcat(s[..cut], Plains(s[..cut]), s[cut..], Text(s[cut..]));
      } else {
        PayloadTruthful(s, p, n);
      }
    }
  }

  lemma {:induction false} PayloadTruthful(s: seq<byte>, p: nat, n: nat)
    requires 0 < n && p + n <= |s| && n <= HEADER_LIMIT && IsHeader(s[p..][..n])
    ensures AllTruthful(s, Plains(s[..p + n]) + Payload(s[p + n..], 0))
    decreases |s|, 0
  {
    hide Text, FindStart, HeaderLength, IsHeader, PayloadLength, Truthful, Consumed;
    var cut := p + n;
    var m := PayloadLength(s[cut..]);
    var x, y := Plains(s[..cut]) + Marked(m), Text(s[cut + m..]);
    TextTruthful(s[cut + m..]);
    assert s[..cut][p..] == s[p..][..n];
    MarkerTruthful(s[..cut], s[cut..], p);
    assert s[..cut] + s[cut..] == s;
    DropDrop(s, cut, m);
    Assoc(Plains(s[..cut]), Marked(m), y);
    ConsumedConcat(x, y);
    assert s == s[..cut + m] + s[cut + m..];
    forall k | 0 <= k < |x + y| ensures Truthful(s, x + y, k) {
      if k < |x| {
        TruthfulPrefix(s, x, y, k);
      } else {
        TruthfulShift(s[..cut + m], x, s[cut + m..], y, k - |x|);
      }
    }
  }

  lemma TruthfulPrefix(s: seq<byte>, x: seq<Item>, y: seq<Item>, k: nat)
    requires k < |x| && Truthful(s, x, k)
    ensures Truthful(s, x + y, k)
  {
    hide PayloadLength, IsHeader, Consumed;
    SplitConcat(x, y, k);
  }

  /** A header and the marker for the payload after it. */
  lemma MarkerTruthful(h: seq<byte>, t: seq<byte>, p: nat)
    requires p < |h| && |h| - p <= HEADER_LIMIT && IsHeader(h[p..])
    ensures var m := PayloadLength(t);
            && Consumed(Plains(h) + Marked(m)) == |h| + m
            && forall k :: 0 <= k < |h| + |Marked(m)| ==> Truthful(h + t, Plains(h) + Marked(m), k)
  {
    hide IsHeader, PayloadLength;
    var m := PayloadLength(t);
    ConsumedPlains(h);
    ConsumedConcat(Plains(h), Marked(m));
    forall k | 0 <= k < |h| + |Marked(m)| ensures Truthful(h + t, Plains(h) + Marked(m), k) {
      if k < |h| {
        ConsumedPlains(h[..k]);
        assert (Plains(h) + Marked(m))[..k] == Plains(h[..k]);
      } else {
        assert (Plains(h) + Marked(m))[..k] == Plains(h);
        SuffixConcat(h, t, 0);
        assert (h + t)[p..|h|] == h[p..];
      }
    }
  }

  // ----- the parser -----

  /** One `(replacement, original byte count, was redacted)` triple. */
  datatype Span = Span(data: seq<byte>, consumed: nat, changed: bool) {
    predicate WellFormed() {
      && consumed > 0
      && (if changed then data == MARKER else |data| == consumed)
    }
    function Items(): seq<Item> { if changed then [Redacted(consumed)] else Plains(data) }
  }

  function SpanItems(spans: seq<Span>): seq<Item> {
    if spans == [] then [] else SpanItems(spans[..|spans| - 1]) + spans[|spans| - 1].Items()
  }

  function SpanBytes(spans: seq<Span>): nat {
    if spans == [] then 0 else SpanBytes(spans[..|spans| - 1]) + spans[|spans| - 1].consumed
  }

  lemma EmptySpans()
    ensures SpanItems([]) == [] && SpanBytes([]) == 0
  {
  }

  lemma SpanSnoc(spans: seq<Span>, s: Span)
    ensures SpanItems(spans + [s]) == SpanItems(spans) + s.Items()
    ensures SpanBytes(spans + [s]) == SpanBytes(spans) + s.consumed
  {
    assert (spans + [s])[..|spans|] == spans;
  }

  lemma {:induction false} SpansConcat(a: seq<Span>, b: seq<Span>)
    ensures SpanItems(a + b) == SpanItems(a) + SpanItems(b)
    ensures SpanBytes(a + b) == SpanBytes(a) + SpanBytes(b)
  {
    if b == [] {
      assert a + b == a;
    } else {
      var c, s := b[..|b| - 1], b[|b| - 1];
      assert a + b == (a + c) + [s] && b == c + [s];
      SpanSnoc(a + c, s);
      SpanSnoc(c, s);
      SpansConcat(a, c);
      Assoc(SpanItems(a), SpanItems(c), s.Items());
    }
  }

  lemma OneSpan(s: Span)
    ensures SpanItems([s]) == s.Items() && SpanBytes([s]) == s.consumed
  {
    SpanSnoc([], s);
    assert [] + [s] == [s];
  }

  /** Nothing more can be decided without more input. */
  ghost predicate Waiting(p: Parse) {
    && (!p.payload ==> p.removed == 0)
    && if p.payload then TokenLength(p.pending) == 0 && Unfinished(p.pending)
       else || (FindStart(p.pending, 0) < 0 && |p.pending| <= 4)
            || (&& StartsAt(p.pending, 0) && FindComma(p.pending, 0, HEADER_LIMIT) < 0
                && |p.pending| < HEADER_LIMIT)
  }

  /** The bounds that restoring a saved parser checks. */
  predicate ParseRestorable(p: Parse) {
    |p.pending| <= HEADER_LIMIT + 6 && (p.removed > 0 ==> p.payload)
  }

  /** Later input reaches both sides of a refinement. */
  lemma RefinesThen(a: Parse, out: seq<Item>, b: Parse, f: seq<byte>)
    requires Refines(false, a, out, b)
    ensures Refines(false, a.Then(f), out, b.Then(f))
  {
    hide Rest;
    forall g: seq<byte> ensures Rest(a.Then(f).Then(g)) == out + Rest(b.Then(f).Then(g)) {
      assert a.Then(f).Then(g) == a.Then(f + g) by { Assoc(a.pending, f, g); }
      assert b.Then(f).Then(g) == b.Then(f + g) by { Assoc(b.pending, f, g); }
    }
  }

  /** At the end of the input the spans are those of the whole. */
  lemma SpansOfWhole(fed: seq<byte>, x: seq<Item>, p: Parse)
    requires Refines(false, Parse([], false, 0).Then(fed), x, p)
    ensures x + Rest(p) == Text(fed)
  {
    hide Text, Payload;
    assert Parse([], false, 0).Then(fed).Then([]) == Parse(fed, false, 0);
    assert p.Then([]) == p;
    assert Rest(Parse(fed, false, 0)) == Text(fed);
  }
}
