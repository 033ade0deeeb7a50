/** What is redacted, said without the parser: the languages of payload tokens and of headers,
    and exactly which payloads a text has (`workers/base64_redaction.py`). */
module RedactionFacts {
  import opened Bytes
  import opened Seqs
  import opened DataUrl
  import opened Redaction

  predicate Spells(s: seq<byte>, word: string) {
    |s| == |word| && forall i :: 0 <= i < |s| ==> s[i] == word[i] as int
  }

  predicate SpellsAnyCase(s: seq<byte>, word: string) {
    |s| == |word| && forall i :: 0 <= i < |s| ==> Lower(s[i]) == word[i] as int
  }

  predicate Letter(c: int) { 'A' as int <= c <= 'Z' as int || 'a' as int <= c <= 'z' as int }

  predicate Digit(c: int) { '0' as int <= c <= '9' as int }

  // ----- payload tokens -----

  predicate Base64Letter(c: int) { Letter(c) || Digit(c) || c == '+' as int || c == '/' as int || c == '=' as int }

  function HexDigit(b: byte): int {
    if Digit(b) then b - '0' as int
    else if 'A' as int <= b <= 'F' as int then b - 'A' as int + 10
    else if 'a' as int <= b <= 'f' as int then b - 'a' as int + 10
    else -1
  }

  /** Two hexadecimal digits whose value is a base64 character. */
  predicate Escaped(a: byte, b: byte) {
    HexDigit(a) >= 0 && HexDigit(b) >= 0 && Base64Letter(16 * HexDigit(a) + HexDigit(b))
  }

  /** A base64 character, an escaped slash, or a base64 character escaped as in JSON or a URL. */
  predicate IsToken(t: seq<byte>) {
    || (|t| == 1 && Base64Letter(t[0]))
    || Spells(t, "\\/")
    || (|t| == 6 && Spells(t[..4], "\\u00") && Escaped(t[4], t[5]))
    || (|t| == 3 && Spells(t[..1], "%") && Escaped(t[1], t[2]))
  }

  /** A concatenation of tokens. */
  ghost predicate Tokens(t: seq<byte>) {
    t == [] || exists k :: 0 < k <= |t| && IsToken(t[..k]) && Tokens(t[k..])
  }

  lemma EscapedIs(a: byte, b: byte)
    ensures Escaped(a, b) <==> HexPair(a, b)
  {
  }

  lemma SpellsShort(s: seq<byte>)
    ensures Spells(s, "\\/") <==> s == [92, 47]
    ensures Spells(s, "\\u00") <==> s == [92, 117, 48, 48]
    ensures Spells(s, "%") <==> s == [37]
  {
    var a, b, c := "\\/", "\\u00", "%";
    assert a[0] as int == 92 && a[1] as int == 47;
    assert b[0] as int == 92 && b[1] as int == 117 && b[2] as int == 48 && b[3] as int == 48;
    assert c[0] as int == 37;
  }

  /** No token is the beginning of another, and `TokenLength` finds the one there is. */
  lemma TokenIs(s: seq<byte>, k: nat)
    requires k <= |s|
    ensures IsToken(s[..k]) <==> k == TokenLength(s) && k > 0
  {
    var t := s[..k];
    SpellsShort(t);
    if |t| == 6 {
      SpellsShort(t[..4]);
      EscapedIs(t[4], t[5]);
      assert t[..4] == [t[0], t[1], t[2], t[3]];
    }
    if |t| == 3 {
      SpellsShort(t[..1]);
      EscapedIs(t[1], t[2]);
      assert t[..1] == [t[0]];
    }
    if |t| == 2 {
      assert t == [t[0], t[1]];
    }
    if |s| >= 6 { EscapedIs(s[4], s[5]); }
    if |s| >= 3 { EscapedIs(s[1], s[2]); }
  }

  /** The payload is the longest concatenation of tokens. */
  lemma {:induction false} PayloadIsLongest(s: seq<byte>)
    ensures Tokens(s[..PayloadLength(s)])
    ensures forall n :: 0 <= n <= |s| && Tokens(s[..n]) ==> n <= PayloadLength(s)
    decreases |s|
  {
    hide TokenLength, IsToken;
    var k, n := TokenLength(s), PayloadLength(s);
    if k > 0 {
      PayloadIsLongest(s[k..]);
      TokenIs(s, k);
      assert s[..n][..k] == s[..k] && s[..n][k..] == s[k..][..n - k];
    }
    forall m | 0 <= m <= |s| && Tokens(s[..m]) ensures m <= n {
      if m > 0 {
        var j :| 0 < j <= m && IsToken(s[..m][..j]) && Tokens(s[..m][j..]);
        assert s[..m][..j] == s[..j];
        TokenIs(s, j);
        assert s[..m][j..] == s[j..][..m - j];
      }
    }
  }

  // ----- headers -----

  predicate NameByte(b: byte) { Letter(b) || Digit(b) || b as char in "!#$&^_.+*-" }

  predicate ValueByte(b: byte) { b as char !in ",;\"'<> \t\n\r" && b != 11 && b != 12 }

  predicate Named(s: seq<byte>, i: int, j: int) { 0 <= i < j <= |s| && forall k :: i <= k < j ==> NameByte(s[k]) }

  predicate Valued(s: seq<byte>, i: int, j: int) { 0 <= i < j <= |s| && forall k :: i <= k < j ==> ValueByte(s[k]) }

  predicate At(s: seq<byte>, i: int, c: char) { 0 <= i < |s| && s[i] == c as int }

  /** Bytes [i, j) are empty or a media type, whose slash may be escaped. */
  ghost predicate Media(s: seq<byte>, i: nat, j: nat) {
    || i == j
    || exists a, b :: Named(s, i, a) && Named(s, b, j)
         && ((b == a + 1 && At(s, a, '/')) || (b == a + 2 && At(s, a, '\\') && At(s, a + 1, '/')))
  }

  /** Bytes [i, j) are parameters `;name=value`. */
  ghost predicate Parameters(s: seq<byte>, i: nat, j: nat)
    decreases j - i
  {
    || i == j
    || exists e: nat, k: nat :: At(s, i, ';') && Named(s, i + 1, e) && At(s, e, '=') && Valued(s, e + 1, k)
         && i < k <= j && Parameters(s, k, j)
  }

  /** `data:`, an optional media type, parameters, and `;base64,`. */
  ghost predicate HeaderWord(s: seq<byte>) {
    && |s| >= 13 && SpellsAnyCase(s[..5], "data:") && SpellsAnyCase(s[|s| - 8..], ";base64,")
    && exists m :: 5 <= m <= |s| - 8 && Media(s, 5, m) && Parameters(s, m, |s| - 8)
  }

  lemma NameByteIs(b: byte)
    ensures NameByte(b) <==> TokenChar(b)
  {
    var w := "!#$&^_.+*-";
    assert w[0] as int == 33 && w[1] as int == 35 && w[2] as int == 36 && w[3] as int == 38 && w[4] as int == 94;
    assert w[5] as int == 95 && w[6] as int == 46 && w[7] as int == 43 && w[8] as int == 42 && w[9] as int == 45;
    assert b as char in w <==> b in {33, 35, 36, 38, 94, 95, 46, 43, 42, 45} by {
      if b as char in w { var i :| 0 <= i < |w| && w[i] == b as char; assert w[i] as int == b; }
      if b in {33, 35, 36, 38, 94, 95, 46, 43, 42, 45} { assert exists i :: 0 <= i < |w| && w[i] as int == b; }
    }
  }

  lemma ValueByteIs(b: byte)
    ensures ValueByte(b) <==> ValueChar(b)
  {
    var w := ",;\"'<> \t\n\r";
    assert w[0] as int == 44 && w[1] as int == 59 && w[2] as int == 34 && w[3] as int == 39 && w[4] as int == 60;
    assert w[5] as int == 62 && w[6] as int == 32 && w[7] as int == 9 && w[8] as int == 10 && w[9] as int == 13;
    assert b as char in w <==> b in {44, 59, 34, 39, 60, 62, 32, 9, 10, 13} by {
      if b as char in w { var i :| 0 <= i < |w| && w[i] == b as char; assert w[i] as int == b; }
      if b in {44, 59, 34, 39, 60, 62, 32, 9, 10, 13} { assert exists i :: 0 <= i < |w| && w[i] as int == b; }
    }
  }

  lemma {:induction false} NameRun(s: seq<byte>, i: nat)
    requires i <= |s|
    ensures var e := i + TokenRun(s, i);
            e <= |s| && (forall k :: i <= k < e ==> NameByte(s[k])) && (e < |s| ==> !NameByte(s[e]))
    decreases |s| - i
  {
    if i < |s| {
      NameByteIs(s[i]);
      if TokenChar(s[i]) {
        NameRun(s, i + 1);
      }
    }
  }

  lemma {:induction false} ValueBytes(s: seq<byte>, i: nat)
    requires i <= |s|
    ensures var e := i + ValueRun(s, i);
            e <= |s| && (forall k :: i <= k < e ==> ValueByte(s[k])) && (e < |s| ==> !ValueByte(s[e]))
    decreases |s| - i
  {
    if i < |s| {
      ValueByteIs(s[i]);
      if ValueChar(s[i]) {
        ValueBytes(s, i + 1);
      }
    }
  }

  /** A run ends where its bytes do. */
  lemma NameRunIs(s: seq<byte>, i: nat, e: nat)
    requires i <= e < |s| && (forall k :: i <= k < e ==> NameByte(s[k])) && !NameByte(s[e])
    ensures TokenRun(s, i) == e - i
  {
    hide TokenRun, NameByte;
    NameRun(s, i);
  }

  lemma ValueRunIs(s: seq<byte>, i: nat, e: nat)
    requires i <= e < |s| && (forall k :: i <= k < e ==> ValueByte(s[k])) && !ValueByte(s[e])
    ensures ValueRun(s, i) == e - i
  {
    hide ValueRun, ValueByte;
    ValueBytes(s, i);
  }

  lemma SuffixIs(s: seq<byte>, i: nat)
    requires i <= |s|
    ensures Base64Suffix(s, i) <==> i + 8 == |s| && SpellsAnyCase(s[i..], ";base64,")
  {
    var w := ";base64,";
    assert w[0] as int == 59 && w[1] as int == 98 && w[2] as int == 97 && w[3] as int == 115;
    assert w[4] as int == 101 && w[5] as int == 54 && w[6] as int == 52 && w[7] as int == 44;
    if i + 8 == |s| {
      var t := s[i..];
      assert t[0] == s[i] && t[1] == s[i + 1] && t[2] == s[i + 2] && t[3] == s[i + 3];
      assert t[4] == s[i + 4] && t[5] == s[i + 5] && t[6] == s[i + 6] && t[7] == s[i + 7];
    }
  }

  lemma StartIs(s: seq<byte>, i: nat)
    requires i + 5 <= |s|
    ensures StartsAt(s, i) <==> SpellsAnyCase(s[i..i + 5], "data:")
  {
    var w, t := "data:", s[i..i + 5];
    assert w[0] as int == 100 && w[1] as int == 97 && w[2] as int == 116 && w[3] as int == 97 && w[4] as int == 58;
    assert t[0] == s[i] && t[1] == s[i + 1] && t[2] == s[i + 2] && t[3] == s[i + 3] && t[4] == s[i + 4];
  }

  lemma {:induction false} ParametersAre(s: seq<byte>, i: nat)
    requires ParametersAt(s, i) && i <= |s|
    ensures |s| >= i + 8 && SpellsAnyCase(s[|s| - 8..], ";base64,") && Parameters(s, i, |s| - 8)
    decreases |s| - i
  {
    hide SpellsAnyCase, NameByte, ValueByte, TokenRun, ValueRun;
    SuffixIs(s, i);
    if !Base64Suffix(s, i) {
      var e := i + 1 + TokenRun(s, i + 1);
      var k := e + 1 + ValueRun(s, e + 1);
      NameRun(s, i + 1);
      ValueBytes(s, e + 1);
      ParametersAre(s, k);
      assert At(s, i, ';') && Named(s, i + 1, e) && At(s, e, '=') && Valued(s, e + 1, k);
    }
  }

  lemma {:induction false} AreParameters(s: seq<byte>, i: nat)
    requires |s| >= i + 8 && SpellsAnyCase(s[|s| - 8..], ";base64,") && Parameters(s, i, |s| - 8)
    ensures ParametersAt(s, i) && At(s, i, ';')
    decreases |s| - i
  {
    hide SpellsAnyCase, NameByte, ValueByte, TokenRun, ValueRun, Base64Suffix;
    SuffixIs(s, |s| - 8);
    assert At(s, |s| - 8, ';') by { SuffixStart(s, |s| - 8); }
    if i < |s| - 8 {
      var e: nat, k: nat :| At(s, i, ';') && Named(s, i + 1, e) && At(s, e, '=') && Valued(s, e + 1, k) && i < k <= |s| - 8 && Parameters(s, k, |s| - 8);
      AreParameters(s, k);
      Separators();
      NameRunIs(s, i + 1, e);
      ValueRunIs(s, e + 1, k);
    }
  }

  lemma SuffixStart(s: seq<byte>, i: nat)
    requires Base64Suffix(s, i)
    ensures At(s, i, ';')
  {
  }

  lemma Separators()
    ensures !NameByte(61) && !NameByte(59) && !NameByte(47) && !NameByte(92) && !NameByte(44) && !ValueByte(59) && !ValueByte(44)
  {
    NameByteIs(61);
    NameByteIs(59);
    NameByteIs(47);
    NameByteIs(92);
    NameByteIs(44);
    ValueByteIs(59);
    ValueByteIs(44);
  }

  /** The header test accepts exactly the header words. */
  lemma HeaderIs(s: seq<byte>)
    ensures IsHeader(s) <==> HeaderWord(s)
  {
    if IsHeader(s) {
      HeaderIsWord(s);
    }
    if HeaderWord(s) {
      WordIsHeader(s);
    }
  }

  lemma HeaderIsWord(s: seq<byte>)
    requires IsHeader(s)
    ensures HeaderWord(s)
  {
    hide SpellsAnyCase, NameByte, ValueByte, TokenRun, ParametersAt, Parameters;
    StartIs(s, 0);
    assert s[0..5] == s[..5];
    var a := 5 + TokenRun(s, 5);
    NameRun(s, 5);
    if a == 5 {
      ParametersAre(s, 5);
      assert Media(s, 5, 5);
    } else {
      var b := if s[a] == 92 then a + 2 else a + 1;
      NameRun(s, b);
      var m := b + TokenRun(s, b);
      ParametersAre(s, m);
      assert Named(s, 5, a) && Named(s, b, m) && At(s, b - 1, '/');
      assert Media(s, 5, m);
    }
  }

  lemma WordIsHeader(s: seq<byte>)
    requires HeaderWord(s)
    ensures IsHeader(s)
  {
    hide SpellsAnyCase, NameByte, ValueByte, TokenRun, ParametersAt, Parameters;
    StartIs(s, 0);
    assert s[0..5] == s[..5];
    var m :| 5 <= m <= |s| - 8 && Media(s, 5, m) && Parameters(s, m, |s| - 8);
    AreParameters(s, m);
    Separators();
    if m == 5 {
      NameRunIs(s, 5, 5);
    } else {
      var a, b :| Named(s, 5, a) && Named(s, b, m)
        && ((b == a + 1 && At(s, a, '/')) || (b == a + 2 && At(s, a, '\\') && At(s, a + 1, '/')));
      hide Media, At, Named;
      MediaIsHeader(s, a, b, m);
    }
  }

  lemma MediaIsHeader(s: seq<byte>, a: nat, b: nat, m: nat)
    requires StartsAt(s, 0) && Named(s, 5, a) && Named(s, b, m) && ParametersAt(s, m) && At(s, m, ';')
    requires (b == a + 1 && At(s, a, '/')) || (b == a + 2 && At(s, a, '\\') && At(s, a + 1, '/'))
    ensures IsHeader(s)
  {
    hide StartsAt, NameByte, TokenRun, ParametersAt;
    Separators();
    NameRunIs(s, 5, a);
    NameRunIs(s, b, m);
  }

  // ----- which payloads are redacted -----

  /** Bytes [h, at) are a header within the length limit. */
  ghost predicate HeaderAt(s: seq<byte>, h: nat, at: nat) {
    h < at <= |s| && at - h <= HEADER_LIMIT && HeaderWord(s[h..at])
  }

  /** Where the payload that begins at `at` ends. */
  function PayloadEnd(s: seq<byte>, at: nat): nat
    requires at <= |s|
  {
    at + PayloadLength(s[at..])
  }

  /** A header at `h` counts unless it lies inside an earlier one that counts, or inside the
      payload of one. */
  ghost predicate Recognized(s: seq<byte>, h: nat, at: nat)
    decreases h
  {
    HeaderAt(s, h, at) && forall g: nat, b: nat :: g < h && Recognized(s, g, b) ==> b <= |s| && PayloadEnd(s, b) <= h
  }

  /** Some marker stands at source position `at`. */
  ghost predicate MarkerAt(items: seq<Item>, at: nat) {
    exists k :: 0 <= k < |items| && items[k].Redacted? && Consumed(items[..k]) == at
  }

  /** Only the last byte of a header is a comma. */
  lemma {:induction false} ParametersComma(s: seq<byte>, i: nat, j: nat, k: nat)
    requires Parameters(s, i, j) && i <= k < j <= |s|
    ensures s[k] != 44
    decreases j - i
  {
    Separators();
    hide NameByte, ValueByte;
    var e: nat, m: nat :| At(s, i, ';') && Named(s, i + 1, e) && At(s, e, '=') && Valued(s, e + 1, m) && i < m <= j && Parameters(s, m, j);
    if k >= m {
      ParametersComma(s, m, j, k);
    }
  }

  lemma HeaderComma(s: seq<byte>)
    requires HeaderWord(s)
    ensures s[|s| - 1] == 44 && forall k :: 0 <= k < |s| - 1 ==> s[k] != 44
  {
    hide NameByte, ValueByte, Parameters, SpellsAnyCase, Media;
    var n := |s| - 8;
    var m :| 5 <= m <= n && Media(s, 5, m) && Parameters(s, m, n);
    SuffixComma(s);
    StartComma(s);
    forall k | 0 <= k < |s| - 1 ensures s[k] != 44 {
      if 5 <= k < m {
        MediaComma(s, m, k);
      } else if m <= k < n {
        ParametersComma(s, m, n, k);
      }
    }
  }

  lemma SuffixComma(s: seq<byte>)
    requires |s| >= 8 && SpellsAnyCase(s[|s| - 8..], ";base64,")
    ensures s[|s| - 1] == 44 && forall k :: |s| - 8 <= k < |s| - 1 ==> s[k] != 44
  {
    SuffixIs(s, |s| - 8);
  }

  lemma StartComma(s: seq<byte>)
    requires |s| >= 5 && SpellsAnyCase(s[..5], "data:")
    ensures forall k :: 0 <= k < 5 ==> s[k] != 44
  {
    assert s[0..5] == s[..5];
    StartIs(s, 0);
  }

  lemma MediaComma(s: seq<byte>, m: nat, k: nat)
    requires Media(s, 5, m) && 5 <= k < m <= |s|
    ensures s[k] != 44
  {
    hide NameByte;
    Separators();
  }

  lemma HeaderLengthIs(s: seq<byte>, h: nat, at: nat)
    requires h <= |s|
    ensures HeaderAt(s, h, at) <==> HeaderLength(s[h..]) > 0 && at == h + HeaderLength(s[h..])
  {
    hide FindComma, IsHeader, HeaderWord, HeaderLength;
    var t := s[h..];
    HeaderDecision(t);
    var comma := FindComma(t, 0, HEADER_LIMIT);
    if HeaderAt(s, h, at) {
      HeaderIs(s[h..at]);
      HeaderComma(s[h..at]);
      assert forall k :: 0 <= k < at - h ==> t[k] == s[h..at][k];
      assert t[at - h - 1] == 44;
      assert comma == at - h - 1;
      assert t[..comma + 1] == s[h..at];
    }
    if HeaderLength(t) > 0 && at == h + HeaderLength(t) {
      assert t[..comma + 1] == s[h..at];
      HeaderIs(s[h..at]);
    }
  }

  /** No header that counts before `cut` reaches beyond it. */
  ghost predicate Clean(s: seq<byte>, cut: nat) {
    cut <= |s| && forall g: nat, b: nat :: g < cut && Recognized(s, g, b) ==> b <= |s| && PayloadEnd(s, b) <= cut
  }

  lemma HeaderAtShift(s: seq<byte>, cut: nat, h: nat, at: nat)
    requires cut <= h && cut <= |s|
    ensures HeaderAt(s, h, at) <==> at >= cut && HeaderAt(s[cut..], h - cut, at - cut)
  {
    hide HeaderWord;
    if h < at <= |s| {
      assert s[cut..][h - cut..at - cut] == s[h..at];
    }
  }

  lemma PayloadEndShift(s: seq<byte>, cut: nat, at: nat)
    requires cut <= at <= |s|
    ensures PayloadEnd(s, at) == cut + PayloadEnd(s[cut..], at - cut)
  {
    assert s[cut..][at - cut..] == s[at..];
  }

  /** What counts after a clean cut does not depend on what precedes it. */
  lemma {:induction false} RecognizedShift(s: seq<byte>, cut: nat, h: nat, at: nat)
    requires Clean(s, cut) && cut <= h
    ensures Recognized(s, h, at) <==> at >= cut && Recognized(s[cut..], h - cut, at - cut)
    decreases h
  {
    hide HeaderAt, PayloadLength;
    var t := s[cut..];
    HeaderAtShift(s, cut, h, at);
    forall g: nat, b: nat | cut <= g < h
      ensures Recognized(s, g, b) <==> b >= cut && Recognized(t, g - cut, b - cut)
    {
      RecognizedShift(s, cut, g, b);
    }
    forall b | cut <= b <= |s| ensures PayloadEnd(s, b) == cut + PayloadEnd(t, b - cut) { PayloadEndShift(s, cut, b); }
    if Recognized(s, h, at) {
      forall g: nat, b: nat | g < h - cut && Recognized(t, g, b) ensures b <= |t| && PayloadEnd(t, b) <= h - cut {
        assert Recognized(s, g + cut, b + cut);
      }
    }
    if at >= cut && Recognized(t, h - cut, at - cut) {
      forall g: nat, b: nat | g < h && Recognized(s, g, b) ensures b <= |s| && PayloadEnd(s, b) <= h {
        if g >= cut {
          assert Recognized(t, g - cut, b - cut);
        }
      }
    }
  }

  lemma NoHeader(s: seq<byte>, h: nat, at: nat)
    requires HeaderAt(s, h, at)
    ensures StartsAt(s, h)
  {
    hide HeaderWord, IsHeader;
    HeaderIs(s[h..at]);
    HeaderStarts(s[h..at]);
    assert forall k :: 0 <= k < at - h ==> s[h..at][k] == s[h + k];
  }

  lemma HeaderStarts(t: seq<byte>)
    requires IsHeader(t)
    ensures StartsAt(t, 0)
  {
    hide ParametersAt, TokenRun;
  }

  /** A start cannot begin inside another. */
  lemma StartsApart(s: seq<byte>, p: nat, h: nat)
    requires StartsAt(s, p) && p < h < p + 5
    ensures !StartsAt(s, h)
  {
  }

  lemma ConsumedPrefix(x: seq<Item>, y: seq<Item>, k: nat)
    requires k <= |x + y|
    ensures k <= |x| ==> Consumed((x + y)[..k]) == Consumed(x[..k])
    ensures k >= |x| ==> Consumed((x + y)[..k]) == Consumed(x) + Consumed(y[..k - |x|])
  {
    hide Consumed;
    if k <= |x| {
      assert (x + y)[..k] == x[..k];
    }
    if k >= |x| {
      assert (x + y)[..k] == x + y[..k - |x|];
      ConsumedConcat(x, y[..k - |x|]);
    }
  }

  lemma MarkerSplit(x: seq<Item>, y: seq<Item>, at: nat)
    requires MarkerAt(x + y, at)
    ensures MarkerAt(x, at) || (at >= Consumed(x) && MarkerAt(y, at - Consumed(x)))
  {
    hide Consumed;
    var k :| 0 <= k < |x + y| && (x + y)[k].Redacted? && Consumed((x + y)[..k]) == at;
    ConsumedPrefix(x, y, k);
    if k < |x| {
      assert x[k].Redacted?;
    } else {
      assert y[k - |x|].Redacted?;
    }
  }

  lemma MarkerJoin(x: seq<Item>, y: seq<Item>, at: nat)
    ensures MarkerAt(x, at) ==> MarkerAt(x + y, at)
    ensures at >= Consumed(x) && MarkerAt(y, at - Consumed(x)) ==> MarkerAt(x + y, at)
  {
    hide Consumed;
    if MarkerAt(x, at) {
      var k :| 0 <= k < |x| && x[k].Redacted? && Consumed(x[..k]) == at;
      ConsumedPrefix(x, y, k);
      assert (x + y)[k].Redacted?;
    }
    if at >= Consumed(x) && MarkerAt(y, at - Consumed(x)) {
      var k :| 0 <= k < |y| && y[k].Redacted? && Consumed(y[..k]) == at - Consumed(x);
      ConsumedPrefix(x, y, |x| + k);
      assert (x + y)[|x| + k].Redacted?;
    }
  }

  lemma MarkerConcat(x: seq<Item>, y: seq<Item>, at: nat)
    ensures MarkerAt(x + y, at) <==> MarkerAt(x, at) || (at >= Consumed(x) && MarkerAt(y, at - Consumed(x)))
  {
    hide Consumed, MarkerAt;
    if MarkerAt(x + y, at) {
      MarkerSplit(x, y, at);
    }
    MarkerJoin(x, y, at);
  }

  lemma PlainsUnmarked(s: seq<byte>, at: nat)
    ensures !MarkerAt(Plains(s), at)
  {
  }

  lemma OneMarker(n: nat, at: nat)
    ensures MarkerAt(Marked(n), at) <==> n > 0 && at == 0
    ensures Consumed(Marked(n)) == n
  {
    assert [Redacted(n)][..0] == [];
    if n > 0 {
      assert Marked(n)[..0] == [];
      assert Marked(n)[0].Redacted? && Consumed(Marked(n)[..0]) == 0;
    }
  }

  /** A payload is due at `at`: a header that counts ends there, and a token follows. */
  ghost predicate PayloadDue(s: seq<byte>, at: nat) {
    at <= |s| && PayloadLength(s[at..]) > 0 && exists h: nat :: Recognized(s, h, at)
  }

  /** After a clean cut with no header before it, the rest decides. */
  lemma DueShift(s: seq<byte>, cut: nat, at: nat)
    requires cut <= |s| && Clean(s, cut)
    requires forall g: nat, b: nat :: g < cut && Recognized(s, g, b) ==> b != at
    ensures PayloadDue(s, at) <==> at >= cut && PayloadDue(s[cut..], at - cut)
  {
    hide Recognized, Clean, PayloadLength;
    if at >= cut && at <= |s| {
      assert s[cut..][at - cut..] == s[at..];
    }
    if PayloadDue(s, at) {
      var h: nat :| Recognized(s, h, at);
      assert h >= cut;
      RecognizedShift(s, cut, h, at);
    }
    if at >= cut && PayloadDue(s[cut..], at - cut) {
      var h: nat :| Recognized(s[cut..], h, at - cut);
      RecognizedShift(s, cut, h + cut, at);
    }
  }

  lemma NothingDue(s: seq<byte>, at: nat)
    requires FindStart(s, 0) < 0
    ensures !PayloadDue(s, at)
  {
    hide FindStart, HeaderAt, PayloadLength;
    if PayloadDue(s, at) {
      var h: nat :| Recognized(s, h, at);
      NoHeader(s, h, at);
    }
  }

  lemma RecognizedHeader(s: seq<byte>, h: nat, at: nat)
    requires Recognized(s, h, at)
    ensures HeaderAt(s, h, at)
  {
  }

  lemma NoHeaderYet(s: seq<byte>, p: nat, g: nat, b: nat)
    requires FindStart(s, 0) == p && HeaderLength(s[p..]) == 0 && g < p + 5
    ensures !HeaderAt(s, g, b)
  {
    hide FindStart, HeaderAt, HeaderLength;
    HeaderLengthIs(s, p, b);
    if HeaderAt(s, g, b) {
      NoHeader(s, g, b);
      if p < g {
        StartsApart(s, p, g);
      }
    }
  }

  /** A start without a header: nothing counts up to its end. */
  lemma StartOnly(s: seq<byte>, p: nat)
    requires FindStart(s, 0) == p && HeaderLength(s[p..]) == 0
    ensures p + 5 <= |s| && Clean(s, p + 5) && forall g: nat, b: nat :: g < p + 5 ==> !Recognized(s, g, b)
  {
    hide FindStart, HeaderAt, HeaderLength, PayloadLength, StartsAt, Recognized;
    forall g: nat, b: nat | g < p + 5 ensures !Recognized(s, g, b) {
      NoHeaderYet(s, p, g, b);
      if Recognized(s, g, b) {
        RecognizedHeader(s, g, b);
      }
    }
  }

  /** The first header counts, and nothing else does until its payload ends. */
  lemma FirstHeader(s: seq<byte>, p: nat, n: nat, end: nat)
    requires FindStart(s, 0) == p && HeaderLength(s[p..]) == n > 0 && p + n <= |s| && end == PayloadEnd(s, p + n)
    ensures Recognized(s, p, p + n) && Clean(s, end)
    ensures forall g: nat, b: nat :: g < end && Recognized(s, g, b) ==> g == p && b == p + n
  {
    hide FindStart, HeaderAt, HeaderLength, PayloadLength, StartsAt;
    HeaderLengthIs(s, p, p + n);
    forall g: nat, b: nat | g <= p && HeaderAt(s, g, b) ensures g == p && b == p + n {
      NoHeader(s, g, b);
      if g == p { HeaderLengthIs(s, p, b); }
    }
    assert Recognized(s, p, p + n);
    forall g: nat, b: nat | g < end && Recognized(s, g, b) ensures g == p && b == p + n {
      assert HeaderAt(s, g, b);
    }
  }

  lemma PlainMarkers(s: seq<byte>, cut: nat, items: seq<Item>, at: nat)
    requires cut <= |s|
    ensures MarkerAt(Plains(s[..cut]) + items, at) <==> at >= cut && MarkerAt(items, at - cut)
  {
    hide MarkerAt, Plains;
    MarkerConcat(Plains(s[..cut]), items, at);
    PlainsUnmarked(s[..cut], at);
    ConsumedPlains(s[..cut]);
  }

  /** Redaction replaces exactly the payloads that are due. */
  lemma {:induction false} RedactsExactly(s: seq<byte>, at: nat)
    ensures MarkerAt(Text(s), at) <==> PayloadDue(s, at)
    decreases |s|
  {
    hide Text, Payload, FindStart, HeaderLength, PayloadLength, MarkerAt, PayloadDue, Recognized, Clean, HeaderAt, Consumed, StartsAt, Plains;
    TextUnfold(s);
    var p := FindStart(s, 0);
    if p < 0 {
      PlainsUnmarked(s, at);
      NothingDue(s, at);
    } else {
      var n := HeaderLength(s[p..]);
      if n == 0 {
        var cut := p + 5;
        StartOnly(s, p);
        DueShift(s, cut, at);
        PlainMarkers(s, cut, Text(s[cut..]), at);
        if at >= cut {
          RedactsExactly(s[cut..], at - cut);
        }
      } else {
        var begin, end := p + n, PayloadEnd(s, p + n);
        FirstHeader(s, p, n, end);
        if at >= end {
          RedactsExactly(s[end..], at - end);
        }
        HeaderMarkers(s, p, n, at);
        if at != begin {
          DueShift(s, end, at);
        } else {
          DueHere(s, p, begin);
          NotDueAtZero(s[end..]);
        }
      }
    }
  }

  lemma DueHere(s: seq<byte>, p: nat, at: nat)
    requires at <= |s| && Recognized(s, p, at)
    ensures PayloadDue(s, at) <==> PayloadLength(s[at..]) > 0
  {
    hide Recognized, PayloadLength;
  }

  lemma NotDueAtZero(s: seq<byte>)
    ensures !PayloadDue(s, 0)
  {
    hide HeaderWord, PayloadLength;
  }

  /** Where the text of an input that begins with a header has its markers. */
  lemma HeaderMarkers(s: seq<byte>, p: nat, n: nat, at: nat)
    requires FindStart(s, 0) == p && HeaderLength(s[p..]) == n > 0 && p + n <= |s|
    ensures var begin, end := p + n, PayloadEnd(s, p + n);
            && end <= |s|
            && (MarkerAt(Text(s), at) <==> (at == begin && end > begin) || (at >= end && MarkerAt(Text(s[end..]), at - end)))
  {
    hide Text, PayloadLength, FindStart, HeaderLength, MarkerAt, Consumed, Plains, Marked, StartsAt, IsHeader, TokenLength;
    var begin, end := p + n, PayloadEnd(s, p + n);
    var rest := Text(s[end..]);
    HeaderText(s, p, n);
    PlainMarkers(s, begin, Marked(end - begin) + rest, at);
    if at >= begin {
      MarkerConcat(Marked(end - begin), rest, at - begin);
      OneMarker(end - begin, at - begin);
    }
  }

  lemma HeaderText(s: seq<byte>, p: nat, n: nat)
    requires FindStart(s, 0) == p && HeaderLength(s[p..]) == n > 0 && p + n <= |s|
    ensures var begin, end := p + n, PayloadEnd(s, p + n);
            begin <= end <= |s| && Text(s) == Plains(s[..begin]) + (Marked(end - begin) + Text(s[end..]))
  {
    hide Text, Payload, PayloadLength, FindStart, HeaderLength, Plains, Marked, StartsAt, IsHeader, TokenLength;
    TextUnfold(s);
    var m := PayloadLength(s[p + n..]);
    PayloadUnfold(s[p + n..]);
    assert s[p + n..][m..] == s[p + n + m..];
  }

  lemma PayloadUnfold(t: seq<byte>)
    ensures Payload(t, 0) == Marked(PayloadLength(t)) + Text(t[PayloadLength(t)..])
  {
    hide Text, PayloadLength;
  }
}
