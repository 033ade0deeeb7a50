/** UTF-8 as section 4 of RFC 3629 defines it: what a strict decoder accepts. */
module Utf8 {
  import opened Bytes
  import opened Seqs

  /** A byte of the form 10xxxxxx, as `data[end] & 0xC0 == 0x80` tests. */
  predicate Continuation(b: byte) { 128 <= b < 192 }

  /** Length of the well-formed character `s` begins with, or 0. */
  function CharLength(s: seq<byte>): (n: nat)
    ensures n <= |s|
  {
    if s == [] then 0
    else if s[0] < 128 then 1
    else if 194 <= s[0] <= 223 && |s| >= 2 && Continuation(s[1]) then 2
    else if 224 <= s[0] <= 239 && |s| >= 3 && Continuation(s[1]) && Continuation(s[2])
            && (s[0] == 224 ==> s[1] >= 160) && (s[0] == 237 ==> s[1] < 160) then 3
    else if 240 <= s[0] <= 244 && |s| >= 4 && Continuation(s[1]) && Continuation(s[2]) && Continuation(s[3])
            && (s[0] == 240 ==> s[1] >= 144) && (s[0] == 244 ==> s[1] < 144) then 4
    else 0
  }

  predicate WellFormed(s: seq<byte>) {
    s == [] || (CharLength(s) > 0 && WellFormed(s[CharLength(s)..]))
  }

  lemma {:induction false} ConcatWellFormed(a: seq<byte>, b: seq<byte>)
    requires WellFormed(a) && WellFormed(b)
    ensures WellFormed(a + b)
  {
    if a == [] {
      assert a + b == b;
    } else {
      hide CharLength;
      var n := CharLength(a);
      SplitConcat(a, b, n);
      ConcatWellFormed(a[n..], b);
    }
  }

  /** Text may be cut wherever the next byte does not continue a character. */
  lemma {:induction false} SplitWellFormed(a: seq<byte>, b: seq<byte>)
    requires WellFormed(a + b)
    requires b == [] || !Continuation(b[0])
    ensures WellFormed(a) && WellFormed(b)
  {
    if a == [] {
      assert a + b == b;
    } else if b == [] {
      assert a + b == a;
    } else {
      var n := CharLength(a + b);
      assert n <= |a| by {
        assert (a + b)[|a|] == b[0];
      }
      SplitConcat(a, b, n);
      assert CharLength(a) == n;
      SplitWellFormed(a[n..], b);
    }
  }

  /** Text may be cut right after an ASCII byte. */
  lemma {:induction false} SplitAfterAscii(a: seq<byte>, b: seq<byte>)
    requires WellFormed(a + b)
    requires a != [] && a[|a| - 1] < 128
    ensures WellFormed(a) && WellFormed(b)
  {
    var n := CharLength(a + b);
    if |a| == 1 {
      assert (a + b)[1..] == b;
      assert CharLength(a) == 1 && a[1..] == [];
    } else {
      assert n <= |a| by {
        assert (a + b)[|a| - 1] == a[|a| - 1];
      }
      SplitConcat(a, b, n);
      assert CharLength(a) == n;
      if n == |a| {
        assert a[n..] == [] && a[n..] + b == b;
      } else {
        SplitAfterAscii(a[n..], b);
      }
    }
  }

  lemma {:induction false} AsciiWellFormed(s: seq<byte>)
    requires forall i :: 0 <= i < |s| ==> s[i] < 128
    ensures WellFormed(s)
  {
    if s != [] {
      AsciiWellFormed(s[1..]);
    }
  }

  /** At most three continuation bytes stand together, and none comes first. */
  lemma {:induction false} ContinuationRun(s: seq<byte>, i: nat)
    requires WellFormed(s) && i + 3 < |s|
    ensures !(Continuation(s[i]) && Continuation(s[i + 1]) && Continuation(s[i + 2]) && Continuation(s[i + 3]))
  {
    var n := CharLength(s);
    if i >= n {
      ContinuationRun(s[n..], i - n);
    } else if i + 3 >= n {
      assert WellFormed(s[n..]);
      if n < |s| {
        assert !Continuation(s[n..][0]);
      }
    }
  }
}
