/** Comparing two lists of source extents (`workers/append_segments.py`). */
module SourceExtents {
  import opened Bytes
  import opened Seqs

  datatype Extent = Extent(key: string, offset: nat, length: nat)

  /** One byte of one immutable source object. */
  datatype Address = Address(key: string, offset: nat)

  datatype Manifest = Manifest(size: nat, extents: seq<Extent>)

  function Lengths(es: seq<Extent>): nat {
    if es == [] then 0 else es[0].length + Lengths(es[1..])
  }

  /** What reading a manifest validates. */
  predicate ValidManifest(m: Manifest) {
    Lengths(m.extents) == m.size && forall i :: 0 <= i < |m.extents| ==> m.extents[i].length > 0
  }

  function Span(e: Extent, from: nat, to: nat): (r: seq<Address>)
    requires from <= to <= e.length
    ensures |r| == to - from
  {
    seq(to - from, i requires 0 <= i < to - from => Address(e.key, e.offset + from + i))
  }

  /** The bytes a list refers to, one address each, however it is cut into extents. */
  function Addresses(es: seq<Extent>): seq<Address> {
    if es == [] then [] else Span(es[0], 0, es[0].length) + Addresses(es[1..])
  }

  /** What is still to be compared from offset `done` of extent `i` on. */
  function Remaining(es: seq<Extent>, i: nat, done: nat): seq<Address>
    requires i <= |es| && (if i < |es| then done <= es[i].length else done == 0)
  {
    if i == |es| then [] else Span(es[i], done, es[i].length) + Addresses(es[i + 1..])
  }

  lemma RemainingAtStart(es: seq<Extent>, i: nat)
    requires i <= |es|
    ensures Remaining(es, i, 0) == Addresses(es[i..])
  {
    if i < |es| {
      assert es[i..][1..] == es[i + 1..];
    }
  }

  /** Taking `n` bytes off the front of an extent. */
  lemma RemainingStep(es: seq<Extent>, i: nat, done: nat, n: nat)
    requires i < |es| && done + n <= es[i].length
    ensures var next := if done + n == es[i].length then (i + 1, 0) else (i, done + n);
            Remaining(es, i, done) == Span(es[i], done, done + n) + Remaining(es, next.0, next.1)
  {
    var e := es[i];
    assert Span(e, done, e.length) == Span(e, done, done + n) + Span(e, done + n, e.length);
    Assoc(Span(e, done, done + n), Span(e, done + n, e.length), Addresses(es[i + 1..]));
    if done + n == e.length {
      RemainingAtStart(es, i + 1);
      assert Span(e, done + n, e.length) + Addresses(es[i + 1..]) == Addresses(es[i + 1..]);
    }
  }

  lemma SamePrefix<T>(x: seq<T>, p: seq<T>, q: seq<T>)
    ensures x + p <= x + q <==> p <= q
  {
    if x + p <= x + q {
      assert p == (x + p)[|x|..] && q == (x + q)[|x|..];
      assert forall i :: 0 <= i < |p| ==> p[i] == (x + p)[|x| + i] == (x + q)[|x| + i] == q[i];
    }
  }

  lemma {:induction false} AddressCount(es: seq<Extent>)
    ensures |Addresses(es)| == Lengths(es)
  {
    if es != [] {
      AddressCount(es[1..]);
    }
  }

  /** `source_prefix`: true exactly when the addresses of `previous` are a prefix of those of
      `current`. Source objects never change, so the new bytes then extend the old ones. */
  method SourcePrefix(previous: Manifest, current: Manifest) returns (r: bool)
    requires ValidManifest(previous) && ValidManifest(current)
    ensures r <==> Addresses(previous.extents) <= Addresses(current.extents)
  {
    hide Addresses, Span, Remaining;
    AddressCount(previous.extents);
    AddressCount(current.extents);
    if previous.size > current.size {
      return false;
    }
    var before, after := previous.extents, current.extents;
    var left, right, leftOffset, rightOffset := 0, 0, 0, 0;
    RemainingAtStart(before, 0);
    RemainingAtStart(after, 0);
    assert before[0..] == before && after[0..] == after;
    while left < |before|
      invariant 0 <= left <= |before| && 0 <= right <= |after|
      invariant if left < |before| then 0 <= leftOffset < before[left].length else leftOffset == 0
      invariant if right < |after| then 0 <= rightOffset < after[right].length else rightOffset == 0
      invariant Addresses(before) <= Addresses(after)
                <==> Remaining(before, left, leftOffset) <= Remaining(after, right, rightOffset)
      decreases |before| - left + |after| - right
    {
      var a := before[left];
      RemainingFirst(before, left, leftOffset);
      if right == |after| {
        RemainingEmpty(after);
        return false;
      }
      var b := after[right];
      RemainingFirst(after, right, rightOffset);
      if a.key != b.key || a.offset + leftOffset != b.offset + rightOffset {
        return false;
      }
      var length := if a.length - leftOffset < b.length - rightOffset then a.length - leftOffset
                    else b.length - rightOffset;
      SpanSame(a, leftOffset, b, rightOffset, length);
      RemainingStep(before, left, leftOffset, length);
      RemainingStep(after, right, rightOffset, length);
      leftOffset := leftOffset + length;
      rightOffset := rightOffset + length;
      ghost var x := Span(a, leftOffset - length, leftOffset);
      if leftOffset == a.length {
        left, leftOffset := left + 1, 0;
      }
      if rightOffset == b.length {
        right, rightOffset := right + 1, 0;
      }
      SamePrefix(x, Remaining(before, left, leftOffset), Remaining(after, right, rightOffset));
    }
    RemainingEmpty(before);
    return true;
  }

  lemma RemainingEmpty(es: seq<Extent>)
    ensures Remaining(es, |es|, 0) == []
  {
  }

  lemma RemainingFirst(es: seq<Extent>, i: nat, done: nat)
    requires i < |es| && done < es[i].length
    ensures Remaining(es, i, done) != []
    ensures Remaining(es, i, done)[0] == Address(es[i].key, es[i].offset + done)
  {
  }

  lemma SpanSame(a: Extent, i: nat, b: Extent, j: nat, n: nat)
    requires a.key == b.key && a.offset + i == b.offset + j && i + n <= a.length && j + n <= b.length
    ensures Span(a, i, i + n) == Span(b, j, j + n)
  {
  }
}
