/** Sealing the request range of an extraction and assembling its provider batches
    (`workers/provider_submission.py`, `workers/batch_collector.py`). */
module ProviderAssembly {
  import opened Seqs
  import opened Wrappers
  import opened Segments
  import DecodedSegments

  const MAX_BATCH_REQUESTS := 64
  const ASSEMBLY_MEMORY_BYTES := 67108864

  datatype Batch = Batch(start: nat, count: nat, submitted: bool)

  // ----- sealing -----

  /** What the table and `batch_identity` guarantee of the rows of one extraction. */
  ghost predicate Shaped(rows: seq<Batch>) {
    && (forall i :: 0 <= i < |rows| ==> rows[i].start % MAX_BATCH_REQUESTS == 0 && 1 <= rows[i].count <= MAX_BATCH_REQUESTS)
    && (forall i, j :: 0 <= i < j < |rows| ==> rows[i].start != rows[j].start)
  }

  function Sum(rows: seq<Batch>): nat { if rows == [] then 0 else Sum(rows[..|rows| - 1]) + rows[|rows| - 1].count }

  /** The aggregate query of `finish_preparation`; over no rows its aggregates are null. */
  predicate Seals(rows: seq<Batch>, n: nat) {
    && rows != [] && Sum(rows) == n
    && (exists i :: 0 <= i < |rows| && rows[i].start == 0)
    && (exists i :: 0 <= i < |rows| && rows[i].start + rows[i].count == n)
    && (forall i :: 0 <= i < |rows| ==> rows[i].start + rows[i].count <= n)
    && (forall i :: 0 <= i < |rows| ==>
          rows[i].submitted && (rows[i].count == MAX_BATCH_REQUESTS || rows[i].start + rows[i].count == n))
  }

  ghost predicate Holds(b: Batch, o: int) { b.start <= o < b.start + b.count }

  ghost predicate Covered(rows: seq<Batch>, o: int) { exists i :: 0 <= i < |rows| && Holds(rows[i], o) }

  /** Every request ordinal below `n`, and no other, lies in exactly one batch. */
  ghost predicate Partition(rows: seq<Batch>, n: nat) {
    && (forall o :: 0 <= o < n ==> Covered(rows, o))
    && (forall i, o :: 0 <= i < |rows| && Holds(rows[i], o) ==> 0 <= o < n)
    && (forall i, j, o :: 0 <= i < |rows| && 0 <= j < |rows| && Holds(rows[i], o) && Holds(rows[j], o) ==> i == j)
  }

  function Range(a: int, b: int): (r: set<int>)
    ensures forall o :: o in r <==> a <= o < b
    decreases b - a
  {
    if b <= a then {} else Range(a, b - 1) + {b - 1}
  }

  lemma {:induction false} RangeSize(a: int, b: int)
    requires a <= b
    ensures |Range(a, b)| == b - a
    decreases b - a
  {
    if a < b {
      RangeSize(a, b - 1);
    }
  }

  ghost function Ordinals(rows: seq<Batch>): set<int> {
    if rows == [] then {}
    else var b := rows[|rows| - 1]; Ordinals(rows[..|rows| - 1]) + Range(b.start, b.start + b.count)
  }

  lemma {:induction false} OrdinalsHold(rows: seq<Batch>, o: int)
    ensures o in Ordinals(rows) <==> Covered(rows, o)
  {
    if rows != [] {
      var n := |rows| - 1;
      OrdinalsHold(rows[..n], o);
      assert forall i :: 0 <= i < n ==> rows[..n][i] == rows[i];
      if Holds(rows[n], o) {
        assert o in Ordinals(rows);
      }
    }
  }

  /** Batches start at different multiples of the batch size, so they cannot overlap. */
  lemma Disjoint(rows: seq<Batch>, i: nat, j: nat, o: int)
    requires Shaped(rows) && i < |rows| && j < |rows| && Holds(rows[i], o) && Holds(rows[j], o)
    ensures i == j
  {
  }

  lemma LastDisjoint(rows: seq<Batch>)
    requires Shaped(rows) && rows != []
    ensures var n := |rows| - 1; Shaped(rows[..n]) && Ordinals(rows[..n]) !! Range(rows[n].start, rows[n].start + rows[n].count)
  {
    hide Ordinals;
    var n := |rows| - 1;
    forall o | o in Ordinals(rows[..n]) ensures !Holds(rows[n], o) {
      OrdinalsHold(rows[..n], o);
      var i :| 0 <= i < n && Holds(rows[..n][i], o);
      assert Holds(rows[i], o);
      if Holds(rows[n], o) {
        Disjoint(rows, i, n, o);
      }
    }
  }

  lemma {:induction false} SumIsSize(rows: seq<Batch>)
    requires Shaped(rows)
    ensures |Ordinals(rows)| == Sum(rows)
  {
    hide Shaped, Range;
    if rows != [] {
      var n := |rows| - 1;
      LastDisjoint(rows);
      SumIsSize(rows[..n]);
      RangeSize(rows[n].start, rows[n].start + rows[n].count);
    }
  }

  lemma SubsetFull(a: set<int>, b: set<int>)
    requires a <= b && |a| == |b|
    ensures a == b
  {
    assert b == a + (b - a) && |b| == |a| + |b - a|;
    assert b - a == {};
  }

  /** The five aggregates hold exactly when the submitted batches partition the requests. */
  lemma SealedIsPartition(rows: seq<Batch>, n: nat)
    requires Shaped(rows) && n >= 1
    ensures Seals(rows, n) <==> Partition(rows, n) && forall i :: 0 <= i < |rows| ==> rows[i].submitted
  {
    if Seals(rows, n) {
      SealedPartitions(rows, n);
    }
    if Partition(rows, n) && forall i :: 0 <= i < |rows| ==> rows[i].submitted {
      PartitionSeals(rows, n);
    }
  }

  lemma SealedPartitions(rows: seq<Batch>, n: nat)
    requires Shaped(rows) && Seals(rows, n)
    ensures Partition(rows, n)
  {
    hide Ordinals, Sum, Range, Shaped, Covered;
    assert Ordinals(rows) == Range(0, n) by {
      SumIsSize(rows);
      RangeSize(0, n);
      forall o | o in Ordinals(rows) ensures o in Range(0, n) { Within(rows, n, o); }
      SubsetFull(Ordinals(rows), Range(0, n));
    }
    forall o | 0 <= o < n ensures Covered(rows, o) { OrdinalsHold(rows, o); }
    forall i, j, o | 0 <= i < |rows| && 0 <= j < |rows| && Holds(rows[i], o) && Holds(rows[j], o) ensures i == j {
      Disjoint(rows, i, j, o);
    }
  }

  lemma Within(rows: seq<Batch>, n: nat, o: int)
    requires o in Ordinals(rows) && forall i :: 0 <= i < |rows| ==> rows[i].start + rows[i].count <= n
    ensures 0 <= o < n
  {
    hide Ordinals;
    OrdinalsHold(rows, o);
  }

  lemma PartitionSum(rows: seq<Batch>, n: nat)
    requires Shaped(rows) && Partition(rows, n)
    ensures Sum(rows) == n
  {
    hide Ordinals, Sum, Range;
    SumIsSize(rows);
    RangeSize(0, n);
    assert Ordinals(rows) == Range(0, n) by {
      forall o ensures o in Ordinals(rows) <==> o in Range(0, n) { OrdinalsHold(rows, o); }
    }
  }

  lemma PartitionFull(rows: seq<Batch>, n: nat, i: nat)
    requires Shaped(rows) && Partition(rows, n) && i < |rows|
    ensures rows[i].start + rows[i].count <= n
    ensures rows[i].count == MAX_BATCH_REQUESTS || rows[i].start + rows[i].count == n
  {
    var end := rows[i].start + rows[i].count;
    assert Holds(rows[i], end - 1);
    if end < n {
      PartitionCovers(rows, n, end);
      var j :| 0 <= j < |rows| && Holds(rows[j], end);
    }
  }

  lemma PartitionSeals(rows: seq<Batch>, n: nat)
    requires Shaped(rows) && n >= 1 && Partition(rows, n) && forall i :: 0 <= i < |rows| ==> rows[i].submitted
    ensures Seals(rows, n)
  {
    PartitionSum(rows, n);
    PartitionCovers(rows, n, 0);
    PartitionCovers(rows, n, n - 1);
    hide Shaped, Partition, Sum;
    forall i | 0 <= i < |rows|
      ensures rows[i].start + rows[i].count <= n
      ensures rows[i].count == MAX_BATCH_REQUESTS || rows[i].start + rows[i].count == n
    {
      PartitionFull(rows, n, i);
    }
    var z :| 0 <= z < |rows| && Holds(rows[z], 0);
    var l :| 0 <= l < |rows| && Holds(rows[l], n - 1);
  }

  // ----- the assembly cursor -----

  /** The batch that starts at `start`. */
  function Seek(rows: seq<Batch>, start: nat): (r: Option<Batch>)
    ensures r.Some? ==> r.value in rows && r.value.start == start
    ensures r.None? ==> forall i :: 0 <= i < |rows| ==> rows[i].start != start
  {
    if rows == [] then None
    else if rows[|rows| - 1].start == start then Some(rows[|rows| - 1])
    else Seek(rows[..|rows| - 1], start)
  }

  /** A cursor value: a boundary between batches. */
  ghost predicate Cursor(rows: seq<Batch>, n: nat, c: nat) {
    c <= n && (c == 0 || exists i :: 0 <= i < |rows| && rows[i].start + rows[i].count == c)
  }

  lemma AlignedStart(b: Batch, c: nat)
    requires Holds(b, c) && c % MAX_BATCH_REQUESTS == 0 && b.start % MAX_BATCH_REQUESTS == 0 && b.count <= MAX_BATCH_REQUESTS
    ensures b.start == c
  {
  }

  lemma PartitionCovers(rows: seq<Batch>, n: nat, o: nat)
    requires Partition(rows, n) && o < n
    ensures Covered(rows, o)
  {
  }

  lemma AlignedEnd(b: Batch)
    requires b.start % MAX_BATCH_REQUESTS == 0 && b.count == MAX_BATCH_REQUESTS
    ensures (b.start + b.count) % MAX_BATCH_REQUESTS == 0
  {
  }

  lemma ShapedAt(rows: seq<Batch>, i: nat)
    requires Shaped(rows) && i < |rows|
    ensures rows[i].start % MAX_BATCH_REQUESTS == 0 && 1 <= rows[i].count <= MAX_BATCH_REQUESTS
  {
  }

  /** A batch begins at every cursor value before the end. */
  lemma BatchAt(rows: seq<Batch>, n: nat, c: nat) returns (i: nat)
    requires Shaped(rows) && Seals(rows, n) && Cursor(rows, n, c) && c < n
    ensures i < |rows| && rows[i].start == c
  {
    hide Sum, Partition, Shaped;
    assert Covered(rows, c) by { SealedPartitions(rows, n); PartitionCovers(rows, n, c); }
    i :| 0 <= i < |rows| && Holds(rows[i], c);
    if c > 0 {
      var j :| 0 <= j < |rows| && rows[j].start + rows[j].count == c;
      ShapedAt(rows, j);
      AlignedEnd(rows[j]);
    }
    ShapedAt(rows, i);
    AlignedStart(rows[i], c);
  }

  /** Before the end, assembly always finds the next batch, and its end is a cursor value again. */
  lemma NextBatchFound(rows: seq<Batch>, n: nat, c: nat)
    requires Shaped(rows) && Seals(rows, n) && Cursor(rows, n, c) && c < n
    ensures Seek(rows, c).Some?
    ensures var b := Seek(rows, c).value; b.count > 0 && c + b.count <= n && Cursor(rows, n, c + b.count)
  {
    hide Seek, Sum;
    var i := BatchAt(rows, n, c);
    var b := Seek(rows, c).value;
    var k :| 0 <= k < |rows| && rows[k] == b;
  }

  // ----- the chunks of one batch -----

  /** A request of a result manifest: its key and the artifact that holds its chunks. */
  datatype Request = Request(key: string, ref: string)

  /** A stored chunk, tagged with the request it answers. */
  datatype Tagged<T> = Tagged(key: string, chunk: T)

  datatype Record<T> = Record(ordinal: nat, chunk: T)

  /** The chunks of an artifact that answer one request, in order. */
  function Picked<T>(artifact: seq<Tagged<T>>, key: string): seq<T> {
    if artifact == [] then []
    else
      var last := artifact[|artifact| - 1];
      Picked(artifact[..|artifact| - 1], key) + if last.key == key then [last.chunk] else []
  }

  lemma PickedSnoc<T>(artifact: seq<Tagged<T>>, k: nat, key: string)
    requires k < |artifact|
    ensures Picked(artifact[..k + 1], key)
            == Picked(artifact[..k], key) + if artifact[k].key == key then [artifact[k].chunk] else []
  {
    assert artifact[..k + 1][..k] == artifact[..k];
  }

  /** Request by request, what the artifacts hold for it. */
  function Answers<T>(requests: seq<Request>, artifacts: string -> seq<Tagged<T>>): seq<T> {
    if requests == [] then []
    else
      var last := requests[|requests| - 1];
      Answers(requests[..|requests| - 1], artifacts) + Picked(artifacts(last.ref), last.key)
  }

  /** Positions in rising order that are exactly those tagged with the key. */
  ghost predicate Tags<T>(artifact: seq<Tagged<T>>, key: string, at: seq<nat>) {
    && (forall i :: 0 <= i < |at| ==> at[i] < |artifact|)
    && (forall i, j :: 0 <= i < j < |at| ==> at[i] < at[j])
    && (forall k :: 0 <= k < |artifact| ==> (artifact[k].key == key <==> k in at))
  }

  /** What is picked are the chunks at the positions tagged with the key, in order. */
  lemma {:induction false} PickedIs<T>(artifact: seq<Tagged<T>>, key: string) returns (at: seq<nat>)
    ensures Tags(artifact, key, at) && |Picked(artifact, key)| == |at|
    ensures forall i :: 0 <= i < |at| ==> Picked(artifact, key)[i] == artifact[at[i]].chunk
  {
    if artifact == [] {
      at := [];
    } else {
      var n := |artifact| - 1;
      at := PickedIs(artifact[..n], key);
      if artifact[n].key == key {
        assert forall k :: k in at + [n] <==> k in at || k == n;
        at := at + [n];
      } else if n in at {
        assert false;
      }
    }
  }

  /** The answers are the requests' own, one after the other. */
  lemma {:induction false} AnswersAre<T>(requests: seq<Request>, artifacts: string -> seq<Tagged<T>>)
    ensures Answers(requests, artifacts)
         == Flat(seq(|requests|, i requires 0 <= i < |requests| => Picked(artifacts(requests[i].ref), requests[i].key)))
  {
    var lists := seq(|requests|, i requires 0 <= i < |requests| => Picked(artifacts(requests[i].ref), requests[i].key));
    if requests != [] {
      var n := |requests| - 1;
      AnswersAre(requests[..n], artifacts);
      assert seq(n, i requires 0 <= i < n => Picked(artifacts(requests[..n][i].ref), requests[..n][i].key)) == lists[..n];
      assert lists == lists[..n] + [lists[n]];
      FlatPush(lists[..n], lists[n]);
    }
  }

  function Number<T>(first: nat, chunks: seq<T>): (r: seq<Record<T>>)
    ensures |r| == |chunks| && forall i :: 0 <= i < |r| ==> r[i] == Record(first + i, chunks[i])
  {
    seq(|chunks|, i requires 0 <= i < |chunks| => Record(first + i, chunks[i]))
  }

  ghost predicate DistinctKeys(requests: seq<Request>) {
    forall i, j :: 0 <= i < j < |requests| ==> requests[i].key != requests[j].key
  }

  ghost predicate Groups(requests: seq<Request>, byRef: map<string, set<string>>) {
    && (forall i :: 0 <= i < |requests| ==> requests[i].ref in byRef && requests[i].key in byRef[requests[i].ref])
    && (forall ref, key :: ref in byRef && key in byRef[ref] ==> Request(key, ref) in requests)
  }

  ghost predicate Unique(refs: seq<string>) { forall i, j :: 0 <= i < j < |refs| ==> refs[i] != refs[j] }

  /** The weight of the chunks of an artifact that answer requests in `keys`. */
  function PickedWeight<T>(artifact: seq<Tagged<T>>, keys: set<string>, weight: T -> nat): nat {
    if artifact == [] then 0
    else
      var last := artifact[|artifact| - 1];
      PickedWeight(artifact[..|artifact| - 1], keys, weight) + if last.key in keys then weight(last.chunk) else 0
  }

  lemma {:induction false} PickedWeightAdd<T>(artifact: seq<Tagged<T>>, keys: set<string>, key: string, weight: T -> nat)
    requires key !in keys
    ensures PickedWeight(artifact, keys + {key}, weight) == PickedWeight(artifact, keys, weight) + Total(weight, Picked(artifact, key))
  {
    hide Total;
    if artifact == [] {
      NothingWeighs(weight);
    } else {
      var init, last := artifact[..|artifact| - 1], artifact[|artifact| - 1];
      PickedWeightAdd(init, keys, key, weight);
      TotalConcat(weight, Picked(init, key), if last.key == key then [last.chunk] else []);
      NothingWeighs(weight);
      TotalOne(weight, last.chunk);
    }
  }

  lemma TotalOne<T>(weight: T -> nat, chunk: T)
    ensures Total(weight, [chunk]) == weight(chunk)
  {
    assert [chunk][..0] == [];
    assert Total(weight, []) == 0;
  }

  /** The weight of everything picked from the artifacts of `refs`. */
  function Weigh<T>(refs: seq<string>, byRef: map<string, set<string>>, artifacts: string -> seq<Tagged<T>>, weight: T -> nat): nat {
    if refs == [] then 0
    else
      var last := refs[|refs| - 1];
      Weigh(refs[..|refs| - 1], byRef, artifacts, weight) + PickedWeight(artifacts(last), Keys(byRef, last), weight)
  }

  function Keys(byRef: map<string, set<string>>, ref: string): set<string> { if ref in byRef then byRef[ref] else {} }

  lemma {:induction false} WeighUpdate<T>(refs: seq<string>, byRef: map<string, set<string>>, ref: string, keys: set<string>, artifacts: string -> seq<Tagged<T>>, weight: T -> nat)
    requires Unique(refs)
    ensures Weigh(refs, byRef[ref := keys], artifacts, weight)
              + (if ref in refs then PickedWeight(artifacts(ref), Keys(byRef, ref), weight) else 0)
            == Weigh(refs, byRef, artifacts, weight) + (if ref in refs then PickedWeight(artifacts(ref), keys, weight) else 0)
  {
    hide PickedWeight;
    if refs != [] {
      var n := |refs| - 1;
      assert refs == refs[..n] + [refs[n]];
      WeighUpdate(refs[..n], byRef, ref, keys, artifacts, weight);
    }
  }

  lemma {:induction false} NoKeysWeigh<T>(artifact: seq<Tagged<T>>, weight: T -> nat)
    ensures PickedWeight(artifact, {}, weight) == 0
  {
    if artifact != [] {
      NoKeysWeigh(artifact[..|artifact| - 1], weight);
    }
  }

  lemma WeighPush<T>(refs: seq<string>, byRef: map<string, set<string>>, ref: string, artifacts: string -> seq<Tagged<T>>, weight: T -> nat)
    ensures Weigh(refs + [ref], byRef, artifacts, weight)
            == Weigh(refs, byRef, artifacts, weight) + PickedWeight(artifacts(ref), Keys(byRef, ref), weight)
  {
    assert (refs + [ref])[..|refs|] == refs;
  }

  lemma {:induction false} WeighPrefix<T>(refs: seq<string>, byRef: map<string, set<string>>, artifacts: string -> seq<Tagged<T>>, weight: T -> nat, k: nat)
    requires k <= |refs|
    ensures Weigh(refs[..k], byRef, artifacts, weight) <= Weigh(refs, byRef, artifacts, weight)
  {
    if k < |refs| {
      var n := |refs| - 1;
      WeighPrefix(refs[..n], byRef, artifacts, weight, k);
      assert refs[..n][..k] == refs[..k];
    } else {
      assert refs[..k] == refs;
    }
  }

  /** One more request adds exactly the weight of its answer. */
  lemma GroupMore<T>(refs: seq<string>, byRef: map<string, set<string>>, r: Request, artifacts: string -> seq<Tagged<T>>, weight: T -> nat)
    requires Unique(refs) && (r.ref in refs <==> r.ref in byRef) && r.key !in Keys(byRef, r.ref)
    ensures var more := if r.ref in byRef then refs else refs + [r.ref];
            Weigh(more, byRef[r.ref := Keys(byRef, r.ref) + {r.key}], artifacts, weight)
            == Weigh(refs, byRef, artifacts, weight) + Total(weight, Picked(artifacts(r.ref), r.key))
  {
    hide PickedWeight, Picked, Total, Weigh;
    var keys := Keys(byRef, r.ref) + {r.key};
    WeighUpdate(refs, byRef, r.ref, keys, artifacts, weight);
    PickedWeightAdd(artifacts(r.ref), Keys(byRef, r.ref), r.key, weight);
    if r.ref !in byRef {
      WeighPush(refs, byRef[r.ref := keys], r.ref, artifacts, weight);
      NoKeysWeigh(artifacts(r.ref), weight);
    }
  }

  method GroupByRef<T>(requests: seq<Request>, ghost artifacts: string -> seq<Tagged<T>>, ghost weight: T -> nat)
    returns (refs: seq<string>, byRef: map<string, set<string>>)
    requires DistinctKeys(requests)
    ensures Groups(requests, byRef) && Unique(refs)
    ensures forall ref :: ref in refs <==> ref in byRef
    ensures Weigh(refs, byRef, artifacts, weight) == Total(weight, Answers(requests, artifacts))
  {
    hide Weigh, Total, Answers, Picked;
    refs, byRef := [], map[];
    assert requests[..0] == [];
    assert Weigh([], map[], artifacts, weight) == Total(weight, Answers([], artifacts)) by { NothingGrouped(artifacts, weight); }
    for k := 0 to |requests|
      invariant Groups(requests[..k], byRef) && Unique(refs)
      invariant forall ref :: ref in refs <==> ref in byRef
      invariant Weigh(refs, byRef, artifacts, weight) == Total(weight, Answers(requests[..k], artifacts))
    {
      var r := requests[k];
      assert r.key !in Keys(byRef, r.ref) by { NewKey(requests, byRef, k); }
      GroupMore(refs, byRef, r, artifacts, weight);
      AnswersSnoc(requests, artifacts, k);
      TotalConcat(weight, Answers(requests[..k], artifacts), Picked(artifacts(r.ref), r.key));
      ghost var before := byRef;
      if r.ref !in byRef {
        refs := refs + [r.ref];
        byRef := byRef[r.ref := {}];
      }
      byRef := byRef[r.ref := byRef[r.ref] + {r.key}];
      assert byRef == before[r.ref := Keys(before, r.ref) + {r.key}];
      assert requests[..k + 1] == requests[..k] + [r];
    }
    assert requests[..|requests|] == requests;
  }

  lemma NewKey(requests: seq<Request>, byRef: map<string, set<string>>, k: nat)
    requires DistinctKeys(requests) && k < |requests| && Groups(requests[..k], byRef)
    ensures requests[k].key !in Keys(byRef, requests[k].ref)
  {
    assert forall j :: 0 <= j < k ==> requests[..k][j] == requests[j] && requests[j].key != requests[k].key;
  }

  lemma NothingGrouped<T>(artifacts: string -> seq<Tagged<T>>, weight: T -> nat)
    ensures Weigh([], map[], artifacts, weight) == 0 && Total(weight, Answers([], artifacts)) == 0
  {
  }

  /** The lists after reading an artifact: each chunk goes to the request it answers, if that
      request's result is in this artifact. */
  ghost function Filled<T>(selected: map<string, seq<T>>, keys: set<string>, artifact: seq<Tagged<T>>): map<string, seq<T>> {
    map key | key in selected :: if key in keys then selected[key] + Picked(artifact, key) else selected[key]
  }

  lemma FilledNone<T>(selected: map<string, seq<T>>, keys: set<string>)
    ensures Filled(selected, keys, []) == selected
  {
    forall key | key in selected ensures Filled(selected, keys, [])[key] == selected[key] {
      assert selected[key] + [] == selected[key];
    }
  }

  lemma FilledSnoc<T>(selected: map<string, seq<T>>, keys: set<string>, artifact: seq<Tagged<T>>, k: nat)
    requires keys <= selected.Keys && k < |artifact|
    ensures var before, item := Filled(selected, keys, artifact[..k]), artifact[k];
            Filled(selected, keys, artifact[..k + 1])
            == if item.key in keys then before[item.key := before[item.key] + [item.chunk]] else before
  {
    hide Picked;
    var item := artifact[k];
    forall key | key in keys
      ensures selected[key] + Picked(artifact[..k + 1], key)
              == selected[key] + Picked(artifact[..k], key) + if item.key == key then [item.chunk] else []
    {
      PickedSnoc(artifact, k, key);
      Assoc(selected[key], Picked(artifact[..k], key), if item.key == key then [item.chunk] else []);
    }
    var before, after := Filled(selected, keys, artifact[..k]), Filled(selected, keys, artifact[..k + 1]);
    forall key | key in selected
      ensures after[key] == if key in keys && item.key == key then before[key] + [item.chunk] else before[key]
    {
    }
  }

  /** The answers to these requests do not fit the assembly window. */
  predicate Overweight<T>(requests: seq<Request>, artifacts: string -> seq<Tagged<T>>, weight: T -> nat) {
    Total(weight, Answers(requests, artifacts)) > ASSEMBLY_MEMORY_BYTES
  }

  lemma PickedWeightSnoc<T>(artifact: seq<Tagged<T>>, keys: set<string>, weight: T -> nat, k: nat)
    requires k < |artifact|
    ensures PickedWeight(artifact[..k + 1], keys, weight)
            == PickedWeight(artifact[..k], keys, weight) + if artifact[k].key in keys then weight(artifact[k].chunk) else 0
  {
    assert artifact[..k + 1][..k] == artifact[..k];
  }

  lemma {:induction false} PickedWeightGrows<T>(artifact: seq<Tagged<T>>, keys: set<string>, weight: T -> nat, k: nat)
    requires k <= |artifact|
    ensures PickedWeight(artifact[..k], keys, weight) <= PickedWeight(artifact, keys, weight)
    decreases |artifact| - k
  {
    if k < |artifact| {
      PickedWeightSnoc(artifact, keys, weight, k);
      PickedWeightGrows(artifact, keys, weight, k + 1);
    } else {
      assert artifact[..k] == artifact;
    }
  }

  method ReadArtifact<T>(artifact: seq<Tagged<T>>, keys: set<string>, selected: map<string, seq<T>>, retained: nat, weight: T -> nat)
    returns (r: Result<nat>, chosen: map<string, seq<T>>)
    requires keys <= selected.Keys && retained <= ASSEMBLY_MEMORY_BYTES
    ensures r.Success? ==> chosen == Filled(selected, keys, artifact)
    ensures r == if retained + PickedWeight(artifact, keys, weight) > ASSEMBLY_MEMORY_BYTES then Failure
                 else Success(retained + PickedWeight(artifact, keys, weight))
  {
    hide Filled, PickedWeight;
    chosen := selected;
    var total: nat := retained;
    assert artifact[..0] == [];
    FilledNone(selected, keys);
    assert PickedWeight<T>([], keys, weight) == 0 by { NothingPicked<T>(keys, weight); }
    for k := 0 to |artifact|
      invariant chosen == Filled(selected, keys, artifact[..k]) && keys <= chosen.Keys
      invariant total == retained + PickedWeight(artifact[..k], keys, weight) <= ASSEMBLY_MEMORY_BYTES
    {
      PickedWeightSnoc(artifact, keys, weight, k);
      PickedWeightGrows(artifact, keys, weight, k + 1);
      FilledSnoc(selected, keys, artifact, k);
      var item := artifact[k];
      if item.key in keys {
        total := total + weight(item.chunk);
        if total > ASSEMBLY_MEMORY_BYTES {
          return Failure, chosen;
        }
        chosen := chosen[item.key := chosen[item.key] + [item.chunk]];
      }
    }
    assert artifact[..|artifact|] == artifact;
    return Success(total), chosen;
  }

  lemma NothingPicked<T>(keys: set<string>, weight: T -> nat)
    ensures PickedWeight<T>([], keys, weight) == 0
  {
  }

  /** Each request has what its own artifact holds for it, once that artifact has been read. */
  ghost predicate Selected<T>(requests: seq<Request>, artifacts: string -> seq<Tagged<T>>, refs: seq<string>, selected: map<string, seq<T>>) {
    forall i :: 0 <= i < |requests| ==>
      && requests[i].key in selected
      && selected[requests[i].key] == if requests[i].ref in refs then Picked(artifacts(requests[i].ref), requests[i].key) else []
  }

  lemma SelectedMore<T>(requests: seq<Request>, artifacts: string -> seq<Tagged<T>>, refs: seq<string>, ref: string, byRef: map<string, set<string>>, selected: map<string, seq<T>>)
    requires DistinctKeys(requests) && Selected(requests, artifacts, refs, selected) && ref !in refs
    requires Groups(requests, byRef) && ref in byRef
    ensures Selected(requests, artifacts, refs + [ref], Filled(selected, byRef[ref], artifacts(ref)))
    ensures byRef[ref] <= selected.Keys
  {
    hide Picked;
    var keys := byRef[ref];
    forall key | key in keys ensures key in selected {
      var j :| 0 <= j < |requests| && requests[j] == Request(key, ref);
    }
    forall i | 0 <= i < |requests| ensures requests[i].key in keys <==> requests[i].ref == ref {
      if requests[i].key in keys {
        var j :| 0 <= j < |requests| && requests[j] == Request(requests[i].key, ref);
        assert i == j;
      }
    }
    forall i | 0 <= i < |requests| && requests[i].ref == ref
      ensures selected[requests[i].key] + Picked(artifacts(ref), requests[i].key) == Picked(artifacts(ref), requests[i].key)
    {
      assert selected[requests[i].key] == [];
    }
  }

  lemma NoneSelected<T>(requests: seq<Request>, artifacts: string -> seq<Tagged<T>>, selected: map<string, seq<T>>)
    requires forall i :: 0 <= i < |requests| ==> requests[i].key in selected && selected[requests[i].key] == []
    ensures Selected(requests, artifacts, [], selected)
  {
  }

  lemma AllSelected<T>(requests: seq<Request>, artifacts: string -> seq<Tagged<T>>, refs: seq<string>, byRef: map<string, set<string>>, selected: map<string, seq<T>>)
    requires Groups(requests, byRef) && Selected(requests, artifacts, refs, selected) && forall ref :: ref in byRef ==> ref in refs
    ensures forall i :: 0 <= i < |requests| ==>
              requests[i].key in selected && selected[requests[i].key] == Picked(artifacts(requests[i].ref), requests[i].key)
  {
    hide Picked;
  }

  method SelectChunks<T>(requests: seq<Request>, artifacts: string -> seq<Tagged<T>>, weight: T -> nat)
    returns (r: Result<map<string, seq<T>>>)
    requires DistinctKeys(requests)
    ensures r.Success? ==> forall i :: 0 <= i < |requests| ==>
              requests[i].key in r.value && r.value[requests[i].key] == Picked(artifacts(requests[i].ref), requests[i].key)
    ensures r.Failure? <==> Overweight(requests, artifacts, weight)
  {
    hide Picked, Filled, Weigh, Total, Unique, DistinctKeys, PickedWeight, Answers, Groups, Selected;
    var refs, byRef := GroupByRef(requests, artifacts, weight);
    var selected: map<string, seq<T>> := map i | 0 <= i < |requests| :: requests[i].key := [];
    var retained: nat := 0;
    assert refs[..0] == [];
    assert Selected(requests, artifacts, [], selected) by { NoneSelected(requests, artifacts, selected); }
    assert Weigh([], byRef, artifacts, weight) == 0 by { NoRefsWeigh(byRef, artifacts, weight); }
    for k := 0 to |refs|
      invariant Selected(requests, artifacts, refs[..k], selected)
      invariant retained == Weigh(refs[..k], byRef, artifacts, weight) <= ASSEMBLY_MEMORY_BYTES
    {
      var ref := refs[k];
      assert ref in refs && refs[..k + 1] == refs[..k] + [ref] && ref !in refs[..k] by { UniqueAt(refs, k); }
      WeighPush(refs[..k], byRef, ref, artifacts, weight);
      WeighPrefix(refs, byRef, artifacts, weight, k + 1);
      SelectedMore(requests, artifacts, refs[..k], ref, byRef, selected);
      var read, chosen := ReadArtifact(artifacts(ref), byRef[ref], selected, retained, weight);
      if read.Failure? {
        return Failure;
      }
      retained, selected := read.value, chosen;
    }
    assert refs[..|refs|] == refs;
    AllSelected(requests, artifacts, refs, byRef, selected);
    return Success(selected);
  }

  lemma UniqueAt(refs: seq<string>, k: nat)
    requires Unique(refs) && k < |refs|
    ensures refs[k] in refs && refs[..k + 1] == refs[..k] + [refs[k]] && refs[k] !in refs[..k]
  {
  }

  lemma NoRefsWeigh<T>(byRef: map<string, set<string>>, artifacts: string -> seq<Tagged<T>>, weight: T -> nat)
    ensures Weigh([], byRef, artifacts, weight) == 0
  {
  }

  lemma NumberConcat<T>(first: nat, a: seq<T>, b: seq<T>)
    ensures Number(first, a + b) == Number(first, a) + Number(first + |a|, b)
  {
  }

  lemma AnswersSnoc<T>(requests: seq<Request>, artifacts: string -> seq<Tagged<T>>, k: nat)
    requires k < |requests|
    ensures Answers(requests[..k + 1], artifacts)
            == Answers(requests[..k], artifacts) + Picked(artifacts(requests[k].ref), requests[k].key)
  {
    assert requests[..k + 1][..k] == requests[..k];
  }

  /** The chunks of one completed batch: every request once, in request order, whichever
      attempt's artifact holds its result, numbered from `first`. */
  method BatchChunks<T>(requests: seq<Request>, artifacts: string -> seq<Tagged<T>>, first: nat, weight: T -> nat)
    returns (r: Result<seq<Record<T>>>)
    requires DistinctKeys(requests)
    ensures r.Success? ==> r.value == Number(first, Answers(requests, artifacts))
    ensures r.Failure? <==> Overweight(requests, artifacts, weight)
  {
    hide Picked, Answers, Number, Overweight;
    var selected := SelectChunks(requests, artifacts, weight);
    if selected.Failure? {
      return Failure;
    }
    var chunks: seq<Record<T>> := [];
    assert Answers<T>(requests[..0], artifacts) == [] by { AnswersNone(requests, artifacts); }
    for k := 0 to |requests|
      invariant chunks == Number(first, Answers(requests[..k], artifacts))
    {
      AnswersSnoc(requests, artifacts, k);
      var more := selected.value[requests[k].key];
      NumberConcat(first, Answers(requests[..k], artifacts), more);
      chunks := chunks + Number(first + |chunks|, more);
    }
    assert requests[..|requests|] == requests;
    return Success(chunks);
  }

  lemma AnswersNone<T>(requests: seq<Request>, artifacts: string -> seq<Tagged<T>>)
    ensures Answers(requests[..0], artifacts) == []
  {
  }

  lemma {:induction false} AnswersConcat<T>(a: seq<Request>, b: seq<Request>, artifacts: string -> seq<Tagged<T>>)
    ensures Answers(a + b, artifacts) == Answers(a, artifacts) + Answers(b, artifacts)
  {
    hide Picked;
    if b == [] {
      assert a + b == a;
    } else {
      var n := |b| - 1;
      assert (a + b)[..|a| + n] == a + b[..n];
      AnswersConcat(a, b[..n], artifacts);
      Assoc(Answers(a, artifacts), Answers(b[..n], artifacts), Picked(artifacts(b[n].ref), b[n].key));
    }
  }

  /** What has been assembled when the cursor is `c`: the answers to the first `c` requests. */
  ghost predicate Assembled<T>(size: Record<T> -> nat, requests: seq<Request>, artifacts: string -> seq<Tagged<T>>, c: nat, segments: seq<seq<Record<T>>>) {
    && c <= |requests| && Flat(segments) == Number(0, Answers(requests[..c], artifacts))
    && forall k :: 0 <= k < |segments| ==> Bounded(size, segments[k])
  }

  lemma AssembledMore<T>(size: Record<T> -> nat, requests: seq<Request>, artifacts: string -> seq<Tagged<T>>, c: nat, d: nat, segments: seq<seq<Record<T>>>, more: seq<seq<Record<T>>>)
    requires Assembled(size, requests, artifacts, c, segments) && c <= d <= |requests|
    requires Flat(more) == Number(|Flat(segments)|, Answers(requests[c..d], artifacts))
    requires forall k :: 0 <= k < |more| ==> Bounded(size, more[k])
    ensures Assembled(size, requests, artifacts, d, segments + more)
  {
    hide Bounded, Answers, Flat;
    FlatConcat(segments, more);
    assert requests[..d] == requests[..c] + requests[c..d];
    AnswersConcat(requests[..c], requests[c..d], artifacts);
    NumberConcat(0, Answers(requests[..c], artifacts), Answers(requests[c..d], artifacts));
  }

  ghost predicate Oversized<T>(size: Record<T> -> nat, records: seq<Record<T>>) {
    exists i :: 0 <= i < |records| && size(records[i]) > SEGMENT_BYTES
  }

  /** The answers of some batch do not fit the assembly window. */
  ghost predicate HeavyBatch<T>(rows: seq<Batch>, requests: seq<Request>, artifacts: string -> seq<Tagged<T>>, weight: T -> nat) {
    exists i :: 0 <= i < |rows| && Heavy(rows[i], requests, artifacts, weight)
  }

  predicate Heavy<T>(b: Batch, requests: seq<Request>, artifacts: string -> seq<Tagged<T>>, weight: T -> nat) {
    b.start + b.count <= |requests| && Overweight(requests[b.start..b.start + b.count], artifacts, weight)
  }

  /** No batch before the cursor is too heavy. */
  ghost predicate LightSoFar<T>(rows: seq<Batch>, requests: seq<Request>, artifacts: string -> seq<Tagged<T>>, weight: T -> nat, c: nat) {
    forall i :: 0 <= i < |rows| && rows[i].start < c ==> !Heavy(rows[i], requests, artifacts, weight)
  }

  /** Between two cursor values there is one batch. */
  lemma LightMore<T>(rows: seq<Batch>, requests: seq<Request>, artifacts: string -> seq<Tagged<T>>, weight: T -> nat, c: nat)
    requires Shaped(rows) && Seek(rows, c).Some? && LightSoFar(rows, requests, artifacts, weight, c)
    requires !Heavy(Seek(rows, c).value, requests, artifacts, weight)
    ensures LightSoFar(rows, requests, artifacts, weight, c + Seek(rows, c).value.count)
  {
    hide Heavy, Seek;
    var b := Seek(rows, c).value;
    var k :| 0 <= k < |rows| && rows[k] == b;
    forall i | 0 <= i < |rows| && c <= rows[i].start < c + b.count ensures rows[i] == b {
      ShapedAt(rows, i);
      ShapedAt(rows, k);
      AlignedStart(Batch(rows[i].start / MAX_BATCH_REQUESTS * MAX_BATCH_REQUESTS, MAX_BATCH_REQUESTS, true), rows[i].start);
      assert rows[i].start == rows[k].start;
    }
  }

  lemma OversizedSlice<T>(size: Record<T> -> nat, requests: seq<Request>, artifacts: string -> seq<Tagged<T>>, c: nat, d: nat, records: seq<Record<T>>)
    requires c <= d <= |requests| && Segmented(size, records).Failure?
    requires records == Number(|Answers(requests[..c], artifacts)|, Answers(requests[c..d], artifacts))
    ensures Oversized(size, Number(0, Answers(requests, artifacts)))
  {
    hide Answers, Segmented;
    SegmentationFails(size, records);
    var i :| 0 <= i < |records| && size(records[i]) > SEGMENT_BYTES;
    assert requests == requests[..c] + requests[c..d] + requests[d..];
    AnswersConcat(requests[..c], requests[c..d], artifacts);
    AnswersConcat(requests[..c] + requests[c..d], requests[d..], artifacts);
    var k := |Answers(requests[..c], artifacts)| + i;
    assert Number(0, Answers(requests, artifacts))[k] == records[i];
  }

  /** All assembly turns of a sealed extraction, each with its crashes. Every turn finds its
      batch, and the segments hold the answers to all requests, in order, numbered from zero. */
  method AssembleExtraction<T(==)>(rows: seq<Batch>, requests: seq<Request>, artifacts: string -> seq<Tagged<T>>, size: Record<T> -> nat,
                                   weight: T -> nat, crashes: nat -> seq<nat>)
    returns (r: Result<nat>, segments: seq<seq<Record<T>>>)
    requires Shaped(rows) && Seals(rows, |requests|) && DistinctKeys(requests)
    ensures r.Success? ==> Flat(segments) == Number(0, Answers(requests, artifacts)) && r.value == |Flat(segments)|
    ensures r.Success? ==> forall k :: 0 <= k < |segments| ==> Bounded(size, segments[k])
    ensures r.Failure? <==> HeavyBatch(rows, requests, artifacts, weight) || Oversized(size, Number(0, Answers(requests, artifacts)))
  {
    hide Shaped, Seals, Flat, Answers, Bounded, Segmented, Seek, Overweight, Heavy, Oversized, HeavyBatch;
    segments := [];
    var cursor, count := 0, 0;
    AnswersNone<T>(requests, artifacts);
    FlatEmpty<Record<T>>();
    while cursor < |requests|
      invariant Cursor(rows, |requests|, cursor)
      invariant Assembled(size, requests, artifacts, cursor, segments) && count == |Flat(segments)|
      invariant LightSoFar(rows, requests, artifacts, weight, cursor)
      decreases |requests| - cursor
    {
      NextBatchFound(rows, |requests|, cursor);
      var next := cursor + Seek(rows, cursor).value.count;
      var manifest := requests[cursor..next];
      var chunks := BatchChunks(manifest, artifacts, count, weight);
      BatchHeavy(rows, requests, artifacts, weight, cursor);
      if chunks.Failure? {
        return Failure, segments;
      }
      LightMore(rows, requests, artifacts, weight, cursor);
      var done, stored := DecodedSegments.Recover(size, chunks.value, (c: Record<T>) => c.ordinal, count, crashes(cursor));
      if done.Failure? {
        OversizedSlice(size, requests, artifacts, cursor, next, chunks.value);
        return Failure, segments;
      }
      AssembledMore(size, requests, artifacts, cursor, next, segments, stored);
      FlatConcat(segments, stored);
      segments, cursor, count := segments + stored, next, done.value;
    }
    assert requests[..cursor] == requests;
    AllLight(rows, requests, artifacts, weight);
    NoneOversized(size, segments);
    return Success(count), segments;
  }

  lemma BatchHeavy<T>(rows: seq<Batch>, requests: seq<Request>, artifacts: string -> seq<Tagged<T>>, weight: T -> nat, c: nat)
    requires Seek(rows, c).Some? && c + Seek(rows, c).value.count <= |requests|
    ensures var b := Seek(rows, c).value;
            && (Heavy(b, requests, artifacts, weight) <==> Overweight(requests[c..c + b.count], artifacts, weight))
            && (Heavy(b, requests, artifacts, weight) ==> HeavyBatch(rows, requests, artifacts, weight))
  {
    hide Seek, Overweight;
    var b := Seek(rows, c).value;
    var k :| 0 <= k < |rows| && rows[k] == b;
  }

  lemma AllLight<T>(rows: seq<Batch>, requests: seq<Request>, artifacts: string -> seq<Tagged<T>>, weight: T -> nat)
    requires Shaped(rows) && Seals(rows, |requests|) && LightSoFar(rows, requests, artifacts, weight, |requests|)
    ensures !HeavyBatch(rows, requests, artifacts, weight)
  {
    hide Heavy, Sum;
    forall i | 0 <= i < |rows| ensures rows[i].start < |requests| { ShapedAt(rows, i); }
  }

  lemma NoneOversized<T>(size: Record<T> -> nat, segments: seq<seq<Record<T>>>)
    requires forall k :: 0 <= k < |segments| ==> Bounded(size, segments[k])
    ensures !Oversized(size, Flat(segments))
  {
    hide Bounded, Flat;
    forall i | 0 <= i < |Flat(segments)| ensures size(Flat(segments)[i]) <= SEGMENT_BYTES { BoundedFits(size, segments, i); }
  }
}
