/** Writing the rows of an extraction to the index in bounded, admitted batches
    (`workers/index_mutations.py`, `workers/provider_capacity.py`, `workers/index_worker.py`). */
module IndexWrites {
  import opened Seqs
  import opened Wrappers
  import opened Segments

  const ENVELOPE := 18 // bytes of an empty mutation

  /** The bounds of one mutation; without `tokens` embedding is off. */
  datatype Bounds = Bounds(rows: nat, bytes: nat, tokens: Option<nat>)

  /** The encoded size of a mutation: rows are separated by commas. */
  function Encoded<T>(length: T -> nat, batch: seq<T>): nat {
    ENVELOPE + Total(length, batch) + if batch == [] then 0 else |batch| - 1
  }

  predicate Oversized<T>(bounds: Bounds, length: T -> nat, cost: T -> nat, row: T) {
    length(row) + ENVELOPE > bounds.bytes || (bounds.tokens.Some? && cost(row) > bounds.tokens.value)
  }

  predicate Fits<T>(bounds: Bounds, length: T -> nat, cost: T -> nat, batch: seq<T>) {
    && 0 < |batch| <= bounds.rows && Encoded(length, batch) <= bounds.bytes
    && (bounds.tokens.Some? ==> Total(cost, batch) <= bounds.tokens.value)
  }

  predicate NoRoom<T>(bounds: Bounds, length: T -> nat, cost: T -> nat, batch: seq<T>, next: seq<T>) {
    next != [] && !Fits(bounds, length, cost, batch + [next[0]])
  }

  /** Batches within bounds, none of which had room for the row that follows it. */
  ghost predicate Greedy<T>(bounds: Bounds, length: T -> nat, cost: T -> nat, batches: seq<seq<T>>) {
    && (forall i :: 0 <= i < |batches| ==> Fits(bounds, length, cost, batches[i]))
    && (forall i, j :: 0 <= i < j < |batches| && j == i + 1 ==> NoRoom(bounds, length, cost, batches[i], batches[j]))
  }

  lemma TotalPush<T>(size: T -> nat, batch: seq<T>, row: T)
    ensures Total(size, batch + [row]) == Total(size, batch) + size(row)
  {
    assert (batch + [row])[..|batch|] == batch;
  }

  /** The state between two rows: closed batches, and one that is still open. */
  ghost predicate Batching<T>(bounds: Bounds, length: T -> nat, cost: T -> nat, batches: seq<seq<T>>, batch: seq<T>) {
    && Greedy(bounds, length, cost, batches) && (batch != [] ==> Fits(bounds, length, cost, batch))
    && (batches != [] ==> NoRoom(bounds, length, cost, batches[|batches| - 1], batch))
  }

  lemma CloseBatch<T>(bounds: Bounds, length: T -> nat, cost: T -> nat, batches: seq<seq<T>>, batch: seq<T>, row: T)
    requires Batching(bounds, length, cost, batches, batch) && batch != [] && Fits(bounds, length, cost, [row])
    requires !Fits(bounds, length, cost, batch + [row])
    ensures Batching(bounds, length, cost, batches + [batch], [row])
  {
    hide Fits;
  }

  lemma ExtendBatch<T>(bounds: Bounds, length: T -> nat, cost: T -> nat, batches: seq<seq<T>>, batch: seq<T>, row: T)
    requires Batching(bounds, length, cost, batches, batch) && Fits(bounds, length, cost, batch + [row])
    requires batch == [] ==> batches == []
    ensures Batching(bounds, length, cost, batches, batch + [row])
  {
    hide Fits;
  }

  lemma FinishBatch<T>(bounds: Bounds, length: T -> nat, cost: T -> nat, batches: seq<seq<T>>, batch: seq<T>)
    requires Batching(bounds, length, cost, batches, batch)
    ensures Greedy(bounds, length, cost, if batch == [] then batches else batches + [batch])
  {
    hide Fits;
  }

  /** When the running totals admit a row, the longer batch fits, and only then. */
  lemma FitsPush<T>(bounds: Bounds, length: T -> nat, cost: T -> nat, batch: seq<T>, row: T)
    requires bounds.rows >= 1 && !Oversized(bounds, length, cost, row)
    ensures Fits(bounds, length, cost, [row])
    ensures batch != [] ==>
              (Fits(bounds, length, cost, batch + [row]) <==>
                 !(|| |batch| >= bounds.rows || Encoded(length, batch) + length(row) + 1 > bounds.bytes
                   || (bounds.tokens.Some? && Total(cost, batch) + cost(row) > bounds.tokens.value)))
    ensures Encoded(length, batch + [row]) == Encoded(length, batch) + length(row) + if batch == [] then 0 else 1
  {
    hide Total;
    TotalPush(length, batch, row);
    TotalPush(cost, batch, row);
    TotalPush(length, [], row);
    TotalPush(cost, [], row);
    NothingWeighs(length);
    NothingWeighs(cost);
    assert [] + [row] == [row];
  }

  /** `mutation_batches`: an order-preserving partition into greedy bounded batches, or the
      batches before the first row that no mutation can hold. */
  method MutationBatches<T>(rows: seq<T>, bounds: Bounds, length: T -> nat, cost: T -> nat) returns (ok: bool, batches: seq<seq<T>>)
    ensures ok <==> bounds.rows >= 1 && bounds.bytes >= 32 && forall i :: 0 <= i < |rows| ==> !Oversized(bounds, length, cost, rows[i])
    ensures Greedy(bounds, length, cost, batches) && Flat(batches) <= rows
    ensures ok ==> Flat(batches) == rows
  {
    hide Total, Flat, Oversized, Greedy, Fits, Encoded, Batching;
    assert Greedy<T>(bounds, length, cost, []) && Batching<T>(bounds, length, cost, [], []) && Flat<T>([]) == [] by {
      NoBatches(bounds, length, cost);
    }
    batches := [];
    if bounds.rows < 1 || bounds.bytes < 32 {
      return false, [];
    }
    assert Encoded<T>(length, []) == ENVELOPE && Total<T>(cost, []) == 0 by { NoRows(length, cost); }
    var batch: seq<T>, size, tokens := [], ENVELOPE, 0;
    for i := 0 to |rows|
      invariant forall k :: 0 <= k < i ==> !Oversized(bounds, length, cost, rows[k])
      invariant Batching(bounds, length, cost, batches, batch) && (batch == [] ==> batches == [])
      invariant Flat(batches) + batch == rows[..i]
      invariant size == Encoded(length, batch) && tokens == Total(cost, batch)
    {
      var row := rows[i];
      assert rows[..i + 1] == rows[..i] + [row];
      if Oversized(bounds, length, cost, row) {
        assert Greedy(bounds, length, cost, batches) by { BatchingGreedy(bounds, length, cost, batches, batch); }
        return false, batches;
      }
      FitsPush(bounds, length, cost, batch, row);
      if batch != [] && (|batch| >= bounds.rows || size + length(row) + 1 > bounds.bytes
                         || (bounds.tokens.Some? && tokens + cost(row) > bounds.tokens.value)) {
        CloseBatch(bounds, length, cost, batches, batch, row);
        FlatPush(batches, batch);
        batches, batch, size, tokens := batches + [batch], [], ENVELOPE, 0;
        FitsPush(bounds, length, cost, batch, row);
        assert [] + [row] == [row];
      } else {
        assert batch == [] ==> batch + [row] == [row];
        ExtendBatch(bounds, length, cost, batches, batch, row);
        Assoc(Flat(batches), batch, [row]);
      }
      TotalPush(cost, batch, row);
      size := size + length(row) + if batch == [] then 0 else 1;
      tokens := tokens + cost(row);
      batch := batch + [row];
    }
    assert rows[..|rows|] == rows;
    FinishBatch(bounds, length, cost, batches, batch);
    FlatPush(batches, batch);
    assert batch == [] ==> Flat(batches) == rows;
    return true, if batch == [] then batches else batches + [batch];
  }

  lemma NoBatches<T>(bounds: Bounds, length: T -> nat, cost: T -> nat)
    ensures Greedy<T>(bounds, length, cost, []) && Batching<T>(bounds, length, cost, [], []) && Flat<T>([]) == []
  {
  }

  lemma NoRows<T>(length: T -> nat, cost: T -> nat)
    ensures Encoded<T>(length, []) == ENVELOPE && Total<T>(cost, []) == 0
  {
  }

  lemma BatchingGreedy<T>(bounds: Bounds, length: T -> nat, cost: T -> nat, batches: seq<seq<T>>, batch: seq<T>)
    requires Batching(bounds, length, cost, batches, batch)
    ensures Greedy(bounds, length, cost, batches)
  {
  }

  // ----- admission -----

  /** The answer to a reservation: admitted, or put off with a hint of what is left. */
  datatype Admission = Admitted | Deferred(available: nat)

  /** The longest prefix whose cost is within `available`. */
  function Affordable<T>(cost: T -> nat, rows: seq<T>, available: nat): (n: nat)
    ensures n <= |rows|
  {
    if rows == [] || cost(rows[0]) > available then 0 else 1 + Affordable(cost, rows[1..], available - cost(rows[0]))
  }

  /** It is affordable, and one more row would not be. */
  lemma {:induction false} AffordableMaximal<T>(cost: T -> nat, rows: seq<T>, available: nat)
    ensures var n := Affordable(cost, rows, available);
            && Total(cost, rows[..n]) <= available
            && (n < |rows| ==> Total(cost, rows[..n + 1]) > available)
  {
    hide Total;
    if rows == [] || cost(rows[0]) > available {
      NothingWeighs(cost);
      assert rows[..0] == [];
      if rows != [] {
        TotalSnoc(cost, rows, 0);
      }
    } else {
      var n := Affordable(cost, rows[1..], available - cost(rows[0]));
      AffordableMaximal(cost, rows[1..], available - cost(rows[0]));
      TotalHead(cost, rows[..n + 1]);
      assert rows[..n + 1][1..] == rows[1..][..n];
      if n + 1 < |rows| {
        TotalHead(cost, rows[..n + 2]);
        assert rows[..n + 2][1..] == rows[1..][..n + 1];
      }
    }
  }

  lemma {:induction false} TotalHead<T>(size: T -> nat, rows: seq<T>)
    requires rows != []
    ensures Total(size, rows) == size(rows[0]) + Total(size, rows[1..])
  {
    if |rows| > 1 {
      var n := |rows| - 1;
      TotalHead(size, rows[..n]);
      assert rows[1..][..n - 1] == rows[..n][1..];
    }
  }

  method AffordablePrefix<T>(rows: seq<T>, cost: T -> nat, available: nat) returns (length: nat)
    ensures length == Affordable(cost, rows, available)
  {
    var remaining: nat := available;
    length := 0;
    assert rows[0..] == rows;
    while length < |rows|
      invariant 0 <= length <= |rows|
      invariant length + Affordable(cost, rows[length..], remaining) == Affordable(cost, rows, available)
    {
      assert rows[length..][1..] == rows[length + 1..];
      if cost(rows[length]) > remaining {
        return;
      }
      remaining := remaining - cost(rows[length]);
      length := length + 1;
    }
  }

  /** Put off, with a hint that affords no shorter nonempty prefix. */
  predicate Hopeless<T>(rows: seq<T>, cost: T -> nat, answer: Admission) {
    answer.Deferred? && Affordable(cost, rows, answer.available) in {0, |rows|}
  }

  /** `write_embedding` up to the write: the rows that a reservation of their whole cost
      admitted, or nothing. Every smaller attempt asks again. */
  method AdmitRows<T>(rows: seq<T>, cost: T -> nat, reserve: (nat, nat) -> Admission) returns (admitted: seq<T>, tries: nat)
    requires rows != []
    ensures admitted <= rows && tries <= |rows|
    ensures admitted != [] ==> reserve(tries, Total(cost, admitted)).Admitted?
    ensures admitted == [] ==> exists n :: 0 < n <= |rows| && Hopeless(rows[..n], cost, reserve(tries, Total(cost, rows[..n])))
  {
    var kept := rows;
    tries := 0;
    while true
      invariant kept != [] && kept <= rows && |kept| + tries <= |rows|
      decreases |kept|
    {
      var answer := reserve(tries, Total(cost, kept));
      if answer.Admitted? {
        return kept, tries;
      }
      var length := AffordablePrefix(kept, cost, answer.available);
      if !(0 < length < |kept|) {
        assert kept == rows[..|kept|];
        return [], tries;
      }
      kept, tries := kept[..length], tries + 1;
    }
  }

  // ----- one turn of the index worker -----

  /** What the index answers to a write; after any other error the rows may or may not be there. */
  datatype Reply = Accepted | Throttled | Broken

  /** What the environment decides, moment by moment: admissions, replies, shutdown, leases. */
  datatype World = World(reserve: (nat, nat, nat) -> Admission, reply: nat -> Reply, stopping: nat -> bool, owner: nat -> bool)

  datatype Turn = Finished | Yielded | Failed | Lost

  /** Some admission was put off and left nothing to write. */
  ghost predicate PutOff<T(!new)>(cost: T -> nat, world: World, now: nat) {
    exists rows: seq<T>, try :: rows != [] && Hopeless(rows, cost, world.reserve(now, try, Total(cost, rows)))
  }

  /** A turn ends early only for a cause at some moment of the world. */
  ghost predicate Caused<T(!new)>(turn: Turn, embed: bool, cost: T -> nat, world: World, now: nat) {
    match turn
    case Finished => true
    case Yielded => world.stopping(now) || (embed && (world.reply(now).Throttled? || PutOff(cost, world, now)))
    case Failed => !world.reply(now).Accepted? && !(embed && world.reply(now).Throttled?)
    case Lost => !world.owner(now)
  }

  /** The write loop over the batches. `acked` are the rows the index confirmed, in order, and
      `saved` is the checkpointed cursor: it never runs ahead of them, and a finished turn has
      confirmed and saved every row. */
  method WriteBatches<T(!new)>(batches: seq<seq<T>>, start: nat, count: nat, embed: bool, cost: T -> nat, world: World)
    returns (turn: Turn, acked: seq<T>, saved: nat)
    requires forall i :: 0 <= i < |batches| ==> batches[i] != []
    ensures acked <= Flat(batches)
    ensures start <= saved <= start + |acked|
    ensures turn.Finished? ==> acked == Flat(batches) && saved == start + |acked|
    ensures turn.Yielded? || turn.Failed? ==> saved == start + |acked|
    ensures turn.Yielded? ==> acked != Flat(batches) || saved < count
    ensures exists now :: Caused(turn, embed, cost, world, now)
  {
    hide Flat;
    acked, saved := [], start;
    var now: nat := 0;
    assert batches[..0] == [];
    FlatEmpty<T>();
    for i := 0 to |batches|
      invariant acked == Flat(batches[..i]) && saved == start + |acked|
    {
      FlatSlices(batches, i);
      var pending := batches[i];
      while pending != []
        invariant acked + pending == Flat(batches[..i + 1]) && saved == start + |acked|
        decreases |pending|
      {
        now := now + 1;
        if !world.owner(now) {
          assert Caused(Lost, embed, cost, world, now);
          return Lost, acked, saved;
        }
        StillPending(batches, i, acked, pending);
        if world.stopping(now) {
          assert Caused(Yielded, embed, cost, world, now);
          return Yielded, acked, saved;
        }
        var admitted := pending;
        if embed {
          var tries;
          admitted, tries := AdmitRows(pending, cost, (try: nat, tokens: nat) => world.reserve(now, try, tokens));
          if admitted == [] {
            assert PutOff(cost, world, now) by {
              var n :| 0 < n <= |pending| && Hopeless(pending[..n], cost, world.reserve(now, tries, Total(cost, pending[..n])));
            }
            assert Caused(Yielded, embed, cost, world, now);
            return Yielded, acked, saved;
          }
        }
        var reply := world.reply(now);
        if !reply.Accepted? {
          turn := if embed && reply.Throttled? then Yielded else Failed;
          assert Caused(turn, embed, cost, world, now);
          return turn, acked, saved;
        }
        var written := |admitted|;
        assert pending == admitted + pending[written..];
        Assoc(acked, admitted, pending[written..]);
        acked := acked + admitted;
        if !world.owner(now + 1) {
          assert Caused(Lost, embed, cost, world, now + 1);
          return Lost, acked, saved;
        }
        saved := saved + written;
        pending := pending[written..];
        now := now + 2;
        if !world.owner(now) {
          assert Caused(Lost, embed, cost, world, now);
          return Lost, acked, saved;
        }
        if world.stopping(now) && saved < count {
          assert Caused(Yielded, embed, cost, world, now);
          return Yielded, acked, saved;
        }
      }
      assert acked + [] == acked;
    }
    assert batches[..|batches|] == batches;
    assert Caused(Finished, embed, cost, world, now);
    return Finished, acked, saved;
  }

  lemma StillPending<T>(batches: seq<seq<T>>, i: nat, acked: seq<T>, pending: seq<T>)
    requires i < |batches| && acked + pending == Flat(batches[..i + 1]) && pending != []
    ensures acked != Flat(batches)
  {
    hide Flat;
    FlatSlices(batches, i);
    assert |Flat(batches)| >= |acked + pending|;
  }
}
