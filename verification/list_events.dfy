/** The signals of `ListEvents` and what emitting them records.

    Listener dispatch is not modelled: an emission is an entry appended to a log,
    and a signal's `blocked()` scope is a block depth that, while positive,
    drops the emission (it is not queued). */
module ListEvents {
  import opened PyList

  /** The eight signals `ListEvents` declares, one per attribute. */
  datatype Signal =
    | InsertingSignal
    | InsertedSignal
    | RemovingSignal
    | RemovedSignal
    | MovingSignal
    | MovedSignal
    | ChangedSignal
    | ReorderedSignal

  /** The old or new value carried by `changed`: one item for an int key,
      a list of items for a slice key. */
  datatype Payload<T> = One(item: T) | Many(items: seq<T>)

  /** One emission, with the arguments the signal was emitted with. */
  datatype Event<T> =
    | Inserting(index: int)
    | Inserted(index: int, value: T)
    | Removing(index: int)
    | Removed(index: int, value: T)
    | Moving(src: int, dest: int)
    | Moved(src: int, dest: int, value: T)
    | Changed(key: Index, before: Payload<T>, after: Payload<T>)
    | Reordered

  function SignalOf<T>(e: Event<T>): Signal
  {
    match e
    case Inserting(_) => InsertingSignal
    case Inserted(_, _) => InsertedSignal
    case Removing(_) => RemovingSignal
    case Removed(_, _) => RemovedSignal
    case Moving(_, _) => MovingSignal
    case Moved(_, _, _) => MovedSignal
    case Changed(_, _, _) => ChangedSignal
    case Reordered => ReorderedSignal
  }

  /** The emissions that get through when the signals have the block depths in
      `blocked`: an emission on a signal whose depth is positive is dropped. */
  function Heard<T>(es: seq<Event<T>>, blocked: multiset<Signal>): (r: seq<Event<T>>)
    ensures |r| <= |es|
  {
    if es == [] then []
    else
      var last := es[|es| - 1];
      Heard(es[..|es| - 1], blocked) + (if blocked[SignalOf(last)] == 0 then [last] else [])
  }

  /** An emission is recorded exactly when it was emitted on a signal that is
      not blocked. */
  lemma {:induction false} HeardMembers<T>(es: seq<Event<T>>, blocked: multiset<Signal>)
    ensures forall e :: e in Heard(es, blocked) <==> e in es && blocked[SignalOf(e)] == 0
  {
    if es != [] {
      HeardMembers(es[..|es| - 1], blocked);
      assert es == es[..|es| - 1] + [es[|es| - 1]];
    }
  }

  /** Filtering by block depth adds no insert emission. */
  lemma HeardNoInserts<T>(es: seq<Event<T>>, blocked: multiset<Signal>)
    requires forall e :: e in es ==> !e.Inserting? && !e.Inserted?
    ensures forall e :: e in Heard(es, blocked) ==> !e.Inserting? && !e.Inserted?
  {
    HeardMembers(es, blocked);
  }

  lemma {:induction false} HeardConcat<T>(a: seq<Event<T>>, b: seq<Event<T>>, blocked: multiset<Signal>)
    ensures Heard(a + b, blocked) == Heard(a, blocked) + Heard(b, blocked)
    decreases |b|
  {
    if b != [] {
      var b' := b[..|b| - 1];
      assert (a + b)[..|a + b| - 1] == a + b';
      HeardConcat(a, b', blocked);
      Associative(Heard(a, blocked), Heard(b', blocked),
        if blocked[SignalOf(b[|b| - 1])] == 0 then [b[|b| - 1]] else []);
    } else {
      assert a + b == a;
    }
  }

  /** With no signal blocked, every emission is recorded. */
  lemma {:induction false} HeardUnblocked<T>(es: seq<Event<T>>)
    ensures Heard(es, multiset{}) == es
  {
    if es != [] {
      HeardUnblocked(es[..|es| - 1]);
    }
  }

  /** The two emissions of one `insert(index, value)`. */
  function InsertEvents<T>(index: int, value: T): seq<Event<T>>
  {
    [Inserting(index), Inserted(index, value)]
  }

  /** The emissions of inserting `values[k]` at `start + k` for k = 0, 1, ...;
      appending to a list of length `len` is the case `start == len`. */
  function InsertLog<T>(start: int, values: seq<T>): (r: seq<Event<T>>)
    ensures |r| == 2 * |values|
  {
    if values == [] then []
    else InsertLog(start, values[..|values| - 1]) + InsertEvents(start + |values| - 1, values[|values| - 1])
  }

  /** The emissions of popping, in order, each position of `positions` out of
      `s`, when every earlier pop only shortens the list above later positions. */
  function RemovalLog<T>(s: seq<T>, positions: seq<int>): (r: seq<Event<T>>)
    requires forall k :: 0 <= k < |positions| ==> 0 <= positions[k] < |s|
    ensures |r| == 2 * |positions|
    ensures forall e :: e in r ==> e.Removing? || e.Removed?
  {
    if positions == [] then []
    else [Removing(positions[0]), Removed(positions[0], s[positions[0]])] + RemovalLog(s, positions[1..])
  }

  /** Extending by `a` and then by `b` emits what extending by `a + b` emits. */
  lemma {:induction false} InsertLogConcat<T>(start: int, a: seq<T>, b: seq<T>)
    ensures InsertLog(start, a) + InsertLog(start + |a|, b) == InsertLog(start, a + b)
    decreases |b|
  {
    if b == [] {
      assert a + b == a;
    } else {
      var b' := b[..|b| - 1];
      assert (a + b)[..|a + b| - 1] == a + b';
      InsertLogConcat(start, a, b');
    }
  }

  /** Inserting `values` emits, for each of them in turn, inserting then inserted
      at its index, and nothing else. */
  lemma {:induction false} InsertLogShape<T>(start: int, values: seq<T>)
    ensures |InsertLog(start, values)| == 2 * |values|
    ensures forall k :: 0 <= k < |values| ==>
      InsertLog(start, values)[2 * k] == Inserting(start + k) &&
      InsertLog(start, values)[2 * k + 1] == Inserted(start + k, values[k])
  {
    if values != [] {
      var v' := values[..|values| - 1];
      InsertLogShape(start, v');
      assert forall k :: 0 <= k < |v'| ==> values[k] == v'[k];
    }
  }

  /** While both insert signals are blocked, no insertion is heard. */
  lemma {:induction false} BlockedInsertsAreSilent<T>(start: int, values: seq<T>, blocked: multiset<Signal>)
    requires blocked[InsertingSignal] > 0 && blocked[InsertedSignal] > 0
    ensures Heard(InsertLog(start, values), blocked) == []
  {
    if values != [] {
      var n := |values| - 1;
      BlockedInsertsAreSilent(start, values[..n], blocked);
      HeardConcat(InsertLog(start, values[..n]), InsertEvents(start + n, values[n]), blocked);
    }
  }

  /** Popping a position that none of `positions` reaches does not change the
      items those pops report. */
  lemma {:induction false} RemovalLogSamePrefix<T>(s: seq<T>, t: seq<T>, positions: seq<int>)
    requires forall k :: 0 <= k < |positions| ==> 0 <= positions[k] < |s| && positions[k] < |t|
    requires forall k :: 0 <= k < |positions| ==> s[positions[k]] == t[positions[k]]
    ensures RemovalLog(s, positions) == RemovalLog(t, positions)
  {
    if positions != [] {
      RemovalLogSamePrefix(s, t, positions[1..]);
    }
  }
}
