/** `EventedList`: a mutable sequence wrapping a private list (`_list`, here
    `contents`) that emits a signal before and after each change. Every emission
    that gets through its signal's block depth is appended to `log`. */
module EventedLists {
  import opened PyList
  import opened ListEvents
  import opened EventedSpec

  /** A value that is not iterable, for the int-key stores of `reverse`. */
  function NotIterable<T>(x: T): Option<seq<T>>
  {
    None
  }

  class EventedList<T(==)> {
    var contents: seq<T>
    var log: seq<Event<T>>
    var blocked: multiset<Signal>

    /** `EventedList(data)`: an empty list with no signal blocked, extended by `data`. */
    constructor(data: seq<T>)
      ensures contents == data
      ensures log == InsertLog(0, data)
      ensures blocked == multiset{}
    {
      contents := [];
      log := [];
      blocked := multiset{};
      new;
      Extend(data);
      HeardUnblocked(InsertLog(0, data));
    }

    /** `signal.emit(...)`: recorded unless the signal is blocked. */
    method Emit(e: Event<T>)
      modifies this
      ensures contents == old(contents) && blocked == old(blocked)
      ensures log == old(log) + Heard([e], blocked)
    {
      if blocked[SignalOf(e)] == 0 {
        log := log + [e];
      }
    }

    /** Entering `signal.blocked()`. */
    method Block(signal: Signal)
      modifies this
      ensures contents == old(contents) && log == old(log)
      ensures blocked == old(blocked) + multiset{signal}
    {
      blocked := blocked + multiset{signal};
    }

    /** Leaving `signal.blocked()`. */
    method Unblock(signal: Signal)
      requires blocked[signal] > 0
      modifies this
      ensures contents == old(contents) && log == old(log)
      ensures blocked == old(blocked) - multiset{signal}
    {
      blocked := blocked - multiset{signal};
    }

    /** Entering `with inserting.blocked(), inserted.blocked():`. */
    method BlockInserts()
      modifies this
      ensures contents == old(contents) && log == old(log)
      ensures blocked == old(blocked) + InsertSignals()
    {
      Block(InsertingSignal);
      Block(InsertedSignal);
    }

    /** Leaving `with inserting.blocked(), inserted.blocked():`, inner scope first. */
    method UnblockInserts()
      requires InsertSignals() <= blocked
      modifies this
      ensures contents == old(contents) && log == old(log)
      ensures blocked == old(blocked) - InsertSignals()
    {
      Unblock(InsertedSignal);
      Unblock(InsertingSignal);
    }

    /** `insert(index, value)`: inserting(index), the list insert (which clamps
        the index), then inserted(index, value) with the raw index. */
    method Insert(index: int, value: T)
      modifies this
      ensures contents == ListInsert(old(contents), index, value)
      ensures log == old(log) + Heard(InsertEvents(index, value), blocked)
      ensures blocked == old(blocked)
    {
      Emit(Inserting(index));
      contents := ListInsert(contents, index, value);
      Emit(Inserted(index, value));
      HeardConcat([Inserting(index)], [Inserted(index, value)], blocked);
      assert [Inserting(index)] + [Inserted(index, value)] == InsertEvents(index, value);
    }

    /** `MutableSequence.append(value)`: `insert(len(self), value)`. */
    method Append(value: T)
      modifies this
      ensures contents == old(contents) + [value]
      ensures log == old(log) + Heard(InsertEvents(|old(contents)|, value), blocked)
      ensures blocked == old(blocked)
    {
      Insert(|contents|, value);
    }

    /** `MutableSequence.extend(values)`: append each value in turn. `values` is
        the sequence iterated, taken before the first append (as the mixin does
        with `list(values)` when `values` is the list itself). */
    method Extend(values: seq<T>)
      modifies this
      ensures contents == old(contents) + values
      ensures log == old(log) + Heard(InsertLog(|old(contents)|, values), blocked)
      ensures blocked == old(blocked)
    {
      ghost var start := |contents|;
      var k := 0;
      while k < |values|
        invariant 0 <= k <= |values|
        invariant blocked == old(blocked)
        invariant contents == old(contents) + values[..k]
        invariant log == old(log) + Heard(InsertLog(start, values[..k]), blocked)
      {
        Append(values[k]);
        AppendStep(old(contents), values, k);
        InsertLogStep(old(log), start, values, k, blocked);
        k := k + 1;
      }
      assert values[..k] == values;
    }

    /** `self[key]`: the item at an int key (counted from the end when negative),
        a new list of the slice's items for a slice key; IndexError, ValueError
        for a zero step, TypeError for any other key. */
    function GetItem(key: Index): (r: Result<Payload<T>>)
      reads this
      ensures key.IntIndex? && -|contents| <= key.i < |contents| ==>
        r == Ok(One(contents[Normalize(key.i, |contents|)]))
      ensures key.IntIndex? && !(-|contents| <= key.i < |contents|) ==> r == Err(IndexError)
      ensures key.SliceIndex? && key.slice.step != Some(0) ==>
        r == Ok(Many(Select(contents, SliceRange(Indices(key.slice, |contents|).value))))
      ensures key.SliceIndex? && key.slice.step == Some(0) ==> r == Err(ValueError)
      ensures key.OtherIndex? ==> r == Err(TypeError)
    {
      Subscript(contents, key)
    }

    /** `del self[key]`: pop the positions of `_delitem_indices(key)` from the
        highest down, emitting removing before and removed after each pop. */
    method DelItem(key: Index) returns (outcome: Outcome)
      modifies this
      ensures var st := DelItemSpec(old(contents), key, old(blocked));
        contents == st.items && log == old(log) + st.events && outcome == st.outcome
      ensures blocked == old(blocked)
    {
      var indices := DelItemIndices(key, |contents|);
      if indices.Err? {
        return Failed(indices.error);
      }
      outcome := PopEach(Descending(indices.value));
    }

    /** The loop of `__delitem__`: for each position in turn, emit removing, pop
        the item (an IndexError ends the loop), emit removed with the popped item. */
    method PopEach(order: seq<int>) returns (outcome: Outcome)
      modifies this
      ensures var st := PopRun(old(contents), order, old(blocked));
        contents == st.items && log == old(log) + st.events && outcome == st.outcome
      ensures blocked == old(blocked)
    {
      ghost var done: seq<Event<T>> := [];
      var todo := order;
      outcome := Done;
      while todo != [] && outcome == Done
        invariant blocked == old(blocked)
        invariant log == old(log) + done
        invariant outcome == Done ==>
          PopRun(old(contents), order, blocked) == Resume(done, PopRun(contents, todo, blocked))
        invariant outcome != Done ==>
          PopRun(old(contents), order, blocked) == Step(contents, done, outcome)
      {
        ghost var before := contents;
        ghost var logBefore := log;
        outcome := PopStep(todo[0]);
        ghost var first := PopOnce(before, todo[0], blocked);
        Associative(old(log), done, first.events);
        if outcome == Done {
          ResumeTwice(done, first.events, PopRun(contents, todo[1..], blocked));
        }
        done := done + first.events;
        todo := todo[1..];
      }
      EmptyRight(done);
    }

    /** One pass of the loop of `__delitem__`. */
    method PopStep(i: int) returns (outcome: Outcome)
      modifies this
      ensures var st := PopOnce(old(contents), i, old(blocked));
        contents == st.items && log == old(log) + st.events && outcome == st.outcome
      ensures blocked == old(blocked)
    {
      Emit(Removing(i));
      match ListPop(contents, i)
      case Err(e) =>
        outcome := Failed(e);
      case Ok((item, rest)) =>
        contents := rest;
        Emit(Removed(i, item));
        outcome := Done;
    }

    /** `MutableSequence.pop(index)`: read `self[index]` (IndexError before any
        change or emission), then `del self[index]`, and return the item read. */
    method Pop(index: int) returns (outcome: Outcome, item: Option<T>)
      modifies this
      ensures blocked == old(blocked)
      ensures ListGet(old(contents), index).Err? ==>
        contents == old(contents) && log == old(log) && outcome == Failed(IndexError) && item == None
      ensures ListGet(old(contents), index).Ok? ==>
        var st := DelItemSpec(old(contents), IntIndex(index), old(blocked));
        && item == Some(ListGet(old(contents), index).value)
        && contents == st.items && log == old(log) + st.events && outcome == st.outcome
    {
      match ListGet(contents, index)
      case Err(e) =>
        outcome, item := Failed(e), None;
      case Ok(v) =>
        outcome := DelItem(IntIndex(index));
        item := Some(v);
    }

    /** `MutableSequence.index(value)`: the first position whose item is `value`
        or equal to it by `eq`, or ValueError. */
    method Index(value: T, eq: (T, T) -> bool) returns (r: Result<nat>)
      ensures FirstMatch(contents, value, eq).Some? ==> r == Ok(FirstMatch(contents, value, eq).value)
      ensures FirstMatch(contents, value, eq).None? ==> r == Err(ValueError)
    {
      var i := 0;
      while i < |contents|
        invariant 0 <= i <= |contents|
        invariant forall k :: 0 <= k < i ==> !Matches(contents[k], value, eq)
      {
        var v := contents[i];
        if v == value || eq(v, value) {
          return Ok(i);
        }
        i := i + 1;
      }
      return Err(ValueError);
    }

    /** `MutableSequence.remove(value)`: `del self[self.index(value)]`. */
    method Remove(value: T, eq: (T, T) -> bool) returns (outcome: Outcome)
      modifies this
      ensures blocked == old(blocked)
      ensures FirstMatch(old(contents), value, eq).None? ==>
        contents == old(contents) && log == old(log) && outcome == Failed(ValueError)
      ensures FirstMatch(old(contents), value, eq).Some? ==>
        var i := FirstMatch(old(contents), value, eq).value;
        && contents == old(contents)[..i] + old(contents)[i + 1..]
        && log == old(log) + Heard([Removing(i), Removed(i, old(contents)[i])], blocked)
        && outcome == Done
    {
      var index := Index(value, eq);
      match index
      case Err(e) =>
        outcome := Failed(e);
      case Ok(i) =>
        DelIntIndex(contents, i, blocked);
        outcome := DelItem(IntIndex(i));
    }

    /** `MutableSequence.clear()`: `pop()` until it raises IndexError. */
    method Clear()
      modifies this
      ensures contents == []
      ensures log == old(log) + Heard(TailRemovalLog(old(contents)), blocked)
      ensures blocked == old(blocked)
    {
      var outcome := Done;
      while outcome == Done
        invariant blocked == old(blocked)
        invariant outcome != Done ==> contents == []
        invariant old(log) + Heard(TailRemovalLog(old(contents)), blocked) ==
          log + Heard(TailRemovalLog(contents), blocked)
        decreases |contents| + (if outcome == Done then 1 else 0)
      {
        var item;
        if contents != [] {
          PopLastStep(contents, log, blocked);
        }
        outcome, item := Pop(-1);
      }
    }

    /** `reverse()`: the list is reversed in place and reordered is emitted. With
        `individual` (`emit_individual_events=True`) the reversal is the mixin's
        swap loop, `self[i], self[n-1-i] = self[n-1-i], self[i]`, whose stores
        emit changed. */
    method Reverse(individual: bool)
      modifies this
      ensures contents == Reversed(old(contents))
      ensures log == old(log) +
        (if individual then Heard(SwapLog(old(contents), |old(contents)| / 2), blocked) else []) +
        Heard([Reordered], blocked)
      ensures blocked == old(blocked)
    {
      if individual {
        SwapAll();
      } else {
        contents := Reversed(contents);
      }
      Emit(Reordered);
    }

    /** The swap loop of `MutableSequence.reverse`. */
    method SwapAll()
      modifies this
      ensures contents == Reversed(old(contents))
      ensures log == old(log) + Heard(SwapLog(old(contents), |old(contents)| / 2), blocked)
      ensures blocked == old(blocked)
    {
      ghost var s0 := contents;
      var n := |contents|;
      var i := 0;
      while i < n / 2
        invariant 0 <= i <= n / 2 && n == |s0|
        invariant blocked == old(blocked)
        invariant contents == SwapRun(s0, i)
        invariant log == old(log) + Heard(SwapLog(s0, i), blocked)
      {
        SwapRunSeesOriginal(s0, i);
        SwapPair(i);
        SwapLogAppend(old(log), s0, i, blocked);
        i := i + 1;
      }
      SwapRunReverses(s0);
    }

    /** Swap `i` of `MutableSequence.reverse`,
        `self[i], self[n-1-i] = self[n-1-i], self[i]`, for `i` below half the length. */
    method SwapPair(i: nat)
      requires i < |contents| / 2
      modifies this
      ensures contents == Swapped(old(contents), i)
      ensures log == old(log) + Heard(SwapEvents(old(contents), i), blocked)
      ensures blocked == old(blocked)
    {
      var j := |contents| - 1 - i;
      var a, b := contents[j], contents[i];
      SetIntIndex(contents, i, a, NotIterable, blocked);
      var _ := SetItem(IntIndex(i), a, NotIterable);
      ghost var logMiddle := log;
      SetIntIndex(contents, j, b, NotIterable, blocked);
      var _ := SetItem(IntIndex(j), b, NotIterable);
      if a == b {
        EmptyRight(old(log));
        EmptyRight(logMiddle);
      } else {
        var c1 := Changed(IntIndex(i), One(b), One(a));
        var c2 := Changed(IntIndex(j), One(a), One(b));
        HeardConcat([c1], [c2], blocked);
        assert [c1] + [c2] == [c1, c2];
        Associative(old(log), Heard([c1], blocked), Heard([c2], blocked));
      }
    }

    /** `self[key] = value`. `iter(value)` is what iterating over `value` yields,
        or None when it is not iterable. */
    method SetItem(key: Index, value: T, iter: T -> Option<seq<T>>) returns (outcome: Outcome)
      modifies this
      ensures var st := SetItemSpec(old(contents), key, value, iter, old(blocked));
        contents == st.items && log == old(log) + st.events && outcome == st.outcome
      ensures blocked == old(blocked)
    {
      var read := Subscript(contents, key);
      if read.Err? {
        return Failed(read.error);
      }
      var old_ := read.value;
      if old_ == One(value) {
        return Done;
      }
      var new_;
      ghost var pending: seq<Event<T>> := [];
      if key.SliceIndex? {
        var sl := key.slice;
        if iter(value).None? {
          return Failed(TypeError);
        }
        var values := iter(value).value;
        if sl.step.Some? {
          var positions := SliceRange(Indices(sl, |contents|).value);
          if |values| != |positions| {
            return Failed(ValueError);
          }
          SliceRangeInList(sl, |contents|);
          StoreEach(positions, values);
        } else {
          pending := AssignPlain(key, values);
        }
        new_ := Many(values);
      } else {
        contents := contents[Normalize(key.i, |contents|) := value];
        new_ := One(value);
      }
      ghost var changed := Heard([Changed(key, old_, new_)], blocked);
      Emit(Changed(key, old_, new_));
      Associative(old(log), pending, changed);
      outcome := Done;
    }

    /** The plain-slice branch of `__setitem__` up to the changed emission:
        `del self[key]`, then the inserts with inserting and inserted blocked. */
    method AssignPlain(key: Index, values: seq<T>) returns (ghost recorded: seq<Event<T>>)
      requires key.SliceIndex?
      modifies this
      ensures var deleted := DelItemSpec(old(contents), key, old(blocked));
        var start := key.slice.start.GetOr(0);
        && contents == InsertRun(deleted.items, start, values)
        && recorded == deleted.events + Heard(InsertLog(start, values), old(blocked) + InsertSignals())
      ensures log == old(log) + recorded
      ensures blocked == old(blocked)
    {
      ghost var deleted := DelItemSpec(contents, key, blocked);
      var _ := DelItem(key);
      var start := key.slice.start.GetOr(0);
      InsertEach(start, values);
      recorded := deleted.events + Heard(InsertLog(start, values), blocked + InsertSignals());
      Associative(old(log), deleted.events, Heard(InsertLog(start, values), blocked + InsertSignals()));
    }

    /** The extended-slice loop of `__setitem__`: store `values[k]` at
        `positions[k]` in turn, with inserting and inserted blocked. */
    method StoreEach(positions: seq<int>, values: seq<T>)
      requires |positions| == |values|
      requires forall k :: 0 <= k < |positions| ==> 0 <= positions[k] < |contents|
      modifies this
      ensures contents == StoreRun(old(contents), positions, values)
      ensures log == old(log) && blocked == old(blocked)
    {
      var k := 0;
      while k < |positions|
        invariant 0 <= k <= |positions|
        invariant blocked == old(blocked) && log == old(log)
        invariant contents == StoreRun(old(contents), positions[..k], values[..k])
      {
        BlockInserts();
        StoreRunStep(old(contents), positions, values, k);
        contents := contents[positions[k] := values[k]];
        UnblockInserts();
        k := k + 1;
      }
      assert positions[..k] == positions && values[..k] == values;
    }

    /** The plain-slice loop of `__setitem__`: `insert(start + k, values[k])` in
        turn, with inserting and inserted blocked. */
    method InsertEach(start: int, values: seq<T>)
      modifies this
      ensures contents == InsertRun(old(contents), start, values)
      ensures log == old(log) + Heard(InsertLog(start, values), blocked + InsertSignals())
      ensures blocked == old(blocked)
    {
      BlockInsertsRoundTrip(blocked);
      var k := 0;
      while k < |values|
        invariant 0 <= k <= |values|
        invariant blocked == old(blocked)
        invariant contents == InsertRun(old(contents), start, values[..k])
        invariant log == old(log) + Heard(InsertLog(start, values[..k]), blocked + InsertSignals())
      {
        BlockInserts();
        Insert(start + k, values[k]);
        UnblockInserts();
        InsertRunStep(old(contents), start, values, k);
        InsertLogStep(old(log), start, values, k, blocked + InsertSignals());
        k := k + 1;
      }
      assert values[..k] == values;
    }

    /** `copy()`: a new EventedList built from this one's items; this list is
        not touched. */
    method Copy() returns (c: EventedList<T>)
      ensures fresh(c)
      ensures c.contents == contents && c.log == InsertLog(0, contents) && c.blocked == multiset{}
    {
      c := new EventedList(contents);
    }

    /** `self + other`: a copy extended by `other`; this list is not touched. */
    method Add(other: seq<T>) returns (c: EventedList<T>)
      ensures fresh(c)
      ensures c.contents == contents + other
      ensures c.log == InsertLog(0, contents + other) && c.blocked == multiset{}
    {
      c := Copy();
      c.Extend(other);
      HeardUnblocked(InsertLog(|contents|, other));
      InsertLogConcat(0, contents, other);
    }

    /** `self += other`: this list extended in place, and returned. */
    method IAdd(other: seq<T>) returns (r: EventedList<T>)
      modifies this
      ensures r == this
      ensures contents == old(contents) + other
      ensures log == old(log) + Heard(InsertLog(|old(contents)|, other), blocked)
      ensures blocked == old(blocked)
    {
      Extend(other);
      r := this;
    }

    /** `other + self` for a built-in list `other`: a plain list, `other`'s items
        followed by this list's. */
    function RAdd(other: seq<T>): (r: seq<T>)
      reads this
      ensures |r| == |other| + |contents|
      ensures r[..|other|] == other && r[|other|..] == contents
    {
      other + contents
    }

    /** `len(self)`: the length of the wrapped list. */
    function Len(): (n: nat)
      reads this
      ensures n == |contents|
    {
      |contents|
    }

    /** `self == other`, which is `self._list == other`: a built-in list compares
        item by item; another EventedList answers through its own `__eq__`, with
        its items on the left; anything else is unequal. */
    function Equals(other: Comparand<T>, eq: (T, T) -> bool): (r: bool)
      reads this
      ensures r ==> !other.NotAList? && |other.items| == |contents|
      ensures !other.NotAList? && other.items == contents ==> r
      ensures other.PlainList? ==> (r <==> (|other.items| == |contents| &&
        forall k :: 0 <= k < |contents| ==> contents[k] == other.items[k] || eq(contents[k], other.items[k])))
      ensures other.OtherEvented? ==> (r <==> (|other.items| == |contents| &&
        forall k :: 0 <= k < |contents| ==> other.items[k] == contents[k] || eq(other.items[k], contents[k])))
    {
      match other
      case PlainList(items) =>
        SameItemsReflexive(contents, eq);
        SameItems(contents, items, eq)
      case OtherEvented(items) =>
        SameItemsReflexive(contents, eq);
        SameItems(items, contents, eq)
      case NotAList => false
    }
  }

  /** Resuming twice is resuming once with both records. */
  lemma {:induction false} ResumeTwice<T>(done: seq<Event<T>>, more: seq<Event<T>>, rest: Step<T>)
    ensures Resume(done, Resume(more, rest)) == Resume(done + more, rest)
  {
    Associative(done, more, rest.events);
  }

  /** One more store of the extended-slice loop. */
  lemma {:induction false} StoreRunStep<T>(s: seq<T>, positions: seq<int>, values: seq<T>, k: nat)
    requires |positions| == |values| && k < |positions|
    requires forall m :: 0 <= m < |positions| ==> 0 <= positions[m] < |s|
    ensures StoreRun(s, positions[..k + 1], values[..k + 1]) ==
      StoreRun(s, positions[..k], values[..k])[positions[k] := values[k]]
  {
    assert positions[..k + 1][..k] == positions[..k] && values[..k + 1][..k] == values[..k];
  }

  /** One more insert of the plain-slice loop. */
  lemma {:induction false} InsertRunStep<T>(s: seq<T>, start: int, values: seq<T>, k: nat)
    requires k < |values|
    ensures InsertRun(s, start, values[..k + 1]) == ListInsert(InsertRun(s, start, values[..k]), start + k, values[k])
  {
    assert values[..k + 1][..k] == values[..k];
  }

  /** One more append of `extend`. */
  lemma {:induction false} AppendStep<T>(base: seq<T>, values: seq<T>, k: nat)
    requires k < |values|
    ensures base + values[..k] + [values[k]] == base + values[..k + 1]
  {
    assert values[..k + 1] == values[..k] + [values[k]];
    Associative(base, values[..k], [values[k]]);
  }

  /** The log after one more insert of a loop that inserts `values[k]` at
      `start + k` in turn. */
  lemma {:induction false} InsertLogStep<T>(log0: seq<Event<T>>, start: int, values: seq<T>, k: nat,
                                            blocked: multiset<Signal>)
    requires k < |values|
    ensures log0 + Heard(InsertLog(start, values[..k]), blocked) + Heard(InsertEvents(start + k, values[k]), blocked) ==
      log0 + Heard(InsertLog(start, values[..k + 1]), blocked)
  {
    assert values[..k + 1][..k] == values[..k];
    HeardConcat(InsertLog(start, values[..k]), InsertEvents(start + k, values[k]), blocked);
    Associative(log0, Heard(InsertLog(start, values[..k]), blocked), Heard(InsertEvents(start + k, values[k]), blocked));
  }

  /** Blocking both insert signals and unblocking them again restores the depths. */
  lemma {:induction false} BlockInsertsRoundTrip(blocked: multiset<Signal>)
    ensures InsertSignals() <= blocked + InsertSignals()
    ensures blocked + InsertSignals() - InsertSignals() == blocked
  {
  }

  /** One `pop()` of `clear` on a non-empty list, in the terms of its loop
      invariant: it removes the last item and records the first two entries of
      the tail removal log. */
  lemma {:induction false} PopLastStep<T>(s: seq<T>, log0: seq<Event<T>>, blocked: multiset<Signal>)
    requires s != []
    ensures var n := |s| - 1; var st := DelItemSpec(s, IntIndex(-1), blocked);
      && ListGet(s, -1).Ok?
      && st.items == s[..n] && st.outcome == Done
      && log0 + st.events + Heard(TailRemovalLog(st.items), blocked) == log0 + Heard(TailRemovalLog(s), blocked)
  {
    var n := |s| - 1;
    DelIntIndex(s, -1, blocked);
    assert s[..n] + s[n + 1..] == s[..n];
    var st := DelItemSpec(s, IntIndex(-1), blocked);
    HeardConcat([Removing(n), Removed(n, s[n])], TailRemovalLog(s[..n]), blocked);
    Associative(log0, st.events, Heard(TailRemovalLog(s[..n]), blocked));
  }

  /** The log after one more swap, written as SwapLog's next entry. */
  lemma {:induction false} SwapLogAppend<T>(log0: seq<Event<T>>, s: seq<T>, i: nat, blocked: multiset<Signal>)
    requires i < |s| / 2
    ensures log0 + Heard(SwapLog(s, i), blocked) + Heard(SwapEvents(s, i), blocked) ==
      log0 + Heard(SwapLog(s, i + 1), blocked)
  {
    HeardConcat(SwapLog(s, i), SwapEvents(s, i), blocked);
    Associative(log0, Heard(SwapLog(s, i), blocked), Heard(SwapEvents(s, i), blocked));
  }

}
