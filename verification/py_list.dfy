/** The parts of Python's built-in `list` and `slice` that EventedList relies on:
    `slice.indices(len)`, `range(start, stop, step)`, subscripting with an int,
    `list.insert`, `list.pop`, `list.reverse`, and removing a set of positions. */
module PyList {

  datatype Option<T> = None | Some(value: T)
  {
    /** `x or default` for an optional int, as in `key.start or 0`. */
    function GetOr(default: T): T
    {
      if Some? then value else default
    }
  }

  /** The Python exceptions the list operations raise. */
  datatype Error = IndexError | ValueError | TypeError

  datatype Result<T> = Ok(value: T) | Err(error: Error)

  /** A Python `slice(start, stop, step)` object; each part may be None. */
  datatype Slice = Slice(start: Option<int>, stop: Option<int>, step: Option<int>)

  /** The key of a subscript: an int, a slice, or an object of any other type. */
  datatype Index = IntIndex(i: int) | SliceIndex(slice: Slice) | OtherIndex

  /** The `(start, stop, step)` triple that `slice.indices(len)` returns. */
  datatype Bounds = Bounds(start: int, stop: int, step: int)

  /** A given end of a slice clipped as `slice.indices` does: a negative bound
      counts from the end, then the result is clamped to `[lower, upper]`. */
  function Clip(b: int, len: nat, lower: int, upper: int): (r: int)
    requires lower <= 0 && len - 1 <= upper && lower <= upper
    ensures lower <= r <= upper
    ensures 0 <= b <= upper ==> r == b
    ensures upper < b ==> r == upper
    ensures b < 0 && lower <= b + len ==> r == b + len
    ensures b + len < lower ==> r == lower
  {
    if b < 0 then (if b + len < lower then lower else b + len)
    else (if b > upper then upper else b)
  }

  /** `slice.indices(len)`: ValueError for a zero step. Otherwise a missing start
      is the first position in the direction of the step (0, or `len - 1` for a
      negative step), a missing stop is just past the last one (`len`, or -1), and
      a given bound is clipped into `[0, len]` for a positive step or into
      `[-1, len - 1]` for a negative one. */
  function Indices(s: Slice, len: nat): (r: Result<Bounds>)
    ensures r.Err? <==> s.step == Some(0)
    ensures r.Err? ==> r.error == ValueError
    ensures r.Ok? ==> r.value.step == s.step.GetOr(1) && r.value.step != 0
    ensures r.Ok? && r.value.step > 0 ==>
      && r.value.start == (if s.start.None? then 0 else Clip(s.start.value, len, 0, len))
      && r.value.stop == (if s.stop.None? then len else Clip(s.stop.value, len, 0, len))
    ensures r.Ok? && r.value.step < 0 ==>
      && r.value.start == (if s.start.None? then len - 1 else Clip(s.start.value, len, -1, len - 1))
      && r.value.stop == (if s.stop.None? then -1 else Clip(s.stop.value, len, -1, len - 1))
    ensures r.Ok? && r.value.step > 0 ==> 0 <= r.value.start <= len && 0 <= r.value.stop <= len
    ensures r.Ok? && r.value.step < 0 ==> -1 <= r.value.start < len && -1 <= r.value.stop < len
  {
    var step := s.step.GetOr(1);
    if step == 0 then Err(ValueError)
    else
      var lower := if step < 0 then -1 else 0;
      var upper := if step < 0 then len - 1 else len;
      var start := if s.start.None? then (if step < 0 then upper else lower) else Clip(s.start.value, len, lower, upper);
      var stop := if s.stop.None? then (if step < 0 then lower else upper) else Clip(s.stop.value, len, lower, upper);
      Ok(Bounds(start, stop, step))
  }

  /** The values of `range(start, stop, step)`, in order. */
  function Range(start: int, stop: int, step: int): (r: seq<int>)
    requires step != 0
    ensures step > 0 ==> forall k :: 0 <= k < |r| ==> start <= r[k] < stop
    ensures step < 0 ==> forall k :: 0 <= k < |r| ==> stop < r[k] <= start
    ensures |r| > 0 <==> (step > 0 && start < stop) || (step < 0 && stop < start)
    ensures |r| > 0 ==> r[0] == start
    decreases if step > 0 then stop - start else start - stop
  {
    if (step > 0 && start < stop) || (step < 0 && stop < start) then
      [start] + Range(start + step, stop, step)
    else
      []
  }

  /** One more step: `(k + 1) * step` is `k * step + step`. */
  lemma {:induction false} StepMore(k: int, step: int)
    ensures (k + 1) * step == k * step + step
  {
  }

  /** Item `k` of a range is `start + k * step`, and one more step would reach or
      pass `stop`: together with Range's bounds this fixes every range. */
  lemma {:induction false} RangeAt(start: int, stop: int, step: int)
    requires step != 0
    ensures var r := Range(start, stop, step);
      && (forall k :: 0 <= k < |r| ==> r[k] == start + k * step)
      && (step > 0 ==> stop <= start + |r| * step)
      && (step < 0 ==> start + |r| * step <= stop)
    decreases if step > 0 then stop - start else start - stop
  {
    var r := Range(start, stop, step);
    if |r| > 0 {
      var next := start + step;
      var r' := Range(next, stop, step);
      RangeAt(next, stop, step);
      assert r == [start] + r';
      forall k | 0 <= k < |r| ensures r[k] == start + k * step {
        if k > 0 {
          StepMore(k - 1, step);
          assert r[k] == r'[k - 1] == next + (k - 1) * step;
        }
      }
      StepMore(|r'|, step);
    }
  }

  /** `list.insert` adds exactly one occurrence of `x` and keeps every other item. */
  lemma {:induction false} ListInsertMultiset<T>(s: seq<T>, i: int, x: T)
    ensures multiset(ListInsert(s, i, x)) == multiset(s) + multiset{x}
  {
    var p := InsertPosition(|s|, i);
    assert s == s[..p] + s[p..];
  }

  /** Removing positions only ever drops items: what is left is a sub-multiset. */
  lemma {:induction false} RemoveIndicesMultiset<T>(s: seq<T>, gone: set<int>)
    ensures multiset(RemoveIndices(s, gone)) <= multiset(s)
  {
    if s != [] {
      RemoveIndicesMultiset(s[..|s| - 1], gone);
      assert s == s[..|s| - 1] + [s[|s| - 1]];
    }
  }

  /** A range is strictly increasing for a positive step and strictly decreasing
      for a negative one. */
  lemma {:induction false} RangeOrdered(start: int, stop: int, step: int)
    requires step != 0
    ensures var r := Range(start, stop, step);
      && (step > 0 ==> forall i, j :: 0 <= i < j < |r| ==> r[i] < r[j])
      && (step < 0 ==> forall i, j :: 0 <= i < j < |r| ==> r[i] > r[j])
    decreases if step > 0 then stop - start else start - stop
  {
    var r := Range(start, stop, step);
    if |r| > 0 {
      RangeOrdered(start + step, stop, step);
      assert r[1..] == Range(start + step, stop, step);
    }
  }

  /** The indices a slice selects in a list of length `len`: `range(*s.indices(len))`. */
  function SliceRange(b: Bounds): seq<int>
    requires b.step != 0
  {
    Range(b.start, b.stop, b.step)
  }

  /** A negative int subscript counts from the end of the list. */
  function Normalize(i: int, len: nat): (r: int)
    ensures 0 <= i ==> r == i
    ensures 0 <= i + len && i < len ==> 0 <= r < len
    ensures i + len < 0 ==> r < 0
  {
    if i < 0 then i + len else i
  }

  /** `lst[i]` for an int `i`. */
  function ListGet<T>(s: seq<T>, i: int): (r: Result<T>)
    ensures r.Ok? <==> -|s| <= i < |s|
    ensures r.Ok? ==> r.value == s[Normalize(i, |s|)]
    ensures r.Err? ==> r.error == IndexError
  {
    var j := Normalize(i, |s|);
    if 0 <= j < |s| then Ok(s[j]) else Err(IndexError)
  }

  /** The elements at the given positions, in the order of the positions. */
  function Select<T>(s: seq<T>, positions: seq<int>): (r: seq<T>)
    requires forall k :: 0 <= k < |positions| ==> 0 <= positions[k] < |s|
    ensures |r| == |positions|
    ensures forall k :: 0 <= k < |r| ==> r[k] == s[positions[k]]
  {
    seq(|positions|, k requires 0 <= k < |positions| => s[positions[k]])
  }

  /** Where `list.insert(i, x)` places `x` in a list of length `len`. */
  function InsertPosition(len: nat, i: int): (p: nat)
    ensures p <= len
  {
    if i < 0 then (if i + len < 0 then 0 else i + len)
    else if i > len then len
    else i
  }

  /** The list after `list.insert(i, x)`. */
  function ListInsert<T>(s: seq<T>, i: int, x: T): (r: seq<T>)
    ensures |r| == |s| + 1
    ensures r[InsertPosition(|s|, i)] == x
  {
    var p := InsertPosition(|s|, i);
    s[..p] + [x] + s[p..]
  }

  /** `list.pop(i)`: the removed item and the remaining list, or IndexError for an
      empty list or a position out of range (a negative position counts from the end). */
  function ListPop<T>(s: seq<T>, i: int): (r: Result<(T, seq<T>)>)
    ensures r.Ok? <==> -|s| <= i < |s|
    ensures r.Err? ==> r.error == IndexError
    ensures r.Ok? ==> var j := Normalize(i, |s|);
      r.value.0 == s[j] && r.value.1 == s[..j] + s[j + 1..]
  {
    if |s| == 0 then Err(IndexError)
    else
      var j := Normalize(i, |s|);
      if 0 <= j < |s| then Ok((s[j], s[..j] + s[j + 1..])) else Err(IndexError)
  }

  /** Concatenation is associative (stated once so that proofs need not
      rediscover it element by element). */
  lemma {:induction false} Associative<E>(a: seq<E>, b: seq<E>, c: seq<E>)
    ensures (a + b) + c == a + (b + c)
  {
  }

  lemma {:induction false} EmptyRight<E>(a: seq<E>)
    ensures a + [] == a
  {
  }

  /** `list.reverse()` on a value. */
  function Reversed<T>(s: seq<T>): (r: seq<T>)
    ensures |r| == |s|
  {
    if s == [] then [] else Reversed(s[1..]) + [s[0]]
  }

  /** The item at position `k` of the reversed list is the one `k` places from
      the end of the original. */
  lemma {:induction false} ReversedAt<T>(s: seq<T>)
    ensures forall k :: 0 <= k < |s| ==> Reversed(s)[k] == s[|s| - 1 - k]
  {
    if s != [] {
      ReversedAt(s[1..]);
    }
  }

  /** The list with every position in `gone` left out, the order of the rest kept. */
  function RemoveIndices<T>(s: seq<T>, gone: set<int>): (r: seq<T>)
    ensures |r| <= |s|
  {
    if s == [] then []
    else RemoveIndices(s[..|s| - 1], gone) + (if |s| - 1 in gone then [] else [s[|s| - 1]])
  }

  /** The set of values in a sequence of positions. */
  function Elements(positions: seq<int>): set<int>
  {
    set x | x in positions
  }

  lemma {:induction false} InsertLandsAtClampedPosition<T>(s: seq<T>, i: int, x: T)
    ensures var r := ListInsert(s, i, x);
      && |r| == |s| + 1
      && (0 <= i <= |s| ==> r[i] == x && r[..i] == s[..i] && r[i + 1..] == s[i..])
      && (i > |s| ==> r == s + [x])
      && (-|s| <= i < 0 ==> r[|s| + i] == x && r[..|s| + i] == s[..|s| + i] && r[|s| + i + 1..] == s[|s| + i..])
      && (i < -|s| ==> r == [x] + s)
  {
    var p := InsertPosition(|s|, i);
    var r := s[..p] + [x] + s[p..];
    assert r[..p] == s[..p];
    assert r[p + 1..] == s[p..];
    if i > |s| {
      assert s[p..] == [];
    }
    if i < -|s| {
      assert p == 0 && s[..p] == [];
    }
  }

  /** `range(start, stop, 1)` is the run of consecutive ints from `start` below `stop`. */
  lemma {:induction false} UnitRange(start: int, stop: int)
    ensures var r := Range(start, stop, 1);
      && |r| == (if start < stop then stop - start else 0)
      && forall k :: 0 <= k < |r| ==> r[k] == start + k
    decreases stop - start
  {
    if start < stop {
      UnitRange(start + 1, stop);
    }
  }

  /** Every index of a slice's range is a valid position in the list. */
  lemma {:induction false} SliceRangeInList(s: Slice, len: nat)
    requires Indices(s, len).Ok?
    ensures forall k :: 0 <= k < |SliceRange(Indices(s, len).value)| ==>
      0 <= SliceRange(Indices(s, len).value)[k] < len
  {
  }

  /** Slicing with a step of one is ordinary sub-sequence extraction, with the
      stop raised to the start when it lies before it. */
  lemma {:induction false} SelectUnitStep<T>(s: seq<T>, start: int, stop: int)
    requires 0 <= start <= |s| && 0 <= stop <= |s|
    ensures var hi := if stop < start then start else stop;
      Select(s, Range(start, stop, 1)) == s[start..hi]
  {
    UnitRange(start, stop);
  }

  lemma {:induction false} ReversedTwice<T>(s: seq<T>)
    ensures Reversed(Reversed(s)) == s
  {
    var r := Reversed(Reversed(s));
    ReversedAt(s);
    ReversedAt(Reversed(s));
    forall k | 0 <= k < |s| ensures r[k] == s[k] {
      assert Reversed(s)[|s| - 1 - k] == s[k];
    }
  }

  lemma {:induction false} ReversedMultiset<T>(s: seq<T>)
    ensures multiset(Reversed(s)) == multiset(s)
  {
    if s != [] {
      ReversedMultiset(s[1..]);
      assert s == [s[0]] + s[1..];
    }
  }

  /** Removing positions none of which lies in the list leaves it unchanged. */
  lemma {:induction false} RemoveNothing<T>(s: seq<T>, gone: set<int>)
    requires forall g :: g in gone ==> g < 0 || g >= |s|
    ensures RemoveIndices(s, gone) == s
  {
    if s != [] {
      RemoveNothing(s[..|s| - 1], gone);
    }
  }

  /** Appending elements at positions that are not removed keeps them. */
  lemma {:induction false} RemoveKeepsTail<T>(a: seq<T>, b: seq<T>, gone: set<int>)
    requires forall g :: g in gone ==> g < |a| || g >= |a| + |b|
    ensures RemoveIndices(a + b, gone) == RemoveIndices(a, gone) + b
    decreases |b|
  {
    if b != [] {
      var b' := b[..|b| - 1];
      assert (a + b)[..|a + b| - 1] == a + b';
      RemoveKeepsTail(a, b', gone);
    } else {
      assert a + b == a;
    }
  }

  /** Appending elements whose positions are all removed adds nothing. */
  lemma {:induction false} RemoveDropsTail<T>(a: seq<T>, b: seq<T>, gone: set<int>)
    requires forall k :: |a| <= k < |a| + |b| ==> k in gone
    ensures RemoveIndices(a + b, gone) == RemoveIndices(a, gone)
    decreases |b|
  {
    if b != [] {
      var b' := b[..|b| - 1];
      assert (a + b)[..|a + b| - 1] == a + b';
      RemoveDropsTail(a, b', gone);
    } else {
      assert a + b == a;
    }
  }

  /** Only the positions inside the list matter to RemoveIndices. */
  lemma {:induction false} RemoveSameInside<T>(s: seq<T>, g1: set<int>, g2: set<int>)
    requires forall k :: 0 <= k < |s| ==> (k in g1 <==> k in g2)
    ensures RemoveIndices(s, g1) == RemoveIndices(s, g2)
  {
    if s != [] {
      RemoveSameInside(s[..|s| - 1], g1, g2);
    }
  }

  /** Removing a contiguous run of positions cuts it out: `del lst[lo:hi]`. */
  lemma {:induction false} RemoveRun<T>(s: seq<T>, lo: int, hi: int, gone: set<int>)
    requires 0 <= lo <= hi <= |s|
    requires forall k :: k in gone <==> lo <= k < hi
    ensures RemoveIndices(s, gone) == s[..lo] + s[hi..]
  {
    assert s == s[..hi] + s[hi..];
    RemoveKeepsTail(s[..hi], s[hi..], gone);
    assert s[..hi] == s[..lo] + s[lo..hi];
    RemoveDropsTail(s[..lo], s[lo..hi], gone);
    RemoveNothing(s[..lo], gone);
  }

  /** A list is what precedes position `m`, the item there, and what follows. */
  lemma {:induction false} SplitAround<T>(s: seq<T>, m: int)
    requires 0 <= m < |s|
    ensures s == (s[..m] + [s[m]]) + s[m + 1..]
  {
  }

  /** Popping the highest removed position first: the rest of the removal can be
      done on the shortened list with the same positions. */
  lemma {:induction false} RemoveAfterPop<T>(s: seq<T>, m: int, rest: set<int>, gone: set<int>)
    requires 0 <= m < |s|
    requires forall g :: g in rest ==> g < m
    requires gone == rest + {m}
    ensures RemoveIndices(s[..m] + s[m + 1..], rest) == RemoveIndices(s, gone)
  {
    var front, back := s[..m], s[m + 1..];
    RemoveKeepsTail(front, back, rest);
    SplitAround(s, m);
    RemoveKeepsTail(front + [s[m]], back, gone);
    RemoveDropsTail(front, [s[m]], gone);
    RemoveSameInside(front, rest, gone);
  }
}
