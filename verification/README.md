# EventedList, verified

This project is a Dafny model of psygnal's `EventedList`, from
`psygnal/containers/_evented_list.py`. `EventedList` is a mutable sequence.
It wraps a private Python list (`_list`) and emits a signal of `ListEvents`
before and after every change: inserting/inserted, removing/removed, changed and
reordered. All list operations go through four primitives:

- `insert` creates;
- `__getitem__` reads;
- `__setitem__` updates, by int key, plain slice or extended slice;
- `__delitem__` deletes.

`append`, `extend`, `pop`, `remove`, `clear`, `index` and the swap loop of
`reverse` come from `collections.abc.MutableSequence`. Their writes (`insert`,
`del self[i]`, `self[i] = v`) are modelled as calls to the primitives. Their
reads of `self[i]` are modelled as reads of the wrapped list. These agree only
for items that are not Python lists, because `__getitem__` wraps a list-valued
result in a new `EventedList` (line 121). The model takes items not to be Python
lists; see "Left out" for what changes when they are.

The model has four modules:

- `PyList` holds the parts of Python's `list` and `slice` the class uses:
  - `slice.indices`, `range` and int subscripts;
  - `list.insert`, which clamps its index, and `list.pop`;
  - reversal, and removing a set of positions.
- `ListEvents` holds the eight signals and the emission records. A signal's
  `blocked()` scope is a block depth. While the depth is positive, an emission is
  dropped, not queued. `Heard(es, blocked)` is the sequence of emissions that get
  through.
- `EventedSpec` holds the pure functions for three of the primitives.
  `Subscript` gives `__getitem__` as a `Result`: the item or slice read, or the
  error. `DelItemSpec` gives `__delitem__` and `SetItemSpec` gives `__setitem__`.
  Each of these two returns a `Step`: the list afterwards, the emissions recorded,
  and whether the call ended normally or raised `IndexError`, `ValueError` or
  `TypeError`. `insert` is given by `PyList.ListInsert` and
  `ListEvents.InsertEvents`. This module also holds the lemmas that state the
  properties of the primitives.
- `EventedLists.EventedList` is the class. Its fields are `contents` (the
  `_list`), `log` (every emission that got through) and `blocked` (block depth per
  signal). Its methods change these fields step by step, as the Python methods
  do. Each method's ensures give the list and the record it ends with, in terms
  of `PyList`, `ListEvents` or `EventedSpec` functions.

Items are values of a type `T`. Dafny equality on `T` stands for Python identity
(`is`). Python's `==` on items is a parameter `eq` wherever the source uses it,
in `__eq__` and in `index`/`remove`. The `value` given to `__setitem__` comes
with a function `iter`. `iter` returns what iterating over `value` yields, or
None when `value` is not iterable.

The model reproduces these behaviours of the source as written:

- `insert` emits the index it was given, even when `list.insert` clamps it.
- A plain-slice assignment re-inserts at `key.start or 0` without normalising a
  negative start. `lst[-2:] = [1, 2]` on `[10, 20, 30, 40]` gives
  `[1, 10, 2, 20]` (lemma `PlainSliceNegativeStart`).
- `del lst[i]` with `i < -len` adds `len` once and pops at the still negative
  position. `del [10, 20, 30][-5]` removes 20 and reports position -2
  (lemma `DelFarNegativeIndex`).

## Model

| member | source | states |
|---|---|---|
| `PyList.Clip` | psygnal/containers/_evented_list.py:147 | A given bound of `slice.indices`. From 0 up to `upper`, it is kept. Above `upper`, it becomes `upper`. A negative bound counts from the end; if it is still below `lower`, it becomes `lower`. The result always lies in `[lower, upper]`. |
| `PyList.Indices` | psygnal/containers/_evented_list.py:147 | `slice.indices(len)` raises ValueError exactly for a zero step; otherwise the step is the given one or 1. A positive step clips a given bound into `[0, len]`; a missing start is 0 and a missing stop is `len`. A negative step clips into `[-1, len - 1]`; a missing start is `len - 1` and a missing stop is -1. |
| `PyList.Range` | psygnal/containers/_evented_list.py:181 | `range(start, stop, step)` is non-empty exactly when it can move from start toward stop. It begins at start and stays between start and stop. |
| `PyList.RangeAt` | psygnal/containers/_evented_list.py:181 | Item `k` of `range(start, stop, step)` is `start + k * step`, for any non-zero step. One more step would reach or pass `stop`, so the range holds every such value before `stop`. |
| `PyList.RangeOrdered` | psygnal/containers/_evented_list.py:181 | A range strictly increases for a positive step and strictly decreases for a negative one. |
| `PyList.UnitRange` | psygnal/containers/_evented_list.py:181 | `range(lo, hi)` is the consecutive ints from `lo` up to `hi - 1`. |
| `PyList.Normalize` | psygnal/containers/_evented_list.py:179 | `key if key >= 0 else key + len`: a non-negative index is kept; an index in `[-len, len)` becomes a position inside the list; an index below `-len` stays negative. |
| `PyList.ListGet` | psygnal/containers/_evented_list.py:133 | `lst[i]` succeeds exactly when `-len <= i < len`, and returns the item `i` places from the front (or `-i` from the end). Otherwise it raises IndexError. |
| `PyList.Select` | psygnal/containers/_evented_list.py:120 | `lst[slice]` holds the items at the slice's positions, in order. |
| `PyList.SelectUnitStep` | psygnal/containers/_evented_list.py:133 | The old value of a plain slice is the contiguous run `s[lo:hi]`. |
| `PyList.SliceRangeInList` | psygnal/containers/_evented_list.py:153-155 | Every position of a slice lies inside the list. |
| `PyList.InsertPosition` | psygnal/containers/_evented_list.py:108 | `list.insert` places the item at a position between 0 and the length. |
| `PyList.ListInsert` | psygnal/containers/_evented_list.py:108 | `list.insert(i, x)` is one longer and holds `x` at the clamped position of `i`. |
| `PyList.ListInsertMultiset` | psygnal/containers/_evented_list.py:108 | `list.insert` adds exactly one occurrence of `x` and keeps every other item. |
| `PyList.InsertLandsAtClampedPosition` | psygnal/containers/_evented_list.py:108 | `list.insert(i, x)` grows the list by one. For `0 <= i <= len`, `x` lands at `i` with everything before and after it in order. For `-len <= i < 0`, the same holds at `len + i`. Past the end it appends; below `-len` it prepends. |
| `PyList.ListPop` | psygnal/containers/_evented_list.py:173 | `list.pop(i)` succeeds exactly when `-len <= i < len`. It returns the item at the normalised position and the list without it. Otherwise it raises IndexError. |
| `PyList.ReversedAt` | psygnal/containers/_evented_list.py:239 | `list.reverse()` puts at position `k` the item that was `k` places from the end. |
| `PyList.Reversed` | psygnal/containers/_evented_list.py:239 | `list.reverse()` keeps the length. |
| `PyList.ReversedTwice` | psygnal/containers/_evented_list.py:239 | Reversing twice gives back the list. |
| `PyList.ReversedMultiset` | psygnal/containers/_evented_list.py:239 | Reversing keeps the same items (a permutation). |
| `PyList.RemoveNothing` | psygnal/containers/_evented_list.py:170-174 | Removing no position inside the list leaves it unchanged. |
| `PyList.RemoveIndices` | psygnal/containers/_evented_list.py:170-174 | Removing a set of positions never lengthens the list. |
| `PyList.RemoveIndicesMultiset` | psygnal/containers/_evented_list.py:170-174 | Removing positions only drops items: what is left is a sub-multiset of the list. |
| `PyList.RemoveRun` | psygnal/containers/_evented_list.py:157 | Removing the positions `lo..hi-1` cuts out `s[lo:hi]`. |
| `PyList.RemoveAfterPop` | psygnal/containers/_evented_list.py:170-174 | After popping the highest position, removing the lower ones from the shorter list gives what removing all of them from the original gives. |
| `ListEvents.Heard` | psygnal/containers/_evented_list.py:154-161 | The emissions that get through the blocked signals are never more than those emitted. |
| `ListEvents.HeardMembers` | psygnal/containers/_evented_list.py:154-161 | An emission is recorded exactly when it was emitted on a signal whose block depth is zero. |
| `ListEvents.HeardConcat` | psygnal/containers/_evented_list.py:170-174 | Filtering by block depth distributes over a sequence of emissions: recording two runs is recording their concatenation. |
| `ListEvents.HeardUnblocked` | psygnal/containers/_evented_list.py:91-95 | With no signal blocked, every emission is recorded. |
| `ListEvents.HeardNoInserts` | psygnal/containers/_evented_list.py:159-161 | Filtering adds no inserting or inserted emission. |
| `ListEvents.InsertLog` | psygnal/containers/_evented_list.py:159-161 | Inserting `values` one by one emits two emissions per value. |
| `ListEvents.InsertLogShape` | psygnal/containers/_evented_list.py:104-109 | Inserting `values` at `start, start + 1, ...` emits, for each value in turn, inserting then inserted at its index with that value, and nothing else. |
| `ListEvents.InsertLogConcat` | psygnal/containers/_evented_list.py:202-206 | Extending by `a` and then by `b` emits what extending by `a + b` emits. |
| `ListEvents.BlockedInsertsAreSilent` | psygnal/containers/_evented_list.py:159-161 | While both insert signals are blocked, no insert is recorded. |
| `ListEvents.RemovalLog` | psygnal/containers/_evented_list.py:171-174 | Each pop emits exactly a removing and a removed: two emissions per position, all of them removals. |
| `ListEvents.RemovalLogSamePrefix` | psygnal/containers/_evented_list.py:174 | A pop reports the same item on two lists that agree at the popped positions. |
| `EventedSpec.Subscript` | psygnal/containers/_evented_list.py:119-121 | `self._list[key]`: an int key succeeds exactly in range, else IndexError. A slice key succeeds exactly for a non-zero step, else ValueError. Any other key raises TypeError. |
| `EventedSpec.DelItemIndices` | psygnal/containers/_evented_list.py:176-185 | `_delitem_indices`: an int key gives its single position, with `len` added when negative. A slice key gives exactly `range(*key.indices(len))`, all inside the list. Any other key raises TypeError. |
| `EventedSpec.Descending` | psygnal/containers/_evented_list.py:170 | `sorted(positions, reverse=True)` has as many positions as it was given. |
| `EventedSpec.DescendingPermutes` | psygnal/containers/_evented_list.py:170 | Sorting the positions keeps each of them, as often as before. |
| `EventedSpec.PopOnce` | psygnal/containers/_evented_list.py:171-174 | One pass of the delete loop ends normally exactly when the position is inside the list, and then the list is one shorter. Otherwise the pop raises IndexError and the list is unchanged. |
| `EventedSpec.PopRun` | psygnal/containers/_evented_list.py:170-174 | The delete loop, when it ends normally, has removed one item per position. The only way it fails is an IndexError from a pop. |
| `EventedSpec.DelItemSpec` | psygnal/containers/_evented_list.py:167-185 | `del self[key]`. Another key type raises TypeError, and a zero-step slice raises ValueError; either way nothing changes and nothing is emitted. A delete that ends normally removes one item per position `_delitem_indices` gave. A failed int-key delete raises IndexError and leaves the list unchanged. |
| `EventedSpec.Matches` | psygnal/containers/_evented_list.py:102 | The test of `index`: an item matches `value` exactly when it is the very same object or `==` to it. |
| `EventedSpec.FirstMatch` | psygnal/containers/_evented_list.py:102 | What `index(value)` finds: the first position whose item is `value` or `==` to it, with no match before it; None exactly when no item matches. |
| `EventedSpec.TailRemovalLog` | psygnal/containers/_evented_list.py:99 | `clear()` emits two emissions per item. |
| `EventedSpec.DescendingMonotone` | psygnal/containers/_evented_list.py:170 | For the monotone position lists `_delitem_indices` yields, the `sorted(..., reverse=True)` order is strictly descending and a permutation with the same positions. |
| `EventedSpec.SliceRangeMonotone` | psygnal/containers/_evented_list.py:181 | A slice's positions strictly increase or strictly decrease, by the sign of the step. |
| `EventedSpec.SlicePositionsDistinct` | psygnal/containers/_evented_list.py:147 | A slice never names the same position twice. |
| `EventedSpec.SliceDeletionOrder` | psygnal/containers/_evented_list.py:170 | `del self[slice]` visits the slice's positions from the highest down: a strictly descending permutation of them, all inside the list. |
| `EventedSpec.PopRunDescending` | psygnal/containers/_evented_list.py:170-174 | Popping strictly descending positions inside the list removes exactly those positions and keeps the order of the rest. For each position it records removing then removed with the item that was there in the original list. |
| `EventedSpec.PopRunFirst` | psygnal/containers/_evented_list.py:171-174 | One pass of the delete loop: removing, the pop, then removed with the popped item. |
| `EventedSpec.PopHighestStep` | psygnal/containers/_evented_list.py:170-174 | The delete loop is the pop of the highest position followed by the loop over the lower ones on the shortened list. |
| `EventedSpec.PopHighestItems` | psygnal/containers/_evented_list.py:173 | Popping the highest position first does not move the lower positions. |
| `EventedSpec.PopHighestEvents` | psygnal/containers/_evented_list.py:174 | After the highest pop, the lower pops report the items they held in the original list. |
| `EventedSpec.DelSlice` | psygnal/containers/_evented_list.py:167-174 | `del self[slice]` for a non-zero step removes exactly the slice's positions. It records removing/removed for each, from the highest position down, with the original items. It ends normally. |
| `EventedSpec.PlainSlicePositions` | psygnal/containers/_evented_list.py:157 | Deleting a plain slice visits `hi - 1` down to `lo`, inside the list. |
| `EventedSpec.CountdownElements` | psygnal/containers/_evented_list.py:170 | The countdown from `hi - 1` to `lo` holds exactly the positions `lo..hi-1`. |
| `EventedSpec.DelCountdown` | psygnal/containers/_evented_list.py:170-174 | Deleting from `hi - 1` down to `lo` cuts out `s[lo:hi]` and records the removals in that order. |
| `EventedSpec.DelPlainSlice` | psygnal/containers/_evented_list.py:157 | `del self[lo:stop]` cuts out `s[lo:hi]` (stop raised to `lo` when below it) and records the removals from `hi - 1` down. |
| `EventedSpec.DelIntIndex` | psygnal/containers/_evented_list.py:167-179 | `del self[i]` for an int. The position is `i`, or `i + len` when `i` is negative. In range, it removes that item and records removing/removed. A still-negative position from `-len` up is popped counting from the end. Out of range, removing is recorded, then the pop raises IndexError and the list is unchanged. |
| `EventedSpec.DelItemRejects` | psygnal/containers/_evented_list.py:176-185 | A key that is not an int or a slice raises TypeError, and a zero-step slice raises ValueError. Either way nothing is emitted or removed. |
| `EventedSpec.DelFarNegativeIndex` | psygnal/containers/_evented_list.py:179 | `del [10, 20, 30][-5]` removes 20 and reports position -2. |
| `EventedSpec.StoreRun` | psygnal/containers/_evented_list.py:153-155 | Storing at positions inside the list keeps its length. |
| `EventedSpec.InsertRun` | psygnal/containers/_evented_list.py:159-161 | Inserting `values` one by one lengthens the list by their number. |
| `EventedSpec.SetItemSpec` | psygnal/containers/_evented_list.py:131-165 | `self[key] = value`. A call that raises leaves the list unchanged and emits nothing. Another key type raises TypeError. Only a plain slice can change the length. |
| `EventedSpec.StoreRunOverwrites` | psygnal/containers/_evented_list.py:153-155 | Stores at distinct positions put each value at its position and leave every other position unchanged. |
| `EventedSpec.InsertRunContiguous` | psygnal/containers/_evented_list.py:158-161 | Inserting values one by one at consecutive indices from a non-negative start places them as one block at that start, or at the end when the start is past it. |
| `EventedSpec.DescendingUnitRange` | psygnal/containers/_evented_list.py:170 | `sorted(range(lo, hi), reverse=True)` is `range(hi - 1, lo - 1, -1)`. |
| `EventedSpec.UnitRangeDown` | psygnal/containers/_evented_list.py:170 | `range(top, bottom, -1)` counts down one at a time. |
| `EventedSpec.ExtendedSliceAssign` | psygnal/containers/_evented_list.py:146-155 | Assigning to a slice with a step: a length mismatch raises ValueError and changes and emits nothing. Otherwise the length is kept, exactly the slice's positions get the new values, every other position is unchanged, and the only emission is one changed with the old items. |
| `EventedSpec.PlainSliceAnyStart` | psygnal/containers/_evented_list.py:156-165 | Assigning to a plain slice, whatever its start. `s[lo:hi]` is cut out and the values are inserted one by one from `key.start or 0`. The record is the removals from `hi - 1` down, then one changed carrying `s[lo:hi]` and the values. No insert is recorded. |
| `EventedSpec.RefillRun` | psygnal/containers/_evented_list.py:158-161 | Re-inserting at a start that is absent or not negative puts the new items where the deleted run was. |
| `EventedSpec.PlainSliceAssign` | psygnal/containers/_evented_list.py:156-165 | Assigning to a plain slice whose start is absent or not negative gives `s[:lo] + values + s[hi:]`. The record is the removals of the slice from the top position down, then one changed carrying `s[lo:hi]` and the new values. No insert is recorded. |
| `EventedSpec.PlainSliceInsertsSilent` | psygnal/containers/_evented_list.py:159-161 | Assigning to such a plain slice records no inserting or inserted, whatever signals were blocked. |
| `EventedSpec.RemovalsThenChangedHeard` | psygnal/containers/_evented_list.py:165 | Removals followed by one changed record no insert. |
| `EventedSpec.PlainSliceNegativeStart` | psygnal/containers/_evented_list.py:158 | `lst[-2:] = [1, 2]` on `[10, 20, 30, 40]` gives `[1, 10, 2, 20]`: the negative start is not normalised. |
| `EventedSpec.SetIntIndex` | psygnal/containers/_evented_list.py:162-165 | `self[i] = value`. Out of range, IndexError with nothing changed. The very object already there: nothing changes and nothing is emitted. Otherwise the length is kept, only position `i` changes, and one changed is recorded with the raw key, the old item and the value. |
| `EventedSpec.SetItemRejects` | psygnal/containers/_evented_list.py:133-139 | A key of another type raises TypeError. A zero-step slice raises ValueError when the old items are read. A value that is not iterable for a slice raises TypeError. In each case nothing is changed or emitted. |
| `EventedSpec.ClearIsDeleteAll` | psygnal/containers/_evented_list.py:167-174 | `clear()` empties the list with the same record as `del self[:]`. |
| `EventedSpec.WholeSlice` | psygnal/containers/_evented_list.py:181 | `[:]` covers positions `0..len-1` with step 1. |
| `EventedSpec.TailRemovalLogCountsDown` | psygnal/containers/_evented_list.py:99 | Popping the last item until none is left reports `len - 1, ..., 0` with the items there. |
| `EventedSpec.SwapEvents` | psygnal/containers/_evented_list.py:237 | One swap emits two changed, or nothing exactly when the two items are the same object. |
| `EventedSpec.SwapLog` | psygnal/containers/_evented_list.py:237 | `count` swaps emit an even number of changed, at most two per swap. |
| `EventedSpec.SwapLogOnlyChanged` | psygnal/containers/_evented_list.py:237 | The swaps of `reverse(emit_individual_events=True)` emit nothing but changed. |
| `EventedSpec.Swapped` | psygnal/containers/_evented_list.py:237 | Swap `i` keeps the length and exchanges the items at `i` and `n - 1 - i`. |
| `EventedSpec.SwapRun` | psygnal/containers/_evented_list.py:237 | The swaps keep the length of the list. |
| `EventedSpec.SwapStep` | psygnal/containers/_evented_list.py:237 | Swap `i` extends the reversed ends by one position. The two items it exchanges are still the original ones. |
| `EventedSpec.SwapRunPartlyReversed` | psygnal/containers/_evented_list.py:237 | After `i` swaps, the first `i` and the last `i` positions are exchanged end for end and the middle is untouched. |
| `EventedSpec.PartlyReversedDone` | psygnal/containers/_evented_list.py:237 | After half the length of swaps, the list is reversed. |
| `EventedSpec.SwapRunReverses` | psygnal/containers/_evented_list.py:237 | The swap loop of `reverse` reverses the list. |
| `EventedSpec.SwapRunSeesOriginal` | psygnal/containers/_evented_list.py:237 | Each swap emits changed for the items of the original list at its two positions. |
| `EventedSpec.SwapLogCount` | psygnal/containers/_evented_list.py:237 | The swap loop emits exactly two changed per swap that exchanges two different objects, and none for the others. |
| `EventedSpec.MovingSwapsStep` | psygnal/containers/_evented_list.py:237 | Swap `i` counts as exchanging two different objects exactly when the items at `i` and `n - 1 - i` differ. |
| `EventedSpec.SameItems` | psygnal/containers/_evented_list.py:225-227 | List `==`: equal lists have the same length, and at each position the items are the same object or `==`. Lists of the same length whose items are pairwise `==` are equal, and so are lists of the very same items. |
| `EventedSpec.SameItemsReflexive` | psygnal/containers/_evented_list.py:225-227 | A list compares equal to itself, whatever items' `==` says. |
| `EventedSpec.DescendingRest` | psygnal/containers/_evented_list.py:170 | Below the first of strictly descending positions, the rest are strictly descending positions of a list one shorter. |
| `EventedSpec.HighestFirst` | psygnal/containers/_evented_list.py:170 | The positions after the highest are all below it, and with it make up the whole set. |
| `EventedLists.EventedList.constructor` | psygnal/containers/_evented_list.py:91-95 | `EventedList(data)` holds `data`, records inserting/inserted for each item at positions `0, 1, ...`, and has no signal blocked. |
| `EventedLists.EventedList.Emit` | psygnal/containers/_evented_list.py:107 | An emission is appended to the record unless its signal is blocked; the list is unchanged. |
| `EventedLists.EventedList.Block` | psygnal/containers/_evented_list.py:154 | Entering `signal.blocked()` raises that signal's block depth by one and changes nothing else. |
| `EventedLists.EventedList.Unblock` | psygnal/containers/_evented_list.py:154 | Leaving `signal.blocked()` lowers that signal's block depth by one and changes nothing else. |
| `EventedLists.EventedList.BlockInserts` | psygnal/containers/_evented_list.py:160 | Entering both insert scopes blocks inserting and inserted once more each. |
| `EventedLists.EventedList.UnblockInserts` | psygnal/containers/_evented_list.py:160 | Leaving both insert scopes restores their depths. |
| `EventedLists.EventedList.Insert` | psygnal/containers/_evented_list.py:104-109 | `insert(i, v)` puts `v` at the clamped position of `i` (`PyList.ListInsert`). It records `ListEvents.InsertEvents(i, v)`, which is inserting(i) then inserted(i, v) with the raw `i`, filtered by the block depths. |
| `EventedLists.EventedList.Append` | psygnal/containers/_evented_list.py:98 | `append(v)` adds `v` at the end and records inserting/inserted at the old length. |
| `EventedLists.EventedList.Extend` | psygnal/containers/_evented_list.py:101 | `extend(values)` adds `values` at the end and records inserting/inserted for each at consecutive positions from the old length. |
| `EventedLists.EventedList.GetItem` | psygnal/containers/_evented_list.py:119-121 | `self[key]`: an int key in range gives the item, counted from the end when negative; out of range, IndexError. A slice key gives the slice's items in order, or ValueError for a zero step. Any other key raises TypeError. |
| `EventedLists.EventedList.DelItem` | psygnal/containers/_evented_list.py:167-174 | `del self[key]` ends in the list, record and outcome of `EventedSpec.DelItemSpec`. |
| `EventedLists.EventedList.PopEach` | psygnal/containers/_evented_list.py:170-174 | The delete loop pops each position in turn, and an IndexError ends it. It ends as `EventedSpec.PopRun` says. |
| `EventedLists.EventedList.PopStep` | psygnal/containers/_evented_list.py:171-174 | One pass of the delete loop: removing, the pop, and removed with the popped item. |
| `EventedLists.EventedList.Pop` | psygnal/containers/_evented_list.py:100 | `pop(i)`: out of range, IndexError before any change or emission. Otherwise the item is read, `del self[i]` runs, and the item is returned. |
| `EventedLists.EventedList.Index` | psygnal/containers/_evented_list.py:102 | `index(value)` returns the first position whose item is `value` or `==` to it, or raises ValueError when there is none. |
| `EventedLists.EventedList.Remove` | psygnal/containers/_evented_list.py:102 | `remove(value)` deletes the first matching item and records removing/removed for it. With no match, it raises ValueError and changes and records nothing. |
| `EventedLists.EventedList.Clear` | psygnal/containers/_evented_list.py:99 | `clear()` empties the list, recording removing/removed for the last item each time. |
| `EventedLists.EventedList.Reverse` | psygnal/containers/_evented_list.py:234-240 | `reverse()` reverses the list in place. By default the only record is one reordered. With individual events, the swap loop's changed emissions come first. |
| `EventedLists.EventedList.SwapAll` | psygnal/containers/_evented_list.py:237 | The swap loop of `MutableSequence.reverse` reverses the list and records the changed of every swap that exchanges different objects. |
| `EventedLists.EventedList.SwapPair` | psygnal/containers/_evented_list.py:237 | `self[i], self[n-1-i] = self[n-1-i], self[i]` exchanges the two items and records the swap's changed emissions. |
| `EventedLists.EventedList.SetItem` | psygnal/containers/_evented_list.py:131-165 | `self[key] = value` ends in the list, record and outcome of `EventedSpec.SetItemSpec`. |
| `EventedLists.EventedList.AssignPlain` | psygnal/containers/_evented_list.py:156-161 | The plain-slice branch deletes the slice and then inserts the values from `key.start or 0`, with the insert signals blocked. |
| `EventedLists.EventedList.StoreEach` | psygnal/containers/_evented_list.py:153-155 | The extended-slice loop stores each value at its position and records nothing. |
| `EventedLists.EventedList.InsertEach` | psygnal/containers/_evented_list.py:159-161 | The plain-slice loop inserts `values[k]` at `start + k` in turn, with both insert signals blocked around each insert. |
| `EventedLists.EventedList.Copy` | psygnal/containers/_evented_list.py:198-200 | `copy()` returns a new list with the same items, built by `extend`. This list is untouched. |
| `EventedLists.EventedList.Add` | psygnal/containers/_evented_list.py:202-206 | `self + other` returns a new list holding this list's items then `other`'s. This list is untouched. |
| `EventedLists.EventedList.IAdd` | psygnal/containers/_evented_list.py:208-211 | `self += other` extends this list in place and returns it. |
| `EventedLists.EventedList.RAdd` | psygnal/containers/_evented_list.py:213-215 | `other + self` is a plain list: `other`'s items, then this list's. |
| `EventedLists.EventedList.Len` | psygnal/containers/_evented_list.py:217-219 | `len(self)` is the length of the wrapped list. |
| `EventedLists.EventedList.Equals` | psygnal/containers/_evented_list.py:225-227 | `self == other`, for a built-in list: true exactly when both have the same length and at each position the items are the same object or `==` (this list's item on the left). For another EventedList, the same test with that list's items on the left. For anything else, false. |

## Left out

- Listener dispatch is not modelled: connecting, calling listeners, weak references and error handling belong to `Signal`, which is not part of this model. An emission is an entry in `log`.
- The arguments of `reordered.emit(self)` are not recorded. `Reordered` carries no payload.
- `moving` and `moved` are declared but never emitted. Only the commented-out `move` code at lines 242-367 would emit them, and that code is not modelled.
- `GetItem`: items are taken not to be Python lists. `__getitem__` wraps every list-valued result of `self._list[key]` in a new `EventedList` (line 121). That covers a slice read, which the model returns as a plain sequence. It also covers an int-key read of an item that is itself a list: the source returns a fresh wrapper, not the item. The members below read `self[i]` through `__getitem__` in the source, so they differ for list-valued items in the same way.
- `Pop`: for a list-valued item, `pop` returns a new wrapper, not the item that was removed.
- `Index` and `Remove`: for a list-valued item, `v is value` never holds for the fresh wrapper; only `v == value` can match.
- `Copy`, `Add`, `RAdd` and `Extend` (with `extend(self)`): iterating this list yields wrappers for list-valued items. The new list, or the extended one, holds those wrappers, not the items.
- `SwapPair`, `SwapAll` and `Reverse` (with individual events): a swap reads both items through `__getitem__`. With list-valued items, `value is old` fails, so the swap emits changed even for the same object, and the wrappers are stored in place of the items.
- `__repr__` (string formatting) and `__hash__` (object identity) are not modelled.
- `_pre_insert` is the identity and `_pre_remove` does nothing. Both are inlined.
- `Index`: the `start` and `stop` arguments of `MutableSequence.index` are not modelled; the search always covers the whole list.
- `Equals`: a non-list `other` is taken to compare unequal; Python would first try `other.__eq__`, which is not modelled. Items' `==` is a pure function `eq`: the side effects or exceptions it could raise are not modelled.
- `Extend`, `Add` and `IAdd` take the items of `other` as a finished sequence. Consuming an iterator lazily, and the TypeError for a non-iterable `other`, are not modelled. `extend(self)` iterates a snapshot, which is what the sequence parameter gives.
- `SetItem`: `iter(value)` is a pure function, so a value that yields different items on each iteration is not modelled.
- Keys are an int, a slice or "any other object". Objects with `__index__` and `bool` keys are not distinguished from ints here.
- `Descending` models `sorted(..., reverse=True)` only on the monotone position lists `_delitem_indices` yields. `DescendingMonotone` shows that on those it gives the sorted order.
- Block depths follow the per-signal depth counter of `blocked()`. A scope restores the depth the signal had before it.
