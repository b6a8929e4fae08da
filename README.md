# chunk-list, modelled in Dafny

This project models the chunked deque in `src/main.rs`. A `ChunkList<T, N>` keeps its
elements in a double-ended queue of `Chunk`s. Each chunk is a bounded buffer of capacity `N`.
The list also caches an element count.

- Pushes at either end go into the outer chunk. A new chunk is added when there is none or
  the outer chunk is full.
- Pops and `remove` drop a chunk once it is empty.
- `get(i)` steps the borrowing iterator `Iter` `i` times.
- `IntoIter` drains the list from the front.

The files:

- `wrappers.dfy` (module `Wrappers`): `Option`.
- `flattening.dfy` (module `Flattening`) gives the logical order of the list, `Flatten`. This is
  the chunks' contents concatenated, front chunk first. It also holds value-level lemmas about
  how a change to one chunk changes that order.
- `chunk.dfy` (module `Chunks`): the class `Chunk`. It has a capacity `N` and a sequence
  `elements`, which its methods update in place.
- `chunk_list.dfy` (module `ChunkLists`) holds three classes:
  - `ChunkList` has the fields `chunks` (the chunk objects), `elementsCount` and a ghost mirror
    `Blocks` of each chunk's contents. Its logical sequence is `Elements() == Flatten(Blocks)`.
  - `Iter` is a `(chunkI, elementI)` cursor over a list it does not change.
  - `IntoIter` owns a list and pops its front.
- `scenarios.dfy` (module `Scenarios`): the unit tests of `src/main.rs` and the inputs behind
  the findings. Each is a method whose postcondition is what the test asserts.

The representation invariant `ChunkList.Valid()` has two parts:

- The shape part: the chunks are distinct objects of capacity `N`. Every chunk holds between 1
  and `N` elements.
- A count part: the cached count is at least the number of elements.

`Counted()` says the cached count is exact. Pushes, pops and `remove` keep it. `clear` does not
(see Findings). `IntoIter::next` does not decrement the count either. This cannot be observed,
because the iterator owns the list.

## Model

| member | source | states |
|---|---|---|
| Chunks.RotateRight | src/main.rs:46 | rotating right by `k` moves the last `k` elements to the front and every other element `k` places up |
| Chunks.RotateRightOnce | src/main.rs:45-46 | pushing `v` and rotating right by one gives `[v]` followed by the old contents |
| Chunks.Chunk.constructor | src/main.rs:14-18 | a new chunk is empty, with capacity `N` |
| Chunks.Chunk.Len | src/main.rs:20-22 | the length never exceeds the capacity |
| Chunks.Chunk.IsEmpty | src/main.rs:24-26 | true exactly when the chunk holds nothing |
| Chunks.Chunk.IsFull | src/main.rs:28-30 | true exactly when no room is left |
| Chunks.Chunk.PushBack | src/main.rs:32-39 | on a full chunk returns false and changes nothing; otherwise returns true and appends `v`; the capacity bound is kept |
| Chunks.Chunk.PushFront | src/main.rs:41-48 | on a full chunk returns false and changes nothing; otherwise returns true and prepends `v` |
| Chunks.Chunk.PopBack | src/main.rs:50-52 | None on an empty chunk; otherwise the last element, which is taken off |
| Chunks.Chunk.PopFront | src/main.rs:54-56 | None on an empty chunk; otherwise the first element, which is taken off |
| Chunks.Chunk.Get | src/main.rs:58-63 | for an index below the capacity: Some of the element there exactly when the index is below the length, None otherwise |
| Chunks.Chunk.Remove | src/main.rs:65-73 | returns what Get returns; when that is an element, it is cut out and the rest close up; otherwise nothing changes |
| Flattening.FlattenLength | src/main.rs:79-82 | with every chunk holding 1 to `N` elements, there are at least as many elements as chunks and at most `N` times as many |
| Flattening.FlattenAt | src/main.rs:245-262 | offset `e` of chunk `k` is logical index (elements in the chunks before `k`) + `e` |
| Flattening.FlattenPopLast | src/main.rs:148-156 | taking the last element off the back chunk takes the last element off the logical sequence; dropping that chunk once empty changes nothing more |
| Flattening.FlattenRemoveAndDrop | src/main.rs:180-198 | removing offset `e` of chunk `k`, and then the chunk if it is empty, removes exactly the logical element at (elements before `k`) + `e` |
| Flattening.ShapedRemoveAt | src/main.rs:190-195 | removing an element keeps every chunk at 1 to `N` elements, provided an emptied chunk is dropped |
| Flattening.PushBackBlocks | src/main.rs:119-131 | pushing at the back, into a new chunk when there is none or the back one is full and into the back chunk otherwise, keeps the shape and appends `v` |
| Flattening.PushFrontBlocks | src/main.rs:133-146 | the same at the front: the shape is kept and `v` is prepended |
| ChunkLists.ChunkList.NoChunksIffEmpty | src/main.rs:148-149 | under the invariant, there are no chunks exactly when there are no elements |
| ChunkLists.ChunkList.constructor | src/main.rs:85-93 | requires `N >= 1`; gives no chunks, an empty sequence and a count of 0 |
| ChunkLists.ChunkList.NewFilled | src/main.rs:96-103 | gives `count` copies of `value`, with an exact count of `count` |
| ChunkLists.ChunkList.AddNewChunkFront | src/main.rs:105-108 | puts a fresh empty chunk first; the elements and the count are unchanged |
| ChunkLists.ChunkList.AddNewChunkBack | src/main.rs:110-113 | puts a fresh empty chunk last; the elements and the count are unchanged |
| ChunkLists.ChunkList.RemoveChunk | src/main.rs:115-117 | an index within range detaches and returns that chunk; any other index returns None and changes nothing |
| ChunkLists.ChunkList.MakeRoomAtBack | src/main.rs:120-126 | adds a back chunk exactly when there is none or the back chunk is full; afterwards the back chunk has room |
| ChunkLists.ChunkList.MakeRoomAtFront | src/main.rs:134-143 | adds a front chunk exactly when there is none or the front chunk is full; afterwards the front chunk (the source's `not_full_chunk`) has room |
| ChunkLists.ChunkList.PushIntoChunk | src/main.rs:125-128 | pushing into a chunk with room changes that chunk's contents only |
| ChunkLists.ChunkList.PushBack | src/main.rs:119-131 | appends `v` to the logical sequence and adds 1 to the count; a new back chunk holding only `v` exactly when there was no chunk or the back one was full, otherwise only the back chunk grows; the invariant is kept |
| ChunkLists.ChunkList.PushFront | src/main.rs:133-146 | prepends `v` and adds 1 to the count; a new front chunk exactly when there was none or the front one was full; the invariant is kept |
| ChunkLists.ChunkList.PopBack | src/main.rs:148-156 | None and no change on an empty list; otherwise returns and removes the last element, subtracts 1 from the count, and drops the back chunk exactly when it held one element |
| ChunkLists.ChunkList.PopBackOfChunk | src/main.rs:149-150 | popping a chunk that is not empty returns its last element (the source's `unwrap` never fails) |
| ChunkLists.ChunkList.DropBackChunk | src/main.rs:151-153 | detaches the back chunk and nothing else |
| ChunkLists.ChunkList.PopFront | src/main.rs:158-160 | None and no change on an empty list; otherwise returns and removes the first element, subtracts 1 from the count, and drops the front chunk exactly when it held one element |
| ChunkLists.ChunkList.ChunksCount | src/main.rs:162-164 | under the invariant, the number of chunks is between the number of elements divided by `N` and the number of elements |
| ChunkLists.ChunkList.ElementsCount | src/main.rs:166-168 | never below the number of elements, and equal to it while the count is exact |
| ChunkLists.ChunkList.Clear | src/main.rs:170-174 | leaves no chunks and no elements, keeps the chunk footprint and the cached count, and the count stays exact only if it was 0 |
| ChunkLists.ChunkList.ClearAndReset | src/main.rs:170-174 | the corrected clear: no chunks, no elements, count 0, and the count is exact |
| ChunkLists.ChunkList.Get | src/main.rs:176-178 | Some of the element at `i` when `i` is below the length, None otherwise |
| ChunkLists.ChunkList.LocateAsWritten | src/main.rs:181-189 | the scan as written: for every `i` with 0 < i <= length it stops at a chunk with a running count below `i` |
| ChunkLists.ChunkList.Locate | src/main.rs:181-189 | the corrected scan: it stops at a chunk exactly when `i` is below the length, and then `i` falls inside that chunk |
| ChunkLists.ChunkList.Remove | src/main.rs:180-198 | removes and returns the element at `i` and subtracts 1 from the count when `i` is below the length; otherwise returns None and changes nothing; the invariant is kept |
| ChunkLists.ChunkList.RemoveFromChunk | src/main.rs:190-192 | removing an offset that a chunk holds returns that element and changes that chunk only |
| ChunkLists.Iter.Pos | src/main.rs:231-235 | the cursor's logical index is at most the length, and equals it exactly when the cursor is past the last chunk |
| ChunkLists.Iter.constructor | src/main.rs:237-241 | a new cursor is at logical index 0 |
| ChunkLists.Iter.Next | src/main.rs:243-262 | yields the element at the cursor and moves the cursor one place; None at the end; never calls Chunk::get at or beyond the capacity, and the None arm of Chunk::get is never reached |
| ChunkLists.IntoIter.constructor | src/main.rs:206-209 | what remains to be yielded is the whole list |
| ChunkLists.IntoIter.Next | src/main.rs:212-221 | yields and removes the first element, or None when nothing is left; the cached count is not touched |
| Scenarios.ThreeTwoOne | src/main.rs:271-274 | pushing 1, 2, 3 at the front gives 3, 2, 1 with an exact count of 3 |
| Scenarios.PushPopFront | src/main.rs:270-279 | four front pops of that list give 3, 2, 1 and None |
| Scenarios.Peek | src/main.rs:282-289 | `get(0)` is None on an empty list and 1 after pushing 3, 2, 1 at the front |
| Scenarios.ConsumeInOrder | src/main.rs:292-303 | the consuming iterator yields 3, 2, 1 and then None |
| Scenarios.BorrowInOrder | src/main.rs:306-317 | the borrowing iterator yields 3, 2, 1 and then None |
| Scenarios.Erase | src/main.rs:320-327 | after clear, `get(0)` is None while the cached count still reads 3; the corrected clear reads 0 |
| Scenarios.ClearThenPush | src/main.rs:170-174 | a cleared list can be pushed to again: clear then push_back(4) gives a list whose only element is 4 |
| Scenarios.CountThroughPushesAndPops | src/main.rs:330-341 | the count reads 0, 1, 2, 1, 0 through two pushes, a front pop and a back pop |
| Scenarios.FrontToBack | src/main.rs:133-156 | one element pushed at the front comes back from the back, leaving no chunk |
| Scenarios.RemoveSecondOfTwo | src/main.rs:180-198 | on one full chunk [1, 2], the scan as written stops with count 0 for index 1, so `count - i` would be negative; the corrected remove returns 2 and leaves [1] |

## Left out

- Machine integers: `elements_count` and all indices are unbounded naturals. The model leaves out `usize` overflow of the count. The underflow of `count - i` in `remove` is reported under Findings rather than modelled as a panic or a wrap-around.
- Panics are preconditions:
  - `ChunkList::new` with `N < 1`;
  - `Chunk::get` and `Chunk::remove` with an index at or beyond `N`.
- `Default`, `Vec::with_capacity`, `main`, the unused imports and the `Clone`/`PartialEq` bounds are left out. Allocation is not observable, and the element type is a plain type parameter.
- Lifetimes and borrowing are left out:
  - `Iter` is a cursor over a list that nothing changes while the cursor is in use.
  - The `&mut Chunk` that `add_new_chunk_*` returns is the returned chunk object.
  - `iter()` and `into_iter()` are the `Iter` and `IntoIter` constructors.
- The `None` arm of `Iter::next` is not modelled, because it can never run. It would move to the next chunk, recurse and then advance the offset once more. `Iter.Next` proves the arm unreachable under the invariant.
- `remove` is modelled as corrected, with offset `i - count` and removal of the located chunk. Only the scan as written is modelled, in `LocateAsWritten`. The as-written offset, its wrapped value and the call `remove_chunk(i)` are not modelled.
- Pushes, `pop_back` and `remove` update the cached count before touching the chunks rather than after. Nothing in between reads the count.
- ChunkLists.ChunkList.Remove: for an index other than 0 it states only that at most one chunk is dropped, not which one; the element-level effect is stated in full.
- Amortized complexity is not modelled.

## Findings

| source | as written | input that shows it | evidently intended | confidence | as-written member | corrected member |
|---|---|---|---|---|---|---|
| src/main.rs:183-191 | the scan stops at the first chunk where `count + chunk.len() >= i`, then takes `element_i = count - i`; for every `0 < i <=` the number of elements (that is `elements_count` while the count is exact) it stops with `count < i`, so the subtraction underflows (a panic in a debug build). Were that fixed, the emptied chunk would still be removed at position `i` instead of `chunk_i` (line 194) | a list holding one full chunk [1, 2] (N = 2) and `remove(1)`: the scan stops at chunk 0 with count 0, and 0 - 1 underflows | stop on `>`, take offset `i - count`, and remove chunk `chunk_i` | high, not executed | ChunkLists.ChunkList.LocateAsWritten | ChunkLists.ChunkList.Remove |
| src/main.rs:171-174 | `clear` empties `chunks` but leaves `elements_count` as it was | push 1, 2, 3 at the front, then `clear`: `get(0)` is None while `elements_count()` is 3 | also reset `elements_count` to 0 | high, not executed | ChunkLists.ChunkList.Clear | ChunkLists.ChunkList.ClearAndReset |
