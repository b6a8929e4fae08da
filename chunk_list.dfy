/**
 * The chunk list: a double-ended sequence of chunks of capacity `N` plus a cached
 * element count, and its two iterators.
 *
 * `Blocks` is the ghost view of the chunks' contents, block `k` being `chunks[k].elements`;
 * `Elements()` is the logical sequence, `Flatten(Blocks)`.
 */
module ChunkLists {
  import opened Wrappers
  import opened Flattening
  import opened Chunks

  class ChunkList<T> {
    /** The capacity of every chunk. */
    const N: nat
    var chunks: seq<Chunk<T>>
    var elementsCount: nat
    ghost var Blocks: seq<seq<T>>
    ghost var Repr: set<object>

    /** The chunks are distinct objects of capacity N, each within capacity, mirrored by Blocks. */
    ghost predicate WellFormed()
      reads this`chunks, this`Blocks, this`Repr, Repr
    {
      && |Blocks| == |chunks|
      && (forall k :: 0 <= k < |chunks| ==>
            chunks[k] in Repr && chunks[k].N == N && chunks[k].elements == Blocks[k] && |Blocks[k]| <= N)
      && (forall k, l :: 0 <= k < l < |chunks| ==> chunks[k] != chunks[l])
    }

    /**
     * The invariant every operation keeps: the shape (no chunk is empty, none holds more
     * than N elements) and a cached count that never falls below the number of elements.
     */
    ghost predicate Valid()
      reads this, Repr
    {
      && WellFormed()
      && 1 <= N
      && Shaped(Blocks, N)
      && |Flatten(Blocks)| <= elementsCount
    }

    /** The logical sequence, front to back. */
    ghost function Elements(): seq<T>
      reads this`Blocks
    {
      Flatten(Blocks)
    }

    /** The count part of the invariant: the cached count is exact. */
    ghost predicate Counted()
      reads this`Blocks, this`elementsCount
    {
      elementsCount == |Elements()|
    }

    /** Under Valid(), there are no chunks exactly when there are no elements. */
    lemma NoChunksIffEmpty()
      requires Valid()
      ensures chunks == [] <==> Elements() == []
    {
      FlattenLength(Blocks, N);
    }

    /** An empty list; a chunk capacity of 0 is a programming error (the source panics). */
    constructor (n: nat)
      requires 1 <= n
      ensures Valid() && Counted() && fresh(Repr)
      ensures N == n && chunks == [] && elementsCount == 0 && Elements() == []
    {
      N := n;
      chunks := [];
      elementsCount := 0;
      Blocks := [];
      Repr := {};
    }

    /** A list holding `count` copies of `value`, built by repeated PushBack. */
    static method NewFilled(n: nat, count: nat, value: T) returns (list: ChunkList<T>)
      requires 1 <= n
      ensures fresh(list) && fresh(list.Repr) && list.Valid() && list.Counted() && list.N == n
      ensures list.Elements() == seq(count, _ => value) && list.elementsCount == count
    {
      list := new ChunkList(n);
      for k := 0 to count
        invariant fresh(list) && fresh(list.Repr) && list.Valid() && list.Counted() && list.N == n
        invariant list.Elements() == seq(k, _ => value) && list.elementsCount == k
      {
        list.PushBack(value);
        assert seq(k + 1, _ => value) == seq(k, _ => value) + [value];
      }
    }

    /** Puts a new, empty chunk in front of the others. */
    method AddNewChunkFront() returns (c: Chunk<T>)
      requires WellFormed()
      modifies this
      ensures WellFormed() && fresh(c) && Repr == old(Repr) + {c}
      ensures chunks == [c] + old(chunks) && Blocks == [[]] + old(Blocks)
      ensures c.N == N && c.elements == []
      ensures Elements() == old(Elements()) && elementsCount == old(elementsCount)
    {
      c := new Chunk(N);
      chunks := [c] + chunks;
      Blocks := [[]] + Blocks;
      Repr := Repr + {c};
      assert Blocks[1..] == old(Blocks);
    }

    /** Puts a new, empty chunk behind the others. */
    method AddNewChunkBack() returns (c: Chunk<T>)
      requires WellFormed()
      modifies this
      ensures WellFormed() && fresh(c) && Repr == old(Repr) + {c}
      ensures chunks == old(chunks) + [c] && Blocks == old(Blocks) + [[]]
      ensures c.N == N && c.elements == []
      ensures Elements() == old(Elements()) && elementsCount == old(elementsCount)
    {
      c := new Chunk(N);
      chunks := chunks + [c];
      Blocks := Blocks + [[]];
      Repr := Repr + {c};
      FlattenSnoc(old(Blocks), []);
    }

    /** Detaches and returns the chunk at position `i`, or None when there is none. */
    method RemoveChunk(i: nat) returns (r: Option<Chunk<T>>)
      requires WellFormed()
      modifies this
      ensures WellFormed() && Repr == old(Repr) && elementsCount == old(elementsCount)
      ensures i < |old(chunks)| ==>
        && r == Some(old(chunks)[i])
        && chunks == old(chunks)[..i] + old(chunks)[i + 1..]
        && Blocks == old(Blocks)[..i] + old(Blocks)[i + 1..]
      ensures i >= |old(chunks)| ==> r == None && chunks == old(chunks) && Blocks == old(Blocks)
    {
      if i >= |chunks| {
        return None;
      }
      r := Some(chunks[i]);
      chunks := chunks[..i] + chunks[i + 1..];
      Blocks := Blocks[..i] + Blocks[i + 1..];
    }

    /**
     * Pushes `v` onto chunk `k`, which has room, at its back or (when `atFront`) at its
     * front, and brings Blocks in step. The other chunks are untouched.
     */
    method PushIntoChunk(k: nat, v: T, atFront: bool)
      requires WellFormed() && k < |chunks| && |Blocks[k]| < N
      modifies this, chunks[k]
      ensures WellFormed() && chunks == old(chunks) && Repr == old(Repr) && elementsCount == old(elementsCount)
      ensures Blocks == old(Blocks)[k := if atFront then [v] + old(Blocks)[k] else old(Blocks)[k] + [v]]
    {
      var chunk := chunks[k];
      var pushed: bool;
      if atFront {
        pushed := chunk.PushFront(v);
      } else {
        pushed := chunk.PushBack(v);
      }
      Blocks := Blocks[k := chunk.elements];
    }

    /**
     * Makes sure the back chunk has room, adding a new back chunk when there are no chunks
     * or the back chunk is full (the first half of the source's `push_back`).
     */
    method MakeRoomAtBack()
      requires WellFormed()
      requires 1 <= N
      modifies this
      ensures WellFormed() && fresh(Repr - old(Repr)) && elementsCount == old(elementsCount)
      ensures chunks != [] && |Blocks[|Blocks| - 1]| < N
      ensures old(chunks == [] || |Blocks[|Blocks| - 1]| == N) ==>
        && |chunks| == |old(chunks)| + 1
        && chunks[..|old(chunks)|] == old(chunks)
        && Blocks == old(Blocks) + [[]]
      ensures !old(chunks == [] || |Blocks[|Blocks| - 1]| == N) ==> chunks == old(chunks) && Blocks == old(Blocks)
    {
      if chunks == [] {
        var added := AddNewChunkBack();
      }
      if chunks[|chunks| - 1].IsFull() {
        var added := AddNewChunkBack();
      }
    }

    /**
     * Makes sure the front chunk has room, adding a new front chunk when there are no chunks
     * or the front chunk is full; the front chunk is then the source's `not_full_chunk`.
     */
    method MakeRoomAtFront()
      requires WellFormed()
      requires 1 <= N
      modifies this
      ensures WellFormed() && fresh(Repr - old(Repr)) && elementsCount == old(elementsCount)
      ensures chunks != [] && |Blocks[0]| < N
      ensures old(chunks == [] || |Blocks[0]| == N) ==>
        && |chunks| == |old(chunks)| + 1
        && chunks[1..] == old(chunks)
        && Blocks == [[]] + old(Blocks)
      ensures !old(chunks == [] || |Blocks[0]| == N) ==> chunks == old(chunks) && Blocks == old(Blocks)
    {
      if chunks == [] {
        var added := AddNewChunkFront();
      } else if chunks[0].IsFull() {
        var added := AddNewChunkFront();
      }
    }

    /**
     * Appends `v` to the logical sequence. A new back chunk is added exactly when there
     * are no chunks or the back chunk is full; otherwise only the back chunk changes.
     */
    method PushBack(v: T)
      requires Valid()
      modifies this, Repr
      ensures Valid() && fresh(Repr - old(Repr))
      ensures Elements() == old(Elements()) + [v]
      ensures elementsCount == old(elementsCount) + 1
      ensures old(chunks == [] || |Blocks[|Blocks| - 1]| == N) ==>
        && |chunks| == |old(chunks)| + 1
        && chunks[..|old(chunks)|] == old(chunks)
        && Blocks == old(Blocks) + [[v]]
      ensures !old(chunks == [] || |Blocks[|Blocks| - 1]| == N) ==>
        && chunks == old(chunks)
        && Blocks == old(Blocks)[|old(Blocks)| - 1 := old(Blocks)[|old(Blocks)| - 1] + [v]]
    {
      ghost var b0 := Blocks;
      ghost var grows := b0 == [] || |b0[|b0| - 1]| == N;
      PushBackBlocks(b0, v, N);
      // The source bumps the count last; nothing in between reads it, so the order is immaterial.
      elementsCount := elementsCount + 1;
      MakeRoomAtBack();
      ghost var b1 := Blocks;
      PushIntoChunk(|chunks| - 1, v, false);
      if grows {
        assert b1[|b0|] + [v] == [v];
        FillNewLast(b0, [v]);
        assert Blocks == b0 + [[v]];
      } else {
        assert Blocks == b0[|b0| - 1 := b0[|b0| - 1] + [v]];
      }
    }

    /**
     * Prepends `v` to the logical sequence. A new front chunk is added exactly when there
     * are no chunks or the front chunk is full; otherwise only the front chunk changes.
     */
    method PushFront(v: T)
      requires Valid()
      modifies this, Repr
      ensures Valid() && fresh(Repr - old(Repr))
      ensures Elements() == [v] + old(Elements())
      ensures elementsCount == old(elementsCount) + 1
      ensures old(chunks == [] || |Blocks[0]| == N) ==>
        && |chunks| == |old(chunks)| + 1
        && chunks[1..] == old(chunks)
        && Blocks == [[v]] + old(Blocks)
      ensures !old(chunks == [] || |Blocks[0]| == N) ==>
        && chunks == old(chunks)
        && Blocks == old(Blocks)[0 := [v] + old(Blocks)[0]]
    {
      ghost var b0 := Blocks;
      ghost var grows := b0 == [] || |b0[0]| == N;
      PushFrontBlocks(b0, v, N);
      elementsCount := elementsCount + 1;  // bumped first, as in PushBack
      MakeRoomAtFront();
      ghost var b1 := Blocks;
      PushIntoChunk(0, v, true);
      if grows {
        assert [v] + b1[0] == [v];
        FillNewFirst(b0, [v]);
        assert Blocks == [[v]] + b0;
      } else {
        assert Blocks == b0[0 := [v] + b0[0]];
      }
    }

    /**
     * Removes and returns the last element, or None when the list is empty. The back chunk
     * is dropped exactly when this empties it.
     */
    method PopBack() returns (r: Option<T>)
      requires Valid()
      modifies this, Repr
      ensures Valid() && Repr == old(Repr)
      ensures old(Elements()) == [] ==>
        r == None && chunks == old(chunks) && Blocks == old(Blocks) && elementsCount == old(elementsCount)
      ensures old(Elements()) != [] ==>
        && r == Some(old(Elements())[|old(Elements())| - 1])
        && Elements() == old(Elements())[..|old(Elements())| - 1]
        && elementsCount == old(elementsCount) - 1
        && chunks == if |old(Blocks)[|old(Blocks)| - 1]| == 1 then old(chunks)[..|old(chunks)| - 1] else old(chunks)
    {
      NoChunksIffEmpty();
      if chunks == [] {
        return None;
      }
      ghost var b0 := Blocks;
      FlattenPopLast(b0);
      FlattenLength(b0, N);
      elementsCount := elementsCount - 1;  // done last in the source; nothing in between reads it
      ghost var k := |b0| - 1;
      var value := PopBackOfChunk(|chunks| - 1);
      if chunks[|chunks| - 1].IsEmpty() {
        DropBackChunk();
        assert Blocks == b0[..k];
      } else {
        assert Blocks == b0[k := b0[k][..|b0[k]| - 1]];
      }
      r := Some(value);
    }

    /** Pops the back element of chunk `k`, which is not empty, and brings Blocks in step. */
    method PopBackOfChunk(k: nat) returns (value: T)
      requires WellFormed() && k < |chunks| && Blocks[k] != []
      modifies this, chunks[k]
      ensures WellFormed() && chunks == old(chunks) && Repr == old(Repr) && elementsCount == old(elementsCount)
      ensures value == old(Blocks)[k][|old(Blocks)[k]| - 1]
      ensures Blocks == old(Blocks)[k := old(Blocks)[k][..|old(Blocks)[k]| - 1]]
    {
      var chunk := chunks[k];
      var popped := chunk.PopBack();
      value := popped.value;  // the chunk is not empty, so the source's unwrap holds
      Blocks := Blocks[k := chunk.elements];
    }

    /** Detaches the back chunk, as the source's `chunks.pop_back()` does. */
    method DropBackChunk()
      requires WellFormed() && chunks != []
      modifies this
      ensures WellFormed() && Repr == old(Repr) && elementsCount == old(elementsCount)
      ensures chunks == old(chunks)[..|old(chunks)| - 1] && Blocks == old(Blocks)[..|old(Blocks)| - 1]
    {
      chunks := chunks[..|chunks| - 1];
      Blocks := Blocks[..|Blocks| - 1];
    }

    /** The first element, removed; the same as Remove(0). */
    method PopFront() returns (r: Option<T>)
      requires Valid()
      modifies this, Repr
      ensures Valid() && Repr == old(Repr)
      ensures old(Elements()) == [] ==>
        r == None && chunks == old(chunks) && Blocks == old(Blocks) && elementsCount == old(elementsCount)
      ensures old(Elements()) != [] ==>
        && r == Some(old(Elements())[0])
        && Elements() == old(Elements())[1..]
        && elementsCount == old(elementsCount) - 1
        && chunks == if |old(Blocks)[0]| == 1 then old(chunks)[1..] else old(chunks)
    {
      NoChunksIffEmpty();
      r := Remove(0);
    }

    function ChunksCount(): (r: nat)
      reads this, Repr
      ensures Valid() ==> r <= |Elements()| <= r * N
    {
      assert Valid() ==> |chunks| <= |Elements()| <= |chunks| * N by {
        if Valid() {
          FlattenLength(Blocks, N);
        }
      }
      |chunks|
    }

    function ElementsCount(): (r: nat)
      reads this, Repr
      ensures Valid() ==> |Elements()| <= r
      ensures Counted() ==> r == |Elements()|
    {
      elementsCount
    }

    /**
     * Drops every chunk, as the source does: the cached count is left as it was, so the
     * count part of the invariant survives only when the list was already empty.
     */
    method Clear()
      requires Valid()
      modifies this
      ensures Valid() && Repr == old(Repr) && chunks == [] && Elements() == []
      ensures elementsCount == old(elementsCount)
      ensures Counted() <==> old(elementsCount) == 0
    {
      chunks := [];
      Blocks := [];
    }

    /** Drops every chunk and resets the cached count, keeping both parts of the invariant. */
    method ClearAndReset()
      requires Valid()
      modifies this
      ensures Valid() && Repr == old(Repr)
      ensures Counted() && chunks == [] && Elements() == [] && elementsCount == 0
    {
      chunks := [];
      Blocks := [];
      elementsCount := 0;
    }

    /** The element at logical index `i`, found by stepping an Iter `i` times. */
    method Get(i: nat) returns (r: Option<T>)
      requires Valid()
      ensures i < |Elements()| ==> r == Some(Elements()[i])
      ensures i >= |Elements()| ==> r == None
    {
      var it := new Iter(this);
      var k := 0;
      while k < i
        invariant k <= i && k <= |Elements()|
        invariant it.list == this && it.Valid() && it.Pos() == k
      {
        var skipped := it.Next();
        if skipped.None? {
          return None;
        }
        k := k + 1;
      }
      r := it.Next();
    }

    /**
     * The scan of the source's remove, as written: it stops at the first chunk whose end
     * reaches `i` (`>=`). For every `i` with 0 < i <= |Elements()| it stops with a running
     * count below `i`, so the source's offset `count - i` underflows.
     */
    method LocateAsWritten(i: nat) returns (chunkI: nat, count: nat)
      requires Valid()
      ensures chunkI <= |chunks| && count == |Flatten(Blocks[..chunkI])|
      ensures i == 0 && chunks != [] ==> chunkI == 0 && count == 0
      ensures 0 < i <= |Elements()| ==> chunkI < |chunks| && count < i
      ensures i > |Elements()| ==> chunkI == |chunks|
    {
      chunkI, count := 0, 0;
      while chunkI < |chunks|
        invariant chunkI <= |chunks| && count == |Flatten(Blocks[..chunkI])|
        invariant chunkI == 0 || count < i
      {
        var len := chunks[chunkI].Len();
        if count + len >= i {
          break;
        }
        FlattenPrefixStep(Blocks, chunkI);
        count := count + len;
        chunkI := chunkI + 1;
      }
      assert Blocks[..|Blocks|] == Blocks;
      if chunkI < |chunks| {
        FlattenLength(Blocks, N);
        if i > |Elements()| {
          FlattenAt(Blocks, chunkI, 0);
          FlattenPrefixStep(Blocks, chunkI);
          FlattenSplit(Blocks, chunkI);
        }
      } else {
        FlattenLength(Blocks, N);
      }
    }

    /**
     * The scan remove needs: the chunk holding logical index `i` and the number of elements
     * in the chunks before it, or chunkI == |chunks| when `i` is past the end.
     */
    method Locate(i: nat) returns (chunkI: nat, count: nat)
      requires Valid()
      ensures chunkI <= |chunks| && count == |Flatten(Blocks[..chunkI])|
      ensures chunkI < |chunks| <==> i < |Elements()|
      ensures chunkI < |chunks| ==> count <= i < count + |Blocks[chunkI]|
      ensures i == 0 && chunks != [] ==> chunkI == 0
    {
      chunkI, count := 0, 0;
      while chunkI < |chunks|
        invariant chunkI <= |chunks| && count == |Flatten(Blocks[..chunkI])| && count <= i
        invariant i == 0 ==> chunkI == 0
      {
        var len := chunks[chunkI].Len();
        if count + len > i {
          break;
        }
        FlattenPrefixStep(Blocks, chunkI);
        count := count + len;
        chunkI := chunkI + 1;
      }
      assert Blocks[..|Blocks|] == Blocks;
      if chunkI < |chunks| {
        FlattenAt(Blocks, chunkI, i - count);
      }
    }

    /**
     * Removes and returns the element at logical index `i`, or None when `i` is past the
     * end. The chunk that held it is dropped when this empties it. This is the corrected
     * remove: local offset `i - count` and removal of the located chunk.
     */
    method Remove(i: nat) returns (r: Option<T>)
      requires Valid()
      modifies this, Repr
      ensures Valid() && Repr == old(Repr)
      ensures i < |old(Elements())| ==>
        && r == Some(old(Elements())[i])
        && Elements() == old(Elements())[..i] + old(Elements())[i + 1..]
        && elementsCount == old(elementsCount) - 1
        && |old(chunks)| - 1 <= |chunks| <= |old(chunks)|
      ensures i >= |old(Elements())| ==>
        r == None && chunks == old(chunks) && Blocks == old(Blocks) && elementsCount == old(elementsCount)
      ensures i == 0 && old(chunks) != [] ==>
        chunks == if |old(Blocks)[0]| == 1 then old(chunks)[1..] else old(chunks)
    {
      var chunkI, count := Locate(i);
      if chunkI == |chunks| {
        return None;
      }
      ghost var b0 := Blocks;
      var chunk := chunks[chunkI];
      var elementI := i - count;
      FlattenRemoveAndDrop(b0, chunkI, elementI);
      ShapedRemoveAt(b0, chunkI, elementI, N);
      elementsCount := elementsCount - 1;  // done last in the source; nothing in between reads it
      r := RemoveFromChunk(chunkI, elementI);
      ghost var b1 := Blocks;
      if chunk.IsEmpty() {
        var removed := RemoveChunk(chunkI);
        assert b1[..chunkI] == b0[..chunkI] && b1[chunkI + 1..] == b0[chunkI + 1..];
        assert Blocks == b0[..chunkI] + b0[chunkI + 1..];
      }
    }

    /** Removes offset `e` of chunk `k`, which holds it, and brings Blocks in step. */
    method RemoveFromChunk(k: nat, e: nat) returns (r: Option<T>)
      requires WellFormed() && k < |chunks| && e < |Blocks[k]|
      modifies this, chunks[k]
      ensures WellFormed() && chunks == old(chunks) && Repr == old(Repr) && elementsCount == old(elementsCount)
      ensures r == Some(old(Blocks)[k][e])
      ensures Blocks == old(Blocks)[k := old(Blocks)[k][..e] + old(Blocks)[k][e + 1..]]
    {
      var chunk := chunks[k];
      r := chunk.Remove(e);
      Blocks := Blocks[k := chunk.elements];
    }
  }

  /** The borrowing iterator: a (chunk, offset) cursor over a list that it does not change. */
  class Iter<T> {
    const list: ChunkList<T>
    var chunkI: nat
    var elementI: nat

    /** The cursor is at an element, or just past the last chunk with offset 0. */
    ghost predicate Valid()
      reads this, list, list.Repr
    {
      && list.Valid()
      && chunkI <= |list.chunks|
      && (chunkI < |list.chunks| ==> elementI < |list.Blocks[chunkI]|)
      && (chunkI == |list.chunks| ==> elementI == 0)
    }

    /** The logical index of the cursor: how many elements have been yielded so far. */
    ghost function Pos(): (p: nat)
      reads this, list, list.Repr
      requires Valid()
      ensures p <= |list.Elements()|
      ensures p == |list.Elements()| <==> chunkI == |list.chunks|
    {
      var bs := list.Blocks;
      assert bs[..|bs|] == bs;
      if chunkI < |bs| then FlattenAt(bs, chunkI, elementI); |Flatten(bs[..chunkI])| + elementI
      else |Flatten(bs[..chunkI])| + elementI
    }

    /** A cursor at the front of `list`. */
    constructor (list: ChunkList<T>)
      requires list.Valid()
      ensures this.list == list && Valid() && Pos() == 0
    {
      this.list := list;
      chunkI := 0;
      elementI := 0;
    }

    /** Yields the element at the cursor and advances it; None once every element is yielded. */
    method Next() returns (r: Option<T>)
      requires Valid()
      modifies this
      ensures Valid()
      ensures old(Pos()) < |list.Elements()| ==> r == Some(list.Elements()[old(Pos())]) && Pos() == old(Pos()) + 1
      ensures old(Pos()) == |list.Elements()| ==> r == None && Pos() == old(Pos())
    {
      if chunkI >= |list.chunks| {
        return None;
      }
      ghost var bs := list.Blocks;
      ghost var p := Pos();
      FlattenAt(bs, chunkI, elementI);
      var chunk := list.chunks[chunkI];
      var value := chunk.Get(elementI);
      // The source's `None` arm, which steps to the next chunk and recurses, is never taken:
      // Valid() keeps the offset below the current chunk's length.
      assert value.Some?;
      elementI := elementI + 1;
      if elementI >= chunk.Len() {
        FlattenPrefixStep(bs, chunkI);
        elementI := 0;
        chunkI := chunkI + 1;
      }
      r := value;
    }
  }

  /** The consuming iterator: it owns the list and pops from its front chunk. */
  class IntoIter<T> {
    const list: ChunkList<T>

    ghost predicate Valid()
      reads this, list, list.Repr
    {
      list.Valid()
    }

    /** What is still to be yielded. */
    ghost function Remaining(): seq<T>
      reads this, list
    {
      list.Elements()
    }

    /** Takes over `list`. */
    constructor (list: ChunkList<T>)
      requires list.Valid()
      ensures this.list == list && Valid() && Remaining() == list.Elements()
    {
      this.list := list;
    }

    /**
     * Yields the front element and removes it, dropping the front chunk once it is empty;
     * None when nothing is left. The list's cached count is not decremented.
     */
    method Next() returns (r: Option<T>)
      requires Valid()
      modifies list, list.Repr
      ensures Valid() && list.Repr == old(list.Repr)
      ensures old(Remaining()) == [] ==> r == None && Remaining() == []
      ensures old(Remaining()) != [] ==> r == Some(old(Remaining())[0]) && Remaining() == old(Remaining())[1..]
      ensures list.elementsCount == old(list.elementsCount)
    {
      list.NoChunksIffEmpty();
      if list.chunks == [] {
        return None;
      }
      ghost var b0 := list.Blocks;
      var front := list.chunks[0];
      r := front.PopFront();
      list.Blocks := list.Blocks[0 := front.elements];
      FlattenUpdate(b0, 0, b0[0][1..]);
      FlattenSplit(b0, 0);
      if front.IsEmpty() {
        list.chunks := list.chunks[1..];
        list.Blocks := list.Blocks[1..];
      }
    }
  }
}
