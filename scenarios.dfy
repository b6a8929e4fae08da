/**
 * The unit tests of the chunk list, each stated as a method whose postcondition is what the
 * test asserts, plus the concrete inputs behind the two defects of the Rust code in src/main.rs.
 * Every list here has chunks of capacity 2, as in the tests.
 */
module Scenarios {
  import opened Wrappers
  import opened ChunkLists

  /** A list of capacity-2 chunks holding 3, 2, 1, built by pushing 1, 2, 3 at the front. */
  method ThreeTwoOne() returns (list: ChunkList<int>)
    ensures fresh(list) && fresh(list.Repr) && list.Valid() && list.Counted() && list.N == 2
    ensures list.Elements() == [3, 2, 1] && list.elementsCount == 3
  {
    list := new ChunkList(2);
    list.PushFront(1);
    list.PushFront(2);
    list.PushFront(3);
  }

  /** Pushing 1, 2, 3 at the front and popping four times from the front yields 3, 2, 1, None. */
  method PushPopFront() returns (a: Option<int>, b: Option<int>, c: Option<int>, d: Option<int>)
    ensures a == Some(3) && b == Some(2) && c == Some(1) && d == None
  {
    var list := ThreeTwoOne();
    a := list.PopFront();
    b := list.PopFront();
    c := list.PopFront();
    assert list.Elements() == [];
    d := list.PopFront();
  }

  /** Index 0 of an empty list is None; after pushing 3, 2, 1 at the front it is 1. */
  method Peek() returns (before: Option<int>, after: Option<int>)
    ensures before == None && after == Some(1)
  {
    var list := new ChunkList(2);
    before := list.Get(0);
    list.PushFront(3);
    list.PushFront(2);
    list.PushFront(1);
    assert list.Elements() == [1, 2, 3];
    after := list.Get(0);
  }

  /** The consuming iterator over 3, 2, 1 yields 3, 2, 1 and then None. */
  method ConsumeInOrder() returns (a: Option<int>, b: Option<int>, c: Option<int>, d: Option<int>)
    ensures a == Some(3) && b == Some(2) && c == Some(1) && d == None
  {
    var list := ThreeTwoOne();
    var iter := new IntoIter(list);
    a := iter.Next();
    b := iter.Next();
    c := iter.Next();
    d := iter.Next();
  }

  /** The borrowing iterator over 3, 2, 1 yields 3, 2, 1 and then None. */
  method BorrowInOrder() returns (a: Option<int>, b: Option<int>, c: Option<int>, d: Option<int>)
    ensures a == Some(3) && b == Some(2) && c == Some(1) && d == None
  {
    var list := ThreeTwoOne();
    var iter := new Iter(list);
    a := iter.Next();
    b := iter.Next();
    c := iter.Next();
    d := iter.Next();
  }

  /**
   * After clear, index 0 is None, but the cached count still says 3: clear does not reset
   * it. The corrected clear brings it back to 0.
   */
  method Erase() returns (first: Option<int>, staleCount: nat, resetCount: nat)
    ensures first == None && staleCount == 3 && resetCount == 0
  {
    var list := ThreeTwoOne();
    list.Clear();
    first := list.Get(0);
    staleCount := list.ElementsCount();
    var other := ThreeTwoOne();
    other.ClearAndReset();
    resetCount := other.ElementsCount();
  }

  /** A cleared list takes new elements: after clear, a push at the back makes it [4]. */
  method ClearThenPush() returns (first: Option<int>, second: Option<int>)
    ensures first == Some(4) && second == None
  {
    var list := ThreeTwoOne();
    list.Clear();
    list.PushBack(4);
    first := list.Get(0);
    second := list.Get(1);
  }

  /** The cached count through two front pushes, a front pop and a back pop: 0, 1, 2, 1, 0. */
  method CountThroughPushesAndPops() returns (c0: nat, c1: nat, c2: nat, c3: nat, c4: nat)
    ensures c0 == 0 && c1 == 1 && c2 == 2 && c3 == 1 && c4 == 0
  {
    var list := new ChunkList<int>(2);
    c0 := list.ElementsCount();
    list.PushFront(1);
    c1 := list.ElementsCount();
    list.PushFront(2);
    c2 := list.ElementsCount();
    var front := list.PopFront();
    c3 := list.ElementsCount();
    var back := list.PopBack();
    c4 := list.ElementsCount();
  }

  /** A single element pushed at the front comes back from the back, leaving no chunk. */
  method FrontToBack() returns (r: Option<int>, chunks: nat)
    ensures r == Some(1) && chunks == 0
  {
    var list := new ChunkList<int>(2);
    list.PushFront(1);
    r := list.PopBack();
    chunks := list.ChunksCount();
  }

  /**
   * On the one full chunk [1, 2], the scan of the Rust `remove` stops at chunk 0 with a
   * running count of 0 for index 1, below the index, so its offset `count - i` is negative. The
   * corrected remove returns 2 and leaves 1 alone in the list.
   */
  method RemoveSecondOfTwo() returns (chunkI: nat, count: nat, r: Option<int>, first: Option<int>, second: Option<int>)
    ensures chunkI == 0 && count == 0 && count < 1
    ensures r == Some(2) && first == Some(1) && second == None
  {
    var list := new ChunkList<int>(2);
    list.PushBack(1);
    list.PushBack(2);
    assert list.Elements() == [1, 2];
    chunkI, count := list.LocateAsWritten(1);
    r := list.Remove(1);
    first := list.Get(0);
    second := list.Get(1);
  }
}
