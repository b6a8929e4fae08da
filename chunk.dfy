/**
 * A chunk: a bounded buffer holding at most `N` elements, with pushes and pops at
 * both ends and indexed access and removal inside its capacity.
 */
module Chunks {
  import opened Wrappers

  /**
   * `s` rotated right by `k` places, as `rotate_right` leaves a vector: the last `k`
   * elements move to the front and every other element moves `k` places up.
   */
  function RotateRight<T>(s: seq<T>, k: nat): (r: seq<T>)
    requires k <= |s|
    ensures |r| == |s|
    ensures forall j :: 0 <= j < |s| - k ==> r[j + k] == s[j]
    ensures forall j :: |s| - k <= j < |s| ==> r[j + k - |s|] == s[j]
  {
    s[|s| - k..] + s[..|s| - k]
  }

  /** Appending `v` and rotating right by one puts `v` in front of the old contents. */
  lemma RotateRightOnce<T>(s: seq<T>, v: T)
    ensures RotateRight(s + [v], 1) == [v] + s
  {
    var t := s + [v];
    assert t[|t| - 1..] == [v];
    assert t[..|t| - 1] == s;
  }

  class Chunk<T> {
    /** The capacity, fixed when the chunk is made. */
    const N: nat
    var elements: seq<T>

    ghost predicate Valid()
      reads this
    {
      |elements| <= N
    }

    constructor (n: nat)
      ensures Valid() && N == n && elements == []
    {
      N := n;
      elements := [];
    }

    function Len(): (r: nat)
      reads this
      ensures Valid() ==> r <= N
    {
      |elements|
    }

    function IsEmpty(): (empty: bool)
      reads this
      ensures empty <==> elements == []
    {
      Len() == 0
    }

    /** Full means there is no room left for another element. */
    function IsFull(): (full: bool)
      reads this
      ensures Valid() ==> (full <==> |elements| >= N)
    {
      Len() == N
    }

    /** Appends `v` unless the chunk is full; `ok` reports whether it did. */
    method PushBack(v: T) returns (ok: bool)
      requires Valid()
      modifies this
      ensures Valid()
      ensures ok <==> |old(elements)| < N
      ensures elements == if ok then old(elements) + [v] else old(elements)
    {
      if IsFull() {
        return false;
      }
      elements := elements + [v];
      return true;
    }

    /** Prepends `v` unless the chunk is full, by appending it and rotating right by one. */
    method PushFront(v: T) returns (ok: bool)
      requires Valid()
      modifies this
      ensures Valid()
      ensures ok <==> |old(elements)| < N
      ensures elements == if ok then [v] + old(elements) else old(elements)
    {
      if IsFull() {
        return false;
      }
      RotateRightOnce(elements, v);
      elements := elements + [v];
      elements := RotateRight(elements, 1);
      return true;
    }

    method PopBack() returns (r: Option<T>)
      requires Valid()
      modifies this
      ensures Valid()
      ensures old(elements) == [] ==> r == None && elements == []
      ensures old(elements) != [] ==>
        r == Some(old(elements)[|old(elements)| - 1]) && elements == old(elements)[..|old(elements)| - 1]
    {
      if elements == [] {
        return None;
      }
      r := Some(elements[|elements| - 1]);
      elements := elements[..|elements| - 1];
    }

    /** Removes the first element; a chunk of capacity 0 is a programming error, as for Remove. */
    method PopFront() returns (r: Option<T>)
      requires Valid() && 0 < N
      modifies this
      ensures Valid()
      ensures old(elements) == [] ==> r == None && elements == []
      ensures old(elements) != [] ==> r == Some(old(elements)[0]) && elements == old(elements)[1..]
    {
      r := Remove(0);
    }

    /**
     * The element at `i`, or None when `i` is past the last element. An index at or beyond
     * the capacity is a programming error (the source panics), hence the precondition.
     */
    function Get(i: nat): (r: Option<T>)
      reads this
      requires i < N
      ensures r.Some? <==> i < |elements|
      ensures r.Some? ==> r.value == elements[i]
    {
      if i < |elements| then Some(elements[i]) else None
    }

    /**
     * Removes and returns what Get(i) would return, closing the gap; with nothing at `i`
     * the chunk is left unchanged. An index at or beyond the capacity is a programming error.
     */
    method Remove(i: nat) returns (r: Option<T>)
      requires Valid() && i < N
      modifies this
      ensures Valid()
      ensures r == old(Get(i))
      ensures elements == if i < |old(elements)| then old(elements)[..i] + old(elements)[i + 1..] else old(elements)
    {
      if i >= |elements| {
        return None;
      }
      r := Some(elements[i]);
      elements := elements[..i] + elements[i + 1..];
    }
  }
}
