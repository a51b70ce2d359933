/** The bounded ring of recent observations (wsn/common/trust/interaction-history.c). */
module InteractionHistory {
  import opened Common

  datatype Cursor = Null | At(index: nat)

  /** What one push does to the observations held, oldest first. */
  function Pushed(contents: seq<nat>, size: nat, x: nat): (r: seq<nat>)
    requires 0 < size && |contents| <= size
    ensures |r| == if |contents| == size then size else |contents| + 1
  {
    (if |contents| == size then contents[1..] else contents) + [x]
  }

  function PushedAll(contents: seq<nat>, size: nat, xs: seq<nat>): (r: seq<nat>)
    requires 0 < size && |contents| <= size
    ensures |r| <= size
  {
    if |xs| == 0 then contents
    else Pushed(PushedAll(contents, size, xs[..|xs| - 1]), size, xs[|xs| - 1])
  }

  function LastN(xs: seq<nat>, n: nat): (r: seq<nat>) {
    if |xs| <= n then xs else xs[|xs| - n..]
  }

  /** A run of pushes on an empty ring keeps exactly the last `size` values, in order. */
  lemma {:induction false} PushesKeepLast(size: nat, xs: seq<nat>)
    requires 0 < size
    ensures PushedAll([], size, xs) == LastN(xs, size)
  {
    if |xs| > 0 {
      PushesKeepLast(size, xs[..|xs| - 1]);
      LastAfterPush(size, xs);
    }
  }

  lemma LastAfterPush(size: nat, xs: seq<nat>)
    requires 0 < size && |xs| > 0
    ensures Pushed(LastN(xs[..|xs| - 1], size), size, xs[|xs| - 1]) == LastN(xs, size)
  {
    var n := |xs| - 1;
    if n >= size {
      var last := LastN(xs[..n], size);
      assert last == xs[n - size..n];
      assert last[1..] + [xs[n]] == xs[n + 1 - size..];
    }
  }

  /** The `count` elements of the buffer from `head` on, going round its end. */
  ghost function View(a: seq<nat>, head: nat, count: nat): (s: seq<nat>)
    requires head < |a| && count <= |a|
    ensures |s| == count
    ensures forall i :: 0 <= i < count ==> s[i] == a[Wrap(head + i, |a|)]
  {
    seq(count, i requires 0 <= i < count => a[Wrap(head + i, |a|)])
  }

  lemma ViewDropFirst(a: seq<nat>, head: nat, count: nat)
    requires head < |a| && 0 < count <= |a|
    ensures View(a, head, count)[1..] == View(a, Wrap(head + 1, |a|), count - 1)
  {
  }

  lemma ViewAppend(a: seq<nat>, head: nat, count: nat, x: nat)
    requires head < |a| && count < |a|
    ensures Wrap(head + count, |a|) < |a|
    ensures View(a[Wrap(head + count, |a|) := x], head, count + 1) == View(a, head, count) + [x]
  {
  }

  class Ring {
    const size: nat
    const interactions: array<nat>
    var head: nat
    var tail: nat
    var count: nat

    ghost predicate Valid()
      reads this
    {
      && 0 < size == interactions.Length
      && head < size && tail < size && count <= size
      && tail == Wrap(head + count, size)
    }

    ghost function Contents(): (s: seq<nat>)
      requires Valid()
      reads this, interactions
    {
      View(interactions[..], head, count)
    }

    constructor (size: nat)
      requires 0 < size
      ensures Valid() && Contents() == [] && this.size == size && fresh(interactions)
    {
      this.size := size;
      interactions := new nat[size];
      head, tail, count := 0, 0, 0;
    }

    /** The index after `i`, computed with the source's `%`. */
    method Advance(i: nat) returns (r: nat)
      requires 0 < size && i < size
      ensures r == Wrap(i + 1, size)
    {
      r := (i + 1) % size;
      if i + 1 < size {
        assert r == i + 1;
      }
    }

    /** The element under the cursor, oldest first. */
    method Get(c: Cursor, ghost k: nat) returns (x: nat)
      requires Valid() && k < count && c == CursorAt(k)
      ensures x == Contents()[k]
    {
      x := interactions[c.index];
    }

    method Push(x: nat)
      requires Valid()
      modifies this, interactions
      ensures Valid() && Contents() == Pushed(old(Contents()), size, x)
    {
      MakeRoom();
      Append(x);
    }

    /** A full ring gives up its oldest element. */
    method MakeRoom()
      requires Valid()
      modifies this
      ensures Valid() && count < size && tail == old(tail)
      ensures Contents() == if old(count) == size then old(Contents())[1..] else old(Contents())
    {
      if count == size {
        ViewDropFirst(interactions[..], head, count);
        head := Advance(head);
        count := count - 1;
      }
    }

    method Append(x: nat)
      requires Valid() && count < size
      modifies this, interactions
      ensures Valid() && Contents() == old(Contents()) + [x]
    {
      ghost var a := interactions[..];
      ViewAppend(a, head, count, x);
      interactions[tail] := x;
      assert interactions[..] == a[tail := x];
      tail := Advance(tail);
      count := count + 1;
    }

    /** The oldest element, or Null when the ring is empty. */
    method Iter() returns (c: Cursor)
      requires Valid()
      ensures c == CursorAt(0)
    {
      if count == 0 {
        return Null;
      }
      return At(head);
    }

    /** From element `k`, the cursor moves to element k + 1, or to Null after the last. */
    method Next(c: Cursor, ghost k: nat) returns (r: Cursor)
      requires Valid() && k < count && c == CursorAt(k)
      ensures r == CursorAt(k + 1)
    {
      var i := c.index + 1;
      if i == size {
        i := 0;
      }
      if i == tail {
        return Null;
      } else {
        return At(i);
      }
    }

    /** Where the iterator stands after k steps: at element k, or Null once all are visited. */
    ghost function CursorAt(k: nat): Cursor
      requires Valid() && k <= count
      reads this
    {
      if k == count then Null else At(Wrap(head + k, size))
    }
  }
}
