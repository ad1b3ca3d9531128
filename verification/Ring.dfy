/**
 A ring of fixed size with a current element, the part of Go's container/ring that the servo
 filter and the fbclock daemon use: `r.Value = v; r = r.Next()`, `r.Do(f)` and a walk with `r.Prev()`.
 */
module Rings {
  import opened Words

  /** The last `n` elements of a sequence, or all of it when it is shorter. */
  function LastN<T>(s: seq<T>, n: nat): (w: seq<T>)
    ensures |w| == Min(|s|, n)
    ensures forall i :: 0 <= i < |w| ==> w[i] == s[|s| - |w| + i]
  {
    if |s| <= n then s else s[|s| - n..]
  }

  function Min(a: nat, b: nat): nat {
    if a < b then a else b
  }

  /** Pushing one more element drops the oldest one of a full window. */
  lemma LastNPush<T>(s: seq<T>, x: T, n: nat)
    requires n > 0
    ensures |s| < n ==> LastN(s + [x], n) == LastN(s, n) + [x]
    ensures |s| >= n ==> LastN(s + [x], n) == LastN(s, n)[1..] + [x]
  {
  }

  /** Slot `i` of a ring of `n`, counted forward from the current one, after the given pushes. */
  function SlotAfter<T>(pushed: seq<T>, n: nat, i: nat): Option<T>
    requires i < n
  {
    if i + |pushed| < n then None else Some(pushed[|pushed| - n + i])
  }

  /** A ring holds the last `n` pushes, after as many empty slots as are left. */
  lemma SlotOfLast<T>(pushed: seq<T>, n: nat, i: nat)
    requires i < n
    ensures var last := LastN(pushed, n);
            && |last| <= n
            && SlotAfter(pushed, n, i) == if i < n - |last| then None else Some(last[i - (n - |last|)])
  {
  }

  class Ring<T> {
    const slots: array<Option<T>>
    var at: nat
    ghost var pushed: seq<T>

    ghost predicate Valid()
      reads this, slots
    {
      && at < slots.Length
      && forall i :: 0 <= i < slots.Length ==> Ahead(i) == SlotAfter(pushed, slots.Length, i)
    }

    /** The slot `i` places after the current one. */
    function Ahead(i: nat): Option<T>
      requires at < slots.Length && i < slots.Length
      reads this, slots
    {
      slots[if at + i < slots.Length then at + i else at + i - slots.Length]
    }

    constructor (n: nat)
      requires n > 0
      ensures Valid() && fresh(slots)
      ensures slots.Length == n && pushed == []
    {
      slots := new Option<T>[n](_ => None);
      at := 0;
      pushed := [];
    }

    /** The current slot: the oldest element once the ring is full, and empty before. */
    function Value(): (v: Option<T>)
      requires Valid()
      reads this, slots
      ensures v == if |pushed| < slots.Length then None else Some(pushed[|pushed| - slots.Length])
    {
      assert slots[at] == Ahead(0);
      slots[at]
    }

    method Push(x: T)
      requires Valid()
      modifies this, slots
      ensures Valid() && pushed == old(pushed) + [x]
    {
      slots[at] := Some(x);
      at := if at + 1 == slots.Length then 0 else at + 1;
      pushed := pushed + [x];
      forall i | 0 <= i < slots.Length
        ensures Ahead(i) == SlotAfter(pushed, slots.Length, i)
      {
        if i + 1 < slots.Length {
          assert Ahead(i) == old(Ahead(i + 1));
        }
      }
    }

    /** What Valid says about one slot. */
    lemma Slot(i: nat)
      requires Valid() && i <= slots.Length
      ensures at < slots.Length
      ensures var k := if at + i < slots.Length then at + i else at + i - slots.Length;
              i < slots.Length ==> slots[k] == SlotAfter(pushed, slots.Length, i)
    {
      if i < slots.Length {
        assert Ahead(i) == SlotAfter(pushed, slots.Length, i);
      }
    }

    /** The elements that `Do` visits, in the order of the visit. */
    method Visit() returns (w: seq<T>)
      requires Valid()
      ensures w == LastN(pushed, slots.Length)
    {
      hide *;
      w := [];
      Slot(0);
      SlotOfLast(pushed, slots.Length, 0);
      ghost var last := LastN(pushed, slots.Length);
      ghost var blanks := slots.Length - |last|;
      var here := at;
      for i := 0 to slots.Length
        invariant here == if at + i < slots.Length then at + i else at + i - slots.Length
        invariant w == last[..if i <= blanks then 0 else i - blanks]
      {
        Slot(i);
        SlotOfLast(pushed, slots.Length, i);
        if slots[here].Some? {
          assert last[..i + 1 - blanks] == last[..i - blanks] + [last[i - blanks]];
          w := w + [slots[here].value];
        }
        here := if here + 1 == slots.Length then 0 else here + 1;
      }
      assert last[..|last|] == last;
    }

    /**
     The walk backwards of at most `n` steps, newest element first. The walk stays where it is once
     it meets an empty slot, and goes round again in a full ring.
     */
    method Take(n: int) returns (w: seq<T>)
      requires Valid()
      ensures |w| == TakeLength(n, |pushed|, slots.Length)
      ensures forall k :: 0 <= k < |w| ==> w[k] == NewestCyclic(pushed, slots.Length, k)
      ensures 0 <= n <= slots.Length ==> w == Newest(pushed, n)
    {
      w := [];
      var size := slots.Length;
      var r := if at == 0 then size - 1 else at - 1;
      ghost var back := 0;
      var j := 0;
      while j < n
        invariant 0 <= j && (n < 0 ==> j == 0) && (n >= 0 ==> j <= n)
        invariant 0 <= back < size
        invariant r == if at - 1 - back >= 0 then at - 1 - back else at - 1 - back + size
        invariant |w| == TakeLength(j, |pushed|, size)
        invariant back == Cyclic(|w|, size)
        invariant forall k :: 0 <= k < |w| ==> w[k] == NewestCyclic(pushed, size, k)
      {
        assert slots[r] == Ahead(size - 1 - back) == SlotAfter(pushed, size, size - 1 - back);
        if slots[r].Some? {
          CyclicNext(|w|, size);
          w := w + [slots[r].value];
          r := if r == 0 then size - 1 else r - 1;
          back := if back + 1 == size then 0 else back + 1;
        }
        j := j + 1;
      }
    }
  }

  /** The last `n` elements, or all of them when there are fewer, newest first. */
  function Newest<T>(s: seq<T>, n: nat): (w: seq<T>)
    ensures |w| == Min(n, |s|)
    ensures forall k :: 0 <= k < |w| ==> w[k] == s[|s| - 1 - k]
  {
    seq(Min(n, |s|), k requires 0 <= k < Min(n, |s|) => s[|s| - 1 - k])
  }

  /** Position `k` of an endless walk round `n` places. */
  function Cyclic(k: nat, n: nat): (i: nat)
    requires n > 0
    ensures i < n && (k < n ==> i == k)
    decreases k
  {
    if k < n then k else Cyclic(k - n, n)
  }

  lemma {:induction false} CyclicNext(k: nat, n: nat)
    requires n > 0
    ensures Cyclic(k + 1, n) == if Cyclic(k, n) + 1 == n then 0 else Cyclic(k, n) + 1
    decreases k
  {
    if k >= n {
      CyclicNext(k - n, n);
    }
  }

  function TakeLength(n: int, pushes: nat, size: nat): nat {
    if n < 0 then 0 else if pushes < size && pushes < n then pushes else n
  }

  /** The `k`-th newest push still in the ring, counting round and round. */
  function NewestCyclic<T>(pushed: seq<T>, size: nat, k: nat): T
    requires size > 0 && (|pushed| >= size || k < |pushed|)
  {
    pushed[|pushed| - 1 - Cyclic(k, size)]
  }
}
