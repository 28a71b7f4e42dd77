/** The circular deferral queue of the software NCQ scheduler (sata_nv.c).
  *
  * `head` and `tail` are free-running 32-bit counters; the slot of a counter is its value modulo
  * the queue size, a power of two.  The class below keeps the counters, the slots and the bit
  * mask exactly as the driver does and is proved against the plain sequence `Contents()`.
  */
module DeferQueues {
  import opened Libata
  import opened Remainders

  const TWO32: nat := 0x1_0000_0000
  const ATA_TAG_POISON: nat := 0xfafb_fcfd

  /** The sizes ATA_MAX_QUEUE may have: a power of two that fits a 32-bit mask. */
  predicate QueueSize(n: nat) {
    n == 1 || n == 2 || n == 4 || n == 8 || n == 16 || n == 32
  }

  predicate Below(q: seq<nat>, n: nat) {
    forall i :: 0 <= i < |q| ==> q[i] < n
  }

  /** Unsigned 32-bit addition and subtraction of counters. */
  function Plus(x: nat, y: nat): nat {
    if x + y < TWO32 then x + y else (x + y) % TWO32
  }

  function Used(head: nat, tail: nat): nat {
    if head <= tail then tail - head else (tail - head) % TWO32
  }

  /** The slot of the i-th queued entry, counted from `head` with wrap-around of the counter. */
  function Slot(head: nat, i: nat, n: nat): (slot: nat)
    requires n > 0
    ensures slot < n
  {
    Plus(head, i) % n
  }

  function Window(slots: seq<nat>, head: nat, count: nat): seq<nat>
    requires |slots| > 0
  {
    seq(count, i requires 0 <= i < count => slots[Slot(head, i, |slots|)])
  }

  /** Wrapping the counter at 2^32 does not disturb the slots. */
  lemma SlotIgnoresWrap(head: nat, i: nat, n: nat)
    requires QueueSize(n) && head < TWO32 && i <= 64
    ensures Slot(head, i, n) == (head + i) % n
  {}

  /** Different entries of a window no longer than the queue live in different slots. */
  lemma SlotsDiffer(head: nat, i: nat, j: nat, n: nat)
    requires QueueSize(n) && head < TWO32 && i < j < i + n && j <= 64
    ensures Slot(head, i, n) != Slot(head, j, n)
  {
    SlotIgnoresWrap(head, i, n);
    SlotIgnoresWrap(head, j, n);
    RemaindersDiffer(head + i, j - i, n);
  }

  /** Stepping `head` by one, wrapping included, moves every entry forward by one place. */
  lemma SlotShift(head: nat, i: nat, n: nat)
    requires QueueSize(n) && head < TWO32 && i < 64
    ensures Slot(Plus(head, 1), i, n) == Slot(head, i + 1, n)
  {}

  /** Pigeonhole: distinct tags below n fill at most n places. */
  lemma {:induction false} DistinctBelow(q: seq<nat>, n: nat)
    requires Distinct(q) && Below(q, n)
    ensures |q| <= n
  {
    if q == [] {
      return;
    }
    assert q[0] < n;
    if n - 1 in q {
      var k :| 0 <= k < |q| && q[k] == n - 1;
      var rest := q[..k] + q[k + 1..];
      assert forall i :: 0 <= i < |rest| ==> rest[i] == q[if i < k then i else i + 1];
      DistinctBelow(rest, n - 1);
    } else {
      DistinctBelow(q, n - 1);
    }
  }

  /** Storing into the slot after the window appends to the window. */
  lemma WindowPush(slots: seq<nat>, head: nat, count: nat, t: nat)
    requires QueueSize(|slots|) && head < TWO32 && count < |slots|
    ensures Window(slots[Slot(head, count, |slots|) := t], head, count + 1) == Window(slots, head, count) + [t]
  {
    forall i | 0 <= i < count
      ensures Slot(head, i, |slots|) != Slot(head, count, |slots|)
    {
      SlotsDiffer(head, i, count, |slots|);
    }
  }

  /** Poisoning the first slot of the window and stepping `head` drops the first entry. */
  lemma WindowPop(slots: seq<nat>, head: nat, count: nat, poison: nat)
    requires QueueSize(|slots|) && head < TWO32 && 0 < count <= |slots|
    ensures Window(slots[Slot(head, 0, |slots|) := poison], Plus(head, 1), count - 1)
         == Window(slots, head, count)[1..]
  {
    var rest := Window(slots[Slot(head, 0, |slots|) := poison], Plus(head, 1), count - 1);
    forall i | 0 <= i < count - 1
      ensures rest[i] == Window(slots, head, count)[i + 1]
    {
      SlotShift(head, i, |slots|);
      SlotsDiffer(head, 0, i + 1, |slots|);
    }
  }

  /** `tail` is the counter one past the window. */
  lemma TailCounter(head: nat, tail: nat)
    requires head < TWO32 && tail < TWO32 && Used(head, tail) <= 32
    ensures Plus(head, Used(head, tail)) == tail
    ensures Plus(tail, 1) < TWO32 && Used(head, Plus(tail, 1)) == Used(head, tail) + 1
    ensures Plus(head, 1) < TWO32 && head != tail ==> Used(Plus(head, 1), tail) == Used(head, tail) - 1
  {
    if tail < head {
      RemainderIs(tail - head, TWO32, -1, tail - head + TWO32);
      RemainderIs(tail + TWO32, TWO32, 1, tail);
      RemainderIs(tail - head - 1, TWO32, -1, tail - head - 1 + TWO32);
      RemainderIs(tail + 1 - head, TWO32, -1, tail + 1 - head + TWO32);
    } else if head > 0 {
      RemainderIs(0 - head, TWO32, -1, TWO32 - head);
    }
    RemainderIs(TWO32, TWO32, 1, 0);
  }

  lemma NoElements(q: seq<nat>)
    ensures Elements(q) == {} <==> q == []
  {
    if q != [] {
      assert q[0] in Elements(q);
    }
  }

  lemma ElementsOfPush(q: seq<nat>, t: nat)
    ensures Elements(q + [t]) == Elements(q) + {t}
  {}

  lemma ElementsOfPop(q: seq<nat>)
    requires q != [] && Distinct(q)
    ensures Elements(q[1..]) == Elements(q) - {q[0]}
  {
    assert q == [q[0]] + q[1..];
  }

  class DeferQueue {
    var head: nat
    var tail: nat
    var deferBits: set<nat>
    const tag: array<nat>

    ghost predicate Valid()
      reads this, tag
    {
      && QueueSize(tag.Length)
      && head < TWO32 && tail < TWO32
      && Used(head, tail) <= tag.Length
      && deferBits == Elements(Contents())
      && Distinct(Contents())
      && Below(Contents(), tag.Length)
    }

    /** The queued tags, oldest first. */
    ghost function Contents(): (q: seq<nat>)
      reads this, tag
    {
      if tag.Length == 0 then [] else Window(tag[..], head, Used(head, tail))
    }

    constructor (n: nat)
      requires QueueSize(n)
      ensures Valid() && fresh(tag) && tag.Length == n && Contents() == []
    {
      head, tail, deferBits := 0, 0, {};
      tag := new nat[n];
    }

    /** The queue part of nv_swncq_pp_reinit. */
    method Reset()
      requires Valid()
      modifies this
      ensures Valid() && Contents() == []
    {
      head, tail, deferBits := 0, 0, {};
    }

    /** nv_swncq_qc_to_dq.  `full` is the condition of its queue-full warning. */
    method Push(t: nat) returns (full: bool)
      requires Valid() && t < tag.Length && t !in Contents()
      modifies this, tag
      ensures Valid()
      ensures Contents() == old(Contents()) + [t]
      ensures !full
    {
      ghost var q, slots := Contents(), tag[..];
      DistinctBelow(q + [t], tag.Length);
      TailCounter(head, tail);
      WindowPush(slots, head, |q|, t);
      ElementsOfPush(q, t);
      full := Used(head, tail) == tag.Length;
      deferBits := deferBits + {t};
      tag[tail % tag.Length] := t;
      tail := Plus(tail, 1);
      assert tag[..] == slots[Slot(head, |q|, |slots|) := t];
      assert Contents() == q + [t];
    }

    /** nv_swncq_qc_from_dq without the final lookup: the tag taken, or None on an empty queue.
      * The slot is poisoned.  `unmarked` is the condition of its warning about a tag missing from
      * the mask. */
    method Pop() returns (t: Option<nat>, unmarked: bool)
      requires Valid()
      modifies this, tag
      ensures Valid()
      ensures old(Contents()) == [] ==> t == None && Contents() == []
      ensures old(Contents()) != [] ==>
        t == Some(old(Contents())[0]) && Contents() == old(Contents())[1..]
      ensures !unmarked
    {
      if head == tail {
        return None, false;
      }
      ghost var q, slots := Contents(), tag[..];
      TailCounter(head, tail);
      WindowPop(slots, head, |q|, ATA_TAG_POISON);
      ElementsOfPop(q);
      SlotIgnoresWrap(head, 0, tag.Length);
      var first := tag[head % tag.Length];
      tag[head % tag.Length] := ATA_TAG_POISON;
      head := Plus(head, 1);
      assert tag[..] == slots[Slot(old(head), 0, |slots|) := ATA_TAG_POISON];
      unmarked := first !in deferBits;
      deferBits := deferBits - {first};
      assert Contents() == q[1..];
      t := Some(first);
    }
  }
}
