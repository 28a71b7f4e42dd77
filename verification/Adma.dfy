/** Scatter lists turned into ADMA descriptor chains (sata_nv.c): the first five descriptors lie in
  * the command block, the others in the tag's part of an external table that `next_aprd` names.
  */
module AdmaChains {
  import PrdTables

  type Segment = PrdTables.Segment

  const MAX_CPBS := 32
  const CPB_SZ := 128
  const APRD_SZ := 16
  const INLINE_LEN := 5
  const SGTBL_LEN := (1024 - CPB_SZ) / APRD_SZ
  const SGTBL_TOTAL_LEN := SGTBL_LEN + INLINE_LEN
  const SGTBL_SZ := SGTBL_LEN * APRD_SZ
  const PORT_PRIV_DMA_SZ := MAX_CPBS * (CPB_SZ + SGTBL_SZ)

  /** The flag bits of a descriptor by name; `packet_len` is always 0. */
  datatype Aprd = Aprd(segment: Segment, write: bool, end: bool, cont: bool)

  // ---------------------------------------------------------------------------------------------
  // The engine: it reads on after CONT, stops after END, and follows `next_aprd` after neither

  datatype Stop = Done | Jump | Fault

  datatype Trace = Trace(visited: seq<Aprd>, stop: Stop)

  function Follow(table: seq<Aprd>, i: nat): Trace
    decreases |table| - i
  {
    if i >= |table| then Trace([], Fault)
    else if table[i].end then Trace([table[i]], Done)
    else if table[i].cont then
      var r := Follow(table, i + 1);
      Trace([table[i]] + r.visited, r.stop)
    else Trace([table[i]], Jump)
  }

  /** What the engine visits for a command block, the external table being at bus address
    * `aprdDma`.  A second jump, or a jump elsewhere, is a fault. */
  function Walk(block: seq<Aprd>, next: nat, aprdDma: nat, ext: seq<Aprd>): Trace {
    var first := Follow(block, 0);
    if first.stop != Jump then first
    else if next < aprdDma || (next - aprdDma) % APRD_SZ != 0 then Trace(first.visited, Fault)
    else
      var r := Follow(ext, (next - aprdDma) / APRD_SZ);
      Trace(first.visited + r.visited, if r.stop == Done then Done else Fault)
  }

  // ---------------------------------------------------------------------------------------------
  // What the driver writes

  /** nv_adma_fill_aprd. */
  function Descriptor(sg: seq<Segment>, idx: nat, write: bool): Aprd
    requires idx < |sg|
  {
    Aprd(sg[idx], write, idx == |sg| - 1, idx != |sg| - 1 && idx != INLINE_LEN - 1)
  }

  function Descriptors(sg: seq<Segment>, from: nat, to: nat, write: bool): (r: seq<Aprd>)
    requires from <= to <= |sg|
  {
    seq(to - from, k requires 0 <= k < to - from => Descriptor(sg, from + k, write))
  }

  function NextAprd(n: nat, aprdDma: nat, tag: nat): nat {
    if n > INLINE_LEN then aprdDma + SGTBL_SZ * tag else 0
  }

  /** Entry j of the external tables belongs to the tag. */
  predicate InTable(tag: nat, j: int) {
    SGTBL_LEN * tag <= j < SGTBL_LEN * tag + SGTBL_LEN
  }

  /** The tag's descriptors and pointer are those of a scatter list. */
  ghost predicate Holds(sg: seq<Segment>, write: bool, tag: nat, block: seq<Aprd>, next: nat, aprdDma: nat,
                        ext: seq<Aprd>)
  {
    && 1 <= |sg| <= SGTBL_TOTAL_LEN && |block| == INLINE_LEN
    && SGTBL_LEN * tag + SGTBL_LEN <= |ext|
    && (forall k :: 0 <= k < |sg| && k < INLINE_LEN ==> block[k] == Descriptor(sg, k, write))
    && (forall j :: SGTBL_LEN * tag <= j < SGTBL_LEN * tag + |sg| - INLINE_LEN ==>
          ext[j] == Descriptor(sg, j - SGTBL_LEN * tag + INLINE_LEN, write))
    && next == NextAprd(|sg|, aprdDma, tag)
  }

  lemma {:induction false} FollowBlock(sg: seq<Segment>, write: bool, block: seq<Aprd>, i: nat)
    requires |block| == INLINE_LEN && i < |sg| && i < INLINE_LEN
    requires forall k :: 0 <= k < |sg| && k < INLINE_LEN ==> block[k] == Descriptor(sg, k, write)
    ensures |sg| <= INLINE_LEN ==> Follow(block, i) == Trace(Descriptors(sg, i, |sg|, write), Done)
    ensures |sg| > INLINE_LEN ==> Follow(block, i) == Trace(Descriptors(sg, i, INLINE_LEN, write), Jump)
    decreases INLINE_LEN - i
  {
    if i < |sg| - 1 && i < INLINE_LEN - 1 {
      FollowBlock(sg, write, block, i + 1);
    }
  }

  lemma {:induction false} FollowExt(sg: seq<Segment>, write: bool, ext: seq<Aprd>, base: nat, k: nat)
    requires INLINE_LEN + k < |sg| && base + |sg| - INLINE_LEN <= |ext|
    requires forall j :: base <= j < base + |sg| - INLINE_LEN ==> ext[j] == Descriptor(sg, j - base + INLINE_LEN, write)
    ensures Follow(ext, base + k) == Trace(Descriptors(sg, INLINE_LEN + k, |sg|, write), Done)
    decreases |sg| - k
  {
    if INLINE_LEN + k < |sg| - 1 {
      FollowExt(sg, write, ext, base, k + 1);
    }
  }

  /** The engine visits exactly the scatter list, in order and in the right direction, and stops. */
  lemma ChainFaithful(sg: seq<Segment>, write: bool, tag: nat, block: seq<Aprd>, next: nat, aprdDma: nat,
                      ext: seq<Aprd>)
    requires Holds(sg, write, tag, block, next, aprdDma, ext)
    ensures
      var t := Walk(block, next, aprdDma, ext);
      && t == Trace(Descriptors(sg, 0, |sg|, write), Done)
      && forall k :: 0 <= k < |sg| ==> t.visited[k].segment == sg[k] && t.visited[k].write == write
  {
    FollowBlock(sg, write, block, 0);
    if |sg| > INLINE_LEN {
      FollowExt(sg, write, ext, SGTBL_LEN * tag, 0);
      assert (next - aprdDma) / APRD_SZ == SGTBL_LEN * tag;
      var first, rest := Descriptors(sg, 0, INLINE_LEN, write), Descriptors(sg, INLINE_LEN, |sg|, write);
      assert first + rest == Descriptors(sg, 0, |sg|, write);
    }
    assert Walk(block, next, aprdDma, ext) == Trace(Descriptors(sg, 0, |sg|, write), Done);
  }

  /** Filling tag t's external table disturbs no other tag's chain. */
  lemma OthersKept(sg: seq<Segment>, write: bool, u: nat, block: seq<Aprd>, next: nat, aprdDma: nat,
                   ext: seq<Aprd>, t: nat, ext': seq<Aprd>)
    requires Holds(sg, write, u, block, next, aprdDma, ext) && t != u && |ext'| == |ext|
    requires forall j :: 0 <= j < |ext| && !InTable(t, j) ==> ext'[j] == ext[j]
    ensures Holds(sg, write, u, block, next, aprdDma, ext')
    ensures Walk(block, next, aprdDma, ext') == Walk(block, next, aprdDma, ext)
  {
    assert SGTBL_LEN * u + SGTBL_LEN <= SGTBL_LEN * t || SGTBL_LEN * t + SGTBL_LEN <= SGTBL_LEN * u;
    assert Holds(sg, write, u, block, next, aprdDma, ext');
    ChainFaithful(sg, write, u, block, next, aprdDma, ext);
    ChainFaithful(sg, write, u, block, next, aprdDma, ext');
  }

  /** Where the k-th descriptor of a tag's external table lies on the bus. */
  function Address(aprdDma: nat, tag: nat, k: nat): nat {
    aprdDma + SGTBL_SZ * tag + APRD_SZ * k
  }

  /** The block allocated at `memDma` holds the command blocks, then the external tables: the tables
    * of different tags are disjoint, none overlaps the command blocks, all end inside the block. */
  lemma TablesDisjoint(memDma: nat, t: nat, k: nat, u: nat, m: nat)
    requires t < u < MAX_CPBS && k < SGTBL_LEN && m < SGTBL_LEN
    ensures
      var aprdDma := memDma + MAX_CPBS * CPB_SZ;
      && Address(aprdDma, t, k) + APRD_SZ <= Address(aprdDma, u, m)
      && memDma + MAX_CPBS * CPB_SZ <= Address(aprdDma, t, k)
      && Address(aprdDma, u, m) + APRD_SZ <= memDma + PORT_PRIV_DMA_SZ
  {}

  // ---------------------------------------------------------------------------------------------
  // The port

  class AdmaPort {
    const block: array2<Aprd>
    const nextAprd: array<nat>
    const ext: array<Aprd>
    const aprdDma: nat

    ghost predicate Valid() {
      && block.Length0 == MAX_CPBS && block.Length1 == INLINE_LEN
      && nextAprd.Length == MAX_CPBS && ext.Length == MAX_CPBS * SGTBL_LEN
    }

    constructor (memDma: nat)
      ensures Valid() && fresh(block) && fresh(nextAprd) && fresh(ext)
      ensures aprdDma == memDma + MAX_CPBS * CPB_SZ
    {
      var zero := Aprd(PrdTables.Segment(0, 0), false, false, false);
      block := new Aprd[MAX_CPBS, INLINE_LEN]((_, _) => zero);
      nextAprd := new nat[MAX_CPBS](_ => 0);
      ext := new Aprd[MAX_CPBS * SGTBL_LEN](_ => zero);
      aprdDma := memDma + MAX_CPBS * CPB_SZ;
    }

    ghost function Block(tag: nat): seq<Aprd>
      requires Valid() && tag < MAX_CPBS
      reads block
    {
      [block[tag, 0], block[tag, 1], block[tag, 2], block[tag, 3], block[tag, 4]]
    }

    /** The tag's command is set up for this scatter list. */
    ghost predicate SetUp(tag: nat, sg: seq<Segment>, write: bool)
      requires Valid() && tag < MAX_CPBS
      reads block, nextAprd, ext
    {
      Holds(sg, write, tag, Block(tag), nextAprd[tag], aprdDma, ext[..])
    }

    /** nv_adma_fill_aprd. */
    method FillAprd(sg: seq<Segment>, idx: nat, write: bool) returns (a: Aprd)
      requires idx < |sg|
      ensures a == Descriptor(sg, idx, write)
    {
      a := Aprd(sg[idx], write, false, false);
      if idx == |sg| - 1 {
        a := a.(end := true);
      } else if idx != 4 {
        a := a.(cont := true);
      }
    }

    /** nv_adma_fill_sg.  No other tag's command is disturbed. */
    method FillSg(tag: nat, sg: seq<Segment>, write: bool)
      requires Valid() && tag < MAX_CPBS && 1 <= |sg| <= SGTBL_TOTAL_LEN
      modifies block, nextAprd, ext
      ensures SetUp(tag, sg, write)
      ensures forall u, k :: 0 <= u < MAX_CPBS && u != tag && 0 <= k < INLINE_LEN ==> block[u, k] == old(block[u, k])
      ensures forall u :: 0 <= u < MAX_CPBS && u != tag ==> nextAprd[u] == old(nextAprd[u])
      ensures forall j :: 0 <= j < ext.Length && !InTable(tag, j) ==> ext[j] == old(ext[j])
    {
      var base := SGTBL_LEN * tag;
      var si := 0;
      while si < |sg|
        invariant si <= |sg|
        invariant forall k :: 0 <= k < si && k < INLINE_LEN ==> block[tag, k] == Descriptor(sg, k, write)
        invariant forall j :: base <= j < base + si - INLINE_LEN ==>
          ext[j] == Descriptor(sg, j - base + INLINE_LEN, write)
        invariant forall u, k :: 0 <= u < MAX_CPBS && u != tag && 0 <= k < INLINE_LEN ==>
          block[u, k] == old(block[u, k])
        invariant forall j :: 0 <= j < ext.Length && !InTable(tag, j) ==> ext[j] == old(ext[j])
        invariant forall u :: 0 <= u < MAX_CPBS ==> nextAprd[u] == old(nextAprd[u])
      {
        var a := FillAprd(sg, si, write);
        if si < 5 {
          block[tag, si] := a;
        } else {
          ext[base + (si - 5)] := a;
        }
        si := si + 1;
      }
      if si > 5 {
        nextAprd[tag] := aprdDma + SGTBL_SZ * tag;
      } else {
        nextAprd[tag] := 0;
      }
    }
  }
}
