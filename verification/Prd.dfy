/** Scatter lists turned into physical region descriptor tables whose entries never cross 64K:
  * nv_swncq_fill_sg (sata_nv.c) and pdc_fill_sg with its last-entry workaround (sata_promise.c).
  * The table format is that of the Programming Interface for Bus Master IDE Controller 1.0, 1.2.
  */
module PrdTables {
  import opened Remainders

  const WORD := 0x1_0000_0000
  const BOUNDARY := 0x1_0000
  const EOT := 0x8000_0000
  const ATA_MAX_PRD := 256
  const LIBATA_MAX_PRD := ATA_MAX_PRD / 2
  const PDC_MAX_PRD := LIBATA_MAX_PRD - 1
  const SG_COUNT_ASIC_BUG := 41 * 4
  const ATA_MAX_QUEUE := 32

  type U32 = n: nat | n < WORD

  /** One scatter-list segment.  Its bus address may be wider than the 32 bits the drivers keep. */
  datatype Segment = Segment(addr: nat, len: U32)

  datatype Prd = Prd(addr: U32, flagsLen: U32)

  // ---------------------------------------------------------------------------------------------
  // What a table and a scatter list mean: the bytes they name, in order

  function Length(e: Prd): nat {
    if e.flagsLen % BOUNDARY == 0 then BOUNDARY else e.flagsLen % BOUNDARY
  }

  predicate EndOfTable(e: Prd) {
    e.flagsLen >= EOT
  }

  function Range(a: nat, n: nat): seq<nat> {
    seq(n, i => a + i)
  }

  function Bytes(table: seq<Prd>): seq<nat> {
    if table == [] then [] else Range(table[0].addr, Length(table[0])) + Bytes(table[1..])
  }

  function ListBytes(sg: seq<Segment>): seq<nat> {
    if sg == [] then [] else Range(sg[0].addr, sg[0].len) + ListBytes(sg[1..])
  }

  predicate WithinBoundary(e: Prd) {
    0 < Length(e) && e.addr % BOUNDARY + Length(e) <= BOUNDARY
  }

  // ---------------------------------------------------------------------------------------------
  // The tables the drivers write

  /** The length of the next entry; the comparison adds in 32 bits. */
  function Chunk(addr: U32, len: U32): (c: U32)
    requires len > 0
    ensures 0 < c <= len
  {
    if (addr % BOUNDARY + len) % WORD > BOUNDARY then BOUNDARY - addr % BOUNDARY else len
  }

  function Split(addr: U32, len: U32): seq<Prd>
    decreases len
  {
    if len == 0 then []
    else
      var c := Chunk(addr, len);
      [Prd(addr, c % BOUNDARY)] + Split((addr + c) % WORD, len - c)
  }

  function Table(sg: seq<Segment>): seq<Prd> {
    if sg == [] then [] else Split(sg[0].addr % WORD, sg[0].len) + Table(sg[1..])
  }

  function Marked(e: Prd): Prd {
    if EndOfTable(e) then e else e.(flagsLen := e.flagsLen + EOT)
  }

  function Terminated(table: seq<Prd>): seq<Prd>
    requires table != []
  {
    table[..|table| - 1] + [Marked(table[|table| - 1])]
  }

  /** The workaround: a last entry longer than 41 double words is cut in two. */
  function CutLast(table: seq<Prd>): seq<Prd>
    requires table != []
  {
    var n := |table| - 1;
    var last := table[n];
    if last.flagsLen > SG_COUNT_ASIC_BUG then
      table[..n] + [last.(flagsLen := last.flagsLen - SG_COUNT_ASIC_BUG),
                    Prd((last.addr + last.flagsLen - SG_COUNT_ASIC_BUG) % WORD, SG_COUNT_ASIC_BUG)]
    else table
  }

  // ---------------------------------------------------------------------------------------------
  // Bytes of concatenations

  lemma Assoc<T>(a: seq<T>, b: seq<T>, c: seq<T>)
    ensures a + (b + c) == (a + b) + c
  {
  }

  lemma {:induction false} BytesConcat(a: seq<Prd>, b: seq<Prd>)
    ensures Bytes(a + b) == Bytes(a) + Bytes(b)
  {
    if a == [] {
      assert a + b == b;
    } else {
      var first, rest := Range(a[0].addr, Length(a[0])), a[1..];
      BytesConcat(rest, b);
      assert (a + b)[1..] == rest + b;
      Assoc(first, Bytes(rest), Bytes(b));
    }
  }

  lemma RangeConcat(a: nat, n: nat, m: nat)
    ensures Range(a, n) + Range(a + n, m) == Range(a, n + m)
  {}

  lemma OneEntry(e: Prd)
    ensures Bytes([e]) == Range(e.addr, Length(e))
  {}

  lemma TwoEntries(x: Prd, y: Prd)
    ensures Bytes([x, y]) == Range(x.addr, Length(x)) + Range(y.addr, Length(y))
  {
    BytesConcat([x], [y]);
    assert [x] + [y] == [x, y];
    OneEntry(x);
    OneEntry(y);
  }

  // ---------------------------------------------------------------------------------------------
  // Splitting one segment

  /** The sum in the driver's comparison does not exceed 32 bits. */
  predicate NoWrap(addr: nat, len: U32) {
    addr % BOUNDARY + len < WORD
  }

  lemma ChunkWithin(addr: U32, len: U32)
    requires len > 0 && NoWrap(addr, len)
    ensures
      var c := Chunk(addr, len);
      && WithinBoundary(Prd(addr, c % BOUNDARY)) && Length(Prd(addr, c % BOUNDARY)) == c
      && (c < len ==> (addr + c) % WORD % BOUNDARY == 0)
      && NoWrap((addr + c) % WORD, len - c)
  {
  }

  /** The segment is empty, or it ends within 4 GB and the driver's sum does not wrap. */
  predicate Fits(s: Segment) {
    s.len == 0 || (s.addr + s.len <= WORD && NoWrap(s.addr % WORD, s.len))
  }

  /** Without wrap the entries of a segment name as many bytes as it has, all of them below 4 GB. */
  lemma {:induction false} SplitCounts(addr: U32, len: U32)
    requires NoWrap(addr, len)
    ensures |Bytes(Split(addr, len))| == len
    ensures forall b :: b in Bytes(Split(addr, len)) ==> b < WORD
    decreases len
  {
    if len > 0 {
      var c := Chunk(addr, len);
      ChunkWithin(addr, len);
      BelowWord(Prd(addr, c % BOUNDARY));
      SplitCounts((addr + c) % WORD, len - c);
    }
  }

  lemma BelowWord(e: Prd)
    requires WithinBoundary(e)
    ensures forall b :: b in Range(e.addr, Length(e)) ==> b < WORD
  {
    assert e.addr == BOUNDARY * (e.addr / BOUNDARY) + e.addr % BOUNDARY;
  }

  /** The entries of a segment that ends within 4 GB name its bytes in order. */
  lemma {:induction false} SplitFaithful(addr: U32, len: U32)
    requires NoWrap(addr, len) && addr + len <= WORD
    ensures Bytes(Split(addr, len)) == Range(addr, len)
    decreases len
  {
    if len > 0 {
      var c := Chunk(addr, len);
      var e, rest := Prd(addr, c % BOUNDARY), Split((addr + c) % WORD, len - c);
      ChunkWithin(addr, len);
      if c < len {
        assert (addr + c) % WORD == addr + c;
        SplitFaithful(addr + c, len - c);
      }
      assert Bytes(rest) == Range(addr + c, len - c);
      BytesConcat([e], rest);
      OneEntry(e);
      RangeConcat(addr, c, len - c);
    }
  }

  /** A segment whose sum wraps becomes one entry that names fewer bytes than the segment has. */
  lemma WrapLosesBytes(addr: U32, len: U32)
    requires !NoWrap(addr, len)
    ensures |Bytes(Split(addr, len))| < len
  {}

  // ---------------------------------------------------------------------------------------------
  // Whole lists

  predicate NoneWraps(sg: seq<Segment>) {
    forall s :: s in sg ==> NoWrap(s.addr % WORD, s.len)
  }

  predicate AllFit(sg: seq<Segment>) {
    forall s :: s in sg ==> Fits(s)
  }

  lemma {:induction false} TableLength(sg: seq<Segment>)
    ensures |Bytes(Table(sg))| <= |ListBytes(sg)|
    ensures !NoneWraps(sg) ==> |Bytes(Table(sg))| < |ListBytes(sg)|
  {
    if sg != [] {
      var a, n := sg[0].addr % WORD, sg[0].len;
      TableLength(sg[1..]);
      BytesConcat(Split(a, n), Table(sg[1..]));
      if NoWrap(a, n) {
        SplitCounts(a, n);
      } else {
        WrapLosesBytes(a, n);
      }
      assert forall s :: s in sg ==> s == sg[0] || s in sg[1..];
    }
  }

  lemma {:induction false} TableBelow(sg: seq<Segment>)
    requires NoneWraps(sg)
    ensures forall b :: b in Bytes(Table(sg)) ==> b < WORD
  {
    if sg != [] {
      var a, n := sg[0].addr % WORD, sg[0].len;
      SplitCounts(a, n);
      TableBelow(sg[1..]);
      BytesConcat(Split(a, n), Table(sg[1..]));
    }
  }

  /** A segment that runs past 4 GB has a byte there. */
  lemma {:induction false} ListReaches(sg: seq<Segment>, s: Segment)
    requires s in sg && s.len > 0 && s.addr + s.len > WORD
    ensures s.addr + s.len - 1 in ListBytes(sg)
  {
    if sg[0] == s {
      assert Range(s.addr, s.len)[s.len - 1] == s.addr + s.len - 1;
      assert ListBytes(sg)[s.len - 1] == s.addr + s.len - 1;
    } else {
      ListReaches(sg[1..], s);
    }
  }

  lemma FittingSegment(s: Segment)
    requires Fits(s)
    ensures Bytes(Split(s.addr % WORD, s.len)) == Range(s.addr, s.len)
  {
    if s.len > 0 {
      assert s.addr % WORD == s.addr;
      SplitFaithful(s.addr, s.len);
    }
  }

  lemma {:induction false} TableFaithful(sg: seq<Segment>)
    requires AllFit(sg)
    ensures Bytes(Table(sg)) == ListBytes(sg)
  {
    if sg != [] {
      FittingSegment(sg[0]);
      TableFaithful(sg[1..]);
      BytesConcat(Split(sg[0].addr % WORD, sg[0].len), Table(sg[1..]));
    }
  }

  /** Before the end mark: exactly the bytes of the list if and only if every segment fits. */
  lemma TableExact(sg: seq<Segment>)
    ensures Bytes(Table(sg)) == ListBytes(sg) <==> AllFit(sg)
  {
    TableLength(sg);
    if AllFit(sg) {
      TableFaithful(sg);
    } else if NoneWraps(sg) {
      var s :| s in sg && !Fits(s);
      TableBelow(sg);
      ListReaches(sg, s);
    }
  }

  lemma MarkedKeepsBytes(table: seq<Prd>)
    requires table != []
    ensures Bytes(Terminated(table)) == Bytes(table)
  {
    var n := |table| - 1;
    var e := table[n];
    BytesConcat(table[..n], [e]);
    BytesConcat(table[..n], [Marked(e)]);
    assert table == table[..n] + [e];
    OneEntry(e);
    OneEntry(Marked(e));
  }

  /** The table names exactly the bytes of the scatter list, in order, if and only if every segment
    * with bytes ends within 4 GB and no offset within 64K plus length reaches 2^32. */
  lemma ExactlyFaithful(sg: seq<Segment>)
    requires Table(sg) != []
    ensures Bytes(Terminated(Table(sg))) == ListBytes(sg) <==> AllFit(sg)
  {
    MarkedKeepsBytes(Table(sg));
    TableExact(sg);
  }

  /** Of segments of at most 64K only the address can fail. */
  lemma SmallSegments(sg: seq<Segment>)
    requires forall s :: s in sg ==> s.len <= BOUNDARY
    ensures NoneWraps(sg)
    ensures AllFit(sg) <==> forall s :: s in sg && s.len > 0 ==> s.addr + s.len <= WORD
  {}

  /** Inputs of the failing family: four bytes above 4 GB, two bytes across it, and one segment whose
    * sum wraps. */
  lemma FailingExamples(s: Segment)
    requires s in {Segment(0x1_0000_0010, 4), Segment(0xFFFF_FFFF, 2), Segment(1, 0xFFFF_FFFF)}
    ensures Table([s]) != [] && Bytes(Terminated(Table([s]))) != ListBytes([s])
  {
    assert !Fits(s);
    assert s in [s];
    NonEmpty([s]);
    ExactlyFaithful([s]);
  }

  /** A sound table: no entry empty or across a 64K boundary, end-of-table on the last entry only. */
  ghost predicate Sound(table: seq<Prd>) {
    && table != []
    && (forall e :: e in table ==> WithinBoundary(e))
    && (forall i :: 0 <= i < |table| ==> (EndOfTable(table[i]) <==> i == |table| - 1))
  }

  lemma TerminatedSound(table: seq<Prd>)
    requires table != []
    requires forall e :: e in table ==> Plain(e)
    ensures Sound(Terminated(table))
  {
    var n := |table| - 1;
    assert Plain(table[n]);
    assert Length(Marked(table[n])) == Length(table[n]);
    assert forall i :: 0 <= i < n ==> Plain(table[i]) && Terminated(table)[i] == table[i];
  }

  lemma TableSound(sg: seq<Segment>)
    requires Table(sg) != []
    requires NoneWraps(sg)
    ensures Sound(Terminated(Table(sg)))
  {
    TablePlain(sg);
    TerminatedSound(Table(sg));
  }

  /** A table has an entry if and only if the list has a byte. */
  lemma {:induction false} NonEmpty(sg: seq<Segment>)
    ensures Table(sg) != [] <==> exists s :: s in sg && s.len > 0
  {
    if sg != [] {
      NonEmpty(sg[1..]);
      assert forall s :: s in sg <==> s == sg[0] || s in sg[1..];
      assert Split(sg[0].addr % WORD, sg[0].len) != [] <==> sg[0].len > 0;
    }
  }

  lemma SplitAtMostTwo(addr: U32, len: U32)
    requires len <= BOUNDARY
    ensures |Split(addr, len)| <= 2
  {
    if len > 0 {
      var c := Chunk(addr, len);
      ChunkWithin(addr, len);
      if c < len {
        var a := (addr + c) % WORD;
        assert Chunk(a, len - c) == len - c;
        assert Split((a + len - c) % WORD, 0) == [];
      }
    }
  }

  /** Segments of at most 64K cost at most two entries each, so the tables never overflow. */
  lemma {:induction false} TableFits(sg: seq<Segment>)
    requires forall s :: s in sg ==> s.len <= BOUNDARY
    ensures |Table(sg)| <= 2 * |sg|
    ensures |sg| <= LIBATA_MAX_PRD ==> |Table(sg)| <= ATA_MAX_PRD
    ensures |sg| <= PDC_MAX_PRD && Table(sg) != [] ==>
      |CutLast(Table(sg))| <= 2 * (LIBATA_MAX_PRD - 1) + 1 < ATA_MAX_PRD
  {
    if sg != [] {
      SplitAtMostTwo(sg[0].addr % WORD, sg[0].len);
      TableFits(sg[1..]);
    }
  }

  // ---------------------------------------------------------------------------------------------
  // The workaround

  lemma CutWithin(e: Prd)
    requires WithinBoundary(e) && SG_COUNT_ASIC_BUG < e.flagsLen < BOUNDARY
    ensures
      var c := e.flagsLen - SG_COUNT_ASIC_BUG;
      WithinBoundary(e.(flagsLen := c)) && WithinBoundary(Prd((e.addr + c) % WORD, SG_COUNT_ASIC_BUG))
  {
    var c := e.flagsLen - SG_COUNT_ASIC_BUG;
    assert (e.addr + c) % WORD == e.addr + c;
    RemainderIs(e.addr + c, BOUNDARY, e.addr / BOUNDARY, e.addr % BOUNDARY + c);
  }

  /** Cutting one long entry in two keeps its bytes. */
  lemma CutEntry(e: Prd)
    requires WithinBoundary(e) && SG_COUNT_ASIC_BUG < e.flagsLen < BOUNDARY
    ensures
      var c := e.flagsLen - SG_COUNT_ASIC_BUG;
      Bytes([e.(flagsLen := c), Prd((e.addr + c) % WORD, SG_COUNT_ASIC_BUG)]) == Bytes([e])
  {
    var c := e.flagsLen - SG_COUNT_ASIC_BUG;
    var x, y := e.(flagsLen := c), Prd((e.addr + c) % WORD, SG_COUNT_ASIC_BUG);
    ShortLength(e);
    ShortLength(x);
    ShortLength(y);
    assert e.addr + c < WORD by { BelowWord(e); assert Range(e.addr, Length(e))[c] == e.addr + c; }
    OneEntry(e);
    TwoEntries(x, y);
    RangeConcat(e.addr, c, SG_COUNT_ASIC_BUG);
  }

  /** What every entry satisfies before the table is terminated. */
  predicate Plain(e: Prd) {
    WithinBoundary(e) && e.flagsLen < BOUNDARY
  }

  /** The workaround touches the last entry only, and only one of more than 164 encoded bytes, of which it
    * moves exactly 164 to a new entry. */
  lemma CutLastExact(table: seq<Prd>)
    requires table != []
    ensures
      var t, n := CutLast(table), |table| - 1;
      && t[..n] == table[..n]
      && if table[n].flagsLen <= 164 then t == table
         else |t| == n + 2 && t[n + 1].flagsLen == 164 && t[n].flagsLen + 164 == table[n].flagsLen
  {}

  /** The workaround keeps the bytes and the 64K safety, and leaves an encoded last count of at
    * most 41 double words. */
  lemma CutLastKeeps(table: seq<Prd>)
    requires table != []
    requires forall e :: e in table ==> Plain(e)
    ensures Bytes(CutLast(table)) == Bytes(table)
    ensures forall e :: e in CutLast(table) ==> Plain(e)
    ensures CutLast(table) != [] && CutLast(table)[|CutLast(table)| - 1].flagsLen <= SG_COUNT_ASIC_BUG
  {
    var n := |table| - 1;
    var e := table[n];
    if e.flagsLen > SG_COUNT_ASIC_BUG {
      var pair := CutLast(table)[n..];
      assert Plain(e);
      CutEntry(e);
      CutWithin(e);
      assert CutLast(table) == table[..n] + pair && table == table[..n] + [e];
      assert Plain(pair[0]) && Plain(pair[1]);
      BytesConcat(table[..n], [e]);
      BytesConcat(table[..n], pair);
    }
  }

  lemma {:induction false} SplitPlain(addr: U32, len: U32)
    requires NoWrap(addr, len)
    ensures forall e :: e in Split(addr, len) ==> Plain(e)
    decreases len
  {
    if len > 0 {
      var c := Chunk(addr, len);
      ChunkWithin(addr, len);
      assert Plain(Prd(addr, c % BOUNDARY));
      SplitPlain((addr + c) % WORD, len - c);
    }
  }

  lemma {:induction false} TablePlain(sg: seq<Segment>)
    requires NoneWraps(sg)
    ensures forall e :: e in Table(sg) ==> Plain(e)
  {
    if sg != [] {
      SplitPlain(sg[0].addr % WORD, sg[0].len);
      TablePlain(sg[1..]);
    }
  }

  lemma {:induction false} SplitCountsShort(addr: U32, len: U32)
    ensures forall e :: e in Split(addr, len) ==> e.flagsLen < BOUNDARY
    decreases len
  {
    if len > 0 {
      var c := Chunk(addr, len);
      SplitCountsShort((addr + c) % WORD, len - c);
    }
  }

  lemma {:induction false} TableCountsShort(sg: seq<Segment>)
    ensures forall e :: e in Table(sg) ==> e.flagsLen < BOUNDARY
  {
    if sg != [] {
      SplitCountsShort(sg[0].addr % WORD, sg[0].len);
      TableCountsShort(sg[1..]);
    }
  }

  lemma ShortLength(e: Prd)
    requires 0 < e.flagsLen < BOUNDARY
    ensures Length(e) == e.flagsLen
  {}

  lemma LastLength(table: seq<Prd>)
    requires table != []
    ensures |Bytes(table)| == |Bytes(table[..|table| - 1])| + Length(table[|table| - 1])
  {
    var n := |table| - 1;
    assert table == table[..n] + [table[n]];
    BytesConcat(table[..n], [table[n]]);
    OneEntry(table[n]);
  }

  /** Whatever its entries, cutting the last one keeps the number of bytes. */
  lemma CutKeepsLength(table: seq<Prd>)
    requires table != [] && table[|table| - 1].flagsLen < BOUNDARY
    ensures |Bytes(CutLast(table))| == |Bytes(table)|
  {
    var n := |table| - 1;
    if table[n].flagsLen > SG_COUNT_ASIC_BUG {
      var t := CutLast(table);
      var whole := t[..n + 1];
      assert whole[..n] == table[..n] && whole[n] == t[n] && t[..|t| - 1] == whole;
      ShortLength(table[n]);
      ShortLength(t[n]);
      ShortLength(t[n + 1]);
      LastLength(table);
      LastLength(whole);
      LastLength(t);
    }
  }

  /** The Promise table names exactly the bytes of the scatter list, in order, under the same
    * condition. */
  lemma PdcFaithful(sg: seq<Segment>)
    requires Table(sg) != []
    ensures Bytes(Terminated(CutLast(Table(sg)))) == ListBytes(sg) <==> AllFit(sg)
  {
    var t := Table(sg);
    MarkedKeepsBytes(CutLast(t));
    TableExact(sg);
    if NoneWraps(sg) {
      TablePlain(sg);
      CutLastKeeps(t);
    } else {
      TableCountsShort(sg);
      assert t[|t| - 1] in t;
      CutKeepsLength(t);
      TableLength(sg);
      assert !AllFit(sg) by { NotAllFit(sg); }
    }
  }

  lemma NotAllFit(sg: seq<Segment>)
    requires !NoneWraps(sg)
    ensures !AllFit(sg)
  {
    var s :| s in sg && !NoWrap(s.addr % WORD, s.len);
    assert !Fits(s);
  }

  /** ... and is sound. */
  lemma PdcSound(sg: seq<Segment>)
    requires Table(sg) != []
    requires NoneWraps(sg)
    ensures Sound(Terminated(CutLast(Table(sg))))
  {
    TablePlain(sg);
    CutLastKeeps(Table(sg));
    TerminatedSound(CutLast(Table(sg)));
  }

  function LastWithBytes(sg: seq<Segment>): (s: Segment)
    requires Table(sg) != []
    ensures s in sg && s.len > 0
  {
    if Table(sg[1..]) == [] then sg[0] else LastWithBytes(sg[1..])
  }

  predicate EndsFull(addr: nat, len: U32) {
    len >= BOUNDARY && (addr + len) % BOUNDARY == 0
  }

  lemma EndsFullStep(addr: U32, len: U32)
    requires len > 0 && NoWrap(addr, len) && Chunk(addr, len) < len
    ensures
      var c := Chunk(addr, len);
      EndsFull(addr, len) <==> EndsFull((addr + c) % WORD, len - c)
  {}

  lemma OneChunkFull(addr: U32, len: U32)
    requires len > 0 && NoWrap(addr, len) && Chunk(addr, len) == len
    ensures Length(Prd(addr, len % BOUNDARY)) == BOUNDARY <==> EndsFull(addr, len)
  {}

  lemma {:induction false} LastOfSplit(addr: U32, len: U32)
    requires len > 0 && NoWrap(addr, len)
    ensures Split(addr, len) != []
    ensures Length(Split(addr, len)[|Split(addr, len)| - 1]) == BOUNDARY <==> EndsFull(addr, len)
    decreases len
  {
    var c := Chunk(addr, len);
    var a := (addr + c) % WORD;
    if c < len {
      ChunkWithin(addr, len);
      LastOfSplit(a, len - c);
      EndsFullStep(addr, len);
    } else {
      OneChunkFull(addr, len);
      assert Split(a, 0) == [];
    }
  }

  lemma {:induction false} LastOfTable(sg: seq<Segment>)
    requires Table(sg) != []
    requires NoneWraps(sg)
    ensures
      var s := LastWithBytes(sg);
      Length(Table(sg)[|Table(sg)| - 1]) == BOUNDARY <==> EndsFull(s.addr % WORD, s.len)
  {
    var a, n := sg[0].addr % WORD, sg[0].len;
    var rest := Table(sg[1..]);
    if rest == [] {
      assert Table(sg) == Split(a, n);
      LastOfSplit(a, n);
    } else {
      LastOfTable(sg[1..]);
      assert Table(sg)[|Table(sg)| - 1] == rest[|rest| - 1];
    }
  }

  lemma CutCount(table: seq<Prd>)
    requires table != [] && table[|table| - 1].flagsLen < BOUNDARY
    ensures
      var last := table[|table| - 1];
      var t := Terminated(CutLast(table));
      && t[|t| - 1].flagsLen % BOUNDARY <= SG_COUNT_ASIC_BUG
      && (Length(t[|t| - 1]) <= SG_COUNT_ASIC_BUG <==> Length(last) < BOUNDARY)
  {
    var e := CutLast(table)[|CutLast(table)| - 1];
    assert e.flagsLen <= SG_COUNT_ASIC_BUG && (e.flagsLen == 0 <==> table[|table| - 1].flagsLen == 0);
    assert Marked(e).flagsLen % BOUNDARY == e.flagsLen;
  }

  /** The workaround's purpose, at most 164 bytes in the last entry, is met if and only if the last
    * segment with bytes does not end in a whole aligned 64K. */
  lemma WorkaroundExact(sg: seq<Segment>)
    requires Table(sg) != []
    requires NoneWraps(sg)
    ensures
      var t := Terminated(CutLast(Table(sg)));
      var s := LastWithBytes(sg);
      && t[|t| - 1].flagsLen % BOUNDARY <= SG_COUNT_ASIC_BUG
      && (Length(t[|t| - 1]) <= SG_COUNT_ASIC_BUG <==> !EndsFull(s.addr % WORD, s.len))
  {
    TablePlain(sg);
    LastOfTable(sg);
    var last := Table(sg)[|Table(sg)| - 1];
    assert Plain(last);
    CutCount(Table(sg));
  }

  /** It is not met for a single whole 64K. */
  lemma WholeBlockEscapes()
    ensures
      var sg := [Segment(0, BOUNDARY)];
      Table(sg) != [] && var t := Terminated(CutLast(Table(sg))); Length(t[|t| - 1]) == BOUNDARY > SG_COUNT_ASIC_BUG
  {
    var s := Segment(0, BOUNDARY);
    assert s in [s];
    NonEmpty([s]);
    SmallSegments([s]);
    LastOfTable([s]);
    TableCountsShort([s]);
    var t := Table([s]);
    assert t[|t| - 1] in t;
    assert LastWithBytes([s]) == s;
  }

  // ---------------------------------------------------------------------------------------------
  // The loops

  lemma SplitHead(addr: U32, len: U32)
    requires len > 0
    ensures
      var c := Chunk(addr, len);
      && Split(addr, len) != [] && Split(addr, len)[0] == Prd(addr, c % BOUNDARY)
      && Split(addr, len)[1..] == Split((addr + c) % WORD, len - c)
  {
  }

  /** The inner loop: the entries of one segment. */
  method FillSegment(prd: array<Prd>, base: nat, addr: U32, len: U32) returns (idx: nat)
    requires base + |Split(addr, len)| <= prd.Length
    modifies prd
    ensures idx == base + |Split(addr, len)|
    ensures forall k :: base <= k < idx ==> prd[k] == Split(addr, len)[k - base]
    ensures forall k :: 0 <= k < base || idx <= k < prd.Length ==> prd[k] == old(prd[k])
  {
    ghost var whole := Split(addr, len);
    idx := base;
    var a: U32, n: U32 := addr, len;
    while n > 0
      invariant base <= idx <= base + |whole| && whole[idx - base..] == Split(a, n)
      invariant forall k :: base <= k < idx ==> prd[k] == whole[k - base]
      invariant forall k :: 0 <= k < base || idx <= k < prd.Length ==> prd[k] == old(prd[k])
    {
      var c := n;
      if (a % BOUNDARY + n) % WORD > BOUNDARY {
        c := BOUNDARY - a % BOUNDARY;
      }
      SplitHead(a, n);
      assert whole[idx - base..][0] == whole[idx - base];
      assert whole[idx - base..][1..] == whole[idx + 1 - base..];
      prd[idx] := Prd(a, c % BOUNDARY);
      idx, a, n := idx + 1, (a + c) % WORD, n - c;
    }
  }

  /** The entries of the next segment come next in the whole table. */
  lemma TableStep(sg: seq<Segment>, si: nat, whole: seq<Prd>, d: nat)
    requires si < |sg| && d <= |whole| && whole[d..] == Table(sg[si..])
    ensures
      var entries := Split(sg[si].addr % WORD, sg[si].len);
      && d + |entries| <= |whole| && whole[d + |entries|..] == Table(sg[si + 1..])
      && forall j :: d <= j < d + |entries| ==> whole[j] == entries[j - d]
  {
    var entries := Split(sg[si].addr % WORD, sg[si].len);
    var rest := Table(sg[si + 1..]);
    assert sg[si..][1..] == sg[si + 1..];
    assert whole[d..] == entries + rest;
    assert whole == whole[..d] + (entries + rest);
  }

  /** The body of the outer loop: the entries of the next segment go where the whole table has them. */
  method FillNext(prd: array<Prd>, base: nat, idx: nat, sg: seq<Segment>, si: nat, ghost whole: seq<Prd>)
    returns (next: nat)
    requires si < |sg| && base <= idx <= base + |whole| <= prd.Length && whole[idx - base..] == Table(sg[si..])
    modifies prd
    ensures idx <= next <= base + |whole| && whole[next - base..] == Table(sg[si + 1..])
    ensures forall k :: idx <= k < next ==> prd[k] == whole[k - base]
    ensures forall k :: 0 <= k < idx || next <= k < prd.Length ==> prd[k] == old(prd[k])
  {
    ghost var entries := Split(sg[si].addr % WORD, sg[si].len);
    TableStep(sg, si, whole, idx - base);
    next := FillSegment(prd, idx, sg[si].addr % WORD, sg[si].len);
    forall k | idx <= k < next
      ensures prd[k] == whole[k - base]
    {
      assert whole[k - base] == entries[k - base - (idx - base)];
    }
  }

  /** The nested loops both drivers share: the entries of the whole list, from `base` on. */
  method FillEntries(prd: array<Prd>, base: nat, sg: seq<Segment>) returns (idx: nat)
    requires base + |Table(sg)| <= prd.Length
    modifies prd
    ensures idx == base + |Table(sg)|
    ensures forall k :: base <= k < idx ==> prd[k] == Table(sg)[k - base]
    ensures forall k :: 0 <= k < base || idx <= k < prd.Length ==> prd[k] == old(prd[k])
  {
    ghost var whole := Table(sg);
    idx := base;
    var si := 0;
    assert sg[0..] == sg;
    while si < |sg|
      invariant si <= |sg|
      invariant base <= idx <= base + |whole| && whole[idx - base..] == Table(sg[si..])
      invariant forall k :: base <= k < idx ==> prd[k] == whole[k - base]
      invariant forall k :: 0 <= k < base || idx <= k < prd.Length ==> prd[k] == old(prd[k])
    {
      idx := FillNext(prd, base, idx, sg, si, whole);
      si := si + 1;
    }
  }

  /** nv_swncq_fill_sg: the table of a tag, in the tag's part of the port's tables. */
  method NvSwncqFillSg(prd: array<Prd>, tag: nat, sg: seq<Segment>)
    requires tag < ATA_MAX_QUEUE && prd.Length == ATA_MAX_PRD * ATA_MAX_QUEUE
    requires 0 < |Table(sg)| <= ATA_MAX_PRD
    modifies prd
    ensures
      var base := ATA_MAX_PRD * tag;
      var end := base + |Table(sg)|;
      && prd[base..end] == Terminated(Table(sg))
      && forall k :: 0 <= k < base || end <= k < prd.Length ==> prd[k] == old(prd[k])
  {
    var base := ATA_MAX_PRD * tag;
    var idx := FillEntries(prd, base, sg);
    prd[idx - 1] := Marked(prd[idx - 1]);
  }

  /** The workaround in place, on a table of `idx` entries. */
  method CutLastInPlace(prd: array<Prd>, idx: nat) returns (end: nat)
    requires 0 < idx <= prd.Length && |CutLast(prd[..idx])| <= prd.Length
    modifies prd
    ensures idx <= end <= prd.Length
    ensures prd[..end] == old(CutLast(prd[..idx]))
    ensures forall k :: end <= k < prd.Length ==> prd[k] == old(prd[k])
  {
    var last := prd[idx - 1];
    var len := last.flagsLen;
    end := idx;
    if len > SG_COUNT_ASIC_BUG {
      prd[idx - 1] := last.(flagsLen := len - SG_COUNT_ASIC_BUG);
      prd[idx] := Prd((last.addr + len - SG_COUNT_ASIC_BUG) % WORD, SG_COUNT_ASIC_BUG);
      end := idx + 1;
    }
  }

  /** pdc_fill_sg. */
  method PdcFillSg(prd: array<Prd>, sg: seq<Segment>)
    requires prd.Length == ATA_MAX_PRD
    requires Table(sg) != [] && |CutLast(Table(sg))| <= ATA_MAX_PRD
    modifies prd
    ensures
      var t := Terminated(CutLast(Table(sg)));
      prd[..|t|] == t && forall k :: |t| <= k < prd.Length ==> prd[k] == old(prd[k])
  {
    var idx := FillEntries(prd, 0, sg);
    assert prd[..idx] == Table(sg);
    idx := CutLastInPlace(prd, idx);
    assert prd[idx - 1] == prd[..idx][idx - 1];
    prd[idx - 1] := Marked(prd[idx - 1]);
  }
}
