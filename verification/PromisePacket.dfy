/** The packet a Promise controller executes (sata_promise.h, pdc_qc_prep in sata_promise.c): a
  * header that selects the device and sets the control register, the address registers, then device
  * and command.
  */
module PromisePackets {
  import opened Libata
  import opened Taskfiles

  const PDC_PKT_READ := 4
  const PDC_PKT_NODATA := 8
  const PDC_PKT_CLEAR_BSY := 0x10
  const PDC_LAST_REG := 8
  const PDC_REG_DEVCTL := 14
  const ATA_DEVICE_OBS := 0xA0
  const ATA_DEV1 := 0x10
  const HEADER := 16
  const PKT_LEN := 128

  /** The protocols for which pdc_qc_prep builds such a packet. */
  datatype Protocol = Dma(write: bool) | NoData

  // ---------------------------------------------------------------------------------------------
  // The controller: a control byte holds the register in bits 0 to 3 and a count in bits 5 to 7

  function WriteAll(f: File, r: nat, data: seq<Byte>): File
    requires REG_FEATURE <= r <= REG_CMD
    decreases |data|
  {
    if data == [] then f else WriteAll(Write(f, r, data[0]), r, data[1..])
  }

  function Replay(f: File, pkt: seq<Byte>, i: nat): Option<File>
    decreases |pkt| - i
  {
    if i >= |pkt| || i + 1 + pkt[i] / 32 > |pkt| then None
    else
      var r := pkt[i] % 16;
      var end := i + 1 + pkt[i] / 32;
      var data := pkt[i + 1..end];
      if r == PDC_REG_DEVCTL then
        if data == [] then None else Replay(f.(control := data[|data| - 1]), pkt, end)
      else if r == PDC_LAST_REG + REG_CMD then Some(WriteAll(f, REG_CMD, data))
      else if REG_FEATURE <= r <= REG_CMD then Replay(WriteAll(f, r, data), pkt, end)
      else None
  }

  // ---------------------------------------------------------------------------------------------
  // The packet

  function DevSelect(devno: nat): Byte {
    if devno == 0 then ATA_DEVICE_OBS else ATA_DEVICE_OBS + ATA_DEV1
  }

  function Header(tf: Taskfile, devno: nat): seq<Byte> {
    [0x20 + PDC_PKT_CLEAR_BSY + REG_DEVICE, DevSelect(devno), 0x20 + PDC_REG_DEVCTL, tf.ctl]
  }

  function Address28(tf: Taskfile): seq<Byte> {
    [0x20 + REG_FEATURE, tf.feature, 0x20 + REG_NSECT, tf.nsect, 0x20 + REG_LBAL, tf.lbal,
     0x20 + REG_LBAM, tf.lbam, 0x20 + REG_LBAH, tf.lbah]
  }

  function Address48(tf: Taskfile): seq<Byte> {
    [0x40 + REG_FEATURE, tf.hobFeature, tf.feature, 0x40 + REG_NSECT, tf.hobNsect, tf.nsect,
     0x40 + REG_LBAL, tf.hobLbal, tf.lbal, 0x40 + REG_LBAM, tf.hobLbam, tf.lbam,
     0x40 + REG_LBAH, tf.hobLbah, tf.lbah]
  }

  function Footer(tf: Taskfile): seq<Byte> {
    (if tf.setsDevice then [0x20 + REG_DEVICE, tf.device] else [])
    + [0x20 + PDC_LAST_REG + REG_CMD, tf.command]
  }

  function Address(tf: Taskfile): seq<Byte> {
    if tf.lba48 then Address48(tf) else Address28(tf)
  }

  /** The register writes of the packet, from byte 12 on. */
  function Writes(tf: Taskfile, devno: nat): seq<Byte> {
    Header(tf, devno) + Address(tf) + Footer(tf)
  }

  ghost predicate Carries(pkt: seq<Byte>, i: nat, part: seq<Byte>) {
    i + |part| <= |pkt| && pkt[i..i + |part|] == part
  }

  lemma CarriesParts(pkt: seq<Byte>, i: nat, a: seq<Byte>, b: seq<Byte>)
    requires Carries(pkt, i, a + b)
    ensures Carries(pkt, i, a) && Carries(pkt, i + |a|, b)
  {
    var part := pkt[i..i + |a| + |b|];
    assert pkt[i..i + |a|] == part[..|a|] == a;
    assert pkt[i + |a|..i + |a| + |b|] == part[|a|..] == b;
  }

  // ---------------------------------------------------------------------------------------------
  // What the packet means

  lemma StepOne(f: File, pkt: seq<Byte>, i: nat, r: nat, v: Byte)
    requires REG_FEATURE <= r <= REG_CMD && i + 2 <= |pkt|
    requires (pkt[i] == 0x20 + r || pkt[i] == 0x20 + PDC_PKT_CLEAR_BSY + r) && pkt[i + 1] == v
    ensures Replay(f, pkt, i) == Replay(Write(f, r, v), pkt, i + 2)
  {
    var data := pkt[i + 1..i + 2];
    assert data == [v] && data[1..] == [];
    assert WriteAll(f, r, data) == Write(f, r, v);
  }

  lemma StepTwo(f: File, pkt: seq<Byte>, i: nat, r: nat, high: Byte, low: Byte)
    requires REG_FEATURE <= r <= REG_CMD && i + 3 <= |pkt|
    requires pkt[i] == 0x40 + r && pkt[i + 1] == high && pkt[i + 2] == low
    ensures Replay(f, pkt, i) == Replay(Write(Write(f, r, high), r, low), pkt, i + 3)
  {
    var data := pkt[i + 1..i + 3];
    assert data == [high, low] && data[1..] == [low] && data[1..][1..] == [];
    assert WriteAll(f, r, data) == WriteAll(Write(f, r, high), r, [low]);
    assert WriteAll(Write(f, r, high), r, [low]) == WriteAll(Write(Write(f, r, high), r, low), r, []) by {
      assert [low][1..] == [];
    }
  }

  lemma HeaderMeans(f: File, tf: Taskfile, devno: nat, pkt: seq<Byte>, i: nat)
    requires Carries(pkt, i, Header(tf, devno))
    ensures Replay(f, pkt, i) == Replay(f.(device := DevSelect(devno), control := tf.ctl), pkt, i + 4)
  {
    var h := pkt[i..i + 4];
    assert pkt[i] == h[0] && pkt[i + 1] == h[1] && pkt[i + 2] == h[2] && pkt[i + 3] == h[3];
    StepOne(f, pkt, i, REG_DEVICE, DevSelect(devno));
    assert pkt[i + 3..i + 4] == [tf.ctl];
  }

  lemma Address28Means(f: File, tf: Taskfile, pkt: seq<Byte>, i: nat)
    requires Carries(pkt, i, Address28(tf)) && !tf.lba48
    ensures
      Replay(f, pkt, i)
      == Replay(Loaded(f, tf.(isAddr := true)).(device := f.device, command := f.command), pkt, i + 10)
  {
    var a := pkt[i..i + 10];
    assert forall k :: i <= k < i + 10 ==> pkt[k] == a[k - i];
    StepOne(f, pkt, i, REG_FEATURE, tf.feature);
    var f1 := Write(f, REG_FEATURE, tf.feature);
    StepOne(f1, pkt, i + 2, REG_NSECT, tf.nsect);
    var f2 := Write(f1, REG_NSECT, tf.nsect);
    StepOne(f2, pkt, i + 4, REG_LBAL, tf.lbal);
    var f3 := Write(f2, REG_LBAL, tf.lbal);
    StepOne(f3, pkt, i + 6, REG_LBAM, tf.lbam);
    var f4 := Write(f3, REG_LBAM, tf.lbam);
    StepOne(f4, pkt, i + 8, REG_LBAH, tf.lbah);
  }

  /** The register file after the first three registers of the 48-bit form. */
  function ThreeLoaded(f: File, tf: Taskfile): File {
    f.(feature := Reg(tf.feature, tf.hobFeature), nsect := Reg(tf.nsect, tf.hobNsect), lbal := Reg(tf.lbal, tf.hobLbal))
  }

  lemma ThreeMean(f: File, tf: Taskfile, pkt: seq<Byte>, i: nat)
    requires i + 9 <= |pkt|
    requires pkt[i] == 0x40 + REG_FEATURE && pkt[i + 1] == tf.hobFeature && pkt[i + 2] == tf.feature
    requires pkt[i + 3] == 0x40 + REG_NSECT && pkt[i + 4] == tf.hobNsect && pkt[i + 5] == tf.nsect
    requires pkt[i + 6] == 0x40 + REG_LBAL && pkt[i + 7] == tf.hobLbal && pkt[i + 8] == tf.lbal
    ensures Replay(f, pkt, i) == Replay(ThreeLoaded(f, tf), pkt, i + 9)
  {
    StepTwo(f, pkt, i, REG_FEATURE, tf.hobFeature, tf.feature);
    var f1 := Write(Write(f, REG_FEATURE, tf.hobFeature), REG_FEATURE, tf.feature);
    StepTwo(f1, pkt, i + 3, REG_NSECT, tf.hobNsect, tf.nsect);
    var f2 := Write(Write(f1, REG_NSECT, tf.hobNsect), REG_NSECT, tf.nsect);
    StepTwo(f2, pkt, i + 6, REG_LBAL, tf.hobLbal, tf.lbal);
  }

  lemma Address48Means(f: File, tf: Taskfile, pkt: seq<Byte>, i: nat)
    requires Carries(pkt, i, Address48(tf)) && tf.lba48
    ensures
      Replay(f, pkt, i)
      == Replay(Loaded(f, tf.(isAddr := true)).(device := f.device, command := f.command), pkt, i + 15)
  {
    var a := pkt[i..i + 15];
    assert forall k :: i <= k < i + 15 ==> pkt[k] == a[k - i];
    ThreeMean(f, tf, pkt, i);
    var f3 := ThreeLoaded(f, tf);
    StepTwo(f3, pkt, i + 9, REG_LBAM, tf.hobLbam, tf.lbam);
    var f4 := Write(Write(f3, REG_LBAM, tf.hobLbam), REG_LBAM, tf.lbam);
    StepTwo(f4, pkt, i + 12, REG_LBAH, tf.hobLbah, tf.lbah);
  }

  lemma FooterMeans(f: File, tf: Taskfile, pkt: seq<Byte>, i: nat)
    requires Carries(pkt, i, Footer(tf))
    ensures
      Replay(f, pkt, i)
      == Some(f.(device := if tf.setsDevice then tf.device else f.device, command := tf.command))
  {
    var part := pkt[i..i + |Footer(tf)|];
    assert forall k :: i <= k < i + |part| ==> pkt[k] == part[k - i];
    var g, j := f, i;
    if tf.setsDevice {
      StepOne(f, pkt, i, REG_DEVICE, tf.device);
      g, j := f.(device := tf.device), i + 2;
    }
    assert pkt[j + 1..j + 2] == [tf.command] && [tf.command][1..] == [];
    assert WriteAll(g, REG_CMD, [tf.command]) == g.(command := tf.command);
  }

  /** What a packet leaves in the register file: the taskfile taken as an address taskfile, on the
    * device its header selects unless it names one itself, and the control register. */
  function LoadedByPacket(f: File, tf: Taskfile, devno: nat): File {
    Loaded(f.(device := DevSelect(devno)), tf.(isAddr := true)).(control := tf.ctl)
  }

  lemma PacketMeans(f: File, tf: Taskfile, devno: nat, pkt: seq<Byte>, i: nat)
    requires Carries(pkt, i, Writes(tf, devno))
    ensures Replay(f, pkt, i) == Some(LoadedByPacket(f, tf, devno))
  {
    var n := |Address(tf)|;
    CarriesParts(pkt, i, Header(tf, devno) + Address(tf), Footer(tf));
    CarriesParts(pkt, i, Header(tf, devno), Address(tf));
    HeaderMeans(f, tf, devno, pkt, i);
    var g := f.(device := DevSelect(devno), control := tf.ctl);
    if tf.lba48 {
      Address48Means(g, tf, pkt, i + 4);
    } else {
      Address28Means(g, tf, pkt, i + 4);
    }
    FooterMeans(Loaded(g, tf.(isAddr := true)).(device := g.device, command := g.command), tf, pkt, i + 4 + n);
  }

  /** The packet leaves the register file the port registers would, for every file, if and only if
    * the taskfile writes both the address registers and the device register. */
  lemma PacketExact(tf: Taskfile, devno: nat)
    ensures
      (forall f :: LoadedByPacket(f, tf, devno) == Loaded(f, tf).(control := tf.ctl))
      <==> tf.isAddr && tf.setsDevice
  {
    var f := Telltale(tf, 0);
    if !tf.isAddr {
      assert Loaded(f, tf).feature.current != tf.feature;
      assert LoadedByPacket(f, tf, devno).feature.current == tf.feature;
    } else if !tf.setsDevice {
      assert LoadedByPacket(f, tf, devno).device != Loaded(f, tf).device;
    }
  }

  // ---------------------------------------------------------------------------------------------
  // Building it

  function LittleEndian(x: nat): seq<Byte>
    requires x < 0x1_0000_0000
  {
    [x % 256, x / 256 % 256, x / 0x1_0000 % 256, x / 0x100_0000]
  }

  function ControlByte(p: Protocol): Byte {
    match p
    case Dma(write) => if write then 0 else PDC_PKT_READ
    case NoData => PDC_PKT_NODATA
  }

  /** The three words before the register writes. */
  function Words(p: Protocol, sgTable: nat): (w: seq<Byte>)
    requires sgTable < 0x1_0000_0000
    ensures |w| == 12
  {
    LittleEndian(ControlByte(p)) + LittleEndian(sgTable) + LittleEndian(0)
  }

  /** The number the controller reads from four bytes. */
  function Decoded(b: seq<Byte>): nat
    requires |b| == 4
  {
    var (b0: nat, b1: nat, b2: nat, b3: nat) := (b[0], b[1], b[2], b[3]);
    b0 + 0x100 * b1 + 0x1_0000 * b2 + 0x100_0000 * b3
  }

  lemma LittleEndianMeans(x: nat)
    requires x < 0x1_0000_0000
    ensures Decoded(LittleEndian(x)) == x
  {
    assert x == x / 256 * 256 + x % 256;
    assert x / 256 == x / 0x1_0000 * 256 + x / 256 % 256;
    assert x / 0x1_0000 == x / 0x100_0000 * 256 + x / 0x1_0000 % 256;
  }

  predicate Bit(b: Byte, value: nat)
    requires value > 0
  {
    b / value % 2 == 1
  }

  /** The header words: READ (bit 2) exactly for a DMA read and NODATA (bit 3) exactly without data, no
    * other bit of the control word, the scatter table's address, and no next packet. */
  lemma WordsMean(p: Protocol, sgTable: nat)
    requires sgTable < 0x1_0000_0000
    ensures
      var w := Words(p, sgTable);
      && (Bit(w[0], 4) <==> p == Dma(false)) && (Bit(w[0], 8) <==> p == NoData)
      && w[0] < 16 && w[0] % 4 == 0 && w[1..4] == [0, 0, 0]
      && Decoded(w[4..8]) == sgTable && Decoded(w[8..12]) == 0
  {
    LittleEndianMeans(sgTable);
    var w := Words(p, sgTable);
    assert w[4..8] == LittleEndian(sgTable) && w[8..12] == LittleEndian(0);
  }

  /** The device is chosen by bit 4 of the device register, with the two obsolete bits set. */
  lemma DevSelectMeans(devno: nat)
    ensures Bit(DevSelect(devno), 0x10) <==> devno != 0
    ensures Bit(DevSelect(devno), 0x80) && Bit(DevSelect(devno), 0x20) && DevSelect(devno) % 0x10 == 0
    ensures !Bit(DevSelect(devno), 0x40)
  {}

  /** Only the selection of the device asks the controller to wait for BSY to clear (bit 4). */
  lemma OneClearBsy(tf: Taskfile, devno: nat)
    ensures Bit(Header(tf, devno)[0], 0x10) && Header(tf, devno)[0] % 0x10 == REG_DEVICE
    ensures !Bit(Header(tf, devno)[2], 0x10) && !Bit(Footer(tf)[|Footer(tf)| - 2], 0x10)
  {}

  class PacketBuffer {
    const buf: array<Byte>

    constructor ()
      ensures fresh(buf) && buf.Length == PKT_LEN
    {
      buf := new Byte[PKT_LEN](_ => 0);
    }

    /** One little-endian word of the header. */
    method Put32(word: nat, i: nat) returns (j: nat)
      requires i + 4 <= buf.Length && word < 0x1_0000_0000
      modifies buf
      ensures j == i + 4 && buf[..j] == old(buf[..i]) + LittleEndian(word)
    {
      var b := LittleEndian(word);
      buf[i], buf[i + 1], buf[i + 2], buf[i + 3] := b[0], b[1], b[2], b[3];
      j := i + 4;
    }

    /** pdc_pkt_header. */
    method PktHeader(tf: Taskfile, p: Protocol, sgTable: nat, devno: nat) returns (i: nat)
      requires buf.Length == PKT_LEN && sgTable < 0x1_0000_0000
      modifies buf
      ensures i == HEADER && buf[..i] == Words(p, sgTable) + Header(tf, devno)
    {
      var control: Byte := 0;
      match p {
        case Dma(write) =>
          if !write {
            control := PDC_PKT_READ;
          }
        case NoData =>
          control := PDC_PKT_NODATA;
      }
      i := Put32(control, 0);
      i := Put32(sgTable, i);
      i := Put32(0, i);
      var devReg: Byte := ATA_DEVICE_OBS;
      if devno != 0 {
        devReg := ATA_DEVICE_OBS + ATA_DEV1;
      }
      i := Put(0x20 + PDC_PKT_CLEAR_BSY + REG_DEVICE, devReg, i);
      i := Put(0x20 + PDC_REG_DEVCTL, tf.ctl, i);
    }

    /** Two bytes of a packet part, or three. */
    method Put(b: Byte, v: Byte, i: nat) returns (j: nat)
      requires i + 2 <= buf.Length
      modifies buf
      ensures j == i + 2 && buf[..j] == old(buf[..i]) + [b, v]
    {
      buf[i], buf[i + 1] := b, v;
      j := i + 2;
    }

    method Put2(b: Byte, high: Byte, low: Byte, i: nat) returns (j: nat)
      requires i + 3 <= buf.Length
      modifies buf
      ensures j == i + 3 && buf[..j] == old(buf[..i]) + [b, high, low]
    {
      buf[i], buf[i + 1], buf[i + 2] := b, high, low;
      j := i + 3;
    }

    /** pdc_prep_lba28. */
    method PrepLba28(tf: Taskfile, at: nat) returns (i: nat)
      requires at + 10 <= buf.Length
      modifies buf
      ensures i == at + 10 && buf[..i] == old(buf[..at]) + Address28(tf)
    {
      i := Put(0x20 + REG_FEATURE, tf.feature, at);
      i := Put(0x20 + REG_NSECT, tf.nsect, i);
      i := Put(0x20 + REG_LBAL, tf.lbal, i);
      i := Put(0x20 + REG_LBAM, tf.lbam, i);
      i := Put(0x20 + REG_LBAH, tf.lbah, i);
    }

    /** pdc_prep_lba48. */
    method PrepLba48(tf: Taskfile, at: nat) returns (i: nat)
      requires at + 15 <= buf.Length
      modifies buf
      ensures i == at + 15 && buf[..i] == old(buf[..at]) + Address48(tf)
    {
      i := Put2(0x40 + REG_FEATURE, tf.hobFeature, tf.feature, at);
      i := Put2(0x40 + REG_NSECT, tf.hobNsect, tf.nsect, i);
      i := Put2(0x40 + REG_LBAL, tf.hobLbal, tf.lbal, i);
      i := Put2(0x40 + REG_LBAM, tf.hobLbam, tf.lbam, i);
      i := Put2(0x40 + REG_LBAH, tf.hobLbah, tf.lbah, i);
    }

    /** pdc_pkt_footer. */
    method PktFooter(tf: Taskfile, at: nat) returns (i: nat)
      requires at + 4 <= buf.Length
      modifies buf
      ensures i == at + |Footer(tf)| && buf[..i] == old(buf[..at]) + Footer(tf)
    {
      i := at;
      if tf.setsDevice {
        i := Put(0x20 + REG_DEVICE, tf.device, i);
      }
      i := Put(0x20 + PDC_LAST_REG + REG_CMD, tf.command, i);
    }

    /** The packet part of pdc_qc_prep: executing the buffer from byte 12 on, whatever its tail
      * holds, loads the taskfile. */
    method QcPrep(tf: Taskfile, p: Protocol, sgTable: nat, devno: nat)
      requires buf.Length == PKT_LEN && sgTable < 0x1_0000_0000
      modifies buf
      ensures buf[..12] == Words(p, sgTable)
      ensures Decoded(buf[4..8]) == sgTable && (Bit(buf[0], 4) <==> p == Dma(false))
      ensures forall f :: Replay(f, buf[..], 12) == Some(LoadedByPacket(f, tf, devno))
    {
      var i := PktHeader(tf, p, sgTable, devno);
      if tf.lba48 {
        i := PrepLba48(tf, i);
      } else {
        i := PrepLba28(tf, i);
      }
      i := PktFooter(tf, i);
      ghost var pkt := buf[..];
      WordsMean(p, sgTable);
      Regrouped(Words(p, sgTable), Header(tf, devno), Address(tf), Footer(tf));
      assert pkt[..i] == Words(p, sgTable) + Writes(tf, devno);
      PrefixCarries(pkt, i, Words(p, sgTable), Writes(tf, devno));
      assert buf[4..8] == pkt[..12][4..8] && buf[0] == pkt[..12][0];
      forall f
        ensures Replay(f, pkt, 12) == Some(LoadedByPacket(f, tf, devno))
      {
        PacketMeans(f, tf, devno, pkt, 12);
      }
    }
  }

  lemma PrefixCarries(pkt: seq<Byte>, i: nat, pre: seq<Byte>, part: seq<Byte>)
    requires i <= |pkt| && pkt[..i] == pre + part
    ensures pkt[..|pre|] == pre && Carries(pkt, |pre|, part)
  {
    assert pkt[..|pre|] == pkt[..i][..|pre|];
    assert pkt[|pre|..i] == pkt[..i][|pre|..];
  }

  lemma Regrouped(w: seq<Byte>, h: seq<Byte>, a: seq<Byte>, f: seq<Byte>)
    ensures w + h + a + f == w + (h + a + f)
  {}
}
