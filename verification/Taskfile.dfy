/** One taskfile written four ways: port registers (libata-sff.c), 16-bit registers (sata_svw.c),
  * ADMA words (sata_nv.c) and a Promise packet (sata_promise.h).  Each is replayed into the two-deep
  * register file of ATA/ATAPI-6, section 6.20, where a write keeps the byte it displaces.
  */
module Taskfiles {
  import opened Libata

  type Byte = n: nat | n < 256

  datatype Reg = Reg(current: Byte, previous: Byte)

  datatype File = File(
    feature: Reg, nsect: Reg, lbal: Reg, lbam: Reg, lbah: Reg, device: Byte, command: Byte, control: Byte)

  datatype Taskfile = Taskfile(
    isAddr: bool, lba48: bool, setsDevice: bool,
    feature: Byte, nsect: Byte, lbal: Byte, lbam: Byte, lbah: Byte,
    hobFeature: Byte, hobNsect: Byte, hobLbal: Byte, hobLbam: Byte, hobLbah: Byte,
    device: Byte, command: Byte, ctl: Byte)

  const REG_FEATURE := 1
  const REG_NSECT := 2
  const REG_LBAL := 3
  const REG_LBAM := 4
  const REG_LBAH := 5
  const REG_DEVICE := 6
  const REG_CMD := 7

  // ---------------------------------------------------------------------------------------------
  // The register file

  function Shift(r: Reg, v: Byte): Reg {
    Reg(v, r.current)
  }

  function Write(f: File, r: nat, v: Byte): File
    requires REG_FEATURE <= r <= REG_CMD
  {
    if r == REG_FEATURE then f.(feature := Shift(f.feature, v))
    else if r == REG_NSECT then f.(nsect := Shift(f.nsect, v))
    else if r == REG_LBAL then f.(lbal := Shift(f.lbal, v))
    else if r == REG_LBAM then f.(lbam := Shift(f.lbam, v))
    else if r == REG_LBAH then f.(lbah := Shift(f.lbah, v))
    else if r == REG_DEVICE then f.(device := v)
    else f.(command := v)
  }

  /** What issuing a taskfile means: the five address registers hold its bytes, and behind them its
    * high-order bytes (48-bit) or the bytes that were there (28-bit); device and command follow. */
  function Loaded(f: File, tf: Taskfile): File {
    File(Meant(f.feature, tf, tf.feature, tf.hobFeature),
         Meant(f.nsect, tf, tf.nsect, tf.hobNsect),
         Meant(f.lbal, tf, tf.lbal, tf.hobLbal),
         Meant(f.lbam, tf, tf.lbam, tf.hobLbam),
         Meant(f.lbah, tf, tf.lbah, tf.hobLbah),
         if tf.setsDevice then tf.device else f.device,
         tf.command,
         f.control)
  }

  function Meant(r: Reg, tf: Taskfile, low: Byte, high: Byte): Reg {
    if !tf.isAddr then r else Reg(low, if tf.lba48 then high else r.current)
  }

  /** The 28-bit form of K2's 16-bit writes clears the previous bytes. */
  function Cleared(f: File): File {
    f.(feature := f.feature.(previous := 0), nsect := f.nsect.(previous := 0), lbal := f.lbal.(previous := 0),
       lbam := f.lbam.(previous := 0), lbah := f.lbah.(previous := 0))
  }

  function LoadedByK2(f: File, tf: Taskfile): File {
    if tf.isAddr && !tf.lba48 then Cleared(Loaded(f, tf)) else Loaded(f, tf)
  }

  // ---------------------------------------------------------------------------------------------
  // Port registers

  /** A port with taskfile registers.  `hasCtl` says whether it has a control register. */
  class TaskfilePort {
    const hasCtl: bool
    var file: File
    var lastCtl: Byte

    /** The driver's copy of the control register is right. */
    predicate CtlKnown()
      reads this
    {
      hasCtl ==> lastCtl == file.control
    }

    method Iowrite8(v: Byte, r: nat)
      requires REG_FEATURE <= r <= REG_CMD
      modifies `file
      ensures file == Write(old(file), r, v)
    {
      file := Write(file, r, v);
    }

    /** A 16-bit write to a K2 register sets both of its bytes. */
    method Writew(low: Byte, high: Byte, r: nat)
      requires REG_FEATURE <= r <= REG_LBAH
      modifies `file
      ensures file == Write(Write(old(file), r, high), r, low)
    {
      file := Write(Write(file, r, high), r, low);
    }

    method WriteCtl(tf: Taskfile)
      requires CtlKnown()
      modifies this
      ensures CtlKnown() && lastCtl == tf.ctl
      ensures file == old(file).(control := if hasCtl then tf.ctl else old(file.control))
    {
      if tf.ctl != lastCtl {
        if hasCtl {
          file := file.(control := tf.ctl);
        }
        lastCtl := tf.ctl;
      }
    }

    /** ata_tf_load followed by ata_exec_command. */
    method AtaTfLoadExec(tf: Taskfile)
      requires CtlKnown()
      modifies this
      ensures CtlKnown()
      ensures file == Loaded(old(file), tf).(control := if hasCtl then tf.ctl else old(file.control))
    {
      WriteCtl(tf);
      if tf.isAddr && tf.lba48 {
        Iowrite8(tf.hobFeature, REG_FEATURE);
        Iowrite8(tf.hobNsect, REG_NSECT);
        Iowrite8(tf.hobLbal, REG_LBAL);
        Iowrite8(tf.hobLbam, REG_LBAM);
        Iowrite8(tf.hobLbah, REG_LBAH);
      }
      if tf.isAddr {
        Iowrite8(tf.feature, REG_FEATURE);
        Iowrite8(tf.nsect, REG_NSECT);
        Iowrite8(tf.lbal, REG_LBAL);
        Iowrite8(tf.lbam, REG_LBAM);
        Iowrite8(tf.lbah, REG_LBAH);
      }
      if tf.setsDevice {
        Iowrite8(tf.device, REG_DEVICE);
      }
      Iowrite8(tf.command, REG_CMD);
    }

    /** k2_sata_tf_load followed by ata_exec_command. */
    method K2TfLoadExec(tf: Taskfile)
      requires CtlKnown() && hasCtl
      modifies this
      ensures CtlKnown()
      ensures file == LoadedByK2(old(file), tf).(control := tf.ctl)
    {
      WriteCtl(tf);
      if tf.isAddr && tf.lba48 {
        Writew(tf.feature, tf.hobFeature, REG_FEATURE);
        Writew(tf.nsect, tf.hobNsect, REG_NSECT);
        Writew(tf.lbal, tf.hobLbal, REG_LBAL);
        Writew(tf.lbam, tf.hobLbam, REG_LBAM);
        Writew(tf.lbah, tf.hobLbah, REG_LBAH);
      } else if tf.isAddr {
        Writew(tf.feature, 0, REG_FEATURE);
        Writew(tf.nsect, 0, REG_NSECT);
        Writew(tf.lbal, 0, REG_LBAL);
        Writew(tf.lbam, 0, REG_LBAM);
        Writew(tf.lbah, 0, REG_LBAH);
      }
      if tf.setsDevice {
        Iowrite8(tf.device, REG_DEVICE);
      }
      Iowrite8(tf.command, REG_CMD);
    }
  }

  /** A register file that shows the difference in every register it can. */
  function Telltale(tf: Taskfile, device: Byte): File {
    var other := Reg(if tf.feature == 0 then 1 else 0, 0);
    File(other.(current := if tf.feature == 1 then 2 else 1), other, other, other, other, device, 0, 0)
  }

  /** K2 leaves the register file every other encoder leaves if and only if the taskfile is not a
    * 28-bit address taskfile; current bytes, device and command are right in any case. */
  lemma K2Exact(tf: Taskfile)
    ensures (forall f :: LoadedByK2(f, tf) == Loaded(f, tf)) <==> !(tf.isAddr && !tf.lba48)
    ensures forall f :: SameCurrent(LoadedByK2(f, tf), Loaded(f, tf))
  {
    if tf.isAddr && !tf.lba48 {
      var f := Telltale(tf, 0);
      assert Loaded(f, tf).feature.previous != 0;
      assert LoadedByK2(f, tf).feature.previous == 0;
    }
  }

  /** What it leaves behind a 28-bit address: nothing, in any of the five registers. */
  lemma K2Clears(f: File, tf: Taskfile)
    requires tf.isAddr && !tf.lba48
    ensures
      var g := LoadedByK2(f, tf);
      && g.feature == Reg(tf.feature, 0) && g.nsect == Reg(tf.nsect, 0) && g.lbal == Reg(tf.lbal, 0)
      && g.lbam == Reg(tf.lbam, 0) && g.lbah == Reg(tf.lbah, 0)
  {}

  predicate SameCurrent(f: File, g: File) {
    && f.feature.current == g.feature.current && f.nsect.current == g.nsect.current
    && f.lbal.current == g.lbal.current && f.lbam.current == g.lbam.current && f.lbah.current == g.lbah.current
    && f.device == g.device && f.command == g.command
  }

  // ---------------------------------------------------------------------------------------------
  // ADMA words

  type Word = n: nat | n < 0x1_0000

  const CMDEND := 0x8000
  const WNB := 0x4000
  const IGN := 0x2000
  const CPB_TF_LEN := 12

  /** A register write: the register in bits 8 to 12, the byte in bits 0 to 7. */
  function RegWord(r: nat, v: Byte, flag: nat): Word
    requires r <= REG_CMD && (flag == 0 || flag == WNB || flag == CMDEND)
  {
    r * 256 + v + flag
  }

  /** The engine: it skips ignored words and stops after the word marked as the end. */
  function AdmaReplay(f: File, words: seq<Word>): Option<File>
    decreases |words|
  {
    if words == [] then None
    else
      var w := words[0];
      var r := w / 256 % 32;
      if w / IGN % 2 == 1 then AdmaReplay(f, words[1..])
      else if !(REG_FEATURE <= r <= REG_CMD) then None
      else if w >= CMDEND then Some(Write(f, r, w % 256))
      else AdmaReplay(Write(f, r, w % 256), words[1..])
  }

  function AdmaHigh(tf: Taskfile): seq<Word> {
    if tf.lba48 then
      [RegWord(REG_FEATURE, tf.hobFeature, WNB), RegWord(REG_NSECT, tf.hobNsect, 0), RegWord(REG_LBAL, tf.hobLbal, 0),
       RegWord(REG_LBAM, tf.hobLbam, 0), RegWord(REG_LBAH, tf.hobLbah, 0), RegWord(REG_FEATURE, tf.feature, 0)]
    else [RegWord(REG_FEATURE, tf.feature, WNB)]
  }

  function AdmaLow(tf: Taskfile): seq<Word> {
    [RegWord(REG_NSECT, tf.nsect, 0), RegWord(REG_LBAL, tf.lbal, 0),
     RegWord(REG_LBAM, tf.lbam, 0), RegWord(REG_LBAH, tf.lbah, 0)]
  }

  function AdmaAddress(tf: Taskfile): seq<Word> {
    if tf.isAddr then AdmaHigh(tf) + AdmaLow(tf) else []
  }

  function AdmaWords(tf: Taskfile): seq<Word> {
    AdmaAddress(tf)
    + (if tf.setsDevice then [RegWord(REG_DEVICE, tf.device, 0)] else [])
    + [RegWord(REG_CMD, tf.command, CMDEND)]
  }

  function Padded(words: seq<Word>): seq<Word>
    requires |words| <= CPB_TF_LEN
  {
    words + seq(CPB_TF_LEN - |words|, _ => IGN)
  }

  lemma WordFields(r: nat, v: Byte, flag: nat)
    requires REG_FEATURE <= r <= REG_CMD && (flag == 0 || flag == WNB || flag == CMDEND)
    ensures
      var w := RegWord(r, v, flag);
      w / 256 % 32 == r && w % 256 == v && w / IGN % 2 == 0 && (w >= CMDEND <==> flag == CMDEND)
  {}

  lemma AdmaStep(f: File, words: seq<Word>, r: nat, v: Byte, flag: nat)
    requires words != [] && REG_FEATURE <= r <= REG_CMD && (flag == 0 || flag == WNB || flag == CMDEND)
    requires words[0] == RegWord(r, v, flag)
    ensures
      AdmaReplay(f, words)
      == if flag == CMDEND then Some(Write(f, r, v)) else AdmaReplay(Write(f, r, v), words[1..])
  {
    WordFields(r, v, flag);
  }

  /** Replaying the words of the address registers. */
  lemma AdmaAddressMeans(f: File, tf: Taskfile, rest: seq<Word>)
    requires tf.isAddr
    ensures
      AdmaReplay(f, AdmaAddress(tf) + rest)
      == AdmaReplay(Loaded(f, tf).(device := f.device, command := f.command), rest)
  {
    var w := AdmaAddress(tf) + rest;
    var g, k := f, 0;
    if tf.lba48 {
      AdmaFive(g, w, [tf.hobFeature, tf.hobNsect, tf.hobLbal, tf.hobLbam, tf.hobLbah], WNB);
      g, k := WriteFive(g, [tf.hobFeature, tf.hobNsect, tf.hobLbal, tf.hobLbam, tf.hobLbah]), 5;
    }
    AdmaFive(g, w[k..], [tf.feature, tf.nsect, tf.lbal, tf.lbam, tf.lbah], if tf.lba48 then 0 else WNB);
    assert w[k..][5..] == rest;
  }

  function WriteFive(f: File, v: seq<Byte>): File
    requires |v| == 5
  {
    f.(feature := Shift(f.feature, v[0]), nsect := Shift(f.nsect, v[1]), lbal := Shift(f.lbal, v[2]),
       lbam := Shift(f.lbam, v[3]), lbah := Shift(f.lbah, v[4]))
  }

  lemma AdmaFive(f: File, w: seq<Word>, v: seq<Byte>, flag: nat)
    requires |v| == 5 && |w| >= 5 && (flag == 0 || flag == WNB)
    requires w[0] == RegWord(REG_FEATURE, v[0], flag) && w[1] == RegWord(REG_NSECT, v[1], 0)
    requires w[2] == RegWord(REG_LBAL, v[2], 0) && w[3] == RegWord(REG_LBAM, v[3], 0)
    requires w[4] == RegWord(REG_LBAH, v[4], 0)
    ensures AdmaReplay(f, w) == AdmaReplay(WriteFive(f, v), w[5..])
  {
    AdmaStep(f, w, REG_FEATURE, v[0], flag);
    var f1 := Write(f, REG_FEATURE, v[0]);
    AdmaStep(f1, w[1..], REG_NSECT, v[1], 0);
    var f2 := Write(f1, REG_NSECT, v[1]);
    assert w[1..][1..] == w[2..];
    AdmaStep(f2, w[2..], REG_LBAL, v[2], 0);
    var f3 := Write(f2, REG_LBAL, v[2]);
    assert w[2..][1..] == w[3..];
    AdmaStep(f3, w[3..], REG_LBAM, v[3], 0);
    var f4 := Write(f3, REG_LBAM, v[3]);
    assert w[3..][1..] == w[4..];
    AdmaStep(f4, w[4..], REG_LBAH, v[4], 0);
    assert w[4..][1..] == w[5..];
  }

  /** The ADMA words mean the taskfile, whatever its flags. */
  lemma AdmaFaithful(f: File, tf: Taskfile)
    ensures AdmaReplay(f, Padded(AdmaWords(tf))) == Some(Loaded(f, tf))
  {
    var all := Padded(AdmaWords(tf));
    var address := AdmaAddress(tf);
    var rest := all[|address|..];
    assert all == address + rest;
    if tf.isAddr {
      AdmaAddressMeans(f, tf, rest);
    } else {
      assert all == rest;
    }
    var g := Loaded(f, tf).(device := f.device, command := f.command);
    if tf.setsDevice {
      AdmaStep(g, rest, REG_DEVICE, tf.device, 0);
      AdmaStep(g.(device := tf.device), rest[1..], REG_CMD, tf.command, CMDEND);
    } else {
      AdmaStep(g, rest, REG_CMD, tf.command, CMDEND);
    }
  }

  method PutWord(cpb: array<Word>, idx: nat, w: Word) returns (next: nat)
    requires idx < cpb.Length
    modifies cpb
    ensures next == idx + 1 && cpb[..next] == old(cpb[..idx]) + [w]
  {
    cpb[idx] := w;
    next := idx + 1;
  }

  method PutHigh(tf: Taskfile, cpb: array<Word>) returns (idx: nat)
    requires cpb.Length == CPB_TF_LEN
    modifies cpb
    ensures idx == |AdmaHigh(tf)| && cpb[..idx] == AdmaHigh(tf)
  {
    idx := 0;
    if tf.lba48 {
      idx := PutWord(cpb, idx, RegWord(REG_FEATURE, tf.hobFeature, WNB));
      idx := PutWord(cpb, idx, RegWord(REG_NSECT, tf.hobNsect, 0));
      idx := PutWord(cpb, idx, RegWord(REG_LBAL, tf.hobLbal, 0));
      idx := PutWord(cpb, idx, RegWord(REG_LBAM, tf.hobLbam, 0));
      idx := PutWord(cpb, idx, RegWord(REG_LBAH, tf.hobLbah, 0));
      idx := PutWord(cpb, idx, RegWord(REG_FEATURE, tf.feature, 0));
    } else {
      idx := PutWord(cpb, idx, RegWord(REG_FEATURE, tf.feature, WNB));
    }
  }

  method PutLow(tf: Taskfile, cpb: array<Word>, at: nat) returns (idx: nat)
    requires at + 4 <= cpb.Length
    modifies cpb
    ensures idx == at + 4 && cpb[..idx] == old(cpb[..at]) + AdmaLow(tf)
  {
    idx := PutWord(cpb, at, RegWord(REG_NSECT, tf.nsect, 0));
    idx := PutWord(cpb, idx, RegWord(REG_LBAL, tf.lbal, 0));
    idx := PutWord(cpb, idx, RegWord(REG_LBAM, tf.lbam, 0));
    idx := PutWord(cpb, idx, RegWord(REG_LBAH, tf.lbah, 0));
  }

  /** nv_adma_tf_to_cpb: the words, then ignored ones up to the end of the command block's array. */
  method NvAdmaTfToCpb(tf: Taskfile, cpb: array<Word>) returns (idx: nat)
    requires cpb.Length == CPB_TF_LEN
    modifies cpb
    ensures idx == CPB_TF_LEN && cpb[..] == Padded(AdmaWords(tf))
  {
    idx := 0;
    if tf.isAddr {
      idx := PutHigh(tf, cpb);
      idx := PutLow(tf, cpb, idx);
    }
    if tf.setsDevice {
      idx := PutWord(cpb, idx, RegWord(REG_DEVICE, tf.device, 0));
    }
    idx := PutWord(cpb, idx, RegWord(REG_CMD, tf.command, CMDEND));
    ghost var words := cpb[..idx];
    assert words == AdmaWords(tf);
    while idx < 12
      invariant |words| <= idx <= 12
      invariant forall k :: 0 <= k < |words| ==> cpb[k] == words[k]
      invariant forall k :: |words| <= k < idx ==> cpb[k] == IGN
    {
      cpb[idx] := IGN;
      idx := idx + 1;
    }
  }
}
