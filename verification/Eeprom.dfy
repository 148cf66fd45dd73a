/** The CD32's 24C08 EEPROM behind two bit-banged pins (START and STOP as in section 3.1.4 of UM10204). */
module Eeprom {

  const NVRAM_SIZE: nat := 1024
  const NVRAM_PAGE_SIZE: nat := 16

  type Byte = int

  datatype Phase = Wait | DeviceAddr | WordAddr | Data

  /** The interface's variables.  `base` and `accepted` are history: the word address of the write transaction under way
      and the data bytes acknowledged in it. */
  datatype State = State(
    nvram: seq<Byte>, writetmp: seq<Byte>, address: nat, writeaddr: nat,
    bitcounter: int, direction: int, byte: Byte, phase: Phase,
    sclOut: bool, oscl: bool, sdaOut: bool, osda: bool, sclDir: bool, sdaDir: bool, sdaIn: bool, sdaDirNvram: bool,
    base: nat, accepted: seq<Byte>)

  function PageOf(address: nat): nat {
    address / NVRAM_PAGE_SIZE * NVRAM_PAGE_SIZE
  }

  function B(level: bool): nat {
    if level then 1 else 0
  }

  ghost predicate Shape(s: State) {
    && |s.nvram| == NVRAM_SIZE && |s.writetmp| == NVRAM_PAGE_SIZE
    && s.address < NVRAM_SIZE && s.writeaddr < NVRAM_PAGE_SIZE
    && -1 <= s.bitcounter <= 8 && -1 <= s.direction <= 1 && 0 <= s.byte < 256
  }

  predicate IsStart(s: State) {
    !s.sdaDirNvram && s.sclOut && s.oscl && !s.sdaOut && s.osda
  }

  predicate IsStop(s: State) {
    !s.sdaDirNvram && s.sclOut && s.oscl && s.sdaOut && !s.osda
  }

  // ---------- i2c_do ----------

  function Started(s: State): State {
    s.(phase := DeviceAddr, bitcounter := 0, direction := -1)
  }

  /** STOP copies the page buffer into the array if a write transaction was under way. */
  function Committed(s: State): State
    requires Shape(s)
  {
    var p := PageOf(s.address);
    s.(phase := Wait, bitcounter := -1, direction := -1,
       nvram := s.nvram[..p] + s.writetmp + s.nvram[p + NVRAM_PAGE_SIZE..])
  }

  function Stopped(s: State): State
    requires Shape(s)
  {
    if s.direction > 0 then Committed(s) else s.(phase := Wait, bitcounter := -1)
  }

  function DataAck(s: State): State
    requires Shape(s)
  {
    s.(sdaIn := false, writetmp := s.writetmp[s.writeaddr := s.byte], writeaddr := (s.writeaddr + 1) % 16,
       bitcounter := 0, accepted := s.accepted + [s.byte])
  }

  function AddressAck(s: State): State {
    s.(sdaIn := false, bitcounter := -1)
  }

  function ShiftIn(s: State): State {
    s.(byte := (s.byte * 2 + B(s.sdaOut)) % 256, bitcounter := s.bitcounter + 1)
  }

  /** Amiga to EEPROM: a bit or an acknowledge on the rising clock. */
  function Receive(s: State): State
    requires Shape(s)
  {
    if !(s.sclOut && !s.oscl) then s
    else if s.bitcounter == 8 then if s.direction > 0 then DataAck(s) else AddressAck(s)
    else ShiftIn(s)
  }

  function SendBit(s: State): State
    requires Shape(s)
  {
    var b: Byte := if s.bitcounter == 0 then s.nvram[s.address] else s.byte;
    var last := s.bitcounter + 1 == 8;
    s.(sdaDirNvram := !last, sdaIn := b >= 128, byte := b * 2 % 256, bitcounter := s.bitcounter + 1,
       address := if last then (s.address + 1) % NVRAM_SIZE else s.address)
  }

  /** EEPROM to Amiga: one bit on the rising clock, and the Amiga's acknowledge. */
  function Send(s: State): State
    requires Shape(s)
  {
    var t := if s.sclOut && !s.oscl && s.bitcounter < 8 then SendBit(s) else s;
    if !s.sdaOut && s.sdaDir && !s.sclOut then t.(bitcounter := 0) else t
  }

  function DeviceWrite(s: State): State {
    s.(address := s.address % 256 + s.byte / 2 % 4 * 256, phase := WordAddr, direction := -1, bitcounter := 0)
  }

  function DeviceRead(s: State): State {
    s.(phase := Data, direction := 0, sdaDirNvram := true, bitcounter := 0)
  }

  /** The word address selects a page, which is copied into the buffer. */
  function WordDone(s: State): State
    requires Shape(s)
  {
    var a := s.address / 256 * 256 + s.byte;
    var p := PageOf(a);
    var t := s.(address := a, phase := Data, bitcounter := 0, direction := 1);
    if s.direction < 0 then
      t.(writetmp := s.nvram[p..p + NVRAM_PAGE_SIZE], writeaddr := a % NVRAM_PAGE_SIZE, base := a, accepted := [])
    else t
  }

  /** What happens after a complete address byte. */
  function Dispatch(s: State): State
    requires Shape(s)
  {
    match s.phase
    case DeviceAddr =>
      if s.byte / 16 != 0xA then s.(phase := Wait)
      else if s.byte % 2 == 0 then DeviceWrite(s)
      else DeviceRead(s)
    case WordAddr => WordDone(s)
    case _ => s
  }

  /** i2c_do. */
  function I2cDone(s0: State): State
    requires Shape(s0)
  {
    var s := s0.(sdaIn := true);
    if IsStart(s) then Started(s)
    else if IsStop(s) then Stopped(s)
    else if s.bitcounter >= 0 then
      (ReceiveShape(s);
      var t := if s.direction != 0 then Receive(s) else Send(s);
      if t.bitcounter >= 0 then t else Dispatch(t))
    else Dispatch(s)
  }

  lemma DataAckShape(s: State)
    requires Shape(s)
    ensures Shape(DataAck(s))
  {
  }

  lemma AddressAckShape(s: State)
    requires Shape(s)
    ensures Shape(AddressAck(s))
  {
  }

  lemma ShiftInShape(s: State)
    requires Shape(s) && s.bitcounter < 8
    ensures Shape(ShiftIn(s))
  {
  }

  lemma SendShape(s: State)
    requires Shape(s)
    ensures Shape(Send(s))
  {
  }

  lemma ReceiveShape(s: State)
    requires Shape(s)
    ensures Shape(Receive(s)) && Shape(Send(s))
  {
    hide DataAck, AddressAck, ShiftIn, Send;
    DataAckShape(s);
    AddressAckShape(s);
    if s.bitcounter < 8 {
      ShiftInShape(s);
    }
    SendShape(s);
  }

  // ---------- the pin registers ----------

  /** A write to 0xb80030 (levels) or 0xb80032 (directions). */
  datatype Op = Pins(scl: bool, sda: bool) | Dirs(scl: bool, sda: bool)

  /** akiko_nvram_write. */
  function Wrote(s: State, op: Op): State
    requires Shape(s)
  {
    match op
    case Dirs(scl, sda) => s.(sclDir := scl, sdaDir := sda)
    case Pins(scl, sda) =>
      var t := s.(oscl := s.sclOut, sclOut := scl, osda := s.sdaOut, sdaOut := sda);
      if s.sclOut != scl || s.sdaOut != sda then I2cDone(t).(oscl := scl, osda := sda) else t
  }

  /** The SDA level the Amiga reads from 0xb80030. */
  function SdaSeen(s: State): bool {
    if s.sdaDir then s.sdaOut else s.sdaIn
  }

  // ---------- what a page write means ----------

  /** Byte i of a page write that starts at address a goes here. */
  function Slot(a: nat, i: nat): nat {
    PageOf(a) + (a + i) % NVRAM_PAGE_SIZE
  }

  /** The bytes stored one after the other, later ones winning. */
  function PageWrite(nvram: seq<Byte>, a: nat, bytes: seq<Byte>): (r: seq<Byte>)
    requires |nvram| == NVRAM_SIZE && a < NVRAM_SIZE
    ensures |r| == NVRAM_SIZE
  {
    if |bytes| == 0 then nvram else
      PageWrite(nvram, a, bytes[..|bytes| - 1])[Slot(a, |bytes| - 1) := bytes[|bytes| - 1]]
  }

  /** The page buffer is the page with the bytes accepted so far. */
  ghost predicate Buffered(s: State)
    requires Shape(s)
  {
    && s.base == s.address && s.writeaddr == (s.base + |s.accepted|) % NVRAM_PAGE_SIZE
    && s.writetmp == PageWrite(s.nvram, s.base, s.accepted)[PageOf(s.base)..PageOf(s.base) + NVRAM_PAGE_SIZE]
  }

  lemma {:induction false} PageWriteFrame(nvram: seq<Byte>, a: nat, bytes: seq<Byte>)
    requires |nvram| == NVRAM_SIZE && a < NVRAM_SIZE
    ensures forall k :: 0 <= k < NVRAM_SIZE && !(PageOf(a) <= k < PageOf(a) + NVRAM_PAGE_SIZE) ==>
      PageWrite(nvram, a, bytes)[k] == nvram[k]
  {
    if |bytes| > 0 {
      PageWriteFrame(nvram, a, bytes[..|bytes| - 1]);
    }
  }

  /** A stored byte is found where it was put unless a later one has gone to the same place. */
  lemma {:induction false} PageWriteAt(nvram: seq<Byte>, a: nat, bytes: seq<Byte>, i: nat)
    requires |nvram| == NVRAM_SIZE && a < NVRAM_SIZE && i < |bytes|
    requires forall j: nat :: i < j < |bytes| ==> Slot(a, j) != Slot(a, i)
    ensures PageWrite(nvram, a, bytes)[Slot(a, i)] == bytes[i]
  {
    var n := |bytes| - 1;
    if i < n {
      PageWriteAt(nvram, a, bytes[..n], i);
    }
  }

  lemma CommitIsPageWrite(s: State)
    requires Shape(s) && Buffered(s)
    ensures var p := PageOf(s.address);
      s.nvram[..p] + s.writetmp + s.nvram[p + NVRAM_PAGE_SIZE..] == PageWrite(s.nvram, s.base, s.accepted)
  {
    PageWriteFrame(s.nvram, s.base, s.accepted);
  }

  lemma NextSlot(n: nat)
    ensures (n % NVRAM_PAGE_SIZE + 1) % 16 == (n + 1) % NVRAM_PAGE_SIZE
  {
  }

  lemma ByteBuffered(s: State, v: Byte)
    requires Shape(s) && Buffered(s)
    ensures Buffered(s.(writetmp := s.writetmp[s.writeaddr := v], writeaddr := (s.writeaddr + 1) % 16,
      accepted := s.accepted + [v]))
  {
    hide PageWrite;
    NextSlot(s.base + |s.accepted|);
    PageWriteMore(s.nvram, s.base, s.accepted, v);
    var p := PageOf(s.base);
    assert PageWrite(s.nvram, s.base, s.accepted + [v])[p..p + NVRAM_PAGE_SIZE] == s.writetmp[s.writeaddr := v];
  }

  lemma PageWriteMore(nvram: seq<Byte>, a: nat, bytes: seq<Byte>, v: Byte)
    requires |nvram| == NVRAM_SIZE && a < NVRAM_SIZE
    ensures PageWrite(nvram, a, bytes + [v]) == PageWrite(nvram, a, bytes)[Slot(a, |bytes|) := v]
  {
    var more := bytes + [v];
    assert more[..|more| - 1] == bytes;
  }

  /** Everything i2c_do needs and keeps, apart from the clock edge bookkeeping. */
  ghost predicate Core(s: State) {
    Shape(s) && (s.phase.WordAddr? || s.phase.DeviceAddr? ==> s.direction < 0) && (s.direction > 0 ==> Buffered(s))
  }

  predicate SamePins(s: State, t: State) {
    t.sclOut == s.sclOut && t.sdaOut == s.sdaOut && t.oscl == s.oscl && t.osda == s.osda && t.sclDir == s.sclDir
      && t.sdaDir == s.sdaDir
  }

  lemma SameBuffer(s: State, t: State)
    requires Shape(s) && Buffered(s) && Shape(t)
    requires t.nvram == s.nvram && t.writetmp == s.writetmp && t.address == s.address
    requires t.writeaddr == s.writeaddr && t.base == s.base && t.accepted == s.accepted
    ensures Buffered(t)
  {
  }

  lemma DataAckKeeps(s: State)
    requires Core(s) && s.direction > 0
    ensures Core(DataAck(s)) && DataAck(s).nvram == s.nvram && SamePins(s, DataAck(s))
  {
    hide Buffered;
    ByteBuffered(s, s.byte);
    var t := s.(writetmp := s.writetmp[s.writeaddr := s.byte], writeaddr := (s.writeaddr + 1) % 16,
                accepted := s.accepted + [s.byte]);
    SameBuffer(t, DataAck(s));
  }

  lemma ShiftInKeeps(s: State)
    requires Core(s) && 0 <= s.bitcounter < 8
    ensures Core(ShiftIn(s)) && ShiftIn(s).nvram == s.nvram && SamePins(s, ShiftIn(s))
  {
    hide Buffered;
    if s.direction > 0 {
      SameBuffer(s, ShiftIn(s));
    }
  }

  lemma ReceiveKeeps(s: State)
    requires Core(s) && s.direction != 0 && s.bitcounter >= 0
    ensures Core(Receive(s)) && Receive(s).nvram == s.nvram && SamePins(s, Receive(s))
    ensures Receive(s).bitcounter < 0 ==> Receive(s).direction < 0
  {
    hide Buffered, DataAck, ShiftIn;
    if !(s.sclOut && !s.oscl) {
    } else if s.bitcounter == 8 {
      if s.direction > 0 {
        DataAckKeeps(s);
        assert DataAck(s).bitcounter == 0 by { DataAckCounts(s); }
      } else {
      }
    } else {
      ShiftInKeeps(s);
      assert ShiftIn(s).bitcounter >= 0 by { ShiftInCounts(s); }
    }
  }

  lemma DataAckCounts(s: State)
    requires Shape(s)
    ensures DataAck(s).bitcounter == 0
  {
  }

  lemma ShiftInCounts(s: State)
    ensures ShiftIn(s).bitcounter == s.bitcounter + 1
  {
  }

  lemma SendKeeps(s: State)
    requires Core(s) && s.direction == 0 && s.bitcounter >= 0
    ensures Core(Send(s)) && Send(s).nvram == s.nvram && Send(s).bitcounter >= 0 && SamePins(s, Send(s))
  {
    hide Buffered;
    if s.sclOut && !s.oscl && s.bitcounter < 8 {
    } else {
    }
  }

  lemma WordDoneKeeps(s: State)
    requires Core(s) && s.direction < 0
    ensures Core(WordDone(s)) && WordDone(s).nvram == s.nvram && SamePins(s, WordDone(s))
  {
    var t := WordDone(s);
    assert PageWrite(t.nvram, t.base, []) == t.nvram;
  }

  lemma DeviceKeeps(s: State)
    requires Core(s) && s.phase.DeviceAddr?
    ensures Core(DeviceWrite(s)) && DeviceWrite(s).nvram == s.nvram && SamePins(s, DeviceWrite(s))
    ensures Core(DeviceRead(s)) && DeviceRead(s).nvram == s.nvram && SamePins(s, DeviceRead(s))
  {
    hide Buffered;
  }

  lemma DispatchKeeps(s: State)
    requires Core(s)
    ensures Core(Dispatch(s)) && Dispatch(s).nvram == s.nvram && SamePins(s, Dispatch(s))
  {
    hide Buffered, WordDone, DeviceWrite, DeviceRead;
    match s.phase
    case DeviceAddr => DeviceKeeps(s);
    case WordAddr => WordDoneKeeps(s);
    case _ =>
  }

  lemma StoppedKeeps(s: State)
    requires Core(s)
    ensures Core(Stopped(s)) && SamePins(s, Stopped(s))
    ensures Stopped(s).nvram == if s.direction > 0 then PageWrite(s.nvram, s.base, s.accepted) else s.nvram
  {
    hide PageWrite, Buffered;
    if s.direction > 0 {
      CommitIsPageWrite(s);
    }
  }

  /** What i2c_do keeps, and the only way it changes the array: at a STOP that ends a write transaction. */
  lemma I2cDoneKeeps(s0: State)
    requires Core(s0)
    ensures Core(I2cDone(s0)) && SamePins(s0, I2cDone(s0))
    ensures I2cDone(s0).nvram ==
      if IsStop(s0) && s0.direction > 0 then PageWrite(s0.nvram, s0.base, s0.accepted) else s0.nvram
  {
    hide Buffered, PageWrite, Receive, Send, Dispatch, Stopped;
    var s := s0.(sdaIn := true);
    if s0.direction > 0 {
      SameBuffer(s0, s);
    }
    if IsStart(s) {
    } else if IsStop(s) {
      StoppedKeeps(s);
    } else {
      TransferKeeps(s);
    }
  }

  /** What every branch of i2c_do but the STOP keeps. */
  ghost predicate Kept(s: State, t: State) {
    Core(t) && SamePins(s, t) && t.nvram == s.nvram
  }

  /** i2c_do away from START and STOP. */
  lemma TransferKeeps(s: State)
    requires Core(s)
    ensures s.bitcounter >= 0 && s.direction != 0 ==> Kept(s, Receive(s))
    ensures s.bitcounter >= 0 && s.direction != 0 && Receive(s).bitcounter < 0 ==> Kept(s, Dispatch(Receive(s)))
    ensures s.bitcounter >= 0 && s.direction == 0 ==> Kept(s, Send(s)) && Send(s).bitcounter >= 0
    ensures Kept(s, Dispatch(s))
  {
    hide Buffered, Receive, Send, Dispatch;
    DispatchKeeps(s);
    if s.bitcounter >= 0 {
      if s.direction != 0 {
        ReceiveKeeps(s);
        DispatchKeeps(Receive(s));
      } else {
        SendKeeps(s);
      }
    }
  }

  // ---------- every waveform ----------

  /** Between writes to the pin registers. */
  ghost predicate Ok(s: State) {
    Core(s) && s.oscl == s.sclOut && s.osda == s.sdaOut
  }

  /** This pin write is a STOP that ends a write transaction. */
  predicate Commits(s: State, op: Op) {
    op.Pins? && !s.sdaDirNvram && op.scl && s.sclOut && op.sda && !s.sdaOut && s.direction > 0
  }

  lemma PinsKeep(s: State, scl: bool, sda: bool)
    requires Ok(s)
    ensures Ok(Wrote(s, Pins(scl, sda)))
    ensures Wrote(s, Pins(scl, sda)).nvram ==
      if Commits(s, Pins(scl, sda)) then PageWrite(s.nvram, s.base, s.accepted) else s.nvram
  {
    hide PageWrite, Buffered, I2cDone;
    var t := s.(oscl := s.sclOut, sclOut := scl, osda := s.sdaOut, sdaOut := sda);
    if s.direction > 0 {
      SameBuffer(s, t);
    }
    I2cDoneKeeps(t);
    EdgesSettle(I2cDone(t), scl, sda);
  }

  lemma EdgesSettle(u: State, scl: bool, sda: bool)
    requires Core(u) && u.sclOut == scl && u.sdaOut == sda
    ensures Ok(u.(oscl := scl, osda := sda))
  {
    hide Buffered;
    if u.direction > 0 {
      SameBuffer(u, u.(oscl := scl, osda := sda));
    }
  }

  /** One write to the pins keeps the invariant, and changes the array only when it commits: then the bytes accepted
      since the word address are stored in one page. */
  lemma WroteKeeps(s: State, op: Op)
    requires Ok(s)
    ensures Ok(Wrote(s, op))
    ensures Wrote(s, op).nvram == if Commits(s, op) then PageWrite(s.nvram, s.base, s.accepted) else s.nvram
  {
    match op
    case Dirs(scl, sda) =>
      hide PageWrite, Buffered;
      if s.direction > 0 {
        SameBuffer(s, Wrote(s, op));
      }
    case Pins(scl, sda) =>
      hide *;
      PinsKeep(s, scl, sda);
  }

  /** The interface after a waveform. */
  ghost function Wave(s: State, ops: seq<Op>): State
    requires Ok(s)
    ensures Ok(Wave(s, ops))
    decreases |ops|
  {
    if |ops| == 0 then s else
      (WroteKeeps(Wave(s, ops[..|ops| - 1]), ops[|ops| - 1]);
      Wrote(Wave(s, ops[..|ops| - 1]), ops[|ops| - 1]))
  }

  /** What the committed transactions of a waveform store, one after the other. */
  ghost function Stored(s: State, ops: seq<Op>): (r: seq<Byte>)
    requires Ok(s)
    ensures |r| == NVRAM_SIZE
    decreases |ops|
  {
    if |ops| == 0 then s.nvram else
      var before, op := ops[..|ops| - 1], ops[|ops| - 1];
      var t := Wave(s, before);
      if Commits(t, op) then PageWrite(Stored(s, before), t.base, t.accepted) else Stored(s, before)
  }

  /** Over any waveform the array holds what the committed transactions stored, and nothing else. */
  lemma {:induction false} WaveStores(s: State, ops: seq<Op>)
    requires Ok(s)
    ensures Wave(s, ops).nvram == Stored(s, ops)
    decreases |ops|
  {
    hide PageWrite, Wrote, Core, Commits;
    if |ops| > 0 {
      WaveStores(s, ops[..|ops| - 1]);
      WroteKeeps(Wave(s, ops[..|ops| - 1]), ops[|ops| - 1]);
    }
  }

  // ---------- reset ----------

  /** The interface variables when the program starts. */
  function PowerOn(nvram: seq<Byte>): State {
    State(nvram, seq(16, i => 0), 0, 0, -1, -1, 0, Wait,
      false, false, false, false, false, false, false, false, 0, [])
  }

  /** What akiko_reset does to the interface: three assignments.  The direction of the EEPROM's own SDA pin stays. */
  function Reset(s: State): State {
    s.(phase := Wait, bitcounter := -1, direction := -1)
  }

  /** A reset interface: no transfer under way. */
  predicate IsReset(s: State) {
    s.phase.Wait? && s.bitcounter == -1 && s.direction == -1 && s.oscl == s.sclOut && s.osda == s.sdaOut
  }

  lemma PowerOnIsReset(nvram: seq<Byte>)
    requires |nvram| == NVRAM_SIZE
    ensures Ok(PowerOn(nvram)) && IsReset(PowerOn(nvram)) && Idle(PowerOn(nvram))
  {
  }

  /** A reset at any time leaves a reset interface with the array as it was. */
  lemma ResetResets(s: State)
    requires Ok(s)
    ensures Ok(Reset(s)) && IsReset(Reset(s)) && Reset(s).nvram == s.nvram
    ensures Idle(Reset(s)) <==> !s.sdaDirNvram
  {
  }

  /** No transfer under way, whoever drives SDA. */
  ghost predicate Resting(s: State) {
    Ok(s) && s.phase == Wait && s.bitcounter == -1 && s.direction <= 0
  }

  /** No transfer under way, and the interface can hear a START. */
  ghost predicate Idle(s: State) {
    Resting(s) && !s.sdaDirNvram
  }

  /** No transfer under way, but the EEPROM still drives SDA, so that it hears neither START nor STOP. */
  ghost predicate Deaf(s: State) {
    Resting(s) && s.sdaDirNvram
  }

  lemma ResetIsResting(s: State)
    requires Shape(s) && IsReset(s)
    ensures Resting(s) && (Idle(s) <==> !s.sdaDirNvram) && (Deaf(s) <==> s.sdaDirNvram)
  {
  }

  lemma DeafWrote(s: State, op: Op)
    requires Deaf(s)
    ensures Deaf(Wrote(s, op)) && Wrote(s, op).nvram == s.nvram
    ensures op.Pins? && op.sda && (s.sdaIn || s.sclOut != op.scl || s.sdaOut != op.sda) ==> Wrote(s, op).sdaIn
    ensures op.Pins? ==> Wrote(s, op).sdaDir == s.sdaDir
  {
    hide Buffered;
  }

  /** A deaf interface stays deaf whatever happens on the pins, and the array never changes again. */
  lemma {:induction false} DeafForEver(s: State, ops: seq<Op>)
    requires Deaf(s)
    ensures Deaf(Wave(s, ops)) && Wave(s, ops).nvram == s.nvram
    decreases |ops|
  {
    hide Wrote, Deaf;
    assert Ok(s) by { DeafIsOk(s); }
    if |ops| > 0 {
      DeafForEver(s, ops[..|ops| - 1]);
      DeafWrote(Wave(s, ops[..|ops| - 1]), ops[|ops| - 1]);
    }
  }

  lemma DeafIsOk(s: State)
    requires Deaf(s)
    ensures Ok(s)
  {
  }

  // ---------- a master on the bus ----------

  lemma {:induction false} WaveConcat(s: State, x: seq<Op>, y: seq<Op>)
    requires Ok(s)
    ensures Wave(s, x + y) == Wave(Wave(s, x), y)
    decreases |y|
  {
    hide Wrote, Ok;
    if |y| == 0 {
      assert x + y == x;
    } else {
      assert (x + y)[..|x + y| - 1] == x + y[..|y| - 1];
      WaveConcat(s, x, y[..|y| - 1]);
    }
  }

  lemma WaveNothing(s: State)
    requires Ok(s)
    ensures Wave(s, []) == s
  {
  }

  lemma WaveOne(s: State, op: Op)
    requires Ok(s)
    ensures Shape(s) && Wave(s, [op]) == Wrote(s, op) && Ok(Wrote(s, op))
  {
    hide Wrote;
    WroteKeeps(s, op);
    assert [op][..0] == [];
    assert Wave(s, []) == s;
  }

  lemma Wave3(s: State, a: Op, b: Op, c: Op)
    requires Ok(s)
    ensures Shape(s) && Ok(Wrote(s, a)) && Ok(Wrote(Wrote(s, a), b))
    ensures Wave(s, [a, b, c]) == Wrote(Wrote(Wrote(s, a), b), c)
  {
    hide Wrote;
    WaveOne(s, a);
    WaveOne(Wrote(s, a), b);
    WaveOne(Wrote(Wrote(s, a), b), c);
    WaveConcat(s, [a], [b, c]);
    WaveConcat(Wrote(s, a), [b], [c]);
    assert [a, b, c] == [a] + [b, c] && [b, c] == [b] + [c];
  }

  /** With SCL low, moving SDA has no effect but on the pins. */
  lemma SetSda(s: State, sda: bool)
    requires Ok(s) && !s.sclOut && !s.sdaDirNvram && s.bitcounter >= 0 && s.direction != 0
    ensures Wrote(s, Pins(false, sda)) ==
      s.(sdaOut := sda, osda := sda, sdaIn := if s.sdaOut == sda then s.sdaIn else true)
  {
  }

  /** SCL falls. */
  lemma ClockDown(s: State)
    requires Ok(s) && s.sclOut && s.bitcounter >= 0 && s.direction != 0
    ensures Wrote(s, Pins(false, s.sdaOut)) == s.(sclOut := false, oscl := false, sdaIn := true)
  {
  }

  /** SCL rises on a bit. */
  lemma ClockUp(s: State)
    requires Ok(s) && !s.sclOut && 0 <= s.bitcounter < 8 && s.direction != 0
    ensures Wrote(s, Pins(true, s.sdaOut)) ==
      s.(sclOut := true, oscl := true, sdaIn := true, byte := (s.byte * 2 + B(s.sdaOut)) % 256,
        bitcounter := s.bitcounter + 1)
  {
  }

  function BitOps(b: bool): seq<Op> {
    [Pins(false, b), Pins(true, b), Pins(false, b)]
  }

  /** The interface is taking in a byte. */
  ghost predicate Listening(s: State) {
    Ok(s) && !s.sclOut && !s.sdaDirNvram && s.direction != 0
  }

  lemma BitIn(s: State, b: bool)
    requires Listening(s) && 0 <= s.bitcounter < 8
    ensures Wave(s, BitOps(b)) ==
      s.(sdaOut := b, osda := b, sdaIn := true, byte := (s.byte * 2 + B(b)) % 256, bitcounter := s.bitcounter + 1)
  {
    hide Wrote, Core;
    Wave3(s, Pins(false, b), Pins(true, b), Pins(false, b));
    SetSda(s, b);
    ClockUp(Wrote(s, Pins(false, b)));
    ClockDown(Wrote(Wrote(s, Pins(false, b)), Pins(true, b)));
  }

  function Pow2(n: nat): (p: nat)
    ensures p > 0
  {
    if n == 0 then 1 else 2 * Pow2(n - 1)
  }

  /** Bit j of a byte. */
  predicate BitAt(v: nat, j: nat) {
    v / Pow2(j) % 2 == 1
  }

  /** The first k bits of v, most significant first. */
  function FirstBits(v: nat, k: nat): seq<Op>
    requires k <= 8
  {
    if k == 0 then [] else FirstBits(v, k - 1) + BitOps(BitAt(v, 8 - k))
  }

  lemma Pow2Values()
    ensures Pow2(0) == 1 && Pow2(1) == 2 && Pow2(2) == 4 && Pow2(3) == 8 && Pow2(4) == 16
    ensures Pow2(5) == 32 && Pow2(6) == 64 && Pow2(7) == 128 && Pow2(8) == 256
  {
    assert Pow2(4) == 16;
    assert Pow2(6) == 64;
  }

  /** The top k bits of a byte. */
  function Top(v: nat, k: nat): nat
    requires k <= 8
  {
    match k
    case 0 => v / 256
    case 1 => v / 128
    case 2 => v / 64
    case 3 => v / 32
    case 4 => v / 16
    case 5 => v / 8
    case 6 => v / 4
    case 7 => v / 2
    case _ => v
  }

  lemma TopHalves(v: nat, k: nat)
    requires 1 <= k <= 8
    ensures Top(v, k - 1) == Top(v, k) / 2
  {
  }

  lemma TopLowest(v: nat, k: nat)
    requires 1 <= k <= 8
    ensures BitAt(v, 8 - k) == (Top(v, k) % 2 == 1)
  {
    Pow2Values();
  }

  lemma TopBits(v: nat, k: nat)
    requires 1 <= k <= 8
    ensures 2 * Top(v, k - 1) + B(BitAt(v, 8 - k)) == Top(v, k)
  {
    hide Top, BitAt;
    TopHalves(v, k);
    TopLowest(v, k);
  }

  lemma ShiftReduced(x: nat, b: nat)
    ensures (x % 256 * 2 + b) % 256 == (x * 2 + b) % 256
  {
    assert x == 256 * (x / 256) + x % 256;
    assert x * 2 + b == 256 * (x / 256 * 2) + (x % 256 * 2 + b);
  }

  /** The shift register after k bits of v. */
  function Register(old0: nat, v: nat, k: nat): nat
    requires k <= 8
  {
    (old0 * Pow2(k) + Top(v, k)) % 256
  }

  lemma NextBit(old0: nat, v: nat, k: nat)
    requires v < 256 && 1 <= k <= 8
    ensures (Register(old0, v, k - 1) * 2 + B(BitAt(v, 8 - k))) % 256 == Register(old0, v, k)
  {
    hide BitAt, Top;
    TopBits(v, k);
    HornerStep(old0, Pow2(k - 1), Top(v, k - 1), B(BitAt(v, 8 - k)));
  }

  lemma HornerStep(o: nat, p: nat, q: nat, b: nat)
    ensures ((o * p + q) % 256 * 2 + b) % 256 == (o * (2 * p) + (2 * q + b)) % 256
  {
    ShiftReduced(o * p + q, b);
    assert o * (2 * p) == 2 * (o * p);
  }

  /** t is s after some bits: nothing but the shift register and the pins has moved. */
  predicate Shifted(s: State, t: State, k: nat) {
    t == s.(byte := t.byte, bitcounter := k, sdaOut := t.sdaOut, osda := t.sdaOut, sdaIn := t.sdaIn)
  }

  lemma FirstRegister(old0: nat, v: nat)
    requires v < 256
    ensures old0 < 256 ==> Register(old0, v, 0) == old0
    ensures Register(old0, v, 8) == v
  {
    Pow2Values();
    assert v / 256 == 0;
  }

  lemma {:induction false} BitsIn(s: State, v: nat, k: nat)
    requires Listening(s) && s.bitcounter == 0 && v < 256 && k <= 8
    ensures 0 <= s.byte
    ensures var t := Wave(s, FirstBits(v, k));
      Shifted(s, t, k) && t.byte == Register(s.byte, v, k)
  {
    hide Wrote, Ok, Pow2, BitAt, Listening, Register, Shifted, BitOps, Wave;
    ListeningByte(s);
    FirstRegister(s.byte, v);
    if k == 0 {
      WaveNothing(s);
      NothingShifted(s);
    } else {
      BitsIn(s, v, k - 1);
      var t := Wave(s, FirstBits(v, k - 1));
      var b := BitAt(v, 8 - k);
      WaveConcat(s, FirstBits(v, k - 1), BitOps(b));
      StillListening(s, t, k - 1);
      BitIn(t, b);
      OneMoreShifted(s, t, b, k);
      NextBit(s.byte, v, k);
    }
  }

  lemma NothingShifted(s: State)
    requires Listening(s) && s.bitcounter == 0
    ensures Shifted(s, s, 0)
  {
  }

  lemma OneMoreShifted(s: State, t: State, b: bool, k: nat)
    requires k > 0 && Shifted(s, t, k - 1)
    ensures t.bitcounter == k - 1
    ensures Shifted(s, t.(sdaOut := b, osda := b, sdaIn := true, byte := (t.byte * 2 + B(b)) % 256,
      bitcounter := t.bitcounter + 1), k)
  {
  }

  lemma ListeningByte(s: State)
    requires Listening(s)
    ensures 0 <= s.byte < 256 && Ok(s) && s.oscl == s.sclOut && s.osda == s.sdaOut
  {
  }

  lemma StillListening(s: State, t: State, k: nat)
    requires Listening(s) && Ok(t) && Shifted(s, t, k)
    ensures Listening(t) && t.bitcounter == k
  {
  }

  /** A byte, then a clock with SDA released for the acknowledge. */
  function ByteOps(v: nat): seq<Op> {
    FirstBits(v, 8) + BitOps(true)
  }

  lemma ClockUpAck(s: State)
    requires Ok(s) && !s.sclOut && s.bitcounter == 8 && s.direction != 0
    ensures Shape(AddressAck(s.(sclOut := true)))
    ensures Wrote(s, Pins(true, s.sdaOut)) == (
      if s.direction > 0 then DataAck(s.(sclOut := true))
      else Dispatch(AddressAck(s.(sclOut := true)))).(oscl := true, osda := s.sdaOut)
  {
    hide Dispatch;
  }

  /** The state after the whole byte v, up to the acknowledge. */
  function Loaded(s: State, v: nat): State {
    s.(byte := v, bitcounter := 8, sclOut := true, oscl := false, sdaOut := true, osda := true, sdaIn := true)
  }

  lemma ByteReachesAck(s: State, v: nat)
    requires Listening(s) && s.bitcounter == 0 && v < 256
    ensures Shape(Loaded(s, v)) && Shape(AddressAck(Loaded(s, v)))
    ensures var up := (if s.direction > 0 then DataAck(Loaded(s, v)) else Dispatch(AddressAck(Loaded(s, v))))
                        .(oscl := true, osda := true);
      Ok(up) && Wave(s, ByteOps(v)) == Wrote(up, Pins(false, true))
  {
    hide Wrote, Core, DataAck, Dispatch, AddressAck, Register;
    ListeningByte(s);
    FirstRegister(s.byte, v);
    BitsIn(s, v, 8);
    var t := Wave(s, FirstBits(v, 8));
    StillListening(s, t, 8);
    ListeningByte(t);
    assert t.byte == v;
    WaveConcat(s, FirstBits(v, 8), BitOps(true));
    Wave3(t, Pins(false, true), Pins(true, true), Pins(false, true));
    SetSda(t, true);
    var low := Wrote(t, Pins(false, true));
    ClockUpAck(low);
    AckIgnoresSdaIn(low, Loaded(s, v));
  }

  lemma AckIgnoresSdaIn(low: State, up: State)
    requires low.(sclOut := true, sdaIn := true) == up && Shape(low)
    ensures Shape(up) && Shape(AddressAck(up)) && DataAck(low.(sclOut := true)) == DataAck(up)
    ensures AddressAck(low.(sclOut := true)) == AddressAck(up)
  {
  }

  /** Every byte is acknowledged: while its ninth clock is high the Amiga, with SDA an input, sees it low.  That holds
      for the device byte of another device as well. */
  lemma EveryByteAcked(s: State, v: nat)
    requires Listening(s) && s.bitcounter == 0 && v < 256
    ensures var t := Wave(s, FirstBits(v, 8) + [Pins(false, true), Pins(true, true)]);
      t.sclOut && !t.sdaIn && (!t.sdaDir ==> !SdaSeen(t))
  {
    hide Wrote, Buffered, Register;
    ListeningByte(s);
    FirstRegister(s.byte, v);
    BitsIn(s, v, 8);
    var t := Wave(s, FirstBits(v, 8));
    StillListening(s, t, 8);
    WaveConcat(s, FirstBits(v, 8), [Pins(false, true), Pins(true, true)]);
    Wave2(t, Pins(false, true), Pins(true, true));
    SetSda(t, true);
    var low := Wrote(t, Pins(false, true));
    ClockUpAck(low);
    AckPullsDown(low);
  }

  lemma AckPullsDown(low: State)
    requires Core(low) && Shape(AddressAck(low.(sclOut := true)))
    ensures !DataAck(low.(sclOut := true)).sdaIn && DataAck(low.(sclOut := true)).sclOut
    ensures !Dispatch(AddressAck(low.(sclOut := true))).sdaIn && Dispatch(AddressAck(low.(sclOut := true))).sclOut
  {
    DispatchLeavesPins(AddressAck(low.(sclOut := true)));
    hide Dispatch;
  }

  lemma DispatchLeavesPins(s: State)
    requires Shape(s) && (s.phase.WordAddr? ==> s.direction < 0)
    ensures Dispatch(s).sdaIn == s.sdaIn && Dispatch(s).sclOut == s.sclOut
  {
    hide DeviceWrite, DeviceRead, WordDone;
    DeviceLeavesPins(s);
    if s.phase.WordAddr? {
      WordLeavesPins(s);
    }
  }

  lemma DeviceLeavesPins(s: State)
    requires Shape(s)
    ensures DeviceWrite(s).sdaIn == s.sdaIn && DeviceWrite(s).sclOut == s.sclOut
    ensures DeviceRead(s).sdaIn == s.sdaIn && DeviceRead(s).sclOut == s.sclOut
  {
  }

  lemma WordLeavesPins(s: State)
    requires Shape(s) && s.direction < 0
    ensures WordDone(s).sdaIn == s.sdaIn && WordDone(s).sclOut == s.sclOut
  {
  }

  /** Between bytes of a transfer. */
  ghost predicate Ready(s: State, direction: int, phase: Phase) {
    Listening(s) && s.bitcounter == 0 && s.direction == direction && s.phase == phase
  }

  /** A device byte 1010 x hh 0 is acknowledged and keeps the two high address bits. */
  lemma SendDevice(s: State, v: nat)
    requires Ready(s, -1, DeviceAddr) && v / 16 == 0xA && v % 2 == 0
    ensures var t := Wave(s, ByteOps(v));
      Ready(t, -1, WordAddr) && t.nvram == s.nvram && t.address == s.address % 256 + v / 2 % 4 * 256
  {
    hide Wrote, Core, PageWrite;
    ByteReachesAck(s, v);
    var up := Dispatch(AddressAck(Loaded(s, v)));
    assert up == DeviceWrite(AddressAck(Loaded(s, v)));
    ClockDown(up.(oscl := true, osda := true));
  }

  lemma SendWord(s: State, v: nat)
    requires Ready(s, -1, WordAddr) && v < 256
    ensures var t := Wave(s, ByteOps(v));
      Ready(t, 1, Data) && t.nvram == s.nvram && t.base == t.address == s.address / 256 * 256 + v && t.accepted == []
  {
    hide Wrote, Core, PageWrite;
    ByteReachesAck(s, v);
    ClockDown(Dispatch(AddressAck(Loaded(s, v))).(oscl := true, osda := true));
  }

  lemma SendData(s: State, v: nat)
    requires Ready(s, 1, Data) && v < 256
    ensures var t := Wave(s, ByteOps(v));
      Ready(t, 1, Data) && t.nvram == s.nvram && t.base == s.base && t.address == s.address
        && t.accepted == s.accepted + [v]
  {
    hide Wrote, Core, PageWrite;
    ByteReachesAck(s, v);
    ClockDown(DataAck(Loaded(s, v)).(oscl := true, osda := true));
  }

  /** A device byte 1010 x hh 1 turns the bus round; its high address bits are not looked at. */
  lemma SendReadDevice(s: State, v: nat)
    requires Ready(s, -1, DeviceAddr) && v / 16 == 0xA && v % 2 == 1
    ensures var t := Wave(s, ByteOps(v));
      Ok(t) && !t.sclOut && t.sdaDirNvram && t.direction == 0 && t.bitcounter == 0 && t.phase == Data
      && t.nvram == s.nvram && t.address == s.address && t.sdaOut
  {
    hide Wrote, Core, PageWrite;
    ByteReachesAck(s, v);
    var up := Dispatch(AddressAck(Loaded(s, v)));
    assert up == DeviceRead(AddressAck(Loaded(s, v)));
    SendDown(up.(oscl := true, osda := true));
    WroteKeeps(up.(oscl := true, osda := true), Pins(false, true));
  }

  // ---------- START and STOP ----------

  lemma Wave4(s: State, a: Op, b: Op, c: Op, d: Op)
    requires Ok(s)
    ensures Shape(s) && Ok(Wrote(s, a)) && Shape(Wrote(s, a)) && Ok(Wrote(Wrote(s, a), b))
      && Shape(Wrote(Wrote(s, a), b))
    ensures Ok(Wrote(Wrote(Wrote(s, a), b), c)) && Shape(Wrote(Wrote(Wrote(s, a), b), c))
    ensures Wave(s, [a, b, c, d]) == Wrote(Wrote(Wrote(Wrote(s, a), b), c), d)
  {
    hide Wrote;
    WaveOne(s, a);
    Wave3(Wrote(s, a), b, c, d);
    WaveConcat(s, [a], [b, c, d]);
    assert [a, b, c, d] == [a] + [b, c, d];
  }

  /** While idle only a START condition matters. */
  lemma IdlePins(s: State, scl: bool, sda: bool)
    requires Idle(s) && !(s.sclOut && scl && s.sdaOut && !sda)
    ensures Wrote(s, Pins(scl, sda)) == s.(sclOut := scl, oscl := scl, sdaOut := sda, osda := sda,
      sdaIn := if s.sclOut == scl && s.sdaOut == sda then s.sdaIn else true)
  {
  }

  lemma StartEdge(s: State)
    requires Ok(s) && s.sclOut && s.sdaOut && !s.sdaDirNvram
    ensures Wrote(s, Pins(true, false)) == Started(s).(sdaOut := false, osda := false, sdaIn := true)
  {
  }

  /** A START, from rest or after the data bytes of a write. */
  function StartOps(): seq<Op> {
    [Pins(false, true), Pins(true, true), Pins(true, false), Pins(false, false)]
  }

  lemma StartSeen(s: State)
    requires Idle(s) || Ready(s, 1, Data)
    ensures var t := Wave(s, StartOps());
      Ready(t, -1, DeviceAddr) && t.nvram == s.nvram && t.address == s.address
  {
    hide Wrote, Core, PageWrite;
    Wave4(s, Pins(false, true), Pins(true, true), Pins(true, false), Pins(false, false));
    var s1 := Wrote(s, Pins(false, true));
    var s2 := Wrote(s1, Pins(true, true));
    if Idle(s) {
      IdlePins(s, false, true);
      IdlePins(s1, true, true);
    } else {
      SetSda(s, true);
      ClockUp(s1);
    }
    StartEdge(s2);
    var s3 := Wrote(s2, Pins(true, false));
    ClockDown(s3);
    WroteKeeps(s3, Pins(false, false));
  }

  /** After a START the interface goes back to rest exactly when the device byte is not one of its own. */
  lemma AnswersIff(s: State, v: nat)
    requires Idle(s) && v < 256
    ensures Ok(s)
    ensures var t := Wave(s, StartOps() + ByteOps(v));
      t.nvram == s.nvram && (Idle(t) <==> v / 16 != 0xA)
  {
    hide Wrote, Core, StartOps, ByteOps, Ready, Idle;
    IsOk(s);
    StartSeen(s);
    var t := Wave(s, StartOps());
    IsOk(t);
    WaveConcat(s, StartOps(), ByteOps(v));
    AnswersDevice(t, v);
  }

  lemma AnswersDevice(s: State, v: nat)
    requires Ready(s, -1, DeviceAddr) && v < 256
    ensures var t := Wave(s, ByteOps(v)); t.nvram == s.nvram && (Idle(t) <==> v / 16 != 0xA)
  {
    hide Wrote, Core, PageWrite;
    if v / 16 != 0xA {
      ByteReachesAck(s, v);
      var up := AddressAck(Loaded(s, v)).(phase := Wait, oscl := true, osda := true);
      IdlePins(up, false, true);
    } else if v % 2 == 0 {
      SendDevice(s, v);
    } else {
      SendReadDevice(s, v);
    }
  }

  function StopOps(): seq<Op> {
    [Pins(false, false), Pins(true, false), Pins(true, true)]
  }

  lemma StopEdge(s: State)
    requires Ok(s) && s.sclOut && !s.sdaOut && !s.sdaDirNvram
    ensures Idle(Wrote(s, Pins(true, true))) && Wrote(s, Pins(true, true)).address == s.address
  {
    hide PageWrite;
    WroteKeeps(s, Pins(true, true));
    if s.direction > 0 {} else {}
  }

  /** A STOP after data bytes stores them. */
  lemma StopCommits(s: State)
    requires Ready(s, 1, Data)
    ensures var t := Wave(s, StopOps());
      Idle(t) && t.nvram == PageWrite(s.nvram, s.base, s.accepted)
  {
    hide Wrote, Core, PageWrite, Idle;
    Wave3(s, Pins(false, false), Pins(true, false), Pins(true, true));
    var s1 := Wrote(s, Pins(false, false));
    SetSda(s, false);
    ClockUp(s1);
    var s2 := Wrote(s1, Pins(true, false));
    StopEdge(s2);
    WroteKeeps(s2, Pins(true, true));
  }

  // ---------- a whole write transaction ----------

  /** START, device byte, word address. */
  function AddressOps(a: nat): seq<Op>
    requires a < NVRAM_SIZE
  {
    StartOps() + (ByteOps(0xA0 + a / 256 * 2) + ByteOps(a % 256))
  }

  lemma AddressSent(s: State, a: nat)
    requires (Idle(s) || Ready(s, 1, Data)) && a < NVRAM_SIZE
    ensures var t := Wave(s, AddressOps(a));
      Ready(t, 1, Data) && t.nvram == s.nvram && t.base == t.address == a && t.accepted == []
  {
    hide Wrote, Core, ByteOps, StartOps, Ready, Idle;
    IsOk(s);
    StartSeen(s);
    var t := Wave(s, StartOps());
    IsOk(t);
    var v := 0xA0 + a / 256 * 2;
    assert v / 16 == 0xA && v % 2 == 0 && v / 2 % 4 == a / 256;
    SendDevice(t, v);
    var u := Wave(t, ByteOps(0xA0 + a / 256 * 2));
    SendWord(u, a % 256);
    WaveConcat(t, ByteOps(0xA0 + a / 256 * 2), ByteOps(a % 256));
    WaveConcat(s, StartOps(), ByteOps(0xA0 + a / 256 * 2) + ByteOps(a % 256));
    ReadyAddress(t);
  }

  lemma IsOk(s: State)
    ensures forall d: int, p: Phase :: Ready(s, d, p) ==> Ok(s)
    ensures Idle(s) ==> Ok(s)
  {
  }

  lemma ReadyAddress(s: State)
    ensures forall d: int, p: Phase :: Ready(s, d, p) ==> s.address < NVRAM_SIZE
  {
  }

  function DataOps(bytes: seq<Byte>): seq<Op>
    requires forall k :: 0 <= k < |bytes| ==> 0 <= bytes[k] < 256
  {
    if |bytes| == 0 then [] else DataOps(bytes[..|bytes| - 1]) + ByteOps(bytes[|bytes| - 1])
  }

  lemma {:induction false} DataSent(s: State, bytes: seq<Byte>)
    requires Ready(s, 1, Data) && forall k :: 0 <= k < |bytes| ==> 0 <= bytes[k] < 256
    ensures Ok(s)
    ensures var t := Wave(s, DataOps(bytes));
      Ready(t, 1, Data) && t.nvram == s.nvram && t.base == s.base && t.accepted == s.accepted + bytes
    decreases |bytes|
  {
    hide Wrote, Core, ByteOps, Ready, Ok;
    IsOk(s);
    if |bytes| == 0 {
      assert Wave(s, []) == s;
    } else {
      var n := |bytes| - 1;
      DataSent(s, bytes[..n]);
      WaveConcat(s, DataOps(bytes[..n]), ByteOps(bytes[n]));
      SendData(Wave(s, DataOps(bytes[..n])), bytes[n]);
      assert bytes == bytes[..n] + [bytes[n]];
    }
  }

  function WriteOps(a: nat, bytes: seq<Byte>): seq<Op>
    requires a < NVRAM_SIZE && forall k :: 0 <= k < |bytes| ==> 0 <= bytes[k] < 256
  {
    AddressOps(a) + (DataOps(bytes) + StopOps())
  }

  /** From rest, k bytes written from address a end up in its page, wrapping round inside it, later bytes winning;
      unless the interface is deaf: then nothing is stored. */
  lemma WriteTransaction(s: State, a: nat, bytes: seq<Byte>)
    requires Resting(s) && a < NVRAM_SIZE && forall k :: 0 <= k < |bytes| ==> 0 <= bytes[k] < 256
    ensures Ok(s)
    ensures var t := Wave(s, WriteOps(a, bytes));
      if s.sdaDirNvram then Deaf(t) && t.nvram == s.nvram else Idle(t) && t.nvram == PageWrite(s.nvram, a, bytes)
  {
    hide WriteOps, PageWrite;
    if s.sdaDirNvram {
      DeafForEver(s, WriteOps(a, bytes));
    } else {
      BytesStored(s, a, bytes);
    }
  }

  lemma BytesStored(s: State, a: nat, bytes: seq<Byte>)
    requires Idle(s) && a < NVRAM_SIZE && forall k :: 0 <= k < |bytes| ==> 0 <= bytes[k] < 256
    ensures Ok(s)
    ensures var t := Wave(s, WriteOps(a, bytes));
      Idle(t) && t.nvram == PageWrite(s.nvram, a, bytes)
  {
    hide Wrote, Core, AddressOps, DataOps, StopOps, PageWrite, Idle, Ready, Ok;
    IsOk(s);
    AddressSent(s, a);
    var t := Wave(s, AddressOps(a));
    DataSent(t, bytes);
    var u := Wave(t, DataOps(bytes));
    IsOk(u);
    StopCommits(u);
    WaveConcat(t, DataOps(bytes), StopOps());
    WaveConcat(s, AddressOps(a), DataOps(bytes) + StopOps());
    assert [] + bytes == bytes;
  }

  // ---------- a random read ----------

  /** The EEPROM has sent k bits of the byte v at address a, and stands at the next one after the last of them; the
      Amiga has released SDA. */
  ghost predicate Sending(s: State, a: nat, v: nat, k: nat) {
    && Ok(s) && s.direction == 0 && s.phase == Data && s.bitcounter == k && s.sdaDirNvram == (k < 8)
    && !s.sdaDir && s.sdaOut && s.sclOut == (k > 0)
    && a < NVRAM_SIZE && s.nvram[a] == v < 256 && s.address == (if k < 8 then a else (a + 1) % NVRAM_SIZE)
    && (0 < k <= 8 ==> s.byte == v * Pow2(k) % 256)
  }

  lemma SendDown(s: State)
    requires Ok(s) && s.direction == 0 && s.bitcounter >= 0 && s.sdaOut
    ensures Wrote(s, Pins(false, true)) == if s.sclOut then s.(sclOut := false, oscl := false, sdaIn := true) else s
  {
  }

  lemma SendUp(s: State)
    requires Ok(s) && s.direction == 0 && 0 <= s.bitcounter < 8 && s.sdaOut && !s.sclOut
    ensures Wrote(s, Pins(true, true)) == SendBit(s).(sclOut := true, oscl := true)
  {
  }

  lemma SentBit(v: nat, k: nat)
    requires v < 256 && k < 8
    ensures (v * Pow2(k) % 256 >= 128) == BitAt(v, 7 - k)
    ensures v * Pow2(k) % 256 * 2 % 256 == v * Pow2(k + 1) % 256
    ensures v * Pow2(0) % 256 == v
  {
    Pow2Values();
    SentTop(v, k);
    var x := v * Pow2(k);
    ShiftReduced(x, 0);
    DoubledProduct(v, Pow2(k));
    assert Pow2(k + 1) == 2 * Pow2(k);
  }

  lemma DoubledProduct(v: nat, p: nat)
    ensures v * (2 * p) == v * p * 2
  {
  }

  lemma SentTop(v: nat, k: nat)
    requires v < 256 && k < 8
    ensures (v * Pow2(k) % 256 >= 128) == BitAt(v, 7 - k)
  {
    Pow2Values();
    match k
    case 0 => Sent0(v);
    case 1 => Sent1(v);
    case 2 => Sent2(v);
    case 3 => Sent3(v);
    case 4 => Sent4(v);
    case 5 => Sent5(v);
    case 6 => Sent6(v);
    case _ => Sent7(v);
  }

  lemma Sent0(v: nat)
    requires v < 256
    ensures (v * 1 % 256 >= 128) == (v / 128 % 2 == 1)
  {
  }

  lemma Sent1(v: nat)
    requires v < 256
    ensures (v * 2 % 256 >= 128) == (v / 64 % 2 == 1)
  {
  }

  lemma Sent2(v: nat)
    requires v < 256
    ensures (v * 4 % 256 >= 128) == (v / 32 % 2 == 1)
  {
  }

  lemma Sent3(v: nat)
    requires v < 256
    ensures (v * 8 % 256 >= 128) == (v / 16 % 2 == 1)
  {
  }

  lemma Sent4(v: nat)
    requires v < 256
    ensures (v * 16 % 256 >= 128) == (v / 8 % 2 == 1)
  {
  }

  lemma Sent5(v: nat)
    requires v < 256
    ensures (v * 32 % 256 >= 128) == (v / 4 % 2 == 1)
  {
  }

  lemma Sent6(v: nat)
    requires v < 256
    ensures (v * 64 % 256 >= 128) == (v / 2 % 2 == 1)
  {
  }

  lemma Sent7(v: nat)
    requires v < 256
    ensures (v * 128 % 256 >= 128) == (v / 1 % 2 == 1)
  {
  }

  /** The state after reading some bits, and their value. */
  datatype Reading = Reading(state: State, value: nat)

  /** The Amiga clocks k bits out of the EEPROM, sampling SDA while SCL is high. */
  ghost function ReadBits(s: State, k: nat): (r: Reading)
    requires Ok(s)
    ensures Ok(r.state)
  {
    if k == 0 then Reading(s, 0) else
      var r := ReadBits(s, k - 1);
      var u := Wave(r.state, [Pins(false, true), Pins(true, true)]);
      Reading(u, r.value * 2 + B(SdaSeen(u)))
  }

  lemma Wave2(s: State, a: Op, b: Op)
    requires Ok(s)
    ensures Shape(s) && Ok(Wrote(s, a)) && Shape(Wrote(s, a))
    ensures Wave(s, [a, b]) == Wrote(Wrote(s, a), b)
  {
    hide Wrote;
    WaveOne(s, a);
    WaveOne(Wrote(s, a), b);
    WaveConcat(s, [a], [b]);
    assert [a, b] == [a] + [b];
  }

  lemma ReadStep(s: State, a: nat, v: nat, k: nat)
    requires Sending(s, a, v, k) && k < 8
    ensures var u := Wave(s, [Pins(false, true), Pins(true, true)]);
      Sending(u, a, v, k + 1) && SdaSeen(u) == BitAt(v, 7 - k) && u.nvram == s.nvram
  {
    hide Wrote, Core, BitAt, Pow2;
    Wave2(s, Pins(false, true), Pins(true, true));
    SendDown(s);
    var low := Wrote(s, Pins(false, true));
    SendUp(low);
    WroteKeeps(low, Pins(true, true));
    SentBit(v, k);
  }

  lemma SendingIsOk(s: State, a: nat, v: nat)
    ensures forall k: nat :: Sending(s, a, v, k) ==> Ok(s)
  {
  }

  lemma {:induction false} BitsRead(s: State, a: nat, v: nat, k: nat)
    requires Sending(s, a, v, 0) && k <= 8 && v < 256
    ensures Sending(ReadBits(s, k).state, a, v, k) && ReadBits(s, k).value == Top(v, k)
    ensures ReadBits(s, k).state.nvram == s.nvram
  {
    hide Sending, BitAt, Pow2, SdaSeen, Wrote, Wave;
    SendingIsOk(s, a, v);
    if k == 0 {
      assert Top(v, 0) == 0;
    } else {
      BitsRead(s, a, v, k - 1);
      ReadStep(ReadBits(s, k - 1).state, a, v, k - 1);
      TopBits(v, k);
      hide Top;
    }
  }

  /** START, device byte and word address, START again, device byte for reading, then let go of SDA. */
  function ReadAddressOps(a: nat): seq<Op>
    requires a < NVRAM_SIZE
  {
    AddressOps(a) + (StartOps() + (ByteOps(0xA1) + [Dirs(true, false)]))
  }

  lemma ReadAddressSent(s: State, a: nat)
    requires Idle(s) && a < NVRAM_SIZE && 0 <= s.nvram[a] < 256
    ensures Ok(s)
    ensures var t := Wave(s, ReadAddressOps(a));
      Sending(t, a, s.nvram[a], 0) && t.nvram == s.nvram
  {
    hide Wrote, Core, AddressOps, StartOps, ByteOps, Ready, Idle;
    IsOk(s);
    AddressSent(s, a);
    var t := Wave(s, AddressOps(a));
    IsOk(t);
    StartSeen(t);
    var u := Wave(t, StartOps());
    IsOk(u);
    SendReadDevice(u, 0xA1);
    var w := Wave(u, ByteOps(0xA1));
    WaveOne(w, Dirs(true, false));
    WaveConcat(u, ByteOps(0xA1), [Dirs(true, false)]);
    WaveConcat(t, StartOps(), ByteOps(0xA1) + [Dirs(true, false)]);
    WaveConcat(s, AddressOps(a), StartOps() + (ByteOps(0xA1) + [Dirs(true, false)]));
    Released(w, a, s.nvram[a]);
  }

  lemma Released(w: State, a: nat, v: nat)
    requires Ok(w) && !w.sclOut && w.sdaDirNvram && w.direction == 0 && w.bitcounter == 0 && w.phase == Data && w.sdaOut
    requires w.address == a < NVRAM_SIZE && w.nvram[a] == v < 256
    ensures Sending(Wrote(w, Dirs(true, false)), a, v, 0) && Wrote(w, Dirs(true, false)).nvram == w.nvram
  {
    hide Buffered;
  }

  /** From rest, a random read by a master that releases SDA returns the byte at the address, and leaves the array
      alone; from a deaf interface every read returns 255. */
  lemma RandomRead(s: State, a: nat)
    requires Resting(s) && a < NVRAM_SIZE && 0 <= s.nvram[a] < 256
    ensures Ok(s)
    ensures var r := ReadBits(Wave(s, ReadAddressOps(a)), 8);
      r.value == (if s.sdaDirNvram then 255 else s.nvram[a]) && r.state.nvram == s.nvram
  {
    hide ReadAddressOps, Sending, Wave;
    Pow2Values();
    if s.sdaDirNvram {
      DeafForEver(s, ReadAddressOps(a));
      DeafReads(Wave(s, ReadAddressOps(a)), 8);
    } else {
      ReadAddressSent(s, a);
      BitsRead(Wave(s, ReadAddressOps(a)), a, s.nvram[a], 8);
    }
  }

  lemma {:induction false} DeafReads(s: State, k: nat)
    requires Deaf(s)
    ensures Ok(s)
    ensures var r := ReadBits(s, k); r.value == Pow2(k) - 1 && Deaf(r.state) && r.state.nvram == s.nvram
  {
    hide Wrote, Wave;
    if k > 0 {
      DeafReads(s, k - 1);
      var t := ReadBits(s, k - 1).state;
      DeafBit(t);
    }
  }

  lemma DeafBit(t: State)
    requires Deaf(t)
    ensures Ok(t)
    ensures var u := Wave(t, [Pins(false, true), Pins(true, true)]); Deaf(u) && u.nvram == t.nvram && SdaSeen(u)
  {
    hide Core;
    Wave2(t, Pins(false, true), Pins(true, true));
    DeafWrote(t, Pins(false, true));
    DeafWrote(Wrote(t, Pins(false, true)), Pins(true, true));
  }

  /** What is written is read back: the byte at position i of a page write, unless a later one took its place or the
      interface is deaf. */
  lemma WriteThenRead(s: State, a: nat, bytes: seq<Byte>, i: nat)
    requires Resting(s) && a < NVRAM_SIZE && forall k :: 0 <= k < |bytes| ==> 0 <= bytes[k] < 256
    requires i < |bytes| && forall j: nat :: i < j < |bytes| ==> Slot(a, j) != Slot(a, i)
    ensures Ok(s) && Slot(a, i) < NVRAM_SIZE
    ensures ReadBits(Wave(Wave(s, WriteOps(a, bytes)), ReadAddressOps(Slot(a, i))), 8).value ==
      if s.sdaDirNvram then 255 else bytes[i]
  {
    hide WriteOps, ReadAddressOps, PageWrite;
    var t := Wave(s, WriteOps(a, bytes));
    WriteTransaction(s, a, bytes);
    if s.sdaDirNvram {
      DeafForEver(t, ReadAddressOps(Slot(a, i)));
      DeafReads(Wave(t, ReadAddressOps(Slot(a, i))), 8);
      Pow2Values();
    } else {
      PageWriteAt(s.nvram, a, bytes, i);
      RandomRead(t, Slot(a, i));
    }
  }

  // ---------- from a reset ----------

  predicate AreBytes(bytes: seq<Byte>) {
    forall k :: 0 <= k < |bytes| ==> 0 <= bytes[k] < 256
  }

  /** The write transaction of these bytes stores them. */
  ghost predicate StoresFrom(s: State, a: nat, bytes: seq<Byte>)
    requires Ok(s) && a < NVRAM_SIZE && AreBytes(bytes)
  {
    Wave(s, WriteOps(a, bytes)).nvram == PageWrite(s.nvram, a, bytes)
  }

  /** From a reset interface every write transaction stores its bytes if and only if the EEPROM does not drive SDA. */
  lemma ResetWritesIff(s: State)
    requires Shape(s) && IsReset(s)
    ensures Ok(s)
    ensures (forall a: nat, bytes :: a < NVRAM_SIZE && AreBytes(bytes) ==> StoresFrom(s, a, bytes)) <==> !s.sdaDirNvram
  {
    hide WriteOps;
    ResetIsResting(s);
    if s.sdaDirNvram {
      var v := if s.nvram[0] == 0 then 1 else 0;
      WriteTransaction(s, 0, [v]);
      assert PageWrite(s.nvram, 0, []) == s.nvram;
      assert Slot(0, 0) == 0;
      assert PageWrite(s.nvram, 0, [v])[0] == v;
      assert !StoresFrom(s, 0, [v]);
    } else {
      forall a: nat, bytes | a < NVRAM_SIZE && AreBytes(bytes) ensures StoresFrom(s, a, bytes) {
        WriteTransaction(s, a, bytes);
      }
    }
  }

  /** The bits of a random read, k of them. */
  ghost function ReadPart(s: State, a: nat, k: nat): State
    requires Ok(s) && a < NVRAM_SIZE
  {
    ReadBits(Wave(s, ReadAddressOps(a)), k).state
  }

  /** A reset after the device byte of a read and before its eighth bit leaves the interface deaf for ever: no waveform
      reaches it, and no transaction changes the array again. */
  lemma ResetInsideRead(s: State, a: nat, k: nat, ops: seq<Op>)
    requires Idle(s) && a < NVRAM_SIZE && 0 <= s.nvram[a] < 256 && k < 8
    ensures var t := Reset(ReadPart(s, a, k));
      Ok(t) && IsReset(t) && Deaf(t) && Deaf(Wave(t, ops)) && Wave(t, ops).nvram == s.nvram
  {
    hide ReadAddressOps, Sending, Wave, ReadBits, Deaf;
    ReadAddressSent(s, a);
    BitsRead(Wave(s, ReadAddressOps(a)), a, s.nvram[a], k);
    var u := ReadPart(s, a, k);
    SendingDrives(u, a, s.nvram[a], k);
    ResetResets(u);
    ResetIsResting(Reset(u));
    DeafForEver(Reset(u), ops);
  }

  lemma SendingDrives(s: State, a: nat, v: nat, k: nat)
    requires Sending(s, a, v, k) && k < 8
    ensures Ok(s) && s.sdaDirNvram
  {
  }

  /** From power on with an array of zeros, through a reset before the first bit of a read. */
  ghost predicate ReachedDeaf(t: State) {
    var s := PowerOn(Zeros());
    Ok(s) && Idle(s) && t == Reset(ReadPart(s, 0, 0))
  }

  function Zeros(): (nvram: seq<Byte>)
    ensures |nvram| == NVRAM_SIZE
  {
    seq(NVRAM_SIZE, i => 0)
  }

  /** The failing state is reached, and a write of any byte but 0 is lost there. */
  lemma DeafReached(v: Byte) returns (t: State)
    requires 0 < v < 256
    ensures Ok(t) && IsReset(t)
    ensures !StoresFrom(t, 0, [v])
    ensures ReachedDeaf(t)
  {
    hide WriteOps, ReadAddressOps, Wave, ReadBits, Deaf;
    var s := PowerOn(Zeros());
    PowerOnIsReset(s.nvram);
    t := Reset(ReadPart(s, 0, 0));
    ResetInsideRead(s, 0, 0, WriteOps(0, [v]));
    assert PageWrite(s.nvram, 0, []) == s.nvram && Slot(0, 0) == 0;
    assert PageWrite(s.nvram, 0, [v])[0] == v;
  }

  /** The end of a read: a clock with SDA high for "no more", then a STOP, SDA driven as an output or not. */
  function EndOps(drive: bool): seq<Op> {
    [Pins(false, true), Pins(true, true), Pins(false, true)] + ([Dirs(true, drive)] + StopOps())
  }

  /** The usual end of a read: recognised exactly when the master has left SDA an input. */
  lemma UsualEndIff(s: State, a: nat, v: nat, drive: bool)
    requires Sending(s, a, v, 8)
    ensures Idle(Wave(s, EndOps(drive))) <==> !drive
    ensures !drive ==> Wave(s, EndOps(drive)).nvram == s.nvram && Wave(s, EndOps(drive)).address == s.address
  {
    hide Wrote, Core, Pow2, PageWrite;
    var nack := [Pins(false, true), Pins(true, true), Pins(false, true)];
    Wave3(s, Pins(false, true), Pins(true, true), Pins(false, true));
    SendDown(s);
    var s1 := Wrote(s, Pins(false, true));
    NoMoreBits(s1);
    var s2 := Wrote(s1, Pins(true, true));
    SendDown(s2);
    var s3 := Wrote(s2, Pins(false, true));
    WaveOne(s3, Dirs(true, drive));
    var s4 := Wrote(s3, Dirs(true, drive));
    assert s4 == s3.(sclDir := true, sdaDir := drive) by { DirsOnly(s3, drive); }
    Wave3(s4, Pins(false, false), Pins(true, false), Pins(true, true));
    StopAfterRead(s4);
    WaveConcat(s3, [Dirs(true, drive)], StopOps());
    WaveConcat(s, nack, [Dirs(true, drive)] + StopOps());
  }

  lemma DirsOnly(s: State, drive: bool)
    requires Shape(s)
    ensures Wrote(s, Dirs(true, drive)) == s.(sclDir := true, sdaDir := drive)
  {
  }

  lemma NoMoreBits(s: State)
    requires Ok(s) && s.direction == 0 && s.bitcounter == 8 && s.sdaOut && !s.sclOut
    ensures Wrote(s, Pins(true, true)) == s.(sclOut := true, oscl := true, sdaIn := true)
  {
  }

  lemma StopAfterRead(s: State)
    requires Ok(s) && s.direction == 0 && s.bitcounter == 8 && s.sdaOut && !s.sclOut && !s.sdaDirNvram
    ensures Shape(s) && Shape(Wrote(s, Pins(false, false)))
      && Shape(Wrote(Wrote(s, Pins(false, false)), Pins(true, false)))
    ensures var t := Wrote(Wrote(Wrote(s, Pins(false, false)), Pins(true, false)), Pins(true, true));
      (Idle(t) <==> !s.sdaDir) && (!s.sdaDir ==> t.nvram == s.nvram && t.address == s.address)
  {
    hide PageWrite, Buffered;
    WroteKeeps(s, Pins(false, false));
    SdaLow(s);
    var s1 := Wrote(s, Pins(false, false));
    WroteKeeps(s1, Pins(true, false));
    LastRise(s1);
    var s2 := Wrote(s1, Pins(true, false));
    WroteKeeps(s2, Pins(true, true));
    if s.sdaDir {
      StopMissed(s2);
    } else {
      StopEdge(s2);
    }
  }

  lemma SdaLow(s: State)
    requires Ok(s) && s.direction == 0 && s.bitcounter == 8 && s.sdaOut && !s.sclOut && !s.sdaDirNvram
    ensures Wrote(s, Pins(false, false)) ==
      s.(sdaOut := false, osda := false, sdaIn := true, bitcounter := if s.sdaDir then 0 else 8)
  {
  }

  lemma LastRise(s: State)
    requires Ok(s) && s.direction == 0 && (s.bitcounter == 8 || s.bitcounter == 0) && !s.sdaOut && !s.sclOut
      && !s.sdaDirNvram
    ensures var t := Wrote(s, Pins(true, false));
      && t.sdaDirNvram == (s.bitcounter == 0) && t.sclOut && !t.sdaOut && t.bitcounter > 0 && t.direction == 0
      && t.nvram == s.nvram && (s.bitcounter == 8 ==> t.address == s.address)
  {
  }

  lemma StopMissed(s: State)
    requires Ok(s) && s.sdaDirNvram && s.sclOut && !s.sdaOut && s.bitcounter > 0 && s.direction == 0
    ensures !Idle(Wrote(s, Pins(true, true)))
  {
  }

  // ---------- reading on ----------

  /** The Amiga acknowledges a byte: it drives SDA low for a clock and lets go of it again. */
  function AckOps(): seq<Op> {
    [Pins(false, true), Dirs(true, true), Pins(false, false)]
    + [Pins(true, false), Pins(false, false), Pins(false, true), Dirs(true, false)]
  }

  /** SDA driven low with SCL low: the count of bits starts again. */
  lemma AckLow(s: State)
    requires Ok(s) && s.direction == 0 && s.bitcounter == 8 && s.sdaOut && !s.sclOut && s.sdaDir && !s.sdaDirNvram
    ensures Wrote(s, Pins(false, false)) == s.(sdaOut := false, osda := false, sdaIn := true, bitcounter := 0)
  {
  }

  /** The clock of the acknowledge sends a bit already, which does not count once SCL is low again. */
  lemma AckClock(s: State)
    requires Ok(s) && s.direction == 0 && s.bitcounter == 0 && !s.sdaOut && !s.sclOut && s.sdaDir
    ensures Ok(Wrote(s, Pins(true, false)))
    ensures var t := Wrote(Wrote(s, Pins(true, false)), Pins(false, false));
      && t.nvram == s.nvram && t.address == s.address && t.direction == 0 && t.phase == s.phase && t.bitcounter == 0
      && t.sdaDirNvram && !t.sdaOut && !t.sclOut && t.sdaDir
  {
    hide Buffered;
    WroteKeeps(s, Pins(true, false));
  }

  lemma AckOver(s: State)
    requires Ok(s) && s.direction == 0 && s.bitcounter == 0 && !s.sdaOut && !s.sclOut && s.sdaDirNvram
    ensures Wrote(s, Pins(false, true)) == s.(sdaOut := true, osda := true, sdaIn := true)
  {
  }

  /** After an acknowledged byte the EEPROM sends the next one. */
  lemma Acked(s: State, a: nat, v: nat)
    requires Sending(s, a, v, 8) && 0 <= s.nvram[(a + 1) % NVRAM_SIZE] < 256
    ensures var t := Wave(s, AckOps());
      t.nvram == s.nvram && Sending(t, (a + 1) % NVRAM_SIZE, s.nvram[(a + 1) % NVRAM_SIZE], 0)
  {
    hide Wrote, Core, Pow2;
    var low, high := [Pins(false, true), Dirs(true, true), Pins(false, false)],
      [Pins(true, false), Pins(false, false), Pins(false, true), Dirs(true, false)];
    Wave3(s, Pins(false, true), Dirs(true, true), Pins(false, false));
    SendDown(s);
    var s1 := Wrote(s, Pins(false, true));
    DirsOnly(s1, true);
    var s2 := Wrote(s1, Dirs(true, true));
    AckLow(s2);
    WroteKeeps(s2, Pins(false, false));
    var s3 := Wrote(s2, Pins(false, false));
    Wave4(s3, Pins(true, false), Pins(false, false), Pins(false, true), Dirs(true, false));
    AckClock(s3);
    var s5 := Wrote(Wrote(s3, Pins(true, false)), Pins(false, false));
    AckOver(s5);
    WroteKeeps(s5, Pins(false, true));
    Released(Wrote(s5, Pins(false, true)), (a + 1) % NVRAM_SIZE, s.nvram[(a + 1) % NVRAM_SIZE]);
    WaveConcat(s, low, high);
  }

  /** The state after reading some bytes, and the bytes. */
  datatype ManyRead = ManyRead(state: State, bytes: seq<nat>)

  /** The Amiga reads n bytes and acknowledges all but the last. */
  ghost function ReadBytes(s: State, n: nat): (r: ManyRead)
    requires Ok(s)
    ensures Ok(r.state)
  {
    if n == 0 then ManyRead(s, []) else
      var before := ReadBytes(s, n - 1);
      var r := ReadBits(if n == 1 then s else Wave(before.state, AckOps()), 8);
      ManyRead(r.state, before.bytes + [r.value])
  }

  /** The byte i places after address a, the end of the array being followed by its beginning. */
  function After(a: nat, i: nat): (r: nat)
    ensures r < NVRAM_SIZE
  {
    (a + i) % NVRAM_SIZE
  }

  lemma AfterOne(a: nat, i: nat)
    ensures (After(a, i) + 1) % NVRAM_SIZE == After(a, i + 1)
  {
  }

  lemma {:induction false} BytesOut(s: State, a: nat, n: nat)
    requires a < |s.nvram| == NVRAM_SIZE && AreBytes(s.nvram) && n > 0 && Sending(s, a, s.nvram[a], 0)
    ensures var r := ReadBytes(s, n);
      && Sending(r.state, After(a, n - 1), s.nvram[After(a, n - 1)], 8) && r.state.nvram == s.nvram
      && |r.bytes| == n && forall i :: 0 <= i < n ==> r.bytes[i] == s.nvram[After(a, i)]
  {
    hide Sending, Wave, ReadBits, AckOps;
    SendingIsOk(s, a, s.nvram[a]);
    Pow2Values();
    if n == 1 {
      assert ReadBytes(s, 0).bytes == [];
      BitsRead(s, a, s.nvram[a], 8);
    } else {
      BytesOut(s, a, n - 1);
      var u := ReadBytes(s, n - 1).state;
      AfterOne(a, n - 2);
      Acked(u, After(a, n - 2), s.nvram[After(a, n - 2)]);
      BitsRead(Wave(u, AckOps()), After(a, n - 1), s.nvram[After(a, n - 1)], 8);
    }
  }

  /** From rest, a random read of n bytes, all but the last acknowledged, returns the n bytes from the address on, the
      end of the array being followed by its beginning, and leaves the array alone. */
  lemma SequentialRead(s: State, a: nat, n: nat)
    requires Resting(s) && a < NVRAM_SIZE && AreBytes(s.nvram)
    ensures Ok(s)
    ensures var r := ReadBytes(Wave(s, ReadAddressOps(a)), n);
      && r.state.nvram == s.nvram && |r.bytes| == n
      && forall i :: 0 <= i < n ==> r.bytes[i] == if s.sdaDirNvram then 255 else s.nvram[(a + i) % 1024]
  {
    hide ReadAddressOps, Sending, Wave, ReadBytes;
    if s.sdaDirNvram {
      DeafForEver(s, ReadAddressOps(a));
      DeafBytes(Wave(s, ReadAddressOps(a)), n);
    } else {
      ReadAddressSent(s, a);
      if n > 0 {
        BytesOut(Wave(s, ReadAddressOps(a)), a, n);
      } else {
        NoBytes(Wave(s, ReadAddressOps(a)));
      }
    }
  }

  lemma IdleSize(s: State)
    requires Idle(s)
    ensures Ok(s) && s.address < |s.nvram| == NVRAM_SIZE
  {
  }

  lemma NoBytes(s: State)
    requires Ok(s)
    ensures ReadBytes(s, 0) == ManyRead(s, [])
  {
  }

  lemma {:induction false} DeafBytes(s: State, n: nat)
    requires Deaf(s)
    ensures Ok(s)
    ensures var r := ReadBytes(s, n);
      Deaf(r.state) && r.state.nvram == s.nvram && |r.bytes| == n && forall i :: 0 <= i < n ==> r.bytes[i] == 255
  {
    hide Wave, ReadBits, Deaf, AckOps;
    DeafIsOk(s);
    Pow2Values();
    if n == 0 {
    } else {
      DeafBytes(s, n - 1);
      var u := ReadBytes(s, n - 1).state;
      DeafForEver(u, AckOps());
      DeafReads(if n == 1 then s else Wave(u, AckOps()), 8);
    }
  }

  /** START and a device byte for reading, without a word address. */
  function HereOps(v: nat): seq<Op> {
    StartOps() + (ByteOps(v) + [Dirs(true, false)])
  }

  lemma HereSent(s: State, v: nat)
    requires Idle(s) && v / 16 == 0xA && v % 2 == 1 && s.address < NVRAM_SIZE && 0 <= s.nvram[s.address] < 256
    ensures Ok(s)
    ensures var t := Wave(s, HereOps(v));
      Sending(t, s.address, s.nvram[s.address], 0) && t.nvram == s.nvram
  {
    hide Wrote, Core, StartOps, ByteOps, Ready, Idle;
    IsOk(s);
    StartSeen(s);
    var u := Wave(s, StartOps());
    IsOk(u);
    SendReadDevice(u, v);
    var w := Wave(u, ByteOps(v));
    WaveOne(w, Dirs(true, false));
    WaveConcat(u, ByteOps(v), [Dirs(true, false)]);
    WaveConcat(s, StartOps(), ByteOps(v) + [Dirs(true, false)]);
    Released(w, s.address, s.nvram[s.address]);
  }

  /** The state after n bytes have been read from address a and the read has been ended. */
  ghost function EndedRead(s: State, a: nat, n: nat): (t: State)
    requires Ok(s) && a < NVRAM_SIZE
    ensures Ok(t)
  {
    Wave(ReadBytes(Wave(s, ReadAddressOps(a)), n).state, EndOps(false))
  }

  /** After the STOP the next read may do without a word address: it goes on with the byte after the last one. */
  lemma ReadsOn(s: State, a: nat, n: nat, v: nat, m: nat)
    requires Idle(s) && a < NVRAM_SIZE && AreBytes(s.nvram) && n > 0 && v / 16 == 0xA && v % 2 == 1
    ensures Ok(s)
    ensures var t := EndedRead(s, a, n);
      var r := ReadBytes(Wave(t, HereOps(v)), m);
      && Idle(t) && t.nvram == s.nvram && r.state.nvram == s.nvram && |r.bytes| == m
      && forall i :: 0 <= i < m ==> r.bytes[i] == s.nvram[(a + n + i) % 1024]
  {
    hide ReadAddressOps, HereOps, EndOps, Sending, Wave, ReadBytes, Idle, Ok;
    IdleSize(s);
    ReadAddressSent(s, a);
    BytesOut(Wave(s, ReadAddressOps(a)), a, n);
    var u := ReadBytes(Wave(s, ReadAddressOps(a)), n).state;
    StandsAfter(u, After(a, n - 1), s.nvram[After(a, n - 1)]);
    UsualEndIff(u, After(a, n - 1), s.nvram[After(a, n - 1)], false);
    var t := EndedRead(s, a, n);
    AfterOne(a, n - 1);
    IdleSize(t);
    assert t.address == After(a, n);
    HereSent(t, v);
    var w := Wave(t, HereOps(v));
    if m > 0 {
      BytesOut(w, t.address, m);
      forall i | 0 <= i < m ensures After(t.address, i) == (a + n + i) % 1024 {
        AfterAfter(a, n, i);
      }
    } else {
      NoBytes(w);
    }
  }

  lemma StandsAfter(s: State, a: nat, v: nat)
    requires Sending(s, a, v, 8)
    ensures Ok(s) && s.address == (a + 1) % NVRAM_SIZE
  {
  }

  lemma AfterAfter(a: nat, n: nat, i: nat)
    ensures After(After(a, n), i) == (a + n + i) % 1024
  {
  }

  // ---------- every way to end a read ----------

  /** What the Amiga puts on the pins: both levels, and whether SDA is an output. */
  datatype Lines = Lines(scl: bool, sda: bool, out: bool)

  function LinesOf(s: State): Lines {
    Lines(s.sclOut, s.sdaOut, s.sdaDir)
  }

  function LinesThen(l: Lines, op: Op): Lines {
    match op
    case Pins(scl, sda) => l.(scl := scl, sda := sda)
    case Dirs(_, sda) => l.(out := sda)
  }

  function LinesAfter(l: Lines, ops: seq<Op>): Lines {
    if |ops| == 0 then l else LinesThen(LinesAfter(l, ops[..|ops| - 1]), ops[|ops| - 1])
  }

  /** The write leaves SCL and SDA low while SDA is an output: the interface takes it for the Amiga's acknowledge. */
  predicate Acknowledges(l: Lines, op: Op) {
    op.Pins? && !op.scl && !op.sda && l.out && (l.scl || l.sda)
  }

  predicate Rises(l: Lines, op: Op) {
    op.Pins? && op.scl && !l.scl
  }

  /** SDA moves while SCL stays high: a START or a STOP on the wires. */
  predicate Condition(l: Lines, op: Op) {
    op.Pins? && op.scl && l.scl && op.sda != l.sda
  }

  /** Bits clocked out since the last acknowledge, at most eight; the waveform starts after an eighth bit. */
  function Bits(l: Lines, ops: seq<Op>): (c: nat)
    ensures c <= 8
  {
    if |ops| == 0 then 8 else
      var before, op := ops[..|ops| - 1], ops[|ops| - 1];
      BitsThen(Bits(l, before), LinesAfter(l, before), op)
  }

  function BitsThen(c: nat, l: Lines, op: Op): (d: nat)
    ensures c <= 8 ==> d <= 8
  {
    if Acknowledges(l, op) then 0 else if Rises(l, op) && c < 8 then c + 1 else c
  }

  /** No START or STOP while no byte is being sent. */
  ghost predicate Unbroken(l: Lines, ops: seq<Op>) {
    forall i: nat :: i < |ops| ==> UnbrokenAt(l, ops, i)
  }

  predicate UnbrokenAt(l: Lines, ops: seq<Op>, i: nat)
    requires i < |ops|
  {
    Bits(l, ops[..i]) == 8 ==> !Condition(LinesAfter(l, ops[..i]), ops[i])
  }

  /** A read is under way, c bits after the last acknowledge. */
  ghost predicate Sent(s: State, l: Lines, c: nat) {
    && Ok(s) && LinesOf(s) == l && s.direction == 0 && s.phase == Data && s.bitcounter == c <= 8
    && (if c == 0 then !l.scl else s.sdaDirNvram == (c < 8))
  }

  lemma SentThen(s: State, l: Lines, c: nat, op: Op)
    requires Sent(s, l, c) && !(c == 8 && Condition(l, op))
    ensures Sent(Wrote(s, op), LinesThen(l, op), BitsThen(c, l, op))
  {
    hide Core, I2cDone, Send, Wrote;
    WroteKeeps(s, op);
    ShapeOf(s);
    match op
    case Pins(scl, sda) =>
      var t := s.(oscl := s.sclOut, sclOut := scl, osda := s.sdaOut, sdaOut := sda, sdaIn := true);
      WrotePins(s, scl, sda);
      if s.sclOut != scl || s.sdaOut != sda {
        SendFields(t);
      }
    case Dirs(_, sda) =>
      WroteDirs(s, op);
  }

  lemma WroteDirs(s: State, op: Op)
    requires Ok(s) && op.Dirs?
    ensures Wrote(s, op) == s.(sclDir := op.scl, sdaDir := op.sda)
  {
  }

  /** While a read is under way, and START and STOP are not heard, a write to the pins only moves the transfer on. */
  lemma WrotePins(s: State, scl: bool, sda: bool)
    requires Ok(s) && s.direction == 0 && s.bitcounter >= 0
    requires s.sdaDirNvram || !(s.sclOut && scl && s.sdaOut != sda)
    ensures var t := s.(oscl := s.sclOut, sclOut := scl, osda := s.sdaOut, sdaOut := sda, sdaIn := true);
      Shape(t) && Wrote(s, Pins(scl, sda)) ==
        if s.sclOut == scl && s.sdaOut == sda then s else Send(t).(oscl := scl, osda := sda)
  {
    hide Buffered, Send;
    var t := s.(oscl := s.sclOut, sclOut := scl, osda := s.sdaOut, sdaOut := sda, sdaIn := true);
    SendCounts(t);
  }

  lemma SendCounts(t: State)
    requires Shape(t) && t.bitcounter >= 0
    ensures Send(t).bitcounter >= 0
  {
  }

  lemma SendFields(t: State)
    requires Shape(t) && t.bitcounter >= 0
    ensures var u := Send(t); var rises := t.sclOut && !t.oscl && t.bitcounter < 8;
      && u.bitcounter ==
         (if !t.sdaOut && t.sdaDir && !t.sclOut then 0 else if rises then t.bitcounter + 1 else t.bitcounter)
      && u.sdaDirNvram == (if rises then t.bitcounter + 1 < 8 else t.sdaDirNvram)
      && u.direction == t.direction && u.phase == t.phase
      && u.sclOut == t.sclOut && u.sdaOut == t.sdaOut && u.sdaDir == t.sdaDir
  {
  }

  lemma ShapeOf(s: State)
    requires Ok(s)
    ensures Shape(s) && s.oscl == s.sclOut && s.osda == s.sdaOut
  {
  }

  lemma SentIsOk(s: State, l: Lines, c: nat)
    requires Sent(s, l, c)
    ensures Ok(s)
  {
  }

  lemma {:induction false} SentAfter(s: State, ops: seq<Op>)
    requires Sent(s, LinesOf(s), 8) && Unbroken(LinesOf(s), ops)
    ensures Ok(s) && Sent(Wave(s, ops), LinesAfter(LinesOf(s), ops), Bits(LinesOf(s), ops))
    decreases |ops|
  {
    hide Wrote, Sent, BitsThen, Condition, LinesThen;
    SentIsOk(s, LinesOf(s), 8);
    if |ops| > 0 {
      var l, n := LinesOf(s), |ops| - 1;
      var before := ops[..n];
      forall i: nat | i < n ensures UnbrokenAt(l, before, i) {
        assert before[..i] == ops[..i] && UnbrokenAt(l, ops, i);
      }
      SentAfter(s, before);
      assert UnbrokenAt(l, ops, n);
      SentThen(Wave(s, before), LinesAfter(l, before), Bits(l, before), ops[n]);
    }
  }

  predicate AckAt(l: Lines, ops: seq<Op>, i: nat)
    requires i < |ops|
  {
    Acknowledges(LinesAfter(l, ops[..i]), ops[i])
  }

  /** How often SCL rises after position i. */
  function RisesAfter(l: Lines, ops: seq<Op>, i: nat): nat
    requires i < |ops|
  {
    var n := |ops| - 1;
    if i == n then 0 else RisesAfter(l, ops[..n], i) + if Rises(LinesAfter(l, ops[..n]), ops[n]) then 1 else 0
  }

  /** Some write was taken for an acknowledge, and fewer than eight bits have been clocked since. */
  ghost predicate Acknowledged(l: Lines, ops: seq<Op>) {
    exists i: nat :: i < |ops| && AckAt(l, ops, i) && RisesAfter(l, ops, i) < 8
  }

  lemma {:induction false} BitsCountRises(l: Lines, ops: seq<Op>)
    ensures forall i: nat :: i < |ops| && AckAt(l, ops, i) ==> RisesAfter(l, ops, i) >= Bits(l, ops)
    ensures Bits(l, ops) < 8 ==> exists i: nat :: i < |ops| && AckAt(l, ops, i) && RisesAfter(l, ops, i) == Bits(l, ops)
    decreases |ops|
  {
    hide Acknowledges, Rises, LinesThen;
    if |ops| > 0 {
      var n := |ops| - 1;
      var before := ops[..n];
      BitsCountRises(l, before);
      forall i: nat | i < n ensures AckAt(l, ops, i) == AckAt(l, before, i) {
        assert before[..i] == ops[..i];
      }
      forall i: nat | i < |ops| && AckAt(l, ops, i) ensures RisesAfter(l, ops, i) >= Bits(l, ops) {
        if i < n {
          assert AckAt(l, before, i) && RisesAfter(l, before, i) >= Bits(l, before);
        }
      }
      if Bits(l, ops) < 8 {
        if AckAt(l, ops, n) {
          assert RisesAfter(l, ops, n) == Bits(l, ops);
        } else {
          var i: nat :| i < |before| && AckAt(l, before, i) && RisesAfter(l, before, i) == Bits(l, before);
          assert AckAt(l, ops, i) && RisesAfter(l, ops, i) == Bits(l, ops);
        }
      }
    }
  }

  /** A read has sent a byte, and the master goes on in any way without a START or STOP between bytes.  The interface
      recognises the STOP it then makes if and only if no write was taken for an acknowledge, or eight more bits have
      been clocked since the last one was: a master that drives SDA low for the STOP itself acknowledges by doing so. */
  lemma ReadEndsIff(s: State, a: nat, v: nat, ops: seq<Op>)
    requires Sending(s, a, v, 8) && Unbroken(LinesOf(s), ops)
    requires LinesAfter(LinesOf(s), ops).scl && !LinesAfter(LinesOf(s), ops).sda
    ensures Ok(s)
    ensures Idle(Wrote(Wave(s, ops), Pins(true, true))) <==> !Acknowledged(LinesOf(s), ops)
  {
    hide Wrote, Wave, Bits, AckAt, RisesAfter, LinesAfter, UnbrokenAt;
    SentIsOk(s, LinesOf(s), 8);
    SentAfter(s, ops);
    BitsCountRises(LinesOf(s), ops);
    StopAfterBits(Wave(s, ops), LinesAfter(LinesOf(s), ops), Bits(LinesOf(s), ops));
  }

  lemma StopAfterBits(s: State, l: Lines, c: nat)
    requires Sent(s, l, c) && l.scl && !l.sda
    ensures Ok(s) && (Idle(Wrote(s, Pins(true, true))) <==> c == 8)
  {
    hide PageWrite, Buffered, Core;
    ShapeOf(s);
    WroteKeeps(s, Pins(true, true));
  }

  // ---------- the interface itself ----------

  /** The interface; its static variables are kept in one record that i2c_do updates field by field. */
  class Nvram {
    var st: State

    ghost predicate Valid()
      reads this
    {
      Ok(st)
    }

    /** i2c_do. */
    method I2cDo()
      requires Shape(st)
      modifies this
      ensures st == I2cDone(old(st))
    {
      hide Receive, Send, Dispatch;
      st := st.(sdaIn := true);
      if !st.sdaDirNvram && st.sclOut && st.oscl {
        if !st.sdaOut && st.osda {
          st := st.(phase := DeviceAddr, bitcounter := 0, direction := -1);
          return;
        } else if st.sdaOut && !st.osda {
          st := st.(phase := Wait, bitcounter := -1);
          if st.direction > 0 {
            var p := PageOf(st.address);
            st := st.(nvram := st.nvram[..p] + st.writetmp + st.nvram[p + NVRAM_PAGE_SIZE..], direction := -1);
          }
          return;
        }
      }
      if st.bitcounter >= 0 {
        if st.direction != 0 {
          ReceiveBit();
        } else {
          TransmitBit();
        }
        if st.bitcounter >= 0 {
          return;
        }
      }
      AfterAddressByte();
    }

    /** The acknowledge of a received byte. */
    method Acknowledge()
      requires Shape(st)
      modifies this
      ensures st == if old(st).direction > 0 then DataAck(old(st)) else AddressAck(old(st))
    {
      if st.direction > 0 {
        st := st.(sdaIn := false, writetmp := st.writetmp[st.writeaddr := st.byte],
                  writeaddr := (st.writeaddr + 1) % 16, bitcounter := 0, accepted := st.accepted + [st.byte]);
      } else {
        st := st.(sdaIn := false, bitcounter := -1);
      }
    }

    /** The Amiga-to-EEPROM branch of i2c_do. */
    method ReceiveBit()
      requires Shape(st) && st.bitcounter >= 0 && st.direction != 0
      modifies this
      ensures st == Receive(old(st)) && Shape(st)
    {
      hide DataAck, AddressAck;
      ReceiveShape(st);
      if st.sclOut && !st.oscl {
        if st.bitcounter == 8 {
          Acknowledge();
        } else {
          st := st.(byte := (st.byte * 2 + B(st.sdaOut)) % 256, bitcounter := st.bitcounter + 1);
        }
      }
    }

    /** The next bit goes out; the address moves on after the eighth. */
    method TransmitOne()
      requires Shape(st) && 0 <= st.bitcounter < 8
      modifies this
      ensures st == SendBit(old(st))
    {
      var b := if st.bitcounter == 0 then st.nvram[st.address] else st.byte;
      st := st.(sdaDirNvram := true, sdaIn := b >= 128, byte := b * 2 % 256, bitcounter := st.bitcounter + 1);
      if st.bitcounter == 8 {
        st := st.(address := (st.address + 1) % NVRAM_SIZE, sdaDirNvram := false);
      }
    }

    /** The EEPROM-to-Amiga branch of i2c_do. */
    method TransmitBit()
      requires Shape(st) && st.bitcounter >= 0 && st.direction == 0
      modifies this
      ensures st == Send(old(st)) && Shape(st)
    {
      ghost var s0 := st;
      ReceiveShape(s0);
      if st.sclOut && !st.oscl && st.bitcounter < 8 {
        TransmitOne();
      }
      if !st.sdaOut && st.sdaDir && !st.sclOut {
        st := st.(bitcounter := 0);
      }
    }

    /** The device address case. */
    method DeviceByte()
      requires Shape(st) && st.phase == DeviceAddr
      modifies this
      ensures st == if old(st).byte / 16 != 0xA then old(st).(phase := Wait)
                    else if old(st).byte % 2 == 0 then DeviceWrite(old(st)) else DeviceRead(old(st))
    {
      if st.byte / 16 != 0xA {
        st := st.(phase := Wait);
      } else if st.byte % 2 == 0 {
        st := st.(address := st.address % 256 + st.byte / 2 % 4 * 256, phase := WordAddr, direction := -1,
          bitcounter := 0);
      } else {
        st := st.(phase := Data, direction := 0, sdaDirNvram := true, bitcounter := 0);
      }
    }

    /** The word address case. */
    method WordByte()
      requires Shape(st)
      modifies this
      ensures st == WordDone(old(st))
    {
      var a := st.address / 256 * 256 + st.byte;
      if st.direction < 0 {
        var p := PageOf(a);
        st := st.(writetmp := st.nvram[p..p + NVRAM_PAGE_SIZE], writeaddr := a % NVRAM_PAGE_SIZE, base := a,
          accepted := []);
      }
      st := st.(address := a, phase := Data, bitcounter := 0, direction := 1);
    }

    /** The switch at the end of i2c_do. */
    method AfterAddressByte()
      requires Shape(st)
      modifies this
      ensures st == Dispatch(old(st))
    {
      hide DeviceWrite, DeviceRead, WordDone;
      match st.phase
      case DeviceAddr => DeviceByte();
      case WordAddr => WordByte();
      case _ =>
    }

    /** The interface's part of akiko_reset. */
    method ResetInterface()
      requires Valid()
      modifies this
      ensures Valid() && st == Reset(old(st)) && IsReset(st) && (Idle(st) <==> !old(st).sdaDirNvram)
    {
      ResetResets(st);
      st := st.(phase := Wait);
      st := st.(bitcounter := -1);
      st := st.(direction := -1);
    }

    /** akiko_nvram_write. */
    method WritePort(op: Op)
      requires Valid()
      modifies this
      ensures Valid() && st == Wrote(old(st), op)
      ensures st.nvram ==
        if Commits(old(st), op) then PageWrite(old(st).nvram, old(st).base, old(st).accepted) else old(st).nvram
    {
      hide I2cDone, PageWrite, Buffered;
      WroteKeeps(st, op);
      match op
      case Pins(scl, sda) =>
        st := st.(oscl := st.sclOut, sclOut := scl, osda := st.sdaOut, sdaOut := sda);
        if st.oscl != st.sclOut || st.osda != st.sdaOut {
          I2cDo();
          st := st.(oscl := scl, osda := sda);
        }
      case Dirs(scl, sda) =>
        st := st.(sclDir := scl, sdaDir := sda);
    }

    /** akiko_nvram_read: bits 7 and 6 of the level port (nothing outside drives SCL). */
    method ReadPort() returns (scl: bool, sda: bool)
      ensures sda == SdaSeen(st) && scl == (st.sclDir && st.sclOut)
    {
      scl := if st.sclDir then st.sclOut else false;
      sda := if st.sdaDir then st.sdaOut else st.sdaIn;
    }
  }
}
