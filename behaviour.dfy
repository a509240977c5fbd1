/** Properties of the c8e main loop that relate several operations or spell out
    what an instruction computes: the flag arithmetic of the ALU group, the
    subroutine round trip, the pc advance, the timers, the memory transfers,
    the sprite instruction, the key wait, and the consequences of the one-byte
    fetch. */
module Behaviour {
  import opened Hardware
  import opened Opcodes
  import opened Sprite
  import opened Machine

  // ---------------------------------------------------------------------------
  // The flag-setting ALU instructions, for operands other than VF.

  /** 8xy4: Vx becomes the wrapped sum and VF its carry, which is 1 exactly
      when the sum exceeds 255 (SumCarry says what the two mean together). */
  lemma AddCarry(reg: seq<Byte>, x: Nibble, y: Nibble)
    requires |reg| == RegCount && x as int != 15 && y as int != 15
    ensures var r := AddRegs(reg, x, y);
      && r[x] == WrapAdd(reg[x], reg[y]) && r[15] == Carry(reg[x], reg[y])
      && (r[15] == 1 <==> reg[x] as Word + reg[y] as Word > 0xFF)
  {
    var a, b := reg[x], reg[y];
    FlagFirstAt(reg, x, y, Carry(a, b), WrapAdd(a, b));
  }

  /** The two registers a flag-first ALU instruction writes, for Vx other than VF. */
  lemma FlagFirstAt(reg: seq<Byte>, x: Nibble, y: Nibble, f: Byte, v: Byte)
    requires |reg| == RegCount && x as int != 15 && y as int != 15
    ensures var r := FlagFirst(reg, f);
      && r[x] == reg[x] && r[y] == reg[y]
      && r[x := v][x] == v && r[x := v][15] == f
  {
  }

  /** The wrapped sum and the carry together are the exact 9-bit sum. */
  lemma SumCarry(a: Byte, b: Byte)
    ensures WrapAdd(a, b) as Word + 0x100 * Carry(a, b) as Word == a as Word + b as Word
  {
  }

  /** The wrapped difference is a - b, plus 256 when b > a. */
  lemma DifferenceBorrow(a: Byte, b: Byte)
    ensures WrapSub(a, b) as Word + b as Word == a as Word + (if a >= b then 0 else 0x100)
  {
  }

  /** 8xy5: Vx becomes Vx - Vy wrapped, and VF is 1 exactly when Vx > Vy (so 0
      when the two are equal, although nothing is borrowed). */
  lemma SubBorrow(reg: seq<Byte>, x: Nibble, y: Nibble)
    requires |reg| == RegCount && x as int != 15 && y as int != 15
    ensures var r := SubRegs(reg, x, y);
      && r[x] == WrapSub(reg[x], reg[y])
      && r[15] <= 1 && (r[15] == 1 <==> reg[x] > reg[y])
  {
    var a, b := reg[x], reg[y];
    FlagFirstAt(reg, x, y, Above(a, b), WrapSub(a, b));
  }

  /** 8xy7: Vx becomes Vy - Vx wrapped, and VF is 1 exactly when Vy > Vx. */
  lemma SubnBorrow(reg: seq<Byte>, x: Nibble, y: Nibble)
    requires |reg| == RegCount && x as int != 15 && y as int != 15
    ensures var r := SubnRegs(reg, x, y);
      && r[x] == WrapSub(reg[y], reg[x])
      && r[15] <= 1 && (r[15] == 1 <==> reg[y] > reg[x])
  {
    var a, b := reg[x], reg[y];
    FlagFirstAt(reg, x, y, Above(b, a), WrapSub(b, a));
  }

  /** The halved byte and the bit shifted out recover the byte. */
  lemma HalveSplit(a: Byte)
    ensures 2 * ShiftRight(a) as Word + LowBit(a) as Word == a as Word
  {
  }

  /** The doubled byte and the bit shifted out recover twice the byte. */
  lemma DoubleSplit(a: Byte)
    ensures ShiftLeft(a) as Word + 0x100 * HighBit(a) as Word == 2 * a as Word
  {
  }

  /** 8xy6 and 8xyE: Vx is shifted and VF holds the bit shifted out (HalveSplit
      and DoubleSplit say that nothing is lost). */
  lemma ShiftFlags(reg: seq<Byte>, x: Nibble)
    requires |reg| == RegCount && x as int != 15
    ensures var r := ShrReg(reg, x); r[x] == ShiftRight(reg[x]) && r[15] == LowBit(reg[x])
    ensures var r := ShlReg(reg, x); r[x] == ShiftLeft(reg[x]) && r[15] == HighBit(reg[x])
  {
    FlagFirstAt(reg, x, x, LowBit(reg[x]), ShiftRight(reg[x]));
    FlagFirstAt(reg, x, x, HighBit(reg[x]), ShiftLeft(reg[x]));
  }

  /** With Vx = VF the flag is computed and then overwritten by the result, so
      it is lost: 8Fy4 leaves carry + Vy in VF, 8Fy5 leaves flag - Vy, 8Fy7
      leaves Vy - flag, 8F06 leaves the shifted-out bit halved (always 0) and
      8F0E leaves it doubled. */
  lemma FlagOverwritten(reg: seq<Byte>, y: Nibble)
    requires |reg| == RegCount && y as int != 15
    ensures AddRegs(reg, 15, y)[15] == WrapAdd(Carry(reg[15], reg[y]), reg[y])
    ensures SubRegs(reg, 15, y)[15] == WrapSub(Above(reg[15], reg[y]), reg[y])
    ensures SubnRegs(reg, 15, y)[15] == WrapSub(reg[y], Above(reg[y], reg[15]))
  {
    var a, b := reg[15], reg[y];
    FlagFirstAtFlag(reg, y, Carry(a, b), WrapAdd(Carry(a, b), b));
    FlagFirstAtFlag(reg, y, Above(a, b), WrapSub(Above(a, b), b));
    FlagFirstAtFlag(reg, y, Above(b, a), WrapSub(b, Above(b, a)));
  }

  /** With Vy = VF (and Vx another register) the result is computed from the
      flag just written, not from the old VF. */
  lemma FlagAsOperand(reg: seq<Byte>, x: Nibble)
    requires |reg| == RegCount && x as int != 15
    ensures AddRegs(reg, x, 15)[x] == WrapAdd(reg[x], Carry(reg[x], reg[15]))
    ensures SubRegs(reg, x, 15)[x] == WrapSub(reg[x], Above(reg[x], reg[15]))
    ensures SubnRegs(reg, x, 15)[x] == WrapSub(Above(reg[15], reg[x]), reg[x])
  {
  }

  /** 8F06 always leaves 0 in VF and 8F0E leaves twice the bit shifted out. */
  lemma ShiftFlagOverwritten(reg: seq<Byte>)
    requires |reg| == RegCount
    ensures ShrReg(reg, 15)[15] == 0
    ensures ShlReg(reg, 15)[15] == 2 * HighBit(reg[15])
  {
    var a := reg[15];
    FlagFirstAtFlag(reg, 15, LowBit(a), ShiftRight(LowBit(a)));
    FlagFirstAtFlag(reg, 15, HighBit(a), ShiftLeft(HighBit(a)));
    assert ShiftRight(LowBit(a)) == 0;
    assert ShiftLeft(HighBit(a)) == 2 * HighBit(a);
  }

  /** The registers a flag-first ALU instruction reads and writes, for Vx = VF. */
  lemma FlagFirstAtFlag(reg: seq<Byte>, y: Nibble, f: Byte, v: Byte)
    requires |reg| == RegCount
    ensures var r := FlagFirst(reg, f);
      && r[15] == f && (y as int != 15 ==> r[y] == reg[y]) && r[15 := v][15] == v
  {
  }

  // ---------------------------------------------------------------------------
  // The pc advance and the timers.

  /** ADD Vx, byte wraps modulo 256 and, unlike 8xy4, leaves VF alone when
      x is not F; no other register changes. */
  lemma AddByteWraps(reg: seq<Byte>, x: Nibble, kk: Byte, rnd: Byte)
    requires |reg| == RegCount && x as int != 15
    ensures var r := RegisterOp(reg, AddByte(x, kk), rnd);
      && r[x] as bv16 == (reg[x] as bv16 + kk as bv16) & 0xFF
      && r[15] == reg[15]
      && forall j :: 0 <= j < RegCount && j != x as int ==> r[j] == reg[j]
  {
  }

  /** A completed pass adds 2 to pc after the instruction and counts both timers
      down by one, stopping at zero, unless the instruction waited. */
  lemma CycleAdvances(m: Machine, op: Word, input: Input)
    requires Shaped(m)
    ensures var e, c := Exec(m, Decode(op), input), Cycle(m, op, input);
      && (e.Waiting? <==> c.Waiting?) && (e.Faulted? <==> c.Faulted?)
      && (e.Faulted? ==> c == e)
      && (e.Next? ==> c.Next? && c.m.pc - e.m.pc == 2
                      && c.m.delay as int == Max0(e.m.delay as int - 1)
                      && c.m.sound as int == Max0(e.m.sound as int - 1)
                      && c.m.(pc := e.m.pc, delay := e.m.delay, sound := e.m.sound) == e.m)
  {
  }

  /** NextPc moves to the following two-byte instruction slot, and CountDown
      lowers a timer by one until it reaches zero. */
  lemma AdvanceAndCountDown(pc: Word, t: Byte)
    ensures NextPc(pc) - pc == 2
    ensures CountDown(t) as int == Max0(t as int - 1)
  {
  }


  /** The instructions that do not branch or skip leave pc where it was, so the
      pass moves pc to the next instruction. */
  lemma StraightLine(m: Machine, i: Instr, input: Input)
    requires Shaped(m) && !IsControl(i) && !IsSkip(i)
    ensures Exec(m, i, input).Next? ==> Exec(m, i, input).m.pc == m.pc
  {
  }

  /** A skip executes one more `pc += 2` exactly when its condition holds. */
  lemma SkipAdvance(m: Machine, i: Instr, input: Input)
    requires Shaped(m) && IsSkip(i)
    ensures var o := Exec(m, i, input);
      o.Next? ==> (o.m == m.(pc := NextPc(m.pc)) <==> SkipTaken(m, i, input.down)) && (o.m == m || o.m == m.(pc := NextPc(m.pc)))
  {
    assert Exec(m, i, input) == ExecSkip(m, i, input.down);
  }

  /** The condition of each skip instruction; the key skips look at host key 1
      (the only slot the source can reach). */
  predicate SkipTaken(m: Machine, i: Instr, down: set<int>)
    requires Shaped(m)
  {
    match i
    case SeByte(x, kk) => m.reg[x] == kk
    case SneByte(x, kk) => m.reg[x] != kk
    case SeReg(x, y) => m.reg[x] == m.reg[y]
    case SneReg(x, y) => m.reg[x] != m.reg[y]
    case Skp(_) => Keys[0] in down
    case Sknp(_) => Keys[0] !in down
    case _ => false
  }

  /** JP and JP V0 set pc, and the uniform advance then adds 2 more: the next
      instruction executed is the one after the target. */
  lemma JumpOvershoots(m: Machine, nnn: Addr, input: Input)
    requires Shaped(m)
    ensures Exec(m, Jp(nnn), input).Next?
    ensures Tick(Exec(m, Jp(nnn), input).m).pc == NextPc(nnn as Word)
  {
  }

  lemma JumpV0Overshoots(m: Machine, nnn: Addr, input: Input)
    requires Shaped(m)
    ensures Exec(m, JpV0(nnn), input).Next?
    ensures Tick(Exec(m, JpV0(nnn), input).m).pc == NextPc(Offset(nnn, m.reg[0]))
  {
  }

  /** So JP V0 lands at nnn + V0 + 2, exactly and with no wrap. */
  lemma JumpV0Lands(m: Machine, nnn: Addr, input: Input)
    requires Shaped(m)
    ensures Exec(m, JpV0(nnn), input).Next?
    ensures Tick(Exec(m, JpV0(nnn), input).m).pc as bv32 == nnn as bv32 + m.reg[0] as bv32 + 2
  {
    JumpV0Overshoots(m, nnn, input);
    var t := Offset(nnn, m.reg[0]);
    OffsetSum(nnn, m.reg[0]);
    assert t as bv32 <= 0x10FE;
    assert NextPc(t) as bv32 == t as bv32 + 2;
  }

  /** The JP V0 target nnn + V0 is at most 0xFFF + 0xFF, so the 16-bit sum
      never wraps. */
  lemma OffsetSum(nnn: Addr, v: Byte)
    ensures Offset(nnn, v) as bv32 == nnn as bv32 + v as bv32
  {
  }

  /** The same as integers. */
  lemma OffsetValue(nnn: Addr, v: Byte)
    ensures Offset(nnn, v) as int == nnn as int + v as int
  {
    OffsetSum(nnn, v);
    assert (nnn as bv32 + v as bv32) as int == nnn as int + v as int;
  }

  /** `index += reg[x]` is the exact sum while it fits in 16 bits ... */
  lemma IndexNoWrap(i: Word, v: Byte)
    requires i as bv32 + v as bv32 <= 0xFFFF
    ensures AddIndex(i, v) as bv32 == i as bv32 + v as bv32
  {
  }

  /** ... and drops 0x10000 once it does not. */
  lemma IndexWrapsOver(i: Word, v: Byte)
    requires i as bv32 + v as bv32 > 0xFFFF
    ensures AddIndex(i, v) as bv32 == i as bv32 + v as bv32 - 0x10000
  {
  }

  /** Timers after n passes of Tick alone. */
  function Ticks(m: Machine, n: nat): Machine
  {
    if n == 0 then m else Tick(Ticks(m, n - 1))
  }

  /** With no instruction touching them, the timers fall by one per pass until
      they reach zero, and stay there. */
  lemma {:induction false} TicksCountDown(m: Machine, n: nat)
    ensures Ticks(m, n).delay as int == Max0(m.delay as int - n)
    ensures Ticks(m, n).sound as int == Max0(m.sound as int - n)
  {
    if n > 0 {
      TicksCountDown(m, n - 1);
      var p := Ticks(m, n - 1);
      AdvanceAndCountDown(p.pc, p.delay);
      AdvanceAndCountDown(p.pc, p.sound);
    }
  }

  // ---------------------------------------------------------------------------
  // Subroutines.

  /** CALL pushes its own address; whatever the subroutine does, as long as it
      leaves sp and the stack as CALL left them, the RET pass resumes at the
      instruction after the CALL, with sp back where it was. */
  lemma CallReturn(m: Machine, nnn: Addr, body: Machine)
    requires Shaped(m) && m.sp as int < StackDepth
    requires Shaped(body) && body.sp == ExecCall(m, nnn).m.sp && body.stack == ExecCall(m, nnn).m.stack
    ensures ExecRet(body).Next?
    ensures Tick(ExecRet(body).m).pc == NextPc(m.pc)
    ensures ExecRet(body).m.sp == m.sp
  {
  }

  /** A RET with nothing on the stack faults, and so does a CALL with a full one. */
  lemma StackLimits(m: Machine, nnn: Addr)
    requires Shaped(m)
    ensures m.sp == 0 ==> ExecRet(m) == Faulted(StackUnderflow)
    ensures m.sp as int == StackDepth ==> ExecCall(m, nnn) == Faulted(StackOverflow)
  {
  }

  // ---------------------------------------------------------------------------
  // Memory transfers.

  /** Fx55 writes V0 .. Vx to ram[I] .. ram[I + x] and no other byte. */
  lemma StoreWrites(m: Machine, x: Nibble)
    requires Shaped(m) && m.index as int + x as int < RamSize
    ensures ExecStore(m, x).Next?
    ensures var r, i := ExecStore(m, x).m, m.index as int;
      && (forall k :: 0 <= k <= x as int ==> r.ram[i + k] == m.reg[k])
      && (forall k :: 0 <= k < RamSize && !(i <= k <= i + x as int) ==> r.ram[k] == m.ram[k])
  {
    var n := x as int + 1;
    StoreWritesLow(m, x, n);
    StoreKeepsRest(m, x, n);
  }

  /** ram[I + k] holds Vk for k below n = x + 1. */
  lemma StoreWritesLow(m: Machine, x: Nibble, n: int)
    requires Shaped(m) && m.index as int + x as int < RamSize && n == x as int + 1
    ensures forall k :: 0 <= k < n ==> ExecStore(m, x).m.ram[m.index as int + k] == m.reg[k]
  {
    var i, r := m.index as int, ExecStore(m, x).m.ram;
    StoreIs(m, x, n);
    SpliceWrites(r, m.ram, m.reg, i, n);
  }

  /** Every byte outside ram[I .. I + n) keeps its value. */
  lemma StoreKeepsRest(m: Machine, x: Nibble, n: int)
    requires Shaped(m) && m.index as int + x as int < RamSize && n == x as int + 1
    ensures forall k :: 0 <= k < RamSize && !(m.index as int <= k < m.index as int + n) ==>
      ExecStore(m, x).m.ram[k] == m.ram[k]
  {
    var i, r := m.index as int, ExecStore(m, x).m.ram;
    StoreIs(m, x, n);
    SpliceKeeps(r, m.ram, m.reg, i, n);
  }

  /** Fx65 reads V0 .. Vx from ram[I] .. ram[I + x] and keeps the registers above Vx. */
  lemma LoadReads(m: Machine, x: Nibble)
    requires Shaped(m) && m.index as int + x as int < RamSize
    ensures ExecLoad(m, x).Next?
    ensures var r, i := ExecLoad(m, x).m, m.index as int;
      && (forall k :: 0 <= k <= x as int ==> r.reg[k] == m.ram[i + k])
      && (forall k :: x as int < k < RegCount ==> r.reg[k] == m.reg[k])
  {
    var n := x as int + 1;
    LoadReadsLow(m, x, n);
    LoadKeepsHigh(m, x, n);
  }

  /** The registers below n = x + 1 come from ram[I ..]. */
  lemma LoadReadsLow(m: Machine, x: Nibble, n: int)
    requires Shaped(m) && m.index as int + x as int < RamSize && n == x as int + 1
    ensures forall k :: 0 <= k < n ==> ExecLoad(m, x).m.reg[k] == m.ram[m.index as int + k]
  {
    var i, r := m.index as int, ExecLoad(m, x).m.reg;
    LoadIs(m, x, n);
    OverlayReads(r, m.ram, m.reg, i, n);
  }

  /** The registers from n = x + 1 on keep their values. */
  lemma LoadKeepsHigh(m: Machine, x: Nibble, n: int)
    requires Shaped(m) && m.index as int + x as int < RamSize && n == x as int + 1
    ensures forall k :: n <= k < RegCount ==> ExecLoad(m, x).m.reg[k] == m.reg[k]
  {
    var i, r := m.index as int, ExecLoad(m, x).m.reg;
    LoadIs(m, x, n);
    OverlayKeeps(r, m.ram, m.reg, i, n);
  }

  /** ExecStore in terms of the integer count n = x + 1. */
  lemma StoreIs(m: Machine, x: Nibble, n: int)
    requires Shaped(m) && m.index as int + x as int < RamSize && n == x as int + 1
    ensures var i := m.index as int;
      ExecStore(m, x) == Next(m.(ram := m.ram[..i] + m.reg[..n] + m.ram[i + n..]))
  {
  }

  /** ExecLoad in terms of the integer count n = x + 1. */
  lemma LoadIs(m: Machine, x: Nibble, n: int)
    requires Shaped(m) && m.index as int + x as int < RamSize && n == x as int + 1
    ensures var i := m.index as int;
      ExecLoad(m, x) == Next(m.(reg := m.ram[i .. i + n] + m.reg[n..]))
  {
  }

  /** r is s with the first n bytes of t written over it from position i on:
      those bytes land at i .. i + n - 1. */
  lemma SpliceWrites(r: seq<Byte>, s: seq<Byte>, t: seq<Byte>, i: int, n: int)
    requires 0 <= i && 0 <= n <= |t| && i + n <= |s| && r == s[..i] + t[..n] + s[i + n..]
    ensures forall k :: 0 <= k < n ==> r[i + k] == t[k]
  {
  }

  /** ... and every byte of s outside i .. i + n - 1 is kept. */
  lemma SpliceKeeps(r: seq<Byte>, s: seq<Byte>, t: seq<Byte>, i: int, n: int)
    requires 0 <= i && 0 <= n <= |t| && i + n <= |s| && r == s[..i] + t[..n] + s[i + n..]
    ensures forall k :: 0 <= k < |s| && !(i <= k < i + n) ==> r[k] == s[k]
  {
  }

  /** r is n bytes of src from position i on, then dst from position n on:
      its first n bytes come from src ... */
  lemma OverlayReads(r: seq<Byte>, src: seq<Byte>, dst: seq<Byte>, i: int, n: int)
    requires 0 <= i && i + n <= |src| && 0 <= n <= |dst| && r == src[i .. i + n] + dst[n..]
    ensures forall k :: 0 <= k < n ==> r[k] == src[i + k]
  {
  }

  /** ... and the rest are dst's. */
  lemma OverlayKeeps(r: seq<Byte>, src: seq<Byte>, dst: seq<Byte>, i: int, n: int)
    requires 0 <= i && i + n <= |src| && 0 <= n <= |dst| && r == src[i .. i + n] + dst[n..]
    ensures forall k :: n <= k < |dst| ==> r[k] == dst[k]
  {
  }

  /** Fx65 after Fx55 with the same x and I gives back V0 .. Vx, whatever the
      registers held in between. */
  lemma StoreThenLoad(m: Machine, x: Nibble, between: seq<Byte>)
    requires Shaped(m) && m.index as int + x as int < RamSize && |between| == RegCount
    ensures ExecStore(m, x).Next?
    ensures var s := ExecStore(m, x).m.(reg := between);
      && ExecLoad(s, x).Next?
      && (forall k :: 0 <= k <= x as int ==> ExecLoad(s, x).m.reg[k] == m.reg[k])
      && (forall k :: x as int < k < RegCount ==> ExecLoad(s, x).m.reg[k] == between[k])
  {
    var n := x as int + 1;
    StoreWritesLow(m, x, n);
    var s := ExecStore(m, x).m.(reg := between);
    LoadReadsLow(s, x, n);
    LoadKeepsHigh(s, x, n);
  }

  /** Fx33 writes ram[I] .. ram[I + 2] and no other byte. */
  lemma BcdWrites(m: Machine, x: Nibble)
    requires Shaped(m) && m.index as int + 2 < RamSize
    ensures ExecBcd(m, x).Next?
    ensures forall k :: 0 <= k < RamSize && !(m.index as int <= k <= m.index as int + 2) ==>
      ExecBcd(m, x).m.ram[k] == m.ram[k]
  {
    var i, v, r := m.index as int, m.reg[x], ExecBcd(m, x).m.ram;
    BcdRam(m, x, i, v);
    ThreeKeeps(r, m.ram, i, LastDigit(Tenth(Tenth(v))), LastDigit(Tenth(v)), LastDigit(v));
  }

  /** Fx33 stores the three decimal digits of Vx, hundreds first, and leaves 0
      in Vx (the source divides Vx itself). */
  lemma BcdDigits(m: Machine, x: Nibble)
    requires Shaped(m) && m.index as int + 2 < RamSize
    ensures ExecBcd(m, x).Next?
    ensures var r, i, v := ExecBcd(m, x).m, m.index as int, m.reg[x];
      && r.ram[i] as int < 10 && r.ram[i + 1] as int < 10 && r.ram[i + 2] as int < 10
      && r.ram[i] as int * 100 + r.ram[i + 1] as int * 10 + r.ram[i + 2] as int == v as int
      && r.reg[x] == 0
  {
    var v := m.reg[x];
    BcdRam(m, x, m.index as int, v);
    Digits(v, LastDigit(Tenth(Tenth(v))), LastDigit(Tenth(v)), LastDigit(v));
  }

  /** The ram after Fx33, for i = I and v = Vx: the three digit writes, and
      where they land. */
  lemma BcdRam(m: Machine, x: Nibble, i: int, v: Byte)
    requires Shaped(m) && i == m.index as int && i + 2 < RamSize && v == m.reg[x]
    ensures ExecBcd(m, x).m.ram == m.ram[i + 2 := LastDigit(v)][i + 1 := LastDigit(Tenth(v))][i := LastDigit(Tenth(Tenth(v)))]
    ensures var r := ExecBcd(m, x).m.ram;
      r[i] == LastDigit(Tenth(Tenth(v))) && r[i + 1] == LastDigit(Tenth(v)) && r[i + 2] == LastDigit(v)
  {
    ThreeWrites(m.ram, i, LastDigit(Tenth(Tenth(v))), LastDigit(Tenth(v)), LastDigit(v));
  }

  /** Three writes at i + 2, i + 1 and i leave every other byte alone. */
  lemma ThreeKeeps(r: seq<Byte>, s: seq<Byte>, i: int, a: Byte, b: Byte, c: Byte)
    requires 0 <= i && i + 2 < |s| && r == s[i + 2 := c][i + 1 := b][i := a]
    ensures forall k :: 0 <= k < |s| && !(i <= k <= i + 2) ==> r[k] == s[k]
  {
  }

  /** Three writes at i + 2, i + 1 and i, in that order, all land. */
  lemma ThreeWrites(s: seq<Byte>, i: int, a: Byte, b: Byte, c: Byte)
    requires 0 <= i && i + 2 < |s|
    ensures var r := s[i + 2 := c][i + 1 := b][i := a];
      r[i] == a && r[i + 1] == b && r[i + 2] == c
  {
  }

  /** The digits the division loop produces: at most 2 hundreds, and they add
      up to the byte. */
  lemma Digits(v: Byte, h: Byte, t: Byte, u: Byte)
    requires h == LastDigit(Tenth(Tenth(v))) && t == LastDigit(Tenth(v)) && u == LastDigit(v)
    ensures h as int < 3 && t as int < 10 && u as int < 10
    ensures h as int * 100 + t as int * 10 + u as int == v as int
    ensures Tenth(Tenth(Tenth(v))) == 0
  {
  }

  /** LD F, Vx points I at the glyph of a digit Vx < 16, provided the font is
      still where start-up put it. */
  lemma FontAddress(m: Machine, x: Nibble, row: int)
    requires Shaped(m) && m.ram[..FontBytes] == FontRam()[..FontBytes]
    requires m.reg[x] < 16 && 0 <= row < 5
    ensures var r := ExecIndexOrTimer(m, LdF(x)).m;
      r.index as int == 5 * m.reg[x] as int && r.ram[r.index as int + row] == Sprites[m.reg[x]][row]
  {
    var r := ExecIndexOrTimer(m, LdF(x)).m;
    var d := m.reg[x] as int;
    assert r.index as int == 5 * d;
    assert r.ram[5 * d + row] == m.ram[..FontBytes][5 * d + row];
    assert (5 * d + row) / 5 == d && (5 * d + row) % 5 == row;
  }

  // ---------------------------------------------------------------------------
  // The sprite instruction.

  /** DRW faults exactly when a sprite row would be read past the end of ram;
      otherwise it changes only the display and VF, and VF is 0 or 1. */
  lemma DrawFrame(m: Machine, x: Nibble, y: Nibble, n: Nibble)
    requires Shaped(m)
    ensures ExecDraw(m, x, y, n).Faulted? <==> n != 0 && m.index as int + n as int > RamSize
    ensures !ExecDraw(m, x, y, n).Waiting?
    ensures var o := ExecDraw(m, x, y, n);
      o.Next? ==> && o.m == m.(display := o.m.display, reg := o.m.reg)
                  && (forall k :: 0 <= k < 15 ==> o.m.reg[k] == m.reg[k])
                  && o.m.reg[15] <= 1
  {
  }

  /** The coordinate DRW uses for register `r`. */
  function CoordOf(m: Machine, r: Nibble): nat
    requires Shaped(m)
  {
    if r == 15 then 0 else m.reg[r] as int
  }

  /** VF after DRW reflects only the last visible pixel: it is 1 exactly when
      that cell is dark afterwards; a sprite that is wholly off-screen (or has no
      rows) changes nothing and leaves VF 0. */
  lemma DrawCollisionFlag(m: Machine, x: Nibble, y: Nibble, n: Nibble)
    requires Shaped(m) && (n == 0 || m.index as int + n as int <= RamSize)
    ensures var o, s, px, py := ExecDraw(m, x, y, n), SpriteAt(m, n), CoordOf(m, x), CoordOf(m, y);
      && o.Next?
      && (AnyVisible(s, px, py) ==> (o.m.reg[15] == 1 <==> !o.m.display[LastVisibleLoc(s, px, py)]))
      && (!AnyVisible(s, px, py) ==> o.m.display == m.display && o.m.reg[15] == 0)
  {
    DrawUses(m, x, y, n);
    DrawFlag(m.display, SpriteAt(m, n), CoordOf(m, x), CoordOf(m, y));
  }

  /** Drawing the same sprite at the same place twice restores the display. This
      holds for every pair of coordinate registers: VF is cleared before the
      coordinates are read, so a VF coordinate reads 0 on both draws. */
  lemma DrawTwiceRestores(m: Machine, x: Nibble, y: Nibble, n: Nibble)
    requires Shaped(m) && (n == 0 || m.index as int + n as int <= RamSize)
    ensures ExecDraw(m, x, y, n).Next?
    ensures var m1 := ExecDraw(m, x, y, n).m;
      ExecDraw(m1, x, y, n).Next? && ExecDraw(m1, x, y, n).m.display == m.display
  {
    var s, px, py := SpriteAt(m, n), CoordOf(m, x), CoordOf(m, y);
    DrawUses(m, x, y, n);
    var c1 := Draw(Canvas(m.display, false), s, px, py);
    var m1 := ExecDraw(m, x, y, n).m;
    assert m1.display == c1.pixels;
    assert m1.ram == m.ram && m1.index == m.index;
    assert CoordOf(m1, x) == px && CoordOf(m1, y) == py;
    Redraw(m, m1, x, y, n);
    DrawTwice(m.display, false, false, s, px, py);
  }

  /** A second DRW with the same operands, after a first one that changed only
      the display and VF, draws the same sprite at the same place. */
  lemma Redraw(m: Machine, m1: Machine, x: Nibble, y: Nibble, n: Nibble)
    requires Shaped(m) && (n == 0 || m.index as int + n as int <= RamSize)
    requires Shaped(m1) && m1.ram == m.ram && m1.index == m.index
    requires CoordOf(m1, x) == CoordOf(m, x) && CoordOf(m1, y) == CoordOf(m, y)
    ensures ExecDraw(m1, x, y, n).Next?
    ensures ExecDraw(m1, x, y, n).m.display
         == Draw(Canvas(m1.display, false), SpriteAt(m, n), CoordOf(m, x), CoordOf(m, y)).pixels
  {
    DrawUses(m1, x, y, n);
  }

  /** Row r of the sprite DRW reads is `ram[I + r]`, for the h = n rows. */
  lemma SpriteRows(m: Machine, n: Nibble, h: int)
    requires Shaped(m) && (n == 0 || m.index as int + n as int <= RamSize) && h == n as int
    ensures |SpriteAt(m, n)| == h
    ensures forall r :: 0 <= r < h ==> SpriteAt(m, n)[r] == m.ram[m.index as int + r]
  {
  }

  /** DRW draws SpriteAt at the coordinates CoordOf names. */
  lemma DrawUses(m: Machine, x: Nibble, y: Nibble, n: Nibble)
    requires Shaped(m) && (n == 0 || m.index as int + n as int <= RamSize)
    ensures ExecDraw(m, x, y, n).Next?
    ensures var c := Draw(Canvas(m.display, false), SpriteAt(m, n), CoordOf(m, x), CoordOf(m, y));
      ExecDraw(m, x, y, n).m == m.(display := c.pixels, reg := m.reg[15 := VfByte(c.flag)])
  {
  }

  /** DRW is the blit onto the machine with VF cleared, at the coordinates read
      from that machine, ending with VF set from the blit's flag. */
  lemma DrawResult(m: Machine, x: Nibble, y: Nibble, n: Nibble, cleared: Machine, px: Byte, py: Byte)
    requires Shaped(m) && (n == 0 || m.index as int + n as int <= RamSize)
    requires cleared == m.(reg := m.reg[15 := 0])
    requires px == cleared.reg[x] && py == cleared.reg[y]
    ensures var c := Draw(Canvas(cleared.display, false), SpriteAt(cleared, n), px as int, py as int);
      ExecDraw(m, x, y, n) == Next(cleared.(display := c.pixels, reg := cleared.reg[15 := VfByte(c.flag)]))
  {
    assert cleared.ram == m.ram && cleared.index == m.index && cleared.display == m.display;
    assert SpriteAt(cleared, n) == SpriteAt(m, n);
  }

  /** Because loc is a byte, DRW never changes a display cell at 256 or above. */
  lemma DrawStaysLow(m: Machine, x: Nibble, y: Nibble, n: Nibble)
    requires Shaped(m) && (n == 0 || m.index as int + n as int <= RamSize)
    ensures ExecDraw(m, x, y, n).Next?
    ensures forall j :: 256 <= j < DisplaySize ==> ExecDraw(m, x, y, n).m.display[j] == m.display[j]
  {
    DrawUses(m, x, y, n);
    DrawKeepsHighCells(Canvas(m.display, false), SpriteAt(m, n), CoordOf(m, x), CoordOf(m, y));
  }

  // ---------------------------------------------------------------------------
  // The key wait.

  /** The key found is the table index of the first polled key that is in the
      table. */
  lemma FirstKeyAt(polls: seq<int>, p: int, k: KeyNum)
    requires 0 <= p < |polls| && polls[p] == Keys[k]
    requires forall q :: 0 <= q < p ==> polls[q] !in Keys
    ensures FirstKey(polls) == Some(k)
  {
    var r := FirstKey(polls);
    assert r.Some?;
    var p' :| 0 <= p' < |polls| && Keys[r.value] == polls[p'] && forall q :: 0 <= q < p' ==> polls[q] !in Keys;
    assert p' == p;
    KeysDistinct();
  }

  /** LD Vx, K stores the number of the CHIP-8 key whose host key is polled
      first among those in the table. */
  lemma KeyWaitRecords(m: Machine, x: Nibble, polls: seq<int>, p: int, k: KeyNum)
    requires Shaped(m) && 0 <= p < |polls| && polls[p] == Keys[k]
    requires forall q :: 0 <= q < p ==> polls[q] !in Keys
    ensures ExecKeyWait(m, x, polls) == Next(m.(reg := m.reg[x := k as Byte]))
  {
    var o := ExecKeyWait(m, x, polls);
    assert o.Next?;
    var j := o.m.reg[x] as int;
    KeysDistinct();
    assert Keys[j] == Keys[k];
    assert o.m.reg[x] == k as Byte;
  }

  /** Only LD Vx, K can wait, and a waiting pass changes nothing. */
  lemma OnlyKeyWaitWaits(m: Machine, i: Instr, input: Input)
    requires Shaped(m)
    ensures Exec(m, i, input).Waiting? ==> i.LdVxK? && forall p :: 0 <= p < |input.polls| ==> input.polls[p] !in Keys
  {
    if IsRegisterOp(i) || IsSkip(i) || IsControl(i) || IsIndexOrTimer(i) {
    } else if i.Drw? {
      DrawFrame(m, i.x, i.y, i.n);
    } else {
      assert Exec(m, i, input) == ExecMemory(m, i, input.polls);
    }
  }

  /** On an LD Vx, K word a pass waits exactly while no poll is a table key, so
      repeated passes on that word block until a key of the table is polled. */
  lemma KeyWaitBlocks(m: Machine, w: Word, input: Input)
    requires Shaped(m) && Decode(w).LdVxK?
    ensures Cycle(m, w, input).Waiting? <==> forall p :: 0 <= p < |input.polls| ==> input.polls[p] !in Keys
  {
    var i := Decode(w);
    CycleAdvances(m, w, input);
    assert Exec(m, i, input) == ExecMemory(m, i, input.polls);
    assert ExecMemory(m, i, input.polls) == ExecKeyWait(m, i.x, input.polls);
  }

  // ---------------------------------------------------------------------------
  // The one-byte fetch.

  /** `opcode = ram[pc]` zero-extends a byte, so the family nibble is always 0
      and the only instructions ever executed are CLS, RET and the no-op. */
  lemma FetchedFamilyZero(b: Byte)
    ensures var i := Decode(b as Word); i.Cls? || i.Ret? || i.Unknown?
  {
    assert Family(b as Word) == 0;
  }

  /** Hence a pass never changes a register, memory, I or the stack contents:
      only the display (CLS), the stack pointer (RET), pc and the timers. */
  lemma StepOnlySystem(m: Machine, input: Input)
    requires Shaped(m)
    ensures var o := Step(m, input);
      o.Next? ==> o.m.reg == m.reg && o.m.ram == m.ram && o.m.index == m.index && o.m.stack == m.stack
  {
    if m.pc as int < RamSize {
      var op := m.ram[m.pc] as Word;
      assert Step(m, input) == Cycle(m, op, input);
      FetchedFamilyZero(m.ram[m.pc]);
      SystemTouches(m, Decode(op), input);
      CycleAdvances(m, op, input);
    }
  }

  /** The fetched byte never decodes to LD Vx, K, so no pass of the main loop
      ever waits. */
  lemma StepNeverWaits(m: Machine, input: Input)
    requires Shaped(m)
    ensures !Step(m, input).Waiting?
  {
    if m.pc as int < RamSize {
      var op := m.ram[m.pc] as Word;
      assert Step(m, input) == Cycle(m, op, input);
      FetchedFamilyZero(m.ram[m.pc]);
      OnlyKeyWaitWaits(m, Decode(op), input);
      CycleAdvances(m, op, input);
    }
  }

  /** A word the switch does not list does nothing but the advance and the tick. */
  lemma UnknownAdvances(m: Machine, w: Word, input: Input)
    requires Shaped(m) && Decode(w).Unknown?
    ensures Cycle(m, w, input) == Next(Tick(m))
  {
  }

  lemma SystemTouches(m: Machine, i: Instr, input: Input)
    requires Shaped(m) && (i.Cls? || i.Ret? || i.Unknown?)
    ensures var o := Exec(m, i, input);
      o.Next? ==> o.m.reg == m.reg && o.m.ram == m.ram && o.m.index == m.index && o.m.stack == m.stack
  {
    assert Exec(m, i, input) == ExecControl(m, i);
  }

  /** A loaded ROM sits at pc, followed by one zero byte; every other byte of
      ram is as it was. */
  lemma LoadPlacesRom(m: Machine, rom: seq<Byte>)
    requires Shaped(m) && Load(m, rom).Loaded?
    ensures var r, p := Load(m, rom).m, m.pc as int;
      && (forall k :: 0 <= k < |rom| ==> r.ram[p + k] == rom[k])
      && r.ram[p + |rom|] == 0
      && (forall k :: 0 <= k < RamSize && !(p <= k <= p + |rom|) ==> r.ram[k] == m.ram[k])
  {
    RomCopied(m, rom, m.pc as int);
    RomFrame(m, rom, m.pc as int);
  }

  /** The ROM bytes and the zero after them, from p = pc on. */
  lemma RomCopied(m: Machine, rom: seq<Byte>, p: int)
    requires Shaped(m) && Load(m, rom).Loaded? && p == m.pc as int
    ensures forall k :: 0 <= k <= |rom| ==> Load(m, rom).m.ram[p + k] == (rom + [0])[k]
  {
    var t, r := rom + [0], Load(m, rom).m.ram;
    LoadRam(m, rom);
    assert t[..|t|] == t;
    SpliceWrites(r, m.ram, t, p, |t|);
  }

  /** Every byte outside p .. p + |rom| with p = pc keeps its value. */
  lemma RomFrame(m: Machine, rom: seq<Byte>, p: int)
    requires Shaped(m) && Load(m, rom).Loaded? && p == m.pc as int
    ensures forall k :: 0 <= k < RamSize && !(p <= k <= p + |rom|) ==> Load(m, rom).m.ram[k] == m.ram[k]
  {
    var t, r := rom + [0], Load(m, rom).m.ram;
    LoadRam(m, rom);
    assert t[..|t|] == t;
    SpliceKeeps(r, m.ram, t, p, |t|);
  }

  /** The ram of a loaded machine: the ROM and its trailing zero spliced in at pc. */
  lemma LoadRam(m: Machine, rom: seq<Byte>)
    requires Shaped(m) && Load(m, rom).Loaded?
    ensures var p := m.pc as int;
      Load(m, rom).m.ram == m.ram[..p] + (rom + [0]) + m.ram[p + |rom| + 1..]
  {
    var p := m.pc as int;
    assert m.ram[..p] + rom + [0] == m.ram[..p] + (rom + [0]);
  }

  /** The four-byte program `LD V0, 5; ADD V0, 3`: the passes fetch the single
      bytes at 0x200 and 0x202, as the words 0x0060 and 0x0070, both no-ops, so
      V0 is still 0 after two passes instead of 8. */
  lemma ByteFetchProgram(input: Input)
    ensures var rom := [0x60, 0x05, 0x70, 0x03];
      && Load(Initial(), rom).Loaded?
      && var m0 := Load(Initial(), rom).m;
      && Step(m0, input).Next?
      && Step(Step(m0, input).m, input).Next?
      && Step(Step(m0, input).m, input).m.reg[0] == 0
      && Step(Step(m0, input).m, input).m.pc == 0x204
  {
    var rom: seq<Byte> := [0x60, 0x05, 0x70, 0x03];
    var m0 := Load(Initial(), rom).m;
    assert m0.ram[0x200] == 0x60 && m0.ram[0x202] == 0x70;
    assert Decode(0x60) == Unknown by { assert Family(0x60) == 0; }
    assert Decode(0x70) == Unknown by { assert Family(0x70) == 0; }
  }
}
