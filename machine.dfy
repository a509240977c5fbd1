/** The state of the c8e interpreter and one pass of its main loop, as values:
    the fetch, the opcode switch, the pc advance and the timer tick, the font
    installation and the ROM copy. Every array access the source makes outside
    its array is reported as a fault instead of a new state. */
module Machine {
  import opened Hardware
  import opened Opcodes
  import opened Sprite

  /** The locals of `main` that make up the emulated machine. A display cell is
      lit or not (the source stores 1 or 0 in it and nothing else). */
  datatype Machine = Machine(
    ram: seq<Byte>,
    reg: seq<Byte>,
    display: seq<bool>,
    stack: seq<Word>,
    pc: Word,
    sp: Byte,
    index: Word,
    delay: Byte,
    sound: Byte)

  /** The arrays have the sizes they are declared with. */
  predicate Shaped(m: Machine)
  {
    |m.ram| == RamSize && |m.reg| == RegCount && |m.display| == DisplaySize && |m.stack| == StackDepth
  }

  /** Which out-of-bounds access the source would make. */
  datatype Fault =
    | PcOutOfRange         // ram[pc] with pc >= 4096
    | StackOverflow        // stack[sp - 1] after sp++ with sp >= 16
    | StackUnderflow       // stack[sp] after sp-- outside 0 .. 15
    | RamOutOfRange        // ram[index + i] or ram[row + index] past 4095
    | RegisterOutOfRange   // reg[index] with index >= 16 (LD I, addr)
    | KeyTableOutOfRange   // keys[x << 8] with x != 0 (SKP, SKNP)

  /** What one instruction does: a new state, a fault, or (only LD Vx, K) still
      waiting for a key, with the machine untouched. */
  datatype Outcome = Next(m: Machine) | Waiting | Faulted(fault: Fault)

  /** What the host supplies during one pass of the loop: the value of
      `rand() % 256`, the host keys held down (IsKeyDown; IsKeyUp is its
      negation) and the successive results of GetKeyPressed polled by LD Vx, K. */
  datatype Input = Input(rnd: Byte, down: set<int>, polls: seq<int>)

  // ---------------------------------------------------------------------------
  // Start-up: the zeroed arrays, the font at address 0 and pc = 0x200.

  /** The font image followed by zeros. */
  function FontRam(): (ram: seq<Byte>)
    ensures |ram| == RamSize
    ensures forall i :: 0 <= i < FontBytes ==> ram[i] == FontByte(i)
    ensures forall i :: FontBytes <= i < RamSize ==> ram[i] == 0
  {
    seq(RamSize, i requires 0 <= i < RamSize => if i < FontBytes then FontByte(i) else 0)
  }

  function Initial(): (m: Machine)
    ensures Shaped(m)
  {
    Machine(FontRam(), seq(RegCount, _ => 0), seq(DisplaySize, _ => false),
            seq(StackDepth, _ => 0), ProgramStart, 0, 0, 0, 0)
  }

  // ---------------------------------------------------------------------------
  // ROM loading.

  datatype LoadResult = Loaded(m: Machine) | TooLarge | Overrun

  /** The ROM is rejected when it is longer than the memory above pc. Otherwise
      the loop copies `length + 1` bytes, the ROM and the zero byte after it
      in the buffer; a ROM that fills memory to the end makes that last write land
      at ram[4096]. */
  function Load(m: Machine, rom: seq<Byte>): (r: LoadResult)
    requires Shaped(m)
    ensures r.TooLarge? <==> |rom| > RamSize - m.pc as int
    ensures r.Overrun? <==> |rom| == RamSize - m.pc as int
    ensures r.Loaded? ==> Shaped(r.m) && r.m == m.(ram := r.m.ram)
  {
    var start := m.pc as int;
    if |rom| > RamSize - start then TooLarge
    else if start + |rom| + 1 > RamSize then Overrun
    else
      Loaded(m.(ram := m.ram[..start] + rom + [0] + m.ram[start + |rom| + 1..]))
  }

  // ---------------------------------------------------------------------------
  // The opcode switch.

  /** `pc += 2` inside a skip instruction, before the uniform advance. */
  function SkipIf(m: Machine, cond: bool): (o: Outcome)
    ensures o.Next? && o.m.(pc := m.pc) == m
    ensures o.m.pc != m.pc <==> cond
  {
    Next(if cond then m.(pc := NextPc(m.pc)) else m)
  }

  /** The key-table slot SKP and SKNP read: `opcode & 0x0F00` is x shifted left
      by 8, so only x = 0 stays inside the 16-entry table. */
  function KeySlot(x: Nibble): (s: int)
    ensures s == 0 <==> x == 0
    ensures x != 0 ==> s >= |Keys|
  {
    x as int * 256
  }

  /** The first polled host key that is one of the sixteen, as its table index. */
  function FirstKey(polls: seq<int>): (r: Option<KeyNum>)
    ensures r.Some? <==> exists p :: 0 <= p < |polls| && polls[p] in Keys
    ensures r.Some? ==> exists p :: 0 <= p < |polls| && Keys[r.value] == polls[p]
                          && forall q :: 0 <= q < p ==> polls[q] !in Keys
  {
    if |polls| == 0 then None
    else match KeyIndex(polls[0])
      case Some(k) => Some(k)
      case None =>
        var r := FirstKey(polls[1..]);
        assert forall p :: 1 <= p < |polls| ==> polls[p] == polls[1..][p - 1];
        r
  }

  /** The register file after a flag-setting ALU instruction: VF is written
      first, and Vx is then computed from the registers as they are after that
      write, so when x or y is 15 the flag is an operand or is overwritten. */
  function FlagFirst(reg: seq<Byte>, f: Byte): (r: seq<Byte>)
    requires |reg| == RegCount
    ensures |r| == RegCount
  {
    reg[15 := f]
  }

  /** One instruction of the switch, before `pc += 2` and the timer tick. */
  function Exec(m: Machine, i: Instr, input: Input): (o: Outcome)
    requires Shaped(m)
    ensures o.Next? ==> Shaped(o.m)
  {
    if IsRegisterOp(i) then Next(m.(reg := RegisterOp(m.reg, i, input.rnd)))
    else if IsSkip(i) then ExecSkip(m, i, input.down)
    else if IsControl(i) then ExecControl(m, i)
    else if IsIndexOrTimer(i) then ExecIndexOrTimer(m, i)
    else ExecMemory(m, i, input.polls)
  }

  /** The instructions that only rewrite V0 .. VF. */
  predicate IsRegisterOp(i: Instr)
  {
    i.LdByte? || i.AddByte? || i.LdReg? || i.Or? || i.And? || i.Xor? || i.AddReg? ||
    i.Sub? || i.Shr? || i.Subn? || i.Shl? || i.Rnd?
  }

  predicate IsSkip(i: Instr)
  {
    i.SeByte? || i.SneByte? || i.SeReg? || i.SneReg? || i.Skp? || i.Sknp?
  }

  predicate IsControl(i: Instr)
  {
    i.Cls? || i.Ret? || i.Jp? || i.Call? || i.JpV0? || i.Unknown?
  }

  predicate IsIndexOrTimer(i: Instr)
  {
    i.LdI? || i.LdVxDt? || i.LdDtVx? || i.LdStVx? || i.AddI? || i.LdF?
  }

  /** The register file after a register instruction (any other instruction
      leaves it alone). `rnd` stands for `rand() % 256`. */
  function RegisterOp(reg: seq<Byte>, i: Instr, rnd: Byte): (r: seq<Byte>)
    requires |reg| == RegCount
    ensures |r| == RegCount
  {
    match i
    case LdByte(x, kk) => reg[x := kk]
    case AddByte(x, kk) => reg[x := WrapAdd(reg[x], kk)]
    case LdReg(x, y) => reg[x := reg[y]]
    case Or(x, y) => reg[x := BitOr(reg[x], reg[y])]
    case And(x, y) => reg[x := BitAnd(reg[x], reg[y])]
    case Xor(x, y) => reg[x := BitXor(reg[x], reg[y])]
    case AddReg(x, y) => AddRegs(reg, x, y)
    case Sub(x, y) => SubRegs(reg, x, y)
    case Shr(x, _) => ShrReg(reg, x)
    case Subn(x, y) => SubnRegs(reg, x, y)
    case Shl(x, _) => ShlReg(reg, x)
    case Rnd(x, kk) => reg[x := BitAnd(rnd, kk)]
    case _ => reg
  }

  /** The conditional skips: one more `pc += 2` when the condition holds. */
  function ExecSkip(m: Machine, i: Instr, down: set<int>): (o: Outcome)
    requires Shaped(m)
    ensures o.Next? ==> Shaped(o.m)
  {
    match i
    case SeByte(x, kk) => SkipIf(m, m.reg[x] == kk)
    case SneByte(x, kk) => SkipIf(m, m.reg[x] != kk)
    case SeReg(x, y) => SkipIf(m, m.reg[x] == m.reg[y])
    case SneReg(x, y) => SkipIf(m, m.reg[x] != m.reg[y])
    case Skp(x) => ExecSkipKey(m, x, down, true)
    case Sknp(x) => ExecSkipKey(m, x, down, false)
    case _ => Next(m)
  }

  /** CLS and the instructions that set pc. */
  function ExecControl(m: Machine, i: Instr): (o: Outcome)
    requires Shaped(m)
    ensures o.Next? ==> Shaped(o.m)
  {
    match i
    case Cls => Next(m.(display := seq(DisplaySize, _ => false)))
    case Ret => ExecRet(m)
    case Jp(nnn) => Next(m.(pc := nnn as Word))
    case Call(nnn) => ExecCall(m, nnn)
    case JpV0(nnn) => Next(m.(pc := Offset(nnn, m.reg[0])))
    case _ => Next(m)
  }

  /** The target of JP V0: `(opcode & 0x0FFF) + reg[0]` in 16 bits, where it
      cannot wrap. */
  function Offset(nnn: Addr, v: Byte): Word
  {
    nnn as Word + v as Word
  }

  /** The instructions that set I, a timer, or read the delay timer. */
  function ExecIndexOrTimer(m: Machine, i: Instr): (o: Outcome)
    requires Shaped(m)
    ensures o.Next? ==> Shaped(o.m)
  {
    match i
    case LdI(nnn) => ExecLdI(m, nnn)
    case LdVxDt(x) => Next(m.(reg := m.reg[x := m.delay]))
    case LdDtVx(x) => Next(m.(delay := m.reg[x]))
    case LdStVx(x) => Next(m.(sound := m.reg[x]))
    case AddI(x) => Next(m.(index := AddIndex(m.index, m.reg[x])))
    case LdF(x) => Next(m.(index := GlyphAddress(m.reg[x])))
    case _ => Next(m)
  }

  /** `index += reg[x]` on the 16-bit I, which wraps. */
  function AddIndex(i: Word, v: Byte): Word
  {
    i + v as Word
  }

  /** `5 * reg[x]`: the address of glyph Vx, five bytes per glyph. */
  function GlyphAddress(v: Byte): (r: Word)
    ensures r as int == 5 * v as int
  {
    5 * v as Word
  }

  /** The instructions that read or write memory, the display or the keyboard. */
  function ExecMemory(m: Machine, i: Instr, polls: seq<int>): (o: Outcome)
    requires Shaped(m)
    ensures o.Next? ==> Shaped(o.m)
  {
    match i
    case Drw(x, y, n) => ExecDraw(m, x, y, n)
    case LdVxK(x) => ExecKeyWait(m, x, polls)
    case LdB(x) => ExecBcd(m, x)
    case StoreRegs(x) => ExecStore(m, x)
    case LoadRegs(x) => ExecLoad(m, x)
    case _ => Next(m)
  }

  /** RET: `sp--` wraps in the byte, then stack[sp] is read. */
  function ExecRet(m: Machine): (o: Outcome)
    requires Shaped(m)
    ensures o.Faulted? <==> m.sp == 0 || m.sp as int > StackDepth
    ensures !o.Waiting?
    ensures o.Next? ==> Shaped(o.m) && o.m == m.(sp := m.sp - 1, pc := m.stack[m.sp as int - 1])
  {
    var sp := m.sp - 1;
    if sp as int >= StackDepth then Faulted(StackUnderflow)
    else Next(m.(sp := sp, pc := m.stack[sp]))
  }

  /** CALL: `sp++` (wrapping), then the current pc goes to stack[sp - 1]. The
      pushed address is that of the CALL itself. */
  function ExecCall(m: Machine, nnn: Addr): (o: Outcome)
    requires Shaped(m)
    ensures o.Faulted? <==> m.sp as int >= StackDepth
    ensures !o.Waiting?
    ensures o.Next? ==> Shaped(o.m) && o.m.sp as int == m.sp as int + 1 && o.m.pc == nnn as Word
    ensures o.Next? ==> o.m.stack[m.sp] == m.pc
    ensures o.Next? ==> forall k :: 0 <= k < StackDepth && k != m.sp as int ==> o.m.stack[k] == m.stack[k]
    ensures o.Next? ==> o.m == m.(stack := o.m.stack, sp := o.m.sp, pc := o.m.pc)
  {
    if m.sp as int >= StackDepth then Faulted(StackOverflow)
    else Next(m.(stack := m.stack[m.sp := m.pc], sp := m.sp + 1, pc := nnn as Word))
  }

  /** The `unsigned char` operations of the ALU group, which wrap modulo 256,
      and the flags they report. */
  function WrapAdd(a: Byte, b: Byte): Byte { a + b }
  function WrapSub(a: Byte, b: Byte): Byte { a - b }
  function ShiftRight(a: Byte): Byte { a >> 1 }
  function ShiftLeft(a: Byte): Byte { a << 1 }
  function BitOr(a: Byte, b: Byte): Byte { a | b }
  function BitAnd(a: Byte, b: Byte): Byte { a & b }
  function BitXor(a: Byte, b: Byte): Byte { a ^ b }

  /** 1 when the 8-bit sum overflows (the sum is taken in 16 bits, as C does). */
  function Carry(a: Byte, b: Byte): (f: Byte)
    ensures f <= 1
  {
    if a as Word + b as Word > 0xFF then 1 else 0
  }

  /** 1 when a > b. */
  function Above(a: Byte, b: Byte): (f: Byte)
    ensures f <= 1 && (f == 1 <==> a > b)
  {
    if a > b then 1 else 0
  }

  function LowBit(a: Byte): (f: Byte)
    ensures f <= 1
  {
    a & 0x01
  }

  function HighBit(a: Byte): (f: Byte)
    ensures f <= 1
  {
    if a & 0x80 != 0 then 1 else 0
  }

  /** 8xy4: VF := carry out of the 8-bit sum, then Vx += Vy. */
  function AddRegs(reg: seq<Byte>, x: Nibble, y: Nibble): (r: seq<Byte>)
    requires |reg| == RegCount
    ensures |r| == RegCount
    ensures forall k :: 0 <= k < RegCount && k != x as int && k != 15 ==> r[k] == reg[k]
  {
    var f := FlagFirst(reg, Carry(reg[x], reg[y]));
    f[x := WrapAdd(f[x], f[y])]
  }

  /** 8xy5: VF := (Vx > Vy), then Vx -= Vy. */
  function SubRegs(reg: seq<Byte>, x: Nibble, y: Nibble): (r: seq<Byte>)
    requires |reg| == RegCount
    ensures |r| == RegCount
    ensures forall k :: 0 <= k < RegCount && k != x as int && k != 15 ==> r[k] == reg[k]
  {
    var f := FlagFirst(reg, Above(reg[x], reg[y]));
    f[x := WrapSub(f[x], f[y])]
  }

  /** 8xy6: VF := the low bit of Vx, then Vx >>= 1; Vy is not used. */
  function ShrReg(reg: seq<Byte>, x: Nibble): (r: seq<Byte>)
    requires |reg| == RegCount
    ensures |r| == RegCount
    ensures forall k :: 0 <= k < RegCount && k != x as int && k != 15 ==> r[k] == reg[k]
  {
    var f := FlagFirst(reg, LowBit(reg[x]));
    f[x := ShiftRight(f[x])]
  }

  /** 8xy7: VF := (Vy > Vx), then Vx := Vy - Vx. */
  function SubnRegs(reg: seq<Byte>, x: Nibble, y: Nibble): (r: seq<Byte>)
    requires |reg| == RegCount
    ensures |r| == RegCount
    ensures forall k :: 0 <= k < RegCount && k != x as int && k != 15 ==> r[k] == reg[k]
  {
    var f := FlagFirst(reg, Above(reg[y], reg[x]));
    f[x := WrapSub(f[y], f[x])]
  }

  /** 8xyE: VF := the high bit of Vx, then Vx <<= 1; Vy is not used. */
  function ShlReg(reg: seq<Byte>, x: Nibble): (r: seq<Byte>)
    requires |reg| == RegCount
    ensures |r| == RegCount
    ensures forall k :: 0 <= k < RegCount && k != x as int && k != 15 ==> r[k] == reg[k]
  {
    var f := FlagFirst(reg, HighBit(reg[x]));
    f[x := ShiftLeft(f[x])]
  }

  /** Annn as written: `reg[index] = opcode & 0x0FFF`, truncated to the byte;
      I itself is not changed. */
  function ExecLdI(m: Machine, nnn: Addr): (o: Outcome)
    requires Shaped(m)
    ensures o.Faulted? <==> m.index as int >= RegCount
    ensures !o.Waiting?
    ensures o.Next? ==> Shaped(o.m) && o.m.index == m.index && o.m.reg[m.index] as Addr == nnn & 0xFF
    ensures o.Next? ==> o.m == m.(reg := m.reg[m.index := o.m.reg[m.index]])
  {
    if m.index as int >= RegCount then Faulted(RegisterOutOfRange)
    else Next(m.(reg := m.reg[m.index := LowByte(nnn)]))
  }

  /** A 12-bit address stored into an `unsigned char`: its low 8 bits. */
  function LowByte(nnn: Addr): (b: Byte)
    ensures b as Addr == nnn & 0xFF
  {
    (nnn & 0xFF) as Byte
  }

  /** SKP (`down` true) and SKNP (false): IsKeyDown / IsKeyUp of keys[x << 8]. */
  function ExecSkipKey(m: Machine, x: Nibble, down: set<int>, whenDown: bool): (o: Outcome)
    requires Shaped(m)
    ensures o.Faulted? <==> x != 0
    ensures !o.Waiting?
    ensures o.Next? ==> o.m == m.(pc := o.m.pc)
    ensures o.Next? ==> (o.m.pc == NextPc(m.pc) <==> (Keys[0] in down) == whenDown)
    ensures o.Next? ==> o.m.pc == m.pc || o.m.pc == NextPc(m.pc)
  {
    var slot := KeySlot(x);
    if slot >= |Keys| then Faulted(KeyTableOutOfRange)
    else SkipIf(m, (Keys[slot] in down) == whenDown)
  }

  /** Fx55: ram[I + i] := Vi for i = 0 .. x. */
  function ExecStore(m: Machine, x: Nibble): (o: Outcome)
    requires Shaped(m)
    ensures o.Faulted? <==> m.index as int + x as int >= RamSize
    ensures !o.Waiting?
    ensures o.Next? ==> Shaped(o.m) && o.m == m.(ram := o.m.ram)
  {
    var base := m.index as int;
    if base + x as int >= RamSize then Faulted(RamOutOfRange)
    else Next(m.(ram := m.ram[..base] + m.reg[..x as int + 1] + m.ram[base + x as int + 1..]))
  }

  /** Fx65: Vi := ram[I + i] for i = 0 .. x. */
  function ExecLoad(m: Machine, x: Nibble): (o: Outcome)
    requires Shaped(m)
    ensures o.Faulted? <==> m.index as int + x as int >= RamSize
    ensures !o.Waiting?
    ensures o.Next? ==> Shaped(o.m) && o.m == m.(reg := o.m.reg)
  {
    var base := m.index as int;
    if base + x as int >= RamSize then Faulted(RamOutOfRange)
    else Next(m.(reg := m.ram[base .. base + x as int + 1] + m.reg[x as int + 1..]))
  }

  /** LD Vx, K: the poll loop ends at the first host key found in the table and
      stores the table index the inner search stopped at. */
  function ExecKeyWait(m: Machine, x: Nibble, polls: seq<int>): (o: Outcome)
    requires Shaped(m)
    ensures !o.Faulted?
    ensures o.Waiting? <==> forall p :: 0 <= p < |polls| ==> polls[p] !in Keys
    ensures o.Next? ==> Shaped(o.m) && o.m == m.(reg := m.reg[x := o.m.reg[x]]) && o.m.reg[x] as int < 16
    ensures o.Next? ==> exists p :: 0 <= p < |polls| && Keys[o.m.reg[x]] == polls[p]
                           && forall q :: 0 <= q < p ==> polls[q] !in Keys
  {
    match FirstKey(polls)
    case None => Waiting
    case Some(k) => Next(m.(reg := m.reg[x := KeyByte(k)]))
  }

  /** A key number as the byte stored in Vx. */
  function KeyByte(k: KeyNum): (b: Byte)
    ensures b as int == k
  {
    k as Byte
  }

  /** The sprite DRW reads: rows I .. I+n-1 of ram. */
  function SpriteAt(m: Machine, n: Nibble): (s: seq<Byte>)
    requires Shaped(m) && (n == 0 || m.index as int + n as int <= RamSize)
    ensures |s| == n as int
  {
    if n == 0 then [] else m.ram[m.index as int .. m.index as int + n as int]
  }

  /** The byte VF holds for a collision flag. */
  function VfByte(flag: bool): Byte { if flag then 1 else 0 }

  /** DRW Vx, Vy, n: VF := 0, then the coordinates are read (so a coordinate
      register 15 reads that 0), then rows 0 .. n-1 are read from ram[I + row]. */
  function ExecDraw(m: Machine, x: Nibble, y: Nibble, n: Nibble): (o: Outcome)
    requires Shaped(m)
    ensures o.Next? ==> Shaped(o.m)
  {
    var r := m.reg[15 := 0];
    var px, py := r[x], r[y];
    if n != 0 && m.index as int + n as int > RamSize then Faulted(RamOutOfRange)
    else
      var c := Draw(Canvas(m.display, false), SpriteAt(m, n), px as int, py as int);
      Next(m.(display := c.pixels, reg := r[15 := VfByte(c.flag)]))
  }

  /** `v % 10` and `v / 10` on an `unsigned char`. */
  function LastDigit(v: Byte): Byte { v % 10 }
  function Tenth(v: Byte): Byte { v / 10 }

  /** LD B, Vx: for i = 2, 1, 0 store Vx % 10 at ram[I + i] and divide Vx by 10.
      The first write is the highest address, so it alone decides the fault. */
  function ExecBcd(m: Machine, x: Nibble): (o: Outcome)
    requires Shaped(m)
    ensures o.Faulted? <==> m.index as int + 2 >= RamSize
    ensures !o.Waiting?
    ensures o.Next? ==> Shaped(o.m) && o.m == m.(ram := o.m.ram, reg := o.m.reg)
    ensures o.Next? ==> o.m.reg == m.reg[x := 0]
  {
    var base := m.index as int;
    if base + 2 >= RamSize then Faulted(RamOutOfRange)
    else
      var v := m.reg[x];
      Next(m.(ram := m.ram[base + 2 := LastDigit(v)][base + 1 := LastDigit(Tenth(v))][base := LastDigit(Tenth(Tenth(v)))],
              reg := m.reg[x := Tenth(Tenth(Tenth(v)))]))
  }

  // ---------------------------------------------------------------------------
  // One pass of the main loop.

  /** `pc += 2` and the two timers counting down to 0, after every instruction. */
  function Tick(m: Machine): (t: Machine)
    ensures t.pc - m.pc == 2
    ensures t.delay as int == Max0(m.delay as int - 1) && t.sound as int == Max0(m.sound as int - 1)
    ensures t.(pc := m.pc, delay := m.delay, sound := m.sound) == m
  {
    m.(pc := NextPc(m.pc), delay := CountDown(m.delay), sound := CountDown(m.sound))
  }

  /** `pc += 2` on the 16-bit pc, which wraps. */
  function NextPc(pc: Word): Word
  {
    pc + 2
  }

  /** `if (t > 0) t--`. */
  function CountDown(t: Byte): (r: Byte)
    ensures r as int == Max0(t as int - 1)
  {
    if t > 0 then t - 1 else 0
  }

  /** max(n, 0). */
  function Max0(n: int): int { if n < 0 then 0 else n }

  /** The switch on a given opcode word followed by the advance and the tick.
      While LD Vx, K waits the source never leaves the instruction, so a waiting
      pass neither advances nor ticks. */
  function Cycle(m: Machine, op: Word, input: Input): (o: Outcome)
    requires Shaped(m)
    ensures o.Next? ==> Shaped(o.m)
  {
    match Exec(m, Decode(op), input)
    case Next(m') => Next(Tick(m'))
    case Waiting => Waiting
    case Faulted(f) => Faulted(f)
  }

  /** `opcode = ram[pc]`: the fetch reads one byte, so the opcode word is that
      byte zero-extended. */
  function Fetch(m: Machine): (r: Option<Word>)
    requires Shaped(m)
    ensures r.Some? <==> m.pc as int < RamSize
  {
    if m.pc as int >= RamSize then None else Some(m.ram[m.pc] as Word)
  }

  function Step(m: Machine, input: Input): (o: Outcome)
    requires Shaped(m)
    ensures o.Next? ==> Shaped(o.m)
  {
    match Fetch(m)
    case None => Faulted(PcOutOfRange)
    case Some(op) => Cycle(m, op, input)
  }

  /** The result of running the loop over a sequence of passes. */
  datatype RunResult = Stopped(m: Machine, passes: nat) | Crashed(fault: Fault, passes: nat)

  /** One pass per input; a waiting pass leaves the machine as it was, so the
      next pass polls again. */
  function Run(m: Machine, inputs: seq<Input>): (r: RunResult)
    requires Shaped(m)
    ensures r.Stopped? ==> Shaped(r.m) && r.passes == |inputs|
    ensures r.Crashed? ==> r.passes < |inputs|
    decreases |inputs|
  {
    if |inputs| == 0 then Stopped(m, 0)
    else match Step(m, inputs[0])
      case Faulted(f) => Crashed(f, 0)
      case Waiting => Bump(Run(m, inputs[1..]))
      case Next(m') => Bump(Run(m', inputs[1..]))
  }

  function Bump(r: RunResult): RunResult
  {
    match r
    case Stopped(m, n) => Stopped(m, n + 1)
    case Crashed(f, n) => Crashed(f, n + 1)
  }
}
