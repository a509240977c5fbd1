/** The interpreter as the source runs it: the machine as arrays and scalar
    variables updated in place, the font loop, the ROM copy loop, the opcode
    switch with its inner loops, and the main loop. Every method is proved to
    leave the machine in the state the functions of module Machine compute. */
module Interpreter {
  import opened Hardware
  import opened Opcodes
  import opened Sprite
  import opened Machine
  import opened Behaviour

  /** How one pass of the main loop ended. */
  datatype Status = Ran | Blocked | Trapped(fault: Fault)

  /** How the ROM copy ended. */
  datatype LoadStatus = RomLoaded | RomTooLarge | RomOverrun

  /** The outcome a status reports, given the machine after the pass: a
      completed instruction reports that machine. */
  function Observed(s: Status, now: Machine): Outcome
  {
    match s
    case Ran => Next(now)
    case Blocked => Waiting
    case Trapped(f) => Faulted(f)
  }

  class Chip8 {
    const ram: array<Byte>
    const reg: array<Byte>
    const display: array<bool>
    const stack: array<Word>
    var pc: Word
    var sp: Byte
    var index: Word
    var delay: Byte
    var sound: Byte

    ghost predicate Valid()
    {
      ram.Length == RamSize && reg.Length == RegCount && display.Length == DisplaySize &&
      stack.Length == StackDepth && ram != reg
    }

    /** The machine these variables hold. */
    ghost function Abs(): Machine
      reads this, ram, reg, display, stack
    {
      Machine(ram[..], reg[..], display[..], stack[..], pc, sp, index, delay, sound)
    }

    /** The zero-initialised arrays, pc = 0x200 and the font loop. */
    constructor ()
      ensures Valid() && Abs() == Initial()
      ensures fresh(ram) && fresh(reg) && fresh(display) && fresh(stack)
    {
      ram := new Byte[RamSize](_ => 0);
      reg := new Byte[RegCount](_ => 0);
      display := new bool[DisplaySize](_ => false);
      stack := new Word[StackDepth](_ => 0);
      pc, sp, index, delay, sound := ProgramStart, 0, 0, 0, 0;
      new;
      InstallFont();
      assert forall k :: 0 <= k < RegCount ==> reg[..][k] == 0;
      assert reg[..] == seq(RegCount, _ => 0);
      assert forall k :: 0 <= k < DisplaySize ==> !display[..][k];
      assert display[..] == seq(DisplaySize, _ => false);
      assert forall k :: 0 <= k < StackDepth ==> stack[..][k] == 0;
      assert stack[..] == seq(StackDepth, _ => 0);
    }

    /** The font loop: glyph row i % 5 of glyph i / 5 into ram[i], for the 80
        font bytes. */
    method InstallFont()
      requires ram.Length == RamSize && forall k :: 0 <= k < RamSize ==> ram[k] == 0
      modifies ram
      ensures ram[..] == FontRam()
    {
      for i := 0 to FontBytes
        invariant forall k :: 0 <= k < i ==> ram[k] == Sprites[k / 5][k % 5]
        invariant forall k :: i <= k < RamSize ==> ram[k] == 0
      {
        ram[i] := Sprites[i / 5][i % 5];
      }
      assert ram[..] == FontRam();
    }

    /** The size check and the copy of the ROM and the zero byte after it. */
    method LoadRom(rom: seq<Byte>) returns (r: LoadStatus)
      requires Valid()
      modifies ram
      ensures match Load(old(Abs()), rom)
        case Loaded(m) => r == RomLoaded && Abs() == m
        case TooLarge => r == RomTooLarge && Abs() == old(Abs())
        case Overrun => r == RomOverrun && Abs() == old(Abs())
    {
      var start := pc as int;
      if |rom| > RamSize - start {
        return RomTooLarge;
      }
      if start + |rom| + 1 > RamSize {
        return RomOverrun;
      }
      WriteRam(start, rom + [0]);
      r := RomLoaded;
      assert reg[..] == old(reg[..]);
    }

    /** The copy loop of the ROM load: `bytes` into ram from `start` on. */
    method WriteRam(start: int, bytes: seq<Byte>)
      requires Valid() && 0 <= start && start + |bytes| <= RamSize
      modifies ram
      ensures ram[..] == old(ram[..])[..start] + bytes + old(ram[..])[start + |bytes|..]
    {
      for i := 0 to |bytes|
        invariant forall k :: 0 <= k < RamSize ==>
          ram[k] == if start <= k < start + i then bytes[k - start] else old(ram[k])
      {
        ram[start + i] := bytes[i];
      }
      assert ram[..] == old(ram[..])[..start] + bytes + old(ram[..])[start + |bytes|..];
    }

    // -------------------------------------------------------------------------
    // The main loop.

    /** Passes of the main loop, one per input, until one faults. */
    method RunPasses(inputs: seq<Input>) returns (passes: nat, fault: Option<Fault>)
      requires Valid()
      modifies this, ram, reg, display, stack
      ensures match Run(old(Abs()), inputs)
        case Stopped(m, n) => fault == None && passes == n && Abs() == m
        case Crashed(f, n) => fault == Some(f) && passes == n
    {
      ghost var m0 := old(Abs());
      passes, fault := 0, None;
      while passes < |inputs|
        invariant passes <= |inputs|
        invariant Run(m0, inputs) == Shift(Run(Abs(), inputs[passes..]), passes)
        decreases |inputs| - passes
      {
        ghost var before := Abs();
        var s := RunPass(inputs[passes]);
        RunUnfold(before, inputs[passes..]);
        assert inputs[passes..][1..] == inputs[passes + 1..];
        if s.Trapped? {
          fault := Some(s.fault);
          return;
        }
        passes := passes + 1;
      }
    }

    /** One pass: fetch, execute, then `pc += 2` and the timers. */
    method RunPass(input: Input) returns (s: Status)
      requires Valid()
      modifies this, ram, reg, display, stack
      ensures Observed(s, Abs()) == Step(old(Abs()), input)
      ensures s != Ran ==> Abs() == old(Abs())
    {
      if pc as int >= RamSize {
        return Trapped(PcOutOfRange);
      }
      ghost var m := Abs();
      var op := ram[pc] as Word;
      StepFetches(m, input, op);
      s := Execute(Decode(op), input);
      if s == Ran {
        ghost var executed := Abs();
        Advance();
        CycleTicks(m, op, input, executed);
      } else {
        CycleStops(m, op, input);
      }
    }

    /** `pc += 2` and the timers counting down. */
    method Advance()
      requires Valid()
      modifies this
      ensures Abs() == Tick(old(Abs()))
    {
      pc := NextPc(pc);
      delay := CountDown(delay);
      sound := CountDown(sound);
    }

    /** The opcode switch. */
    method Execute(i: Instr, input: Input) returns (s: Status)
      requires Valid()
      modifies this, ram, reg, display, stack
      ensures Observed(s, Abs()) == Exec(old(Abs()), i, input)
      ensures s != Ran ==> Abs() == old(Abs())
    {
      if IsRegisterOp(i) {
        ExecuteRegisterOp(i, input.rnd);
        s := Ran;
      } else if IsSkip(i) {
        s := ExecuteSkip(i, input.down);
      } else if IsControl(i) {
        s := ExecuteControl(i);
      } else if IsIndexOrTimer(i) {
        s := ExecuteIndexOrTimer(i);
      } else {
        s := ExecuteMemory(i, input.polls);
      }
    }

    // -------------------------------------------------------------------------
    // The register instructions, one method per family.

    method ExecuteRegisterOp(i: Instr, rnd: Byte)
      requires Valid()
      modifies reg
      ensures reg[..] == RegisterOp(old(reg[..]), i, rnd)
    {
      if i.LdByte? || i.LdReg? || i.Rnd? {
        LoadRegister(i, rnd);
      } else if i.AddByte? || i.AddReg? {
        AddToRegister(i, rnd);
      } else if i.Or? || i.And? || i.Xor? {
        CombineRegisters(i, rnd);
      } else if i.Sub? || i.Subn? {
        SubtractRegisters(i, rnd);
      } else if i.Shr? || i.Shl? {
        ShiftRegister(i, rnd);
      }
    }

    /** 6xkk, 8xy0 and Cxkk. */
    method LoadRegister(i: Instr, rnd: Byte)
      requires Valid() && (i.LdByte? || i.LdReg? || i.Rnd?)
      modifies reg
      ensures reg[..] == RegisterOp(old(reg[..]), i, rnd)
    {
      if i.LdByte? {
        reg[i.x] := i.kk;
      } else if i.LdReg? {
        reg[i.x] := reg[i.y];
      } else {
        reg[i.x] := BitAnd(rnd, i.kk);
      }
    }

    /** 7xkk, which sets no flag, and 8xy4. */
    method AddToRegister(i: Instr, rnd: Byte)
      requires Valid() && (i.AddByte? || i.AddReg?)
      modifies reg
      ensures reg[..] == RegisterOp(old(reg[..]), i, rnd)
    {
      match i
      case AddByte(x, kk) => reg[x] := WrapAdd(reg[x], kk);
      case AddReg(x, y) =>
        reg[15] := Carry(reg[x], reg[y]);
        reg[x] := WrapAdd(reg[x], reg[y]);
    }

    /** 8xy1, 8xy2 and 8xy3. */
    method CombineRegisters(i: Instr, rnd: Byte)
      requires Valid() && (i.Or? || i.And? || i.Xor?)
      modifies reg
      ensures reg[..] == RegisterOp(old(reg[..]), i, rnd)
    {
      if i.Or? {
        reg[i.x] := BitOr(reg[i.x], reg[i.y]);
      } else if i.And? {
        reg[i.x] := BitAnd(reg[i.x], reg[i.y]);
      } else {
        reg[i.x] := BitXor(reg[i.x], reg[i.y]);
      }
    }

    /** 8xy5 and 8xy7: the flag is written before the difference is taken. */
    method SubtractRegisters(i: Instr, rnd: Byte)
      requires Valid() && (i.Sub? || i.Subn?)
      modifies reg
      ensures reg[..] == RegisterOp(old(reg[..]), i, rnd)
    {
      match i
      case Sub(x, y) =>
        reg[15] := Above(reg[x], reg[y]);
        reg[x] := WrapSub(reg[x], reg[y]);
      case Subn(x, y) =>
        reg[15] := Above(reg[y], reg[x]);
        reg[x] := WrapSub(reg[y], reg[x]);
    }

    /** 8xy6 and 8xyE. */
    method ShiftRegister(i: Instr, rnd: Byte)
      requires Valid() && (i.Shr? || i.Shl?)
      modifies reg
      ensures reg[..] == RegisterOp(old(reg[..]), i, rnd)
    {
      match i
      case Shr(x, _) =>
        reg[15] := LowBit(reg[x]);
        reg[x] := ShiftRight(reg[x]);
      case Shl(x, _) =>
        reg[15] := HighBit(reg[x]);
        reg[x] := ShiftLeft(reg[x]);
    }

    // -------------------------------------------------------------------------
    // The conditional skips.

    method ExecuteSkip(i: Instr, down: set<int>) returns (s: Status)
      requires Valid()
      modifies this
      ensures Observed(s, Abs()) == ExecSkip(old(Abs()), i, down)
      ensures s != Ran ==> Abs() == old(Abs())
    {
      if i.SeByte? || i.SneByte? {
        s := SkipOnByte(i, down);
      } else if i.SeReg? || i.SneReg? {
        s := SkipOnRegisters(i, down);
      } else if i.Skp? || i.Sknp? {
        s := SkipOnKey(i, down);
      } else {
        s := Ran;
      }
    }

    /** 3xkk and 4xkk. */
    method SkipOnByte(i: Instr, down: set<int>) returns (s: Status)
      requires Valid() && (i.SeByte? || i.SneByte?)
      modifies this
      ensures Observed(s, Abs()) == ExecSkip(old(Abs()), i, down)
      ensures s != Ran ==> Abs() == old(Abs())
    {
      ghost var m := Abs();
      var equal := reg[i.x] == i.kk;
      assert ExecSkip(m, i, down) == SkipIf(m, equal == i.SeByte?);
      if equal == i.SeByte? {
        pc := NextPc(pc);
      }
      s := Ran;
    }

    /** 5xy0 and 9xy0. */
    method SkipOnRegisters(i: Instr, down: set<int>) returns (s: Status)
      requires Valid() && (i.SeReg? || i.SneReg?)
      modifies this
      ensures Observed(s, Abs()) == ExecSkip(old(Abs()), i, down)
      ensures s != Ran ==> Abs() == old(Abs())
    {
      ghost var m := Abs();
      var vx, vy := reg[i.x], reg[i.y];
      assert vx == m.reg[i.x] && vy == m.reg[i.y];
      var equal := vx == vy;
      assert ExecSkip(m, i, down) == SkipIf(m, equal == i.SeReg?);
      if equal == i.SeReg? {
        pc := NextPc(pc);
      }
      s := Ran;
    }

    /** SKP and SKNP: the key table is read at `opcode & 0x0F00`. */
    method SkipOnKey(i: Instr, down: set<int>) returns (s: Status)
      requires Valid() && (i.Skp? || i.Sknp?)
      modifies this
      ensures Observed(s, Abs()) == ExecSkip(old(Abs()), i, down)
      ensures s != Ran ==> Abs() == old(Abs())
    {
      ghost var m := Abs();
      assert ExecSkip(m, i, down) == ExecSkipKey(m, i.x, down, i.Skp?);
      var slot := i.x as int * 256;
      if slot >= |Keys| {
        return Trapped(KeyTableOutOfRange);
      }
      var held := Keys[slot] in down;
      if held == i.Skp? {
        pc := NextPc(pc);
      }
      s := Ran;
    }

    // -------------------------------------------------------------------------
    // CLS and the instructions that set pc.

    method ExecuteControl(i: Instr) returns (s: Status)
      requires Valid()
      modifies this, display, stack
      ensures Observed(s, Abs()) == ExecControl(old(Abs()), i)
      ensures s != Ran ==> Abs() == old(Abs())
    {
      if i.Cls? {
        s := ClearScreen(i);
      } else if i.Ret? {
        s := Return(i);
      } else if i.Jp? || i.JpV0? {
        s := Jump(i);
      } else if i.Call? {
        s := CallSub(i);
      } else {
        s := Ran;
      }
    }

    /** CLS: `memset(display_buffer, 0, 2048)`. */
    method ClearScreen(i: Instr) returns (s: Status)
      requires Valid() && i.Cls?
      modifies display
      ensures Observed(s, Abs()) == ExecControl(old(Abs()), i)
      ensures s != Ran ==> Abs() == old(Abs())
    {
      for k := 0 to display.Length
        invariant forall j :: 0 <= j < k ==> !display[j]
      {
        display[k] := false;
      }
      assert display[..] == seq(DisplaySize, _ => false);
      s := Ran;
    }

    /** RET: `sp--`, then pc := stack[sp]. */
    method Return(i: Instr) returns (s: Status)
      requires Valid() && i.Ret?
      modifies this
      ensures Observed(s, Abs()) == ExecControl(old(Abs()), i)
      ensures s != Ran ==> Abs() == old(Abs())
    {
      ghost var m := Abs();
      assert ExecControl(m, i) == ExecRet(m);
      var top := sp - 1;
      if top as int >= StackDepth {
        return Trapped(StackUnderflow);
      }
      sp := top;
      pc := stack[sp];
      s := Ran;
    }

    /** JP addr and JP V0, addr. */
    method Jump(i: Instr) returns (s: Status)
      requires Valid() && (i.Jp? || i.JpV0?)
      modifies this
      ensures Observed(s, Abs()) == ExecControl(old(Abs()), i)
      ensures s != Ran ==> Abs() == old(Abs())
    {
      s := Ran;
      match i
      case Jp(nnn) => pc := nnn as Word;
      case JpV0(nnn) => pc := Offset(nnn, reg[0]);
    }

    /** CALL: `sp++`, stack[sp - 1] := pc, then the jump. */
    method CallSub(i: Instr) returns (s: Status)
      requires Valid() && i.Call?
      modifies this, stack
      ensures Observed(s, Abs()) == ExecControl(old(Abs()), i)
      ensures s != Ran ==> Abs() == old(Abs())
    {
      ghost var m := Abs();
      assert ExecControl(m, i) == ExecCall(m, i.nnn);
      if sp as int >= StackDepth {
        return Trapped(StackOverflow);
      }
      sp := sp + 1;
      stack[sp - 1] := pc;
      pc := i.nnn as Word;
      s := Ran;
    }

    // -------------------------------------------------------------------------
    // I and the timers.

    method ExecuteIndexOrTimer(i: Instr) returns (s: Status)
      requires Valid()
      modifies this, reg
      ensures Observed(s, Abs()) == ExecIndexOrTimer(old(Abs()), i)
      ensures s != Ran ==> Abs() == old(Abs())
    {
      if i.LdI? {
        s := StoreAddress(i);
      } else if i.LdVxDt? || i.LdDtVx? || i.LdStVx? {
        s := MoveTimer(i);
      } else if i.AddI? || i.LdF? {
        s := SetIndex(i);
      } else {
        s := Ran;
      }
    }

    /** Annn as written: the low byte of nnn goes to reg[index]. */
    method StoreAddress(i: Instr) returns (s: Status)
      requires Valid() && i.LdI?
      modifies reg
      ensures Observed(s, Abs()) == ExecIndexOrTimer(old(Abs()), i)
      ensures s != Ran ==> Abs() == old(Abs())
    {
      ghost var m := Abs();
      assert ExecIndexOrTimer(m, i) == ExecLdI(m, i.nnn);
      if index as int >= RegCount {
        return Trapped(RegisterOutOfRange);
      }
      reg[index] := LowByte(i.nnn);
      s := Ran;
    }

    /** Fx07, Fx15 and Fx18. */
    method MoveTimer(i: Instr) returns (s: Status)
      requires Valid() && (i.LdVxDt? || i.LdDtVx? || i.LdStVx?)
      modifies this, reg
      ensures Observed(s, Abs()) == ExecIndexOrTimer(old(Abs()), i)
      ensures s != Ran ==> Abs() == old(Abs())
    {
      s := Ran;
      if i.LdVxDt? {
        reg[i.x] := delay;
      } else if i.LdDtVx? {
        delay := reg[i.x];
      } else {
        sound := reg[i.x];
      }
    }

    /** Fx1E and Fx29. */
    method SetIndex(i: Instr) returns (s: Status)
      requires Valid() && (i.AddI? || i.LdF?)
      modifies this
      ensures Observed(s, Abs()) == ExecIndexOrTimer(old(Abs()), i)
      ensures s != Ran ==> Abs() == old(Abs())
    {
      s := Ran;
      if i.AddI? {
        index := AddIndex(index, reg[i.x]);
      } else {
        index := GlyphAddress(reg[i.x]);
      }
    }

    // -------------------------------------------------------------------------
    // Memory, display and keyboard.

    method ExecuteMemory(i: Instr, polls: seq<int>) returns (s: Status)
      requires Valid()
      modifies ram, reg, display
      ensures Observed(s, Abs()) == ExecMemory(old(Abs()), i, polls)
      ensures s != Ran ==> Abs() == old(Abs())
    {
      if i.Drw? {
        s := DrawSprite(i.x, i.y, i.n);
      } else if i.LdVxK? {
        s := WaitKey(i.x, polls);
      } else {
        s := ExecuteTransfer(i, polls);
      }
    }

    /** Fx33, Fx55 and Fx65, the transfers between registers and memory. */
    method ExecuteTransfer(i: Instr, polls: seq<int>) returns (s: Status)
      requires Valid() && !i.Drw? && !i.LdVxK?
      modifies ram, reg
      ensures Observed(s, Abs()) == ExecMemory(old(Abs()), i, polls)
      ensures s != Ran ==> Abs() == old(Abs())
    {
      ghost var m := Abs();
      if i.LdB? {
        assert ExecMemory(m, i, polls) == ExecBcd(m, i.x);
        s := StoreBcd(i.x);
      } else if i.StoreRegs? {
        assert ExecMemory(m, i, polls) == ExecStore(m, i.x);
        s := StoreRegisters(i.x);
      } else if i.LoadRegs? {
        assert ExecMemory(m, i, polls) == ExecLoad(m, i.x);
        s := LoadRegisters(i.x);
      } else {
        assert ExecMemory(m, i, polls) == Next(m);
        s := Ran;
      }
    }

    /** DRW: VF := 0, then the row loop and the pixel loop, with the pixel
        offset incremented before the clipping test. */
    method DrawSprite(vx: Nibble, vy: Nibble, n: Nibble) returns (s: Status)
      requires Valid()
      modifies reg, display
      ensures Observed(s, Abs()) == ExecDraw(old(Abs()), vx, vy, n)
      ensures s != Ran ==> Abs() == old(Abs())
    {
      var height := n as int;
      if height != 0 && index as int + height > RamSize {
        return Trapped(RamOutOfRange);
      }
      ghost var m := Abs();
      reg[15] := 0;
      ghost var cleared := Abs();
      assert cleared == m.(reg := m.reg[15 := 0]);
      var x := reg[vx];
      var y := reg[vy];
      ghost var sprite := SpriteAt(cleared, n);
      SpriteFrom(cleared, n, ram[..], index);
      DrawSpriteRows(x as int, y as int, n, sprite);
      assert ram[..] == cleared.ram && stack[..] == cleared.stack;
      s := Ran;
      DrawResult(m, vx, vy, n, cleared, x, y);
    }

    /** The row loop of DRW, with VF already cleared: row r of the sprite is
        `ram[I + r]`. */
    method DrawSpriteRows(x: nat, y: nat, n: Nibble, ghost sprite: seq<Byte>)
      requires Valid() && reg[15] == 0 && (n == 0 || index as int + n as int <= RamSize)
      requires |sprite| == n as int && (n != 0 ==> sprite == ram[..][index as int .. index as int + n as int])
      modifies reg, display
      ensures var c := Draw(Canvas(old(display[..]), false), sprite, x, y);
        display[..] == c.pixels && reg[..] == old(reg[..])[15 := VfByte(c.flag)]
    {
      var height, base := n as int, index as int;
      NibbleZero(n);
      DrawRowsFrom(x, y, base, height, Canvas(display[..], false), sprite);
    }

    /** The loop over the `height` sprite rows `ram[base + row]`. */
    method DrawRowsFrom(x: nat, y: nat, base: int, height: int, ghost start: Canvas, ghost sprite: seq<Byte>)
      requires Valid() && reg[15] == 0 && start == Canvas(display[..], false)
      requires 0 <= base && 0 <= height && (height == 0 || base + height <= RamSize) && |sprite| == height
      requires height != 0 ==> sprite == ram[..][base .. base + height]
      modifies reg, display
      ensures var c := Draw(start, sprite, x, y);
        display[..] == c.pixels && reg[..] == old(reg[..])[15 := VfByte(c.flag)]
    {
      assert reg[..] == old(reg[..])[15 := VfByte(false)];
      var row := 0;
      while row < height
        invariant 0 <= row <= height
        invariant var c := DrawRows(start, sprite, x, y, row, RowBits);
          display[..] == c.pixels && reg[..] == old(reg[..])[15 := VfByte(c.flag)]
      {
        var currRow := ram[row + base];
        SliceAt(ram[..], base, height, row);
        assert currRow == sprite[row];
        DrawRow(currRow, x, y + row, DrawRows(start, sprite, x, y, row, RowBits));
        row := row + 1;
      }
    }

    /** The pixel loop of DRW for one sprite row drawn at screen row `yr`. */
    method DrawRow(currRow: Byte, x: nat, yr: nat, ghost before: Canvas)
      requires Valid() && Framed(before) && display[..] == before.pixels && reg[15] == VfByte(before.flag)
      modifies reg, display
      ensures var c := DrawCols(before, currRow, x, yr, RowBits);
        display[..] == c.pixels && reg[..] == old(reg[..])[15 := VfByte(c.flag)]
    {
      assert reg[..] == old(reg[..])[15 := VfByte(before.flag)];
      var offset := 0;
      while offset < RowBits
        invariant 0 <= offset <= RowBits
        invariant var c := DrawCols(before, currRow, x, yr, offset);
          display[..] == c.pixels && reg[..] == old(reg[..])[15 := VfByte(c.flag)]
      {
        var loc := Loc(x, yr, offset);
        offset := offset + 1;
        if yr >= ScreenHeight || x + offset - 1 >= ScreenWidth {
          continue;
        }
        PlotPixel(loc, currRow, x, yr, offset - 1, DrawCols(before, currRow, x, yr, offset - 1));
      }
    }

    /** One visible pixel of DRW: XOR the sprite bit in, VF := 1 iff the cell
        went dark. */
    method PlotPixel(loc: nat, b: Byte, x: nat, yr: nat, col: nat, ghost c: Canvas)
      requires Valid() && Framed(c) && col < RowBits && Visible(x, yr, col) && loc == Loc(x, yr, col)
      requires display[..] == c.pixels
      modifies reg, display
      ensures display[..] == Plot(c, b, x, yr, col).pixels
      ensures reg[..] == old(reg[..])[15 := VfByte(Plot(c, b, x, yr, col).flag)]
    {
      display[loc] := display[loc] != Bit(b, col);
      reg[15] := if display[loc] then 0 else 1;
    }

    /** LD Vx, K: poll until a host key of the table comes, then store the
        table index the inner search stopped at. Running out of polls is the
        waiting case. */
    method WaitKey(vx: Nibble, polls: seq<int>) returns (s: Status)
      requires Valid()
      modifies reg
      ensures Observed(s, Abs()) == ExecKeyWait(old(Abs()), vx, polls)
      ensures s != Ran ==> Abs() == old(Abs())
    {
      var waiting := true;
      var p := 0;
      var i := 0;
      while waiting && p < |polls|
        invariant 0 <= p <= |polls|
        invariant waiting ==> forall q :: 0 <= q < p ==> polls[q] !in Keys
        invariant !waiting ==> 0 < p && 0 <= i < 16 && polls[p - 1] == Keys[i] &&
                               forall q :: 0 <= q < p - 1 ==> polls[q] !in Keys
      {
        var k := polls[p];
        i := 0;
        while i < 16
          invariant 0 <= i <= 16
          invariant forall j :: 0 <= j < i ==> Keys[j] != k
        {
          if Keys[i] == k {
            waiting := false;
            break;
          }
          i := i + 1;
        }
        p := p + 1;
      }
      if waiting {
        return Blocked;
      }
      FirstKeyAt(polls, p - 1, i);
      reg[vx] := i as Byte;
      s := Ran;
    }

    /** LD B, Vx: three passes of `ram[I + i] := Vx % 10; Vx /= 10` for
        i = 2, 1, 0. */
    method StoreBcd(vx: Nibble) returns (s: Status)
      requires Valid()
      modifies ram, reg
      ensures Observed(s, Abs()) == ExecBcd(old(Abs()), vx)
      ensures s != Ran ==> Abs() == old(Abs())
    {
      var base := index as int;
      if base + 2 >= RamSize {
        return Trapped(RamOutOfRange);
      }
      WriteDigits(base, vx);
      s := Ran;
    }

    /** The digit loop of LD B, Vx. */
    method WriteDigits(base: int, vx: Nibble)
      requires Valid() && 0 <= base && base + 2 < RamSize
      modifies ram, reg
      ensures ram[..] == old(ram[..])[base + 2 := LastDigit(old(reg[vx]))]
                                     [base + 1 := LastDigit(Tenth(old(reg[vx])))]
                                     [base := LastDigit(Tenth(Tenth(old(reg[vx]))))]
      ensures reg[..] == old(reg[..])[vx := Tenth(Tenth(Tenth(old(reg[vx]))))]
    {
      ghost var v := reg[vx];
      for i := 3 downto 0
        invariant reg[..] == old(reg[..])[vx := Tenths(v, 3 - i)]
        invariant forall k :: base + i <= k <= base + 2 ==> ram[k] == LastDigit(Tenths(v, base + 2 - k))
        invariant forall k :: 0 <= k < RamSize && !(base + i <= k <= base + 2) ==> ram[k] == old(ram[k])
      {
        var rem := LastDigit(reg[vx]);
        ram[base + i] := rem;
        reg[vx] := Tenth(reg[vx]);
      }
      assert Tenths(v, 1) == Tenth(v);
      assert Tenths(v, 2) == Tenth(Tenth(v));
      assert Tenths(v, 3) == Tenth(Tenth(Tenth(v)));
      DigitsPlaced(ram[..], old(ram[..]), base, v);
    }

    /** LD [I], Vx. */
    method StoreRegisters(vx: Nibble) returns (s: Status)
      requires Valid()
      modifies ram
      ensures Observed(s, Abs()) == ExecStore(old(Abs()), vx)
      ensures s != Ran ==> Abs() == old(Abs())
    {
      var base := index as int;
      if base + vx as int >= RamSize {
        return Trapped(RamOutOfRange);
      }
      WriteRegisters(base, vx as int + 1);
      s := Ran;
      assert reg[..] == old(reg[..]);
    }

    /** The copy loop of LD [I], Vx: registers 0 .. n-1 into `ram[base ..]`. */
    method WriteRegisters(base: int, n: int)
      requires Valid() && 0 <= n <= RegCount && 0 <= base && base + n <= RamSize
      modifies ram
      ensures ram[..] == old(ram[..])[..base] + reg[..n] + old(ram[..])[base + n..]
    {
      for i := 0 to n
        invariant forall k :: 0 <= k < RamSize ==>
          ram[k] == if base <= k < base + i then reg[k - base] else old(ram[k])
      {
        ram[base + i] := reg[i];
      }
      assert ram[..] == old(ram[..])[..base] + reg[..n] + old(ram[..])[base + n..];
    }

    /** The copy loop of LD Vx, [I]: registers 0 .. n-1 from `ram[base ..]`. */
    method ReadRegisters(base: int, n: int)
      requires Valid() && 0 <= n <= RegCount && 0 <= base && base + n <= RamSize
      modifies reg
      ensures reg[..] == ram[base .. base + n] + old(reg[..])[n..]
    {
      for i := 0 to n
        invariant forall k :: 0 <= k < i ==> reg[k] == ram[base + k]
        invariant forall k :: i <= k < RegCount ==> reg[k] == old(reg[k])
      {
        reg[i] := ram[base + i];
      }
      assert reg[..] == ram[base .. base + n] + old(reg[..])[n..];
    }

    /** LD Vx, [I]. */
    method LoadRegisters(vx: Nibble) returns (s: Status)
      requires Valid()
      modifies reg
      ensures Observed(s, Abs()) == ExecLoad(old(Abs()), vx)
      ensures s != Ran ==> Abs() == old(Abs())
    {
      var base := index as int;
      if base + vx as int >= RamSize {
        return Trapped(RamOutOfRange);
      }
      ReadRegisters(base, vx as int + 1);
      s := Ran;
      assert ram[..] == old(ram[..]);
    }
  }

  /** The sprite of a machine whose ram and I are `ram` and `index`. */
  lemma SpriteFrom(m: Machine, n: Nibble, ram: seq<Byte>, index: Word)
    requires Shaped(m) && (n == 0 || m.index as int + n as int <= RamSize)
    requires m.ram == ram && m.index == index
    ensures n != 0 ==> SpriteAt(m, n) == ram[index as int .. index as int + n as int]
  {
  }

  /** `v` divided by 10, `n` times. */
  ghost function Tenths(v: Byte, n: nat): Byte
  {
    if n == 0 then v else Tenth(Tenths(v, n - 1))
  }

  /** The ram the digit loop leaves, cell by cell, is the three digit writes. */
  lemma DigitsPlaced(r: seq<Byte>, s: seq<Byte>, base: int, v: Byte)
    requires |r| == |s| == RamSize && 0 <= base && base + 2 < RamSize
    requires forall k :: base <= k <= base + 2 ==> r[k] == LastDigit(Tenths(v, base + 2 - k))
    requires forall k :: 0 <= k < RamSize && !(base <= k <= base + 2) ==> r[k] == s[k]
    ensures r == s[base + 2 := LastDigit(v)][base + 1 := LastDigit(Tenth(v))][base := LastDigit(Tenth(Tenth(v)))]
  {
    assert Tenths(v, 1) == Tenth(v);
    assert Tenths(v, 2) == Tenth(Tenth(v));
  }

  /** A run result with `k` earlier passes counted in. */
  function Shift(r: RunResult, k: nat): RunResult
  {
    match r
    case Stopped(m, n) => Stopped(m, n + k)
    case Crashed(f, n) => Crashed(f, n + k)
  }

  /** A nibble is zero exactly when its value is. */
  lemma NibbleZero(n: Nibble)
    ensures n == 0 <==> n as int == 0
  {
  }

  /** Element r of the slice of `s` from i of length n. */
  lemma SliceAt(s: seq<Byte>, i: int, n: int, r: int)
    requires 0 <= i && 0 <= r < n && i + n <= |s|
    ensures s[i .. i + n][r] == s[i + r]
  {
  }

  /** A pass whose fetch succeeds is the cycle of the fetched opcode. */
  lemma StepFetches(m: Machine, input: Input, op: Word)
    requires Shaped(m) && m.pc as int < RamSize && op == m.ram[m.pc] as Word
    ensures Step(m, input) == Cycle(m, op, input)
  {
  }

  /** A completed instruction is followed by the pc advance and the timers. */
  lemma CycleTicks(m: Machine, op: Word, input: Input, executed: Machine)
    requires Shaped(m) && Exec(m, Decode(op), input) == Next(executed)
    ensures Cycle(m, op, input) == Next(Tick(executed))
  {
  }

  /** A waiting or faulting instruction ends the pass as it is. */
  lemma CycleStops(m: Machine, op: Word, input: Input)
    requires Shaped(m) && !Exec(m, Decode(op), input).Next?
    ensures Cycle(m, op, input) == Exec(m, Decode(op), input)
  {
  }

  /** One step of Run, separated from the rest. */
  lemma RunUnfold(m: Machine, inputs: seq<Input>)
    requires Shaped(m) && |inputs| > 0
    ensures Run(m, inputs) == match Step(m, inputs[0])
      case Faulted(f) => Crashed(f, 0)
      case Waiting => Shift(Run(m, inputs[1..]), 1)
      case Next(m') => Shift(Run(m', inputs[1..]), 1)
  {
  }
}
