# c8e: a CHIP-8 interpreter, modelled and verified in Dafny

c8e is a CHIP-8 interpreter whose whole machine lives in `main` of `c8e.c`.
The machine has 4096 bytes of ram, sixteen byte registers V0 .. VF, a
2048-cell display buffer, a sixteen-entry return stack, a 16-bit pc and I,
a byte stack pointer and two byte timers. At start-up the interpreter copies
the 80-byte hexadecimal font to address 0 and copies the ROM to 0x200. Each
pass of its main loop then fetches an opcode at pc, runs one case of the
opcode switch, adds 2 to pc and counts both timers down.

This project models that core in six modules:

- `Hardware`: the sizes, the font glyphs and the key table.
- `Opcodes`: the instruction datatype. `Decode` reproduces the switch's
  dispatch on a 16-bit word. `Decode` is a left inverse of `Encode`:
  decoding an encoded instruction gives it back. `Encode` inverts `Decode`
  only on canonical recognised words, because, like c8e.c, it ignores the
  low nibble of 5xyn and 9xyn.
- `Sprite`: the DRW blit. Rows and pixels are drawn in the source's order,
  with clipping, the 8-bit display index and the collision flag.
- `Machine`: the machine as a value, and every operation as a function of
  it. These are the font, the ROM load, each instruction (`Exec`), the
  advance and tick (`Cycle`), the fetch (`Step`) and a run (`Run`). They are
  the reference the rest is proved against.
- `Behaviour`: the properties of that reference, proved as lemmas.
- `Interpreter`: the interpreter as the source runs it.
  - Class `Chip8` keeps the four arrays as `array` fields and the scalars as
    mutable fields.
  - The font, ROM, BCD, register-copy, sprite and key-wait loops are `for`
    and `while` loops with invariants.
  - Every method is proved to leave the machine in exactly the state the
    `Machine` function computes, read through `Abs()`.

All widths are those of the C declarations:
- registers, the timers, `sp` and `loc` wrap modulo 256;
- `pc` and `index` wrap modulo 65536.

C has no defined behaviour for an array access out of bounds. Every such
access becomes a `Fault` outcome:
- `ram[pc]`, `ram[index + i]` and `ram[row + index]`;
- `reg[index]`;
- `stack` on overflow and on underflow;
- `keys[opcode & 0x0F00]`.

## Behaviour reproduced as the code has it

The documented CHIP-8 semantics and `c8e.c` disagree in several places. The
model follows `c8e.c` each time, and a lemma shows the consequence.

- **One-byte fetch.** The fetch reads only the byte `ram[pc]` (c8e.c:129).
  The opcode's family nibble is therefore always 0, so a program only ever
  executes CLS, RET or a no-op.
  - `Behaviour.FetchedFamilyZero` and `Behaviour.StepOnlySystem` prove this.
  - `Behaviour.ByteFetchProgram` shows a two-instruction program leaving V0
    at 0.
  - `Machine.Cycle` is kept on an arbitrary opcode word, so every
    instruction's semantics is still specified and verified.
- **Annn writes a register.** Annn stores the low byte of nnn into
  `reg[index]` and leaves I unchanged (c8e.c:249). It faults when I ≥ 16.
- **SKP and SKNP use the wrong key slot.** They index the key table with
  `opcode & 0x0F00`, which is x·256 (c8e.c:297, 302). So x = 0 tests host
  key `1` whatever V0 holds, and every other x reads outside the table.
- **The display index is a byte.** `loc` is an `unsigned char` (c8e.c:64,
  277), so a pixel lands on cell `(x + col + 64·(y + row)) mod 256`. Cells
  256 .. 2047 are never drawn (`Behaviour.DrawStaysLow`).
- **Fx33 destroys Vx.** It divides Vx itself by 10 three times, which leaves
  0 in Vx (c8e.c:361-365).
- **The ROM copy writes one byte too many.** The copy writes `length + 1`
  bytes: the ROM and the zero that `calloc` put after it (c8e.c:113).
  - A ROM that exactly fills the memory above pc passes the size check.
  - That ROM then writes `ram[4096]`; `Load` reports this as `Overrun`.
- **Jumps land two bytes late.** JP, JP V0 and CALL set pc, and the uniform
  `pc += 2` (c8e.c:384) then still applies. So the next instruction run is
  the one after the target (`Behaviour.JumpOvershoots`).
  - CALL pushes its own address, not the next one.
  - RET therefore resumes right after the CALL (`Behaviour.CallReturn`).
- **Unknown sub-opcodes do nothing.** An unlisted sub-opcode in family 0, 8,
  E or F falls through, and only the advance and the tick happen
  (`Behaviour.UnknownAdvances`).
- **Flags are written first.** In 8xy4 .. 8xyE, VF is written before Vx is
  computed from the registers. So a VF operand reads the new flag, and with
  x = F the result overwrites the flag (`Behaviour.FlagAsOperand`,
  `Behaviour.FlagOverwritten`, `Behaviour.ShiftFlagOverwritten`).
- **DRW clears VF first.** DRW clears VF before it reads Vx and Vy, so a VF
  coordinate reads 0. Its final VF reflects only the last visible pixel
  (`Behaviour.DrawCollisionFlag`).
- **No stack checks.** CALL and RET do not check the stack. Overflow and
  underflow are faults here.

## Model

| member | source | states |
|---|---|---|
| `Hardware.KeyIndexFrom` | c8e.c:325-330 | the search from slot `from` finds a key iff one of the remaining slots holds it, and returns the first such slot |
| `Hardware.KeyIndex` | c8e.c:325-330 | the host key is found iff it is in the table, and the slot found holds it |
| `Hardware.KeysDistinct` | c8e.c:55-60 | the sixteen host keys of the table are pairwise different |
| `Hardware.KeyIndexOfKey` | c8e.c:55-60 | looking up the host key of CHIP-8 key i gives back i |
| `Opcodes.PackFields` | c8e.c:131-133 | x, y and the family extracted from a packed word are the nibbles it was packed from |
| `Opcodes.PackKKFields` | c8e.c:159-161 | the family, x and kk extracted from a packed word are what it was packed from |
| `Opcodes.PackNNNFields` | c8e.c:146-148 | the family and nnn extracted from a packed word are what it was packed from |
| `Opcodes.WordFromFields` | c8e.c:131-133 | every word is the packing of its family, x, y and n fields |
| `Opcodes.WordFromFieldsKK` | c8e.c:161 | every word is the packing of its family, x and kk fields |
| `Opcodes.WordFromFieldsNNN` | c8e.c:148 | every word is the packing of its family and nnn fields |
| `Opcodes.DecodeEncode` | c8e.c:133-382 | every instruction the switch lists decodes back from its encoding |
| `Opcodes.EncodeDecode` | c8e.c:133-382 | every recognised word (5xy and 9xy with low nibble 0) is the encoding of its decoding: the dispatch loses no operand bits |
| `Opcodes.Decode` | c8e.c:133-382 | no contract of its own: the dispatch on the family nibble, whose meaning `Opcodes.DecodeEncode` and `Opcodes.EncodeDecode` state |
| `Opcodes.DecodeSystem` | c8e.c:134-144 | no contract of its own: family 0 recognises only the words 00E0 and 00EE, as `Opcodes.DecodeEncode`, `Opcodes.EncodeDecode` and `Behaviour.FetchedFamilyZero` state |
| `Opcodes.DecodeAlu` | c8e.c:187-239 | no contract of its own: the nested switch on the low nibble of family 8, stated through `Opcodes.DecodeEncode` and `Opcodes.EncodeDecode` |
| `Opcodes.DecodeKeys` | c8e.c:294-305 | no contract of its own: the low byte 9E or A1 of family E, stated through `Opcodes.DecodeEncode` and `Opcodes.EncodeDecode` |
| `Opcodes.DecodeMisc` | c8e.c:307-381 | no contract of its own: the nested switch on the low byte of family F, stated through `Opcodes.DecodeEncode` and `Opcodes.EncodeDecode` |
| `Opcodes.Encode` | c8e.c:133-382 | no contract of its own: the canonical word of each instruction, which `Opcodes.DecodeEncode` and `Opcodes.EncodeDecode` tie to `Decode` |
| `Sprite.Loc` | c8e.c:277 | the display index of a pixel, (x + col + 64·row) taken into the `unsigned char` loc, is below 256 |
| `Sprite.Mask` | c8e.c:283 | the mask of column col is 1 << (7 - col), the loop's `1 << (8 - pixel_offset)` |
| `Sprite.Bit` | c8e.c:285 | the sprite bit of column col is set iff `(row & mask) >> (7 - col)` is 1, the value the loop XORs into the cell |
| `Sprite.Plot` | c8e.c:279-288 | a clipped pixel changes nothing; a visible one toggles its cell iff its sprite bit is set, changes no other cell, and sets VF iff that cell is now dark |
| `Sprite.DrawCols` | c8e.c:276-289 | the pixel loop over the first `cols` columns keeps the buffer's size; what it draws is stated by `Sprite.DrawAt` and `Sprite.DrawFlag` |
| `Sprite.DrawRows` | c8e.c:272-291 | the row loop over the first `rows` rows keeps the buffer's size; what it draws is stated by `Sprite.DrawAt` and `Sprite.DrawFlag` |
| `Sprite.Draw` | c8e.c:269-291 | the whole blit keeps the buffer's size; what it draws is stated by `Sprite.DrawAt`, `Sprite.DrawTwice` and `Sprite.DrawFlag` |
| `Sprite.DrawAt` | c8e.c:272-291 | after the blit each cell is its old value toggled once per set, visible sprite bit that lands on it, whatever VF was |
| `Sprite.DrawTwice` | c8e.c:286 | blitting the same sprite at the same place twice restores the buffer |
| `Sprite.DrawKeepsHighCells` | c8e.c:277 | the blit never changes a cell at index 256 or above |
| `Sprite.DrawFlag` | c8e.c:264-291 | starting from VF = 0, VF ends 1 iff the cell of the last visible pixel is unlit, and a sprite with no visible pixel changes nothing |
| `Machine.FontRam` | c8e.c:74-76 | byte i of the start-up ram is font byte i (row i mod 5 of glyph i / 5) for i < 80 and 0 above |
| `Machine.Initial` | c8e.c:42-76 | the start-up machine has the declared array sizes |
| `Machine.Load` | c8e.c:100-115 | rejected iff the ROM is longer than 4096 - pc; an overrun iff it is exactly that long; otherwise only ram changes |
| `Machine.KeySlot` | c8e.c:297 | the key-table slot SKP/SKNP read is 0 iff x = 0 and lies outside the table otherwise |
| `Machine.SkipIf` | c8e.c:161-162 | a skip changes nothing but pc, and changes pc iff its condition holds |
| `Machine.Offset` | c8e.c:254 | no contract of its own: nnn + V0 on the 16-bit pc; `Behaviour.OffsetSum` and `Behaviour.OffsetValue` state that it is the exact sum |
| `Machine.AddIndex` | c8e.c:348 | no contract of its own: I + Vx on the 16-bit index; `Behaviour.IndexNoWrap` and `Behaviour.IndexWrapsOver` state the sum and its wrap |
| `Machine.GlyphAddress` | c8e.c:353 | the glyph address is exactly 5·Vx, which does not wrap |
| `Machine.LastDigit` | c8e.c:362 | no contract of its own: Vx % 10, stated by `Behaviour.Digits` and `Behaviour.BcdDigits` |
| `Machine.Tenth` | c8e.c:364 | no contract of its own: Vx / 10, stated by `Behaviour.Digits` and `Behaviour.BcdDigits` |
| `Machine.FirstKey` | c8e.c:322-331 | a key is found iff some poll is a table key, and it is the table index of the first such poll |
| `Machine.Exec` | c8e.c:133-382 | a completed instruction keeps the array sizes |
| `Machine.ExecSkip` | c8e.c:159-175 | a completed skip keeps the array sizes |
| `Machine.ExecControl` | c8e.c:134-157 | a completed control instruction keeps the array sizes |
| `Machine.ExecIndexOrTimer` | c8e.c:336-356 | a completed index or timer instruction keeps the array sizes |
| `Machine.ExecMemory` | c8e.c:262-292 | a completed memory instruction keeps the array sizes |
| `Machine.ExecRet` | c8e.c:139-143 | RET faults iff sp is 0 or above 16; otherwise sp drops by one and pc is the popped entry, nothing else changes |
| `Machine.ExecCall` | c8e.c:151-157 | CALL faults iff sp ≥ 16; otherwise the current pc goes to stack[sp], sp rises by one, pc := nnn, and no other stack entry or field changes |
| `Machine.Carry` | c8e.c:211 | the 8xy4 flag is 0 or 1 |
| `Machine.Above` | c8e.c:217 | the 8xy5 / 8xy7 flag is 1 iff the first operand is larger |
| `Machine.LowBit` | c8e.c:223 | the 8xy6 flag is 0 or 1 |
| `Machine.HighBit` | c8e.c:235 | the 8xyE flag is 0 or 1 |
| `Machine.AddRegs` | c8e.c:209-213 | 8xy4 changes no register other than Vx and VF |
| `Machine.SubRegs` | c8e.c:215-219 | 8xy5 changes no register other than Vx and VF |
| `Machine.ShrReg` | c8e.c:221-225 | 8xy6 changes no register other than Vx and VF |
| `Machine.SubnRegs` | c8e.c:227-231 | 8xy7 changes no register other than Vx and VF |
| `Machine.ShlReg` | c8e.c:233-237 | 8xyE changes no register other than Vx and VF |
| `Machine.FlagFirst` | c8e.c:211 | the register file keeps its size when the flag is written |
| `Machine.RegisterOp` | c8e.c:177-260 | a register instruction keeps the register file's size |
| `Machine.ExecLdI` | c8e.c:247-250 | Annn faults iff I ≥ 16; otherwise reg[I] holds the low byte of nnn, I is unchanged, and nothing else changes |
| `Machine.LowByte` | c8e.c:249 | the stored byte is nnn's low 8 bits |
| `Machine.ExecSkipKey` | c8e.c:294-305 | SKP/SKNP fault iff x ≠ 0; otherwise only pc changes, and it skips iff host key `1` is down (SKP) or up (SKNP) |
| `Machine.ExecStore` | c8e.c:368-373 | Fx55 faults iff I + x ≥ 4096; otherwise only ram changes |
| `Machine.ExecLoad` | c8e.c:375-380 | Fx65 faults iff I + x ≥ 4096; otherwise only the registers change |
| `Machine.ExecKeyWait` | c8e.c:314-334 | Fx0A never faults and waits iff no poll is a table key; otherwise only Vx changes, and it becomes the table index of the first polled table key |
| `Machine.KeyByte` | c8e.c:333 | the stored byte is the key number |
| `Machine.SpriteAt` | c8e.c:273 | DRW reads n sprite rows; `Behaviour.SpriteRows` states that row r is ram[I + r] |
| `Machine.ExecDraw` | c8e.c:262-292 | a completed DRW keeps the array sizes |
| `Machine.ExecBcd` | c8e.c:358-366 | Fx33 faults iff I + 2 ≥ 4096; otherwise only ram and the registers change, and Vx becomes 0 |
| `Machine.Tick` | c8e.c:384-394 | pc advances by exactly 2 modulo 65536, each timer becomes max(t - 1, 0), and nothing else changes |
| `Machine.NextPc` | c8e.c:384 | no contract of its own: `pc += 2` on the 16-bit pc, stated by `Behaviour.AdvanceAndCountDown` |
| `Machine.CountDown` | c8e.c:386-394 | a timer becomes max(t - 1, 0) |
| `Machine.Cycle` | c8e.c:131-394 | a completed pass keeps the array sizes |
| `Machine.Fetch` | c8e.c:129 | the fetch succeeds iff pc < 4096 |
| `Machine.Step` | c8e.c:129-394 | a completed pass keeps the array sizes |
| `Machine.Run` | c8e.c:128-404 | a run that does not crash completes one pass per input; a crash happens before the last input |
| `Behaviour.AddByteWraps` | c8e.c:182-185 | for x ≠ F, 7xkk leaves (Vx + kk) mod 256 in Vx, leaves VF alone (no carry flag), and changes no other register |
| `Behaviour.AddCarry` | c8e.c:209-213 | for x, y ≠ F, 8xy4 leaves Vx + Vy mod 256 in Vx and VF = 1 iff Vx + Vy > 255 |
| `Behaviour.FlagFirstAt` | c8e.c:211-212 | for x, y ≠ F, writing VF first leaves Vx and Vy as they were, and after the result write Vx holds the result and VF the flag |
| `Behaviour.SumCarry` | c8e.c:211-212 | the wrapped sum plus 256 × carry is the exact sum |
| `Behaviour.DifferenceBorrow` | c8e.c:217-218 | the wrapped difference is a - b, plus 256 when b > a |
| `Behaviour.SubBorrow` | c8e.c:215-219 | for x, y ≠ F, 8xy5 leaves Vx - Vy mod 256 in Vx and VF = 1 iff Vx > Vy |
| `Behaviour.SubnBorrow` | c8e.c:227-231 | for x, y ≠ F, 8xy7 leaves Vy - Vx mod 256 in Vx and VF = 1 iff Vy > Vx |
| `Behaviour.HalveSplit` | c8e.c:223-224 | twice the halved byte plus the bit shifted out is the byte |
| `Behaviour.DoubleSplit` | c8e.c:235-236 | the doubled byte plus 256 × the bit shifted out is twice the byte |
| `Behaviour.ShiftFlags` | c8e.c:221-237 | for x ≠ F, 8xy6 / 8xyE shift Vx and leave the bit shifted out in VF |
| `Behaviour.FlagAsOperand` | c8e.c:209-231 | with y = F and x ≠ F, 8xy4 / 8xy5 / 8xy7 compute Vx from the flag just written, not from the old VF |
| `Behaviour.FlagOverwritten` | c8e.c:209-231 | with x = F, the result of 8xy4 / 8xy5 / 8xy7 overwrites the flag and is computed from it |
| `Behaviour.ShiftFlagOverwritten` | c8e.c:221-237 | 8F06 always leaves VF = 0, and 8F0E leaves twice the bit shifted out |
| `Behaviour.FlagFirstAtFlag` | c8e.c:211-212 | with x = F, the flag written first is the Vx operand the result reads, Vy (y ≠ F) is untouched, and the result write replaces the flag |
| `Behaviour.CycleAdvances` | c8e.c:384-394 | a pass waits or faults iff its instruction does, with the same fault; after a completed instruction the pass adds exactly 2 to pc (mod 65536), leaves each timer at max(t - 1, 0), and changes nothing else |
| `Behaviour.AdvanceAndCountDown` | c8e.c:384-391 | the advance adds exactly 2 (mod 65536), and a timer drops by one and stays at 0 |
| `Behaviour.StraightLine` | c8e.c:177-380 | an instruction that neither jumps nor skips leaves pc alone |
| `Behaviour.SkipAdvance` | c8e.c:159-175 | a completed skip adds 2 to pc iff its condition holds, and changes nothing else |
| `Behaviour.JumpOvershoots` | c8e.c:146-149 | after JP, the pass leaves pc at nnn + 2 |
| `Behaviour.JumpV0Overshoots` | c8e.c:252-255 | after JP V0, the pass leaves pc at the advance past the target nnn + V0 |
| `Behaviour.JumpV0Lands` | c8e.c:252-255 | after JP V0, the pass leaves pc at exactly nnn + V0 + 2, with no 16-bit wrap |
| `Behaviour.OffsetSum` | c8e.c:254 | the JP V0 target is the exact sum nnn + V0: the 16-bit addition never wraps |
| `Behaviour.OffsetValue` | c8e.c:254 | the JP V0 target, as an integer, is nnn + V0 |
| `Behaviour.IndexNoWrap` | c8e.c:348 | Fx1E leaves I + Vx in I while the sum fits in 16 bits |
| `Behaviour.IndexWrapsOver` | c8e.c:348 | Fx1E leaves I + Vx - 0x10000 in I when the sum does not fit in 16 bits |
| `Behaviour.TicksCountDown` | c8e.c:386-394 | after n ticks each timer is max(t - n, 0) |
| `Behaviour.CallReturn` | c8e.c:139-157 | after CALL at p from sp < 16, a RET that finds the same stack and sp succeeds, restores sp, and the pass resumes at p + 2 |
| `Behaviour.StackLimits` | c8e.c:139-157 | RET with sp = 0 underflows and CALL with sp = 16 overflows |
| `Behaviour.StoreWrites` | c8e.c:368-373 | Fx55 writes V0 .. Vx to ram[I .. I + x] and changes no other byte |
| `Behaviour.StoreWritesLow` | c8e.c:370-372 | ram[I + k] holds Vk for k ≤ x |
| `Behaviour.StoreKeepsRest` | c8e.c:370-372 | every byte outside ram[I .. I + x] keeps its value |
| `Behaviour.LoadReads` | c8e.c:375-380 | Fx65 loads V0 .. Vx from ram[I .. I + x] and keeps the registers above Vx |
| `Behaviour.LoadReadsLow` | c8e.c:377-379 | Vk becomes ram[I + k] for k ≤ x |
| `Behaviour.LoadKeepsHigh` | c8e.c:377-379 | the registers above Vx keep their values |
| `Behaviour.StoreThenLoad` | c8e.c:368-380 | Fx65 after Fx55 with the same x and I gives back V0 .. Vx, whatever the registers became in between, and keeps the rest |
| `Behaviour.BcdWrites` | c8e.c:358-366 | Fx33 changes no byte other than ram[I .. I + 2] |
| `Behaviour.BcdDigits` | c8e.c:358-366 | ram[I], ram[I + 1], ram[I + 2] are digits whose value 100a + 10b + c is Vx, and Vx ends 0 |
| `Behaviour.Digits` | c8e.c:361-365 | the three remainders are decimal digits, hundreds below 3, that add up to the byte, and the byte divided three times is 0 |
| `Behaviour.FontAddress` | c8e.c:351-356 | with the font installed, Fx29 points I at glyph Vx: ram[I + row] is row `row` of that glyph |
| `Behaviour.DrawFrame` | c8e.c:262-292 | DRW faults iff a sprite row lies past ram; otherwise it changes only the display and VF, keeps V0 .. VE, and leaves VF 0 or 1 |
| `Behaviour.DrawCollisionFlag` | c8e.c:264-291 | VF ends 1 iff the last visible pixel's cell is unlit; a sprite with no visible pixel changes nothing and leaves VF 0 |
| `Behaviour.DrawTwiceRestores` | c8e.c:262-292 | the same DRW executed twice restores the display, for every pair of coordinate registers, VF included |
| `Behaviour.Redraw` | c8e.c:262-292 | a second DRW with the same ram, I and coordinates blits the same sprite at the same place |
| `Behaviour.SpriteRows` | c8e.c:273 | the sprite DRW reads has n rows, and row r is ram[I + r] |
| `Behaviour.DrawUses` | c8e.c:264-291 | DRW blits ram[I .. I + n) at (Vx, Vy), with a VF coordinate read as 0, and sets VF from the blit |
| `Behaviour.DrawStaysLow` | c8e.c:277 | DRW never changes display cells 256 .. 2047 |
| `Behaviour.FirstKeyAt` | c8e.c:322-331 | the key found is the table index of the first polled table key |
| `Behaviour.KeyWaitRecords` | c8e.c:314-334 | Fx0A stores exactly the CHIP-8 key whose host key is the first table key polled, and changes nothing else |
| `Behaviour.OnlyKeyWaitWaits` | c8e.c:314-334 | only Fx0A can wait, and only when no poll is a table key |
| `Behaviour.KeyWaitBlocks` | c8e.c:314-334 | a pass on an Fx0A word waits iff no poll is a table key, so passes on that word block until a table key is polled |
| `Behaviour.StepNeverWaits` | c8e.c:129-133 | no pass of the main loop ever waits: the fetched byte never decodes to Fx0A |
| `Behaviour.FetchedFamilyZero` | c8e.c:129-133 | a fetched byte always decodes to CLS, RET or the no-op |
| `Behaviour.StepOnlySystem` | c8e.c:129-144 | a completed pass never changes a register, ram, I or the stack entries |
| `Behaviour.UnknownAdvances` | c8e.c:133-384 | a word the switch does not list leaves the whole machine as it was except for the pc advance and the timer tick |
| `Behaviour.SystemTouches` | c8e.c:134-144 | CLS, RET and the no-op change no register, ram, I or stack entry |
| `Behaviour.LoadPlacesRom` | c8e.c:100-115 | a loaded ROM sits at pc, is followed by one zero byte, and every other byte is unchanged |
| `Behaviour.RomCopied` | c8e.c:113-115 | ram[pc + k] is byte k of the ROM followed by its zero |
| `Behaviour.RomFrame` | c8e.c:113-115 | ram outside pc .. pc + length keeps its value |
| `Behaviour.ByteFetchProgram` | c8e.c:129 | the program `60 05 70 03` placed at 0x200 leaves V0 at 0 (not 8) and pc at 0x204 after two passes |
| `Interpreter.Chip8.constructor` | c8e.c:42-76 | the new interpreter holds exactly the start-up machine: zeroed arrays, font at 0, pc = 0x200 |
| `Interpreter.Chip8.InstallFont` | c8e.c:74-76 | the font loop turns zeroed ram into the font followed by zeros |
| `Interpreter.Chip8.LoadRom` | c8e.c:100-115 | the size check and copy loop give the result and ram `Machine.Load` specifies, and leave ram alone on rejection |
| `Interpreter.Chip8.WriteRam` | c8e.c:113-115 | the copy loop splices the bytes into ram at the start address |
| `Interpreter.Chip8.RunPasses` | c8e.c:128-404 | the main loop ends in the state and pass count `Machine.Run` specifies, or reports its fault |
| `Interpreter.Chip8.RunPass` | c8e.c:129-394 | one pass reports what `Machine.Step` specifies and leaves that state; a waiting or faulting pass changes nothing |
| `Interpreter.Chip8.Advance` | c8e.c:384-394 | the advance and tick are `Machine.Tick` |
| `Interpreter.Chip8.Execute` | c8e.c:131-382 | the switch reports and leaves what `Machine.Exec` specifies |
| `Interpreter.Chip8.ExecuteRegisterOp` | c8e.c:177-260 | the register file becomes `Machine.RegisterOp` of the old one |
| `Interpreter.Chip8.LoadRegister` | c8e.c:177-260 | 6xkk, 8xy0 and Cxkk leave the registers `Machine.RegisterOp` specifies |
| `Interpreter.Chip8.AddToRegister` | c8e.c:182-213 | 7xkk and 8xy4 leave the registers `Machine.RegisterOp` specifies |
| `Interpreter.Chip8.CombineRegisters` | c8e.c:194-207 | 8xy1 .. 8xy3 leave the registers `Machine.RegisterOp` specifies |
| `Interpreter.Chip8.SubtractRegisters` | c8e.c:215-231 | 8xy5 and 8xy7 leave the registers `Machine.RegisterOp` specifies |
| `Interpreter.Chip8.ShiftRegister` | c8e.c:221-237 | 8xy6 and 8xyE leave the registers `Machine.RegisterOp` specifies |
| `Interpreter.Chip8.ExecuteSkip` | c8e.c:159-305 | the skips report and leave what `Machine.ExecSkip` specifies |
| `Interpreter.Chip8.SkipOnByte` | c8e.c:159-169 | 3xkk and 4xkk leave what `Machine.ExecSkip` specifies |
| `Interpreter.Chip8.SkipOnRegisters` | c8e.c:171-175 | 5xy0 (and 9xy0, the same shape at lines 241-245) leave what `Machine.ExecSkip` specifies |
| `Interpreter.Chip8.SkipOnKey` | c8e.c:294-305 | SKP and SKNP report and leave what `Machine.ExecSkip` specifies |
| `Interpreter.Chip8.ExecuteControl` | c8e.c:134-157 | CLS, RET, JP, CALL and JP V0 report and leave what `Machine.ExecControl` specifies |
| `Interpreter.Chip8.ClearScreen` | c8e.c:135-138 | CLS reports and leaves what `Machine.ExecControl` specifies: every display cell dark, nothing else changed |
| `Interpreter.Chip8.Return` | c8e.c:139-143 | RET reports and leaves what `Machine.ExecRet` specifies |
| `Interpreter.Chip8.Jump` | c8e.c:146-149 | JP and JP V0 set pc as `Machine.ExecControl` specifies |
| `Interpreter.Chip8.CallSub` | c8e.c:151-157 | CALL reports and leaves what `Machine.ExecCall` specifies |
| `Interpreter.Chip8.ExecuteIndexOrTimer` | c8e.c:247-356 | Annn, the timer moves, Fx1E and Fx29 report and leave what `Machine.ExecIndexOrTimer` specifies |
| `Interpreter.Chip8.StoreAddress` | c8e.c:247-250 | Annn reports and leaves what `Machine.ExecLdI` specifies |
| `Interpreter.Chip8.MoveTimer` | c8e.c:309-344 | Fx07, Fx15 and Fx18 leave what `Machine.ExecIndexOrTimer` specifies |
| `Interpreter.Chip8.SetIndex` | c8e.c:346-356 | Fx1E and Fx29 leave what `Machine.ExecIndexOrTimer` specifies |
| `Interpreter.Chip8.ExecuteMemory` | c8e.c:262-380 | DRW, Fx0A, Fx33, Fx55 and Fx65 report and leave what `Machine.ExecMemory` specifies |
| `Interpreter.Chip8.ExecuteTransfer` | c8e.c:358-380 | Fx33, Fx55 and Fx65 report and leave what `Machine.ExecMemory` specifies |
| `Interpreter.Chip8.DrawSprite` | c8e.c:262-292 | DRW reports and leaves what `Machine.ExecDraw` specifies |
| `Interpreter.Chip8.DrawSpriteRows` | c8e.c:269-291 | the row loop leaves the display and VF of `Sprite.Draw` of the sprite at I |
| `Interpreter.Chip8.DrawRowsFrom` | c8e.c:272-291 | the row loop over `ram[base + row]` leaves the display and VF of the blit |
| `Interpreter.Chip8.DrawRow` | c8e.c:276-289 | the pixel loop leaves the display and VF of `Sprite.DrawCols` over the eight columns |
| `Interpreter.Chip8.PlotPixel` | c8e.c:283-288 | one visible pixel XORs its bit into cell loc and sets VF to whether that cell is dark |
| `Interpreter.Chip8.WaitKey` | c8e.c:314-334 | the poll loop and the table search report and leave what `Machine.ExecKeyWait` specifies |
| `Interpreter.Chip8.StoreBcd` | c8e.c:358-366 | Fx33 reports and leaves what `Machine.ExecBcd` specifies |
| `Interpreter.Chip8.WriteDigits` | c8e.c:361-365 | the digit loop writes Vx mod 10 to ram[I + 2], the next digit to ram[I + 1], the hundreds to ram[I], and leaves Vx divided by 1000 |
| `Interpreter.Chip8.StoreRegisters` | c8e.c:368-373 | Fx55 reports and leaves what `Machine.ExecStore` specifies |
| `Interpreter.Chip8.WriteRegisters` | c8e.c:370-372 | the copy loop splices `reg[0 .. n)` into ram at I |
| `Interpreter.Chip8.ReadRegisters` | c8e.c:377-379 | the copy loop loads `reg[0 .. n)` from ram at I and keeps the rest |
| `Interpreter.Chip8.LoadRegisters` | c8e.c:375-380 | Fx65 reports and leaves what `Machine.ExecLoad` specifies |
| `Interpreter.DigitsPlaced` | c8e.c:361-365 | a ram holding the digit loop's values at I .. I + 2 and the old bytes elsewhere is the three digit writes |

Some lemmas only rewrite another member's definition into a form the proofs
use. They state nothing beyond that definition, so they have no row above:
`Behaviour.BcdRam`, `Behaviour.DrawResult`, `Behaviour.LoadRam`,
`Behaviour.StoreIs`, `Behaviour.LoadIs`, `Interpreter.StepFetches`,
`Interpreter.CycleTicks`, `Interpreter.CycleStops` and
`Interpreter.RunUnfold`. The sequence lemmas `SpliceWrites`, `SpliceKeeps`,
`OverlayReads`, `OverlayKeeps`, `ThreeKeeps` and `ThreeWrites` are in the
same position.

## Left out

- The raylib window, frame pacing and screen rendering (c8e.c:124-128, 396-407) are not modelled. They are display I/O. `WindowShouldClose` is replaced by the length of the input sequence.
- File I/O is not modelled: argv handling, `fopen`/`fseek`/`ftell`/`fread`, `calloc` failure and `free` (c8e.c:80-121). The ROM is a byte sequence, and the zero byte after it is the one `calloc` provides.
- Randomness (c8e.c:72, 259) is an input. `rand() % 256` is the parameter `Input.rnd`.
- Host key polling (c8e.c:297, 302, 323) is an input. `IsKeyDown` is the set `Input.down`, and `IsKeyUp` is its complement. The successive results of `GetKeyPressed` are the sequence `Input.polls`. The key codes are raylib's `KEY_ONE` .. `KEY_V`, which are the ASCII codes of the key labels; raylib.h is not part of this model.
- The blocking key wait is a `Waiting` outcome. When no poll is a table key, the pass changes nothing, and the next pass polls again within the same instruction (`Behaviour.KeyWaitBlocks`). The endless busy-wait itself is not modelled. Under the one-byte fetch no pass of the real loop reaches Fx0A (`Behaviour.StepNeverWaits`).
- Sound (c8e.c:390-393) is only comments in the source, so it is not modelled.
- The unused constants (c8e.c:8-12) are not modelled.
- Display cells are `bool`. The source only ever stores 0 or 1 in them.
- Faults are reported without partial state. A faulting instruction, for example an Fx55 whose later bytes fall past ram, reports the fault and keeps the machine as it was. The source would have written the earlier bytes before its undefined access. The same holds for `Machine.Load`: its `Overrun` result carries no machine, while the copy of c8e.c:113-115 writes ram[pc .. 4095] before its write to ram[4096].
- Machine.Exec, Machine.ExecSkip, Machine.ExecControl, Machine.ExecIndexOrTimer, Machine.ExecMemory, Machine.ExecDraw, Machine.Cycle, Machine.Step, Machine.RegisterOp and Machine.FlagFirst: their own ensures state only that the array sizes are kept. What DRW, the ALU instructions 8xy4 .. 8xyE, 7xkk, the skips, the jumps, CALL, RET, Annn, Fx0A, Fx1E, Fx29, Fx33, Fx55 and Fx65 do is stated by Behaviour lemmas and by the helpers' own ensures. The one-assignment instructions 6xkk, 8xy0, 8xy1, 8xy2, 8xy3, Cxkk, Fx07, Fx15 and Fx18 are specified only by their bodies in `Machine.RegisterOp` and `Machine.ExecIndexOrTimer`. The class methods are proved equal to these functions in every case.
- Opcodes.Decode, Opcodes.DecodeSystem, Opcodes.DecodeAlu, Opcodes.DecodeKeys, Opcodes.DecodeMisc and Opcodes.Encode: no contract of their own. The dispatch is stated by `Opcodes.DecodeEncode` and `Opcodes.EncodeDecode`.
- Sprite.DrawCols, Sprite.DrawRows and Sprite.Draw: their own ensures state only that the buffer keeps its size. What they draw is stated by `Sprite.DrawAt`, `Sprite.DrawTwice` and `Sprite.DrawFlag`.
- Machine.Offset, Machine.AddIndex, Machine.NextPc, Machine.LastDigit and Machine.Tenth: no contract of their own. The arithmetic they compute is stated by separate lemmas: `Behaviour.OffsetSum` and `Behaviour.OffsetValue` for Offset, `Behaviour.IndexNoWrap` and `Behaviour.IndexWrapsOver` for AddIndex, `Behaviour.AdvanceAndCountDown` for NextPc, and `Behaviour.Digits` and `Behaviour.BcdDigits` for LastDigit and Tenth.
- Machine.Initial: its ensures states only the array sizes. The contents are pinned by `Machine.FontRam` and by `Interpreter.Chip8.constructor`.
- Machine.Carry, Machine.LowBit and Machine.HighBit: their ensures bound the flag only to 0 or 1. When the flag is 1 is stated by `Behaviour.AddCarry`, `Behaviour.SumCarry`, `Behaviour.ShiftFlags`, `Behaviour.HalveSplit` and `Behaviour.DoubleSplit`.
- Interpreter.Chip8.RunPasses: on a crash it reports the fault and the pass count but does not state the machine's final state.
- Behaviour.BcdDigits: it states the digits as the sum 100a + 10b + c = Vx with each digit below 10, rather than as Vx / 100, (Vx / 10) mod 10 and Vx mod 10 written out.
