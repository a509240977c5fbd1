/** The instruction set as the opcode switch of c8e.c recognises it: a tagged
    instruction value, the decoder that reproduces the switch's dispatch, and its
    inverse. */
module Opcodes {
  import opened Hardware

  /** A 12-bit address operand, `opcode & 0x0FFF`. */
  type Addr = bv12

  /** One variant per case of the switch. `Unknown` stands for every word the
      switch lets fall through without effect (families 0, 8, E and F with a
      sub-opcode the source does not list). */
  datatype Instr =
    | Cls                                 // 00E0
    | Ret                                 // 00EE
    | Jp(nnn: Addr)                       // 1nnn
    | Call(nnn: Addr)                     // 2nnn
    | SeByte(x: Nibble, kk: Byte)         // 3xkk
    | SneByte(x: Nibble, kk: Byte)        // 4xkk
    | SeReg(x: Nibble, y: Nibble)         // 5xy_ (low nibble ignored)
    | LdByte(x: Nibble, kk: Byte)         // 6xkk
    | AddByte(x: Nibble, kk: Byte)        // 7xkk
    | LdReg(x: Nibble, y: Nibble)         // 8xy0
    | Or(x: Nibble, y: Nibble)            // 8xy1
    | And(x: Nibble, y: Nibble)           // 8xy2
    | Xor(x: Nibble, y: Nibble)           // 8xy3
    | AddReg(x: Nibble, y: Nibble)        // 8xy4
    | Sub(x: Nibble, y: Nibble)           // 8xy5
    | Shr(x: Nibble, y: Nibble)           // 8xy6
    | Subn(x: Nibble, y: Nibble)          // 8xy7
    | Shl(x: Nibble, y: Nibble)           // 8xyE
    | SneReg(x: Nibble, y: Nibble)        // 9xy_ (low nibble ignored)
    | LdI(nnn: Addr)                      // Annn
    | JpV0(nnn: Addr)                     // Bnnn
    | Rnd(x: Nibble, kk: Byte)            // Cxkk
    | Drw(x: Nibble, y: Nibble, n: Nibble) // Dxyn
    | Skp(x: Nibble)                      // Ex9E
    | Sknp(x: Nibble)                     // ExA1
    | LdVxDt(x: Nibble)                   // Fx07
    | LdVxK(x: Nibble)                    // Fx0A
    | LdDtVx(x: Nibble)                   // Fx15
    | LdStVx(x: Nibble)                   // Fx18
    | AddI(x: Nibble)                     // Fx1E
    | LdF(x: Nibble)                      // Fx29
    | LdB(x: Nibble)                      // Fx33
    | StoreRegs(x: Nibble)                // Fx55
    | LoadRegs(x: Nibble)                 // Fx65
    | Unknown

  /** The sub-fields of an opcode word, as the source extracts them with masks
      and shifts. */
  function Family(w: Word): Nibble { (w >> 12) as Nibble }
  function FieldX(w: Word): Nibble { ((w >> 8) & 0xF) as Nibble }
  function FieldY(w: Word): Nibble { ((w >> 4) & 0xF) as Nibble }
  function FieldN(w: Word): Nibble { (w & 0xF) as Nibble }
  function FieldKK(w: Word): Byte { (w & 0xFF) as Byte }
  function FieldNNN(w: Word): Addr { (w & 0xFFF) as Addr }

  /** The switch on the high nibble. */
  function Decode(w: Word): Instr
  {
    var x, y, kk, nnn := FieldX(w), FieldY(w), FieldKK(w), FieldNNN(w);
    match Family(w)
    case 0x0 => DecodeSystem(w)
    case 0x1 => Jp(nnn)
    case 0x2 => Call(nnn)
    case 0x3 => SeByte(x, kk)
    case 0x4 => SneByte(x, kk)
    case 0x5 => SeReg(x, y)
    case 0x6 => LdByte(x, kk)
    case 0x7 => AddByte(x, kk)
    case 0x8 => DecodeAlu(x, y, FieldN(w))
    case 0x9 => SneReg(x, y)
    case 0xA => LdI(nnn)
    case 0xB => JpV0(nnn)
    case 0xC => Rnd(x, kk)
    case 0xD => Drw(x, y, FieldN(w))
    case 0xE => DecodeKeys(x, kk)
    case 0xF => DecodeMisc(x, kk)
  }

  /** Family 0: only the exact words 00E0 and 00EE are recognised. */
  function DecodeSystem(w: Word): Instr
  {
    if w == 0x00E0 then Cls
    else if w == 0x00EE then Ret
    else Unknown
  }

  /** The nested switch on `opcode & 0x000F` of family 8. */
  function DecodeAlu(x: Nibble, y: Nibble, n: Nibble): Instr
  {
    match n
    case 0x0 => LdReg(x, y)
    case 0x1 => Or(x, y)
    case 0x2 => And(x, y)
    case 0x3 => Xor(x, y)
    case 0x4 => AddReg(x, y)
    case 0x5 => Sub(x, y)
    case 0x6 => Shr(x, y)
    case 0x7 => Subn(x, y)
    case 0xE => Shl(x, y)
    case _ => Unknown
  }

  /** Family E: the low byte selects SKP (9E) or SKNP (A1). */
  function DecodeKeys(x: Nibble, kk: Byte): Instr
  {
    if kk == 0x9E then Skp(x)
    else if kk == 0xA1 then Sknp(x)
    else Unknown
  }

  /** The nested switch on `opcode & 0x00FF` of family F. */
  function DecodeMisc(x: Nibble, kk: Byte): Instr
  {
    match kk
    case 0x07 => LdVxDt(x)
    case 0x0A => LdVxK(x)
    case 0x15 => LdDtVx(x)
    case 0x18 => LdStVx(x)
    case 0x1E => AddI(x)
    case 0x29 => LdF(x)
    case 0x33 => LdB(x)
    case 0x55 => StoreRegs(x)
    case 0x65 => LoadRegs(x)
    case _ => Unknown
  }

  /** Assembles a word from a family and three nibbles. */
  function Pack(f: Nibble, a: Nibble, b: Nibble, c: Nibble): Word
  {
    ((f as Word) << 12) | ((a as Word) << 8) | ((b as Word) << 4) | (c as Word)
  }

  function PackKK(f: Nibble, a: Nibble, kk: Byte): Word
  {
    ((f as Word) << 12) | ((a as Word) << 8) | (kk as Word)
  }

  function PackNNN(f: Nibble, nnn: Addr): Word
  {
    ((f as Word) << 12) | (nnn as Word)
  }

  /** The canonical encoding of an instruction (low nibble 0 for 5xy0 and 9xy0).
      `Unknown` stands for many words; 0x0000 is one of them. */
  function Encode(i: Instr): Word
  {
    match i
    case Cls => 0x00E0
    case Ret => 0x00EE
    case Jp(a) => PackNNN(0x1, a)
    case Call(a) => PackNNN(0x2, a)
    case SeByte(x, kk) => PackKK(0x3, x, kk)
    case SneByte(x, kk) => PackKK(0x4, x, kk)
    case SeReg(x, y) => Pack(0x5, x, y, 0x0)
    case LdByte(x, kk) => PackKK(0x6, x, kk)
    case AddByte(x, kk) => PackKK(0x7, x, kk)
    case LdReg(x, y) => Pack(0x8, x, y, 0x0)
    case Or(x, y) => Pack(0x8, x, y, 0x1)
    case And(x, y) => Pack(0x8, x, y, 0x2)
    case Xor(x, y) => Pack(0x8, x, y, 0x3)
    case AddReg(x, y) => Pack(0x8, x, y, 0x4)
    case Sub(x, y) => Pack(0x8, x, y, 0x5)
    case Shr(x, y) => Pack(0x8, x, y, 0x6)
    case Subn(x, y) => Pack(0x8, x, y, 0x7)
    case Shl(x, y) => Pack(0x8, x, y, 0xE)
    case SneReg(x, y) => Pack(0x9, x, y, 0x0)
    case LdI(a) => PackNNN(0xA, a)
    case JpV0(a) => PackNNN(0xB, a)
    case Rnd(x, kk) => PackKK(0xC, x, kk)
    case Drw(x, y, n) => Pack(0xD, x, y, n)
    case Skp(x) => PackKK(0xE, x, 0x9E)
    case Sknp(x) => PackKK(0xE, x, 0xA1)
    case LdVxDt(x) => PackKK(0xF, x, 0x07)
    case LdVxK(x) => PackKK(0xF, x, 0x0A)
    case LdDtVx(x) => PackKK(0xF, x, 0x15)
    case LdStVx(x) => PackKK(0xF, x, 0x18)
    case AddI(x) => PackKK(0xF, x, 0x1E)
    case LdF(x) => PackKK(0xF, x, 0x29)
    case LdB(x) => PackKK(0xF, x, 0x33)
    case StoreRegs(x) => PackKK(0xF, x, 0x55)
    case LoadRegs(x) => PackKK(0xF, x, 0x65)
    case Unknown => 0x0000
  }

  /** Field extraction undoes packing. */
  lemma PackFields(f: Nibble, a: Nibble, b: Nibble, c: Nibble)
    ensures var w := Pack(f, a, b, c);
      Family(w) == f && FieldX(w) == a && FieldY(w) == b && FieldN(w) == c
  {
  }

  lemma PackKKFields(f: Nibble, a: Nibble, kk: Byte)
    ensures var w := PackKK(f, a, kk);
      Family(w) == f && FieldX(w) == a && FieldKK(w) == kk
  {
  }

  lemma PackNNNFields(f: Nibble, nnn: Addr)
    ensures var w := PackNNN(f, nnn);
      Family(w) == f && FieldNNN(w) == nnn
  {
  }

  /** Every word is the packing of its own fields, in each of the three layouts. */
  lemma WordFromFields(w: Word)
    ensures w == Pack(Family(w), FieldX(w), FieldY(w), FieldN(w))
  {
  }

  lemma WordFromFieldsKK(w: Word)
    ensures w == PackKK(Family(w), FieldX(w), FieldKK(w))
  {
  }

  lemma WordFromFieldsNNN(w: Word)
    ensures w == PackNNN(Family(w), FieldNNN(w))
  {
  }

  /** Decoding the encoding of a listed instruction gives it back. */
  lemma DecodeEncode(i: Instr)
    requires !i.Unknown?
    ensures Decode(Encode(i)) == i
  {
    if i.Cls? || i.Ret? {
    } else if i.Jp? || i.Call? || i.LdI? || i.JpV0? {
      DecodeEncodeNNN(i);
    } else if i.SeByte? || i.SneByte? || i.LdByte? || i.AddByte? || i.Rnd? {
      DecodeEncodeKK(i);
    } else if i.SeReg? || i.SneReg? || i.Drw? {
      DecodeEncodeXYN(i);
    } else if i.Skp? || i.Sknp? {
      DecodeEncodeKeys(i);
    } else if i.LdReg? || i.Or? || i.And? || i.Xor? || i.AddReg? || i.Sub? || i.Shr? || i.Subn? || i.Shl? {
      DecodeEncodeAlu(i);
    } else {
      DecodeEncodeMisc(i);
    }
  }

  lemma DecodeEncodeNNN(i: Instr)
    requires i.Jp? || i.Call? || i.LdI? || i.JpV0?
    ensures Decode(Encode(i)) == i
  {
    var f: Nibble := if i.Jp? then 0x1 else if i.Call? then 0x2 else if i.LdI? then 0xA else 0xB;
    assert Encode(i) == PackNNN(f, i.nnn);
    PackNNNFields(f, i.nnn);
  }

  lemma DecodeEncodeKK(i: Instr)
    requires i.SeByte? || i.SneByte? || i.LdByte? || i.AddByte? || i.Rnd?
    ensures Decode(Encode(i)) == i
  {
    var f: Nibble := if i.SeByte? then 0x3 else if i.SneByte? then 0x4
      else if i.LdByte? then 0x6 else if i.AddByte? then 0x7 else 0xC;
    assert Encode(i) == PackKK(f, i.x, i.kk);
    PackKKFields(f, i.x, i.kk);
  }

  lemma DecodeEncodeXYN(i: Instr)
    requires i.SeReg? || i.SneReg? || i.Drw?
    ensures Decode(Encode(i)) == i
  {
    var f: Nibble, n: Nibble := if i.SeReg? then 0x5 else if i.SneReg? then 0x9 else 0xD,
      if i.Drw? then i.n else 0x0;
    assert Encode(i) == Pack(f, i.x, i.y, n);
    PackFields(f, i.x, i.y, n);
  }

  lemma DecodeEncodeKeys(i: Instr)
    requires i.Skp? || i.Sknp?
    ensures Decode(Encode(i)) == i
  {
    var kk: Byte := if i.Skp? then 0x9E else 0xA1;
    assert Encode(i) == PackKK(0xE, i.x, kk);
    PackKKFields(0xE, i.x, kk);
  }

  lemma DecodeEncodeAlu(i: Instr)
    requires i.LdReg? || i.Or? || i.And? || i.Xor? || i.AddReg? || i.Sub? || i.Shr? || i.Subn? || i.Shl?
    ensures Decode(Encode(i)) == i
  {
    var n: Nibble :=
      if i.LdReg? then 0x0 else if i.Or? then 0x1 else if i.And? then 0x2 else if i.Xor? then 0x3
      else if i.AddReg? then 0x4 else if i.Sub? then 0x5 else if i.Shr? then 0x6
      else if i.Subn? then 0x7 else 0xE;
    var w := Pack(0x8, i.x, i.y, n);
    assert Encode(i) == w;
    PackFields(0x8, i.x, i.y, n);
    assert Decode(w) == DecodeAlu(i.x, i.y, n);
  }

  lemma DecodeEncodeMisc(i: Instr)
    requires i.LdVxDt? || i.LdVxK? || i.LdDtVx? || i.LdStVx? || i.AddI? || i.LdF? || i.LdB?
      || i.StoreRegs? || i.LoadRegs?
    ensures Decode(Encode(i)) == i
  {
    var kk: Byte :=
      if i.LdVxDt? then 0x07 else if i.LdVxK? then 0x0A else if i.LdDtVx? then 0x15
      else if i.LdStVx? then 0x18 else if i.AddI? then 0x1E else if i.LdF? then 0x29
      else if i.LdB? then 0x33 else if i.StoreRegs? then 0x55 else 0x65;
    var w := PackKK(0xF, i.x, kk);
    assert Encode(i) == w;
    PackKKFields(0xF, i.x, kk);
    assert Decode(w) == DecodeMisc(i.x, kk);
  }

  /** The words whose low nibble the decoder ignores: 5xyn and 9xyn with n != 0. */
  predicate Canonical(w: Word)
  {
    (Family(w) == 0x5 || Family(w) == 0x9) ==> FieldN(w) == 0
  }

  /** Conversely, every recognised canonical word is the encoding of its decoding:
      the decoder loses no operand bits. */
  lemma EncodeDecode(w: Word)
    requires Canonical(w) && !Decode(w).Unknown?
    ensures Encode(Decode(w)) == w
  {
    var f := Family(w);
    if f == 0x1 || f == 0x2 || f == 0xA || f == 0xB {
      EncodeDecodeNNN(w);
    } else if f == 0x5 || f == 0x9 || f == 0xD {
      EncodeDecodeXYN(w);
    } else if f == 0x8 {
      EncodeDecodeAlu(w);
    } else if f == 0xF {
      EncodeDecodeMisc(w);
    } else if f == 0xE {
      EncodeDecodeKeys(w);
    } else if f != 0x0 {
      EncodeDecodeKK(w);
    }
  }

  lemma EncodeDecodeNNN(w: Word)
    requires Family(w) == 0x1 || Family(w) == 0x2 || Family(w) == 0xA || Family(w) == 0xB
    ensures Encode(Decode(w)) == w
  {
    WordFromFieldsNNN(w);
  }

  lemma EncodeDecodeXYN(w: Word)
    requires Family(w) == 0x5 || Family(w) == 0x9 || Family(w) == 0xD
    requires Canonical(w)
    ensures Encode(Decode(w)) == w
  {
    if Family(w) == 0xD {
      WordFromFields(w);
    } else {
      EncodeDecodeSkipReg(w);
    }
  }

  lemma EncodeDecodeSkipReg(w: Word)
    requires Family(w) == 0x5 || Family(w) == 0x9
    requires FieldN(w) == 0x0
    ensures Encode(Decode(w)) == w
  {
    SkipRegWord(w);
    if Family(w) == 0x5 {
      EncodeDecodeSe(w);
    } else {
      EncodeDecodeSne(w);
    }
  }

  lemma EncodeDecodeSe(w: Word)
    requires Family(w) == 0x5
    ensures Encode(Decode(w)) == Pack(0x5, FieldX(w), FieldY(w), 0x0)
  {
    assert Decode(w) == SeReg(FieldX(w), FieldY(w));
  }

  lemma EncodeDecodeSne(w: Word)
    requires Family(w) == 0x9
    ensures Encode(Decode(w)) == Pack(0x9, FieldX(w), FieldY(w), 0x0)
  {
    assert Decode(w) == SneReg(FieldX(w), FieldY(w));
  }

  lemma SkipRegWord(w: Word)
    requires FieldN(w) == 0x0
    ensures Pack(Family(w), FieldX(w), FieldY(w), 0x0) == w
  {
    WordFromFields(w);
  }

  lemma EncodeDecodeKK(w: Word)
    requires Family(w) == 0x3 || Family(w) == 0x4 || Family(w) == 0x6 || Family(w) == 0x7
      || Family(w) == 0xC
    ensures Encode(Decode(w)) == w
  {
    WordFromFieldsKK(w);
  }

  lemma EncodeDecodeKeys(w: Word)
    requires Family(w) == 0xE && !Decode(w).Unknown?
    ensures Encode(Decode(w)) == w
  {
    assert Decode(w) == DecodeKeys(FieldX(w), FieldKK(w));
    WordFromFieldsKK(w);
  }

  lemma EncodeDecodeAlu(w: Word)
    requires Family(w) == 0x8 && !Decode(w).Unknown?
    ensures Encode(Decode(w)) == w
  {
    assert Decode(w) == DecodeAlu(FieldX(w), FieldY(w), FieldN(w));
    WordFromFields(w);
  }

  lemma EncodeDecodeMisc(w: Word)
    requires Family(w) == 0xF && !Decode(w).Unknown?
    ensures Encode(Decode(w)) == w
  {
    assert Decode(w) == DecodeMisc(FieldX(w), FieldKK(w));
    WordFromFieldsKK(w);
  }
}
