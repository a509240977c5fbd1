/** Fixed parameters of the c8e CHIP-8 interpreter: memory and display sizes,
    the built-in hexadecimal font and the keypad-to-host-key table. */
module Hardware {

  /** `unsigned char` and `unsigned short` of the C source. */
  type Byte = bv8
  type Word = bv16

  /** A 4-bit opcode field: a register number, a row count. */
  type Nibble = bv4

  /** A CHIP-8 key number 0x0 .. 0xF, the index into the key table. */
  type KeyNum = i: int | 0 <= i < 16

  datatype Option<T> = None | Some(value: T)

  const RamSize: int := 4096
  const RegCount: int := 16
  const DisplaySize: int := 2048
  const StackDepth: int := 16
  const ScreenWidth: int := 64
  const ScreenHeight: int := 32

  /** PROGRAM_START_DEFAULT, the initial value of pc. */
  const ProgramStart: Word := 0x200

  /** Number of font bytes copied to address 0 at start-up (16 glyphs of 5 rows). */
  const FontBytes: int := 80

  /** The glyphs spr0 .. sprF, in the order of the `sprites` table. */
  const Sprites: seq<seq<Byte>> := [
    [0xF0, 0x90, 0x90, 0x90, 0xF0],
    [0x20, 0x60, 0x20, 0x20, 0x70],
    [0xF0, 0x10, 0xF0, 0x80, 0xF0],
    [0xF0, 0x10, 0xF0, 0x10, 0xF0],
    [0x90, 0x90, 0xF0, 0x10, 0x10],
    [0xF0, 0x80, 0xF0, 0x10, 0xF0],
    [0xF0, 0x80, 0xF0, 0x90, 0xF0],
    [0xF0, 0x10, 0x20, 0x40, 0x40],
    [0xF0, 0x90, 0xF0, 0x90, 0xF0],
    [0xF0, 0x90, 0xF0, 0x10, 0xF0],
    [0xF0, 0x90, 0xF0, 0x90, 0x90],
    [0xE0, 0x90, 0xE0, 0x90, 0xE0],
    [0xF0, 0x80, 0x80, 0x80, 0xF0],
    [0xE0, 0x90, 0x90, 0x90, 0xE0],
    [0xF0, 0x80, 0xF0, 0x80, 0xF0],
    [0xF0, 0x80, 0xF0, 0x80, 0x80]
  ]

  /** Byte i of the font image: row i % 5 of glyph i / 5. */
  function FontByte(i: int): Byte
    requires 0 <= i < FontBytes
  {
    Sprites[i / 5][i % 5]
  }

  /** The host key codes of the `keys` table (raylib's KEY_ONE .. KEY_V, which are
      the ASCII codes of the key labels), indexed by CHIP-8 key 0x0 .. 0xF. */
  const Keys: seq<int> := [
    49, 50, 51, 52,   // 1 2 3 4
    81, 87, 69, 82,   // Q W E R
    65, 83, 68, 70,   // A S D F
    90, 88, 67, 86    // Z X C V
  ]

  /** The first table index at or after `from` whose host key is `k`: the search
      loop of LD Vx, K, which stops at the first match. */
  function KeyIndexFrom(k: int, from: int): (r: Option<KeyNum>)
    requires 0 <= from <= |Keys|
    ensures r.Some? <==> exists i :: from <= i < |Keys| && Keys[i] == k
    ensures r.Some? ==> from <= r.value && Keys[r.value] == k
    ensures r.Some? ==> forall i :: from <= i < r.value ==> Keys[i] != k
    decreases |Keys| - from
  {
    if from == |Keys| then None
    else if Keys[from] == k then Some(from)
    else KeyIndexFrom(k, from + 1)
  }

  function KeyIndex(k: int): (r: Option<KeyNum>)
    ensures r.Some? <==> k in Keys
    ensures r.Some? ==> Keys[r.value] == k
  {
    KeyIndexFrom(k, 0)
  }

  /** The sixteen host keys are distinct, so a host key names at most one CHIP-8 key. */
  lemma KeysDistinct()
    ensures forall i, j :: 0 <= i < j < |Keys| ==> Keys[i] != Keys[j]
  {
  }

  /** LD Vx, K records exactly the CHIP-8 key whose host key was pressed. */
  lemma KeyIndexOfKey(i: KeyNum)
    ensures KeyIndex(Keys[i]) == Some(i)
  {
    KeysDistinct();
  }
}
