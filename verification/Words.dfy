/** Bytes and little-endian 64-bit words, the unit that PTRACE_PEEKTEXT and PTRACE_POKETEXT move. */
module Words {

  type Byte = bv8
  type Word = bv64
  type Memory = map<nat, Byte>

  const TRAP: Byte := 0xCC
  const ALL_ONES: Word := 0xffff_ffff_ffff_ffff

  /** Byte k of a word, counting from the least significant. */
  function ByteOf(w: Word, k: nat): Byte
    requires k < 8
  {
    if k == 0 then (w & 0xff) as Byte
    else if k == 1 then ((w >> 8) & 0xff) as Byte
    else if k == 2 then ((w >> 16) & 0xff) as Byte
    else if k == 3 then ((w >> 24) & 0xff) as Byte
    else if k == 4 then ((w >> 32) & 0xff) as Byte
    else if k == 5 then ((w >> 40) & 0xff) as Byte
    else if k == 6 then ((w >> 48) & 0xff) as Byte
    else ((w >> 56) & 0xff) as Byte
  }

  function Join(b0: Byte, b1: Byte, b2: Byte, b3: Byte, b4: Byte, b5: Byte, b6: Byte, b7: Byte): Word {
    b0 as Word | (b1 as Word << 8) | (b2 as Word << 16) | (b3 as Word << 24)
    | (b4 as Word << 32) | (b5 as Word << 40) | (b6 as Word << 48) | (b7 as Word << 56)
  }

  /** The debugger's test for an armed word. */
  predicate IsTrapWord(w: Word) {
    w & 0xff == 0xcc
  }

  /** The word the debugger plants over w. */
  function TrapWord(w: Word): Word {
    (w & 0xffff_ffff_ffff_ff00) | 0xcc
  }

  lemma ByteOfJoin(b0: Byte, b1: Byte, b2: Byte, b3: Byte, b4: Byte, b5: Byte, b6: Byte, b7: Byte)
    ensures var w := Join(b0, b1, b2, b3, b4, b5, b6, b7);
      && ByteOf(w, 0) == b0 && ByteOf(w, 1) == b1 && ByteOf(w, 2) == b2 && ByteOf(w, 3) == b3
      && ByteOf(w, 4) == b4 && ByteOf(w, 5) == b5 && ByteOf(w, 6) == b6 && ByteOf(w, 7) == b7
  {
  }

  /** A word is its eight bytes. */
  lemma BytesDecide(v: Word, w: Word)
    requires forall k :: 0 <= k < 8 ==> ByteOf(v, k) == ByteOf(w, k)
    ensures v == w
  {
    JoinOfBytes(v);
    JoinOfBytes(w);
    assert forall k :: k in {0, 1, 2, 3, 4, 5, 6, 7} ==> ByteOf(v, k) == ByteOf(w, k);
  }

  lemma JoinOfBytes(w: Word)
    ensures w == Join(ByteOf(w, 0), ByteOf(w, 1), ByteOf(w, 2), ByteOf(w, 3),
                      ByteOf(w, 4), ByteOf(w, 5), ByteOf(w, 6), ByteOf(w, 7))
  {
  }

  // ----- words in memory -----

  predicate Mapped(mem: Memory, a: nat) {
    forall x :: a <= x < a + 8 ==> x in mem
  }

  /** PTRACE_PEEKTEXT on mapped memory. */
  function Load(mem: Memory, a: nat): Word
    requires Mapped(mem, a)
  {
    Join(mem[a], mem[a + 1], mem[a + 2], mem[a + 3], mem[a + 4], mem[a + 5], mem[a + 6], mem[a + 7])
  }

  /** Words are little-endian. */
  lemma LoadIsLittleEndian(mem: Memory, a: nat)
    requires Mapped(mem, a)
    ensures Load(mem, a) == mem[a] as Word + 0x100 * mem[a + 1] as Word
      + 0x1_0000 * mem[a + 2] as Word + 0x100_0000 * mem[a + 3] as Word
      + 0x1_0000_0000 * mem[a + 4] as Word + 0x100_0000_0000 * mem[a + 5] as Word
      + 0x1_0000_0000_0000 * mem[a + 6] as Word + 0x100_0000_0000_0000 * mem[a + 7] as Word
  {
    JoinIsSum(mem[a], mem[a + 1], mem[a + 2], mem[a + 3], mem[a + 4], mem[a + 5], mem[a + 6], mem[a + 7]);
  }

  lemma JoinIsSum(b0: Byte, b1: Byte, b2: Byte, b3: Byte, b4: Byte, b5: Byte, b6: Byte, b7: Byte)
    ensures Join(b0, b1, b2, b3, b4, b5, b6, b7) == b0 as Word + 0x100 * b1 as Word
      + 0x1_0000 * b2 as Word + 0x100_0000 * b3 as Word + 0x1_0000_0000 * b4 as Word + 0x100_0000_0000 * b5 as Word
      + 0x1_0000_0000_0000 * b6 as Word + 0x100_0000_0000_0000 * b7 as Word
  {
  }

  /** PTRACE_POKETEXT on mapped memory. */
  function Store(mem: Memory, a: nat, w: Word): Memory
    requires Mapped(mem, a)
  {
    map x | x in mem :: if a <= x < a + 8 then ByteOf(w, x - a) else mem[x]
  }

  lemma ByteOfLoad(mem: Memory, a: nat, k: nat)
    requires Mapped(mem, a) && k < 8
    ensures ByteOf(Load(mem, a), k) == mem[a + k]
  {
    ByteOfJoin(mem[a], mem[a + 1], mem[a + 2], mem[a + 3], mem[a + 4], mem[a + 5], mem[a + 6], mem[a + 7]);
  }

  /** A word peeked from one memory and poked into another copies eight bytes. */
  lemma StoreOfLoad(mem: Memory, src: Memory, a: nat)
    requires Mapped(mem, a) && Mapped(src, a)
    ensures Store(mem, a, Load(src, a)) == map x | x in mem :: if a <= x < a + 8 then src[x] else mem[x]
  {
    forall k: nat | k < 8
      ensures ByteOf(Load(src, a), k) == src[a + k]
    {
      ByteOfLoad(src, a, k);
    }
  }

  /** Peek, set the low byte to the trap, poke: exactly one byte of memory changes. */
  lemma StoreOfTrapWord(mem: Memory, a: nat)
    requires Mapped(mem, a)
    ensures Store(mem, a, TrapWord(Load(mem, a))) == mem[a := TRAP]
  {
  }

  lemma TrapByLowByte(mem: Memory, a: nat)
    requires Mapped(mem, a)
    ensures IsTrapWord(Load(mem, a)) <==> mem[a] == TRAP
  {
  }
}
