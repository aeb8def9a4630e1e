/** The symbol decode of elf_load_symtab_internal: raw entries at the tail of a buffer, converted ones at its
    head. Integers are little-endian, in the file and in memory. */
module ElfSymbols {
  import opened Words

  datatype Class = Elf32 | Elf64

  /** sizeof(elf_symbol_t) */
  const CONVERTED: nat := 40

  /** sizeof(Elf32_Sym) and sizeof(Elf64_Sym) */
  function RawSize(c: Class): nat {
    match c case Elf32 => 16 case Elf64 => 24
  }

  /** A converted symbol: each integer by its bytes in memory. */
  datatype Symbol = Symbol(name: seq<Byte>, info: Byte, other: Byte, shndx: seq<Byte>, value: seq<Byte>,
                           size: seq<Byte>, bind: Byte, kind: Byte, visibility: Byte)

  const ZERO: seq<Byte> := [0, 0, 0, 0]

  /** The field-by-field decode of a raw entry; narrower fields are extended with zeros. */
  function Decode(c: Class, e: seq<Byte>): Symbol
    requires |e| == RawSize(c)
  {
    match c
    case Elf32 => Symbol(e[0..4], e[12], e[13], e[14..16] + [0, 0], e[4..8] + ZERO, e[8..12] + ZERO,
                         Bind(e[12]), Kind(e[12]), Visibility(e[13]))
    case Elf64 => Symbol(e[0..4], e[4], e[5], e[6..8] + [0, 0], e[8..16], e[16..24],
                         Bind(e[4]), Kind(e[4]), Visibility(e[5]))
  }

  /** ELF32_ST_BIND and ELF64_ST_BIND */
  function Bind(info: Byte): Byte {
    info >> 4
  }

  function Kind(info: Byte): Byte {
    info & 0xf
  }

  function Visibility(other: Byte): Byte {
    other & 3
  }

  /** The converted symbol at byte `at` of the buffer, by the layout of elf_symbol_t. */
  function SymbolAt(b: seq<Byte>, at: nat): Symbol
    requires at + CONVERTED <= |b|
  {
    Symbol(b[at..at + 4], b[at + 4], b[at + 5], b[at + 8..at + 12], b[at + 16..at + 24], b[at + 24..at + 32],
           b[at + 32], b[at + 33], b[at + 34])
  }

  /** Storing one field. */
  method StoreField(buffer: array<Byte>, at: nat, bytes: seq<Byte>)
    requires at + |bytes| <= buffer.Length
    modifies buffer
    ensures forall k :: 0 <= k < buffer.Length ==>
      buffer[k] == if at <= k < at + |bytes| then bytes[k - at] else old(buffer[k])
  {
    for j := 0 to |bytes|
      invariant forall k :: 0 <= k < buffer.Length ==>
        buffer[k] == if at <= k < at + j then bytes[k - at] else old(buffer[k])
    {
      buffer[at + j] := bytes[j];
    }
  }

  /** Bytes of an elf_symbol_t that belong to no field. */
  predicate IsPadding(k: int) {
    k == 6 || k == 7 || 12 <= k < 16 || 35 <= k
  }

  /** The nine assignments for one symbol. The padding keeps whatever it held. */
  method StoreSymbol(buffer: array<Byte>, at: nat, s: Symbol)
    requires at + CONVERTED <= buffer.Length
    requires |s.name| == 4 && |s.shndx| == 4 && |s.value| == 8 && |s.size| == 8
    modifies buffer
    ensures SymbolAt(buffer[..], at) == s
    ensures forall k :: 0 <= k < buffer.Length && (!(at <= k < at + CONVERTED) || IsPadding(k - at)) ==>
      buffer[k] == old(buffer[k])
  {
    StoreField(buffer, at, s.name);
    StoreField(buffer, at + 4, [s.info]);
    StoreField(buffer, at + 5, [s.other]);
    StoreField(buffer, at + 8, s.shndx);
    StoreField(buffer, at + 16, s.value);
    StoreField(buffer, at + 24, s.size);
    StoreField(buffer, at + 32, [s.bind]);
    StoreField(buffer, at + 33, [s.kind]);
    StoreField(buffer, at + 34, [s.visibility]);
    var b := buffer[..];
    assert b[at..at + 4] == s.name;
    assert b[at + 8..at + 12] == s.shndx;
    assert b[at + 16..at + 24] == s.value;
    assert b[at + 24..at + 32] == s.size;
  }

  /** Raw entry i of a section's bytes. */
  function Entry(c: Class, raw: seq<Byte>, i: nat): seq<Byte>
    requires (i + 1) * RawSize(c) <= |raw|
  {
    raw[i * RawSize(c)..(i + 1) * RawSize(c)]
  }

  lemma EntryFits(c: Class, size: nat, i: nat)
    requires i < size / RawSize(c)
    ensures (i + 1) * RawSize(c) <= size
  {
  }

  /** Symbol i at the head of the buffer is the decode of raw entry i. */
  predicate Converted(c: Class, b: seq<Byte>, raw: seq<Byte>, i: nat) {
    && i < |raw| / RawSize(c) && CONVERTED * i + CONVERTED <= |b|
    && (EntryFits(c, |raw|, i); SymbolAt(b, CONVERTED * i) == Decode(c, Entry(c, raw, i)))
  }

  predicate AllConverted(c: Class, b: seq<Byte>, raw: seq<Byte>) {
    forall i :: 0 <= i < |raw| / RawSize(c) ==> Converted(c, b, raw, i)
  }

  /** One turn of the loop: reading raw entry i from the tail, storing symbol i at the head. */
  method ConvertOne(c: Class, buffer: array<Byte>, raw: seq<Byte>, count: nat, i: nat)
    requires count == |raw| / RawSize(c) && buffer.Length == CONVERTED * count + |raw| && i < count
    requires buffer[CONVERTED * count..] == raw
    modifies buffer
    ensures buffer[CONVERTED * count..] == raw
    ensures Converted(c, buffer[..], raw, i)
    ensures forall k :: 0 <= k < CONVERTED * i ==> buffer[k] == old(buffer[k])
  {
    EntryFits(c, |raw|, i);
    var at := CONVERTED * count + i * RawSize(c);
    var entry := buffer[at..at + RawSize(c)];
    assert entry == Entry(c, raw, i);
    ghost var tail := buffer[CONVERTED * count..];
    StoreSymbol(buffer, CONVERTED * i, Decode(c, entry));
    assert buffer[CONVERTED * count..] == tail;
  }

  /** The conversion loop, within the one buffer. */
  method ConvertAll(c: Class, buffer: array<Byte>, raw: seq<Byte>, count: nat)
    requires count == |raw| / RawSize(c) && buffer.Length == CONVERTED * count + |raw|
    requires buffer[CONVERTED * count..] == raw
    modifies buffer
    ensures buffer[CONVERTED * count..] == raw
    ensures AllConverted(c, buffer[..], raw)
  {
    hide Converted;
    for i := 0 to count
      invariant buffer[CONVERTED * count..] == raw
      invariant forall j :: 0 <= j < i ==> Converted(c, buffer[..], raw, j)
    {
      ghost var before := buffer[..];
      ConvertOne(c, buffer, raw, count, i);
      forall j | 0 <= j < i
        ensures Converted(c, buffer[..], raw, j)
      {
        ConvertedKept(c, before, buffer[..], raw, j, i);
      }
    }
  }

  /** Earlier symbols are not disturbed by later ones. */
  lemma ConvertedKept(c: Class, b1: seq<Byte>, b2: seq<Byte>, raw: seq<Byte>, j: nat, i: nat)
    requires j < i && |b1| == |b2| && CONVERTED * i <= |b1|
    requires forall k :: 0 <= k < CONVERTED * i ==> b1[k] == b2[k]
    requires Converted(c, b1, raw, j)
    ensures Converted(c, b2, raw, j)
  {
  }

  /** The symbols of a section whose bytes have been read: as many as there are whole entries, each the decode of
      its own. They are read behind the room for the converted ones; `garbage` is what the fresh buffer holds. */
  method LoadSymbols(c: Class, raw: seq<Byte>, garbage: Byte) returns (buffer: array<Byte>, count: nat)
    ensures count == |raw| / RawSize(c) && buffer.Length == CONVERTED * count + |raw|
    ensures AllConverted(c, buffer[..], raw)
  {
    count := |raw| / RawSize(c);
    buffer := new Byte[CONVERTED * count + |raw|](_ => garbage);
    StoreField(buffer, CONVERTED * count, raw);
    assert buffer[CONVERTED * count..] == raw;
    ConvertAll(c, buffer, raw, count);
  }

  // ----- the decode against the layouts of the standard -----

  /** A symbol table entry, by the fields' bytes at the widths of its class. */
  datatype Fields = Fields(name: seq<Byte>, info: Byte, other: Byte, shndx: seq<Byte>, value: seq<Byte>,
                           size: seq<Byte>)

  predicate FieldsOf(c: Class, f: Fields) {
    && |f.name| == 4 && |f.shndx| == 2
    && |f.value| == (if c.Elf32? then 4 else 8) && |f.size| == |f.value|
  }

  /** Elf32_Sym and Elf64_Sym as laid out in a file. */
  function Layout(c: Class, f: Fields): (e: seq<Byte>)
    requires FieldsOf(c, f)
    ensures |e| == RawSize(c)
  {
    match c
    case Elf32 => f.name + f.value + f.size + [f.info, f.other] + f.shndx
    case Elf64 => f.name + [f.info, f.other] + f.shndx + f.value + f.size
  }

  /** The value of little-endian bytes. */
  function Value(b: seq<Byte>): nat {
    if b == [] then 0 else b[0] as int + 256 * Value(b[1..])
  }

  lemma {:induction false} ValueOfZeros(n: nat)
    ensures Value(seq(n, _ => 0)) == 0
  {
    if n != 0 {
      assert seq(n, _ => 0 as Byte)[1..] == seq(n - 1, _ => 0);
      ValueOfZeros(n - 1);
    }
  }

  lemma {:induction false} ValueExtended(b: seq<Byte>, n: nat)
    ensures Value(b + seq(n, _ => 0)) == Value(b)
  {
    if b == [] {
      assert b + seq(n, _ => 0) == seq(n, _ => 0);
      ValueOfZeros(n);
    } else {
      assert (b + seq(n, _ => 0))[1..] == b[1..] + seq(n, _ => 0);
      ValueExtended(b[1..], n);
    }
  }

  lemma Layout32Slices(f: Fields)
    requires FieldsOf(Elf32, f)
    ensures var e := Layout(Elf32, f);
      && e[0..4] == f.name && e[4..8] == f.value && e[8..12] == f.size
      && e[12] == f.info && e[13] == f.other && e[14..16] == f.shndx
  {
  }

  lemma Layout64Slices(f: Fields)
    requires FieldsOf(Elf64, f)
    ensures var e := Layout(Elf64, f);
      && e[0..4] == f.name && e[4] == f.info && e[5] == f.other && e[6..8] == f.shndx
      && e[8..16] == f.value && e[16..24] == f.size
  {
  }

  lemma Extended(b: seq<Byte>)
    ensures Value(b + [0, 0]) == Value(b) && Value(b + ZERO) == Value(b)
  {
    hide Value;
    assert [0, 0] == seq(2, _ => 0 as Byte) && ZERO == seq(4, _ => 0 as Byte);
    ValueExtended(b, 2);
    ValueExtended(b, 4);
  }

  /** Decoding an entry gives its fields back: every integer with its value, and bind and type that recombine
      to info. */
  lemma DecodeOfLayout(c: Class, f: Fields)
    requires FieldsOf(c, f)
    ensures var s := Decode(c, Layout(c, f));
      && s.name == f.name && s.info == f.info && s.other == f.other
      && |s.shndx| == 4 && |s.value| == 8 && |s.size| == 8
      && Value(s.shndx) == Value(f.shndx) && Value(s.value) == Value(f.value) && Value(s.size) == Value(f.size)
      && s.bind < 16 && s.kind < 16 && s.bind as int * 16 + s.kind as int == f.info as int
      && s.visibility as int == f.other as int % 4
  {
    hide Value, Layout, Bind, Kind, Visibility;
    Halves(f.info, f.other);
    Extended(f.shndx);
    match c {
      case Elf32 =>
        Layout32Slices(f);
        Extended(f.value);
        Extended(f.size);
      case Elf64 =>
        Layout64Slices(f);
    }
  }

  /** The two halves of info, and the low two bits of other. */
  lemma Halves(info: Byte, other: Byte)
    ensures Bind(info) < 16 && Kind(info) < 16 && Bind(info) as int * 16 + Kind(info) as int == info as int
    ensures Visibility(other) as int == other as int % 4
  {
    assert info == 16 * Bind(info) + Kind(info);
    assert other == 4 * (other >> 2) + Visibility(other);
  }

  // ----- a whole table -----

  /** The entries of a symbol table, one after the other. */
  function LayoutAll(c: Class, fs: seq<Fields>): seq<Byte>
    requires forall f :: f in fs ==> FieldsOf(c, f)
  {
    if fs == [] then [] else Layout(c, fs[0]) + LayoutAll(c, fs[1..])
  }

  /** The symbol has the values of the entry's fields, and the parts of info and other. */
  predicate SameValues(s: Symbol, f: Fields) {
    && s.name == f.name && s.info == f.info && s.other == f.other
    && Value(s.shndx) == Value(f.shndx) && Value(s.value) == Value(f.value) && Value(s.size) == Value(f.size)
    && s.bind as int == f.info as int / 16 && s.kind as int == f.info as int % 16
    && s.visibility as int == f.other as int % 4
  }

  lemma {:induction false} EntryOfLayout(c: Class, fs: seq<Fields>, rest: seq<Byte>, i: nat)
    requires (forall f :: f in fs ==> FieldsOf(c, f)) && i < |fs|
    ensures |LayoutAll(c, fs)| == |fs| * RawSize(c)
    ensures (i + 1) * RawSize(c) <= |LayoutAll(c, fs) + rest|
    ensures Entry(c, LayoutAll(c, fs) + rest, i) == Layout(c, fs[i])
    decreases |fs|
  {
    hide Layout;
    var raw, tail := LayoutAll(c, fs) + rest, LayoutAll(c, fs[1..]) + rest;
    assert raw == Layout(c, fs[0]) + tail;
    if |fs| > 1 {
      EntryOfLayout(c, fs[1..], rest, if i == 0 then 0 else i - 1);
    }
    if i > 0 {
      assert Entry(c, raw, i) == Entry(c, tail, i - 1);
    }
  }

  /** Converting a section that holds the entries fs, and perhaps part of another, gives back every entry's
      values, in order. */
  lemma TableRoundTrip(c: Class, fs: seq<Fields>, rest: seq<Byte>, b: seq<Byte>, i: nat)
    requires (forall f :: f in fs ==> FieldsOf(c, f)) && |rest| < RawSize(c) && i < |fs|
    requires AllConverted(c, b, LayoutAll(c, fs) + rest)
    ensures |LayoutAll(c, fs) + rest| / RawSize(c) == |fs|
    ensures CONVERTED * i + CONVERTED <= |b| && SameValues(SymbolAt(b, CONVERTED * i), fs[i])
  {
    hide Layout, LayoutAll, Decode, Value, Entry, SymbolAt, SameValues;
    var raw := LayoutAll(c, fs) + rest;
    EntryOfLayout(c, fs, rest, i);
    assert |raw| / RawSize(c) == |fs|;
    assert Converted(c, b, raw, i);
    ValuesOfLayout(c, fs[i]);
  }

  lemma ValuesOfLayout(c: Class, f: Fields)
    requires FieldsOf(c, f)
    ensures SameValues(Decode(c, Layout(c, f)), f)
  {
    hide Layout, Decode, Value;
    DecodeOfLayout(c, f);
  }
}
