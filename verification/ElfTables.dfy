/** The ELF handle: lazily loaded, cached tables, who owns which block, and the list of string tables. */
module ElfTables {
  import opened Words
  import opened ElfSymbols

  const NULL: nat := 0
  const SHT_SYMTAB := 2
  const SHT_STRTAB := 3
  const SHT_DYNSYM := 11

  /** A section header as it stands in the loaded table. */
  datatype Header = Header(kind: int, offset: nat, size: nat, link: int)

  /** A string table record: the section it is of, its block of data, the data, and the next record. */
  datatype StrNode = StrNode(id: int, data: nat, bytes: seq<Byte>, next: nat)

  /** A symbol table record: the string table it names, its block of symbols, how many there are, and the bytes
      in that block. */
  datatype SymRecord = SymRecord(strtab: nat, symbol: nat, count: nat, bytes: seq<Byte>)

  /** The records in memory, by their blocks. */
  type Nodes = map<nat, StrNode>
  type Records = map<nat, SymRecord>

  datatype Call = LoadPhdr | LoadShdr | LoadStrtab | LoadSymtab | LoadDsymtab | LoadAll

  /** The record at p. */
  function At(nodes: Nodes, p: nat): StrNode {
    if p in nodes then nodes[p] else StrNode(-1, NULL, [], NULL)
  }

  function Ptr(p: nat): set<nat> {
    if p == NULL then {} else {p}
  }

  /** The blocks of a symbol table: its record and its symbols. */
  function SymBlocks(records: Records, p: nat): set<nat> {
    if p == NULL || p !in records then {} else {p, records[p].symbol}
  }

  /** The block of symbols of a symbol table. */
  function SymbolOf(records: Records, p: nat): set<nat> {
    if p == NULL || p !in records then {} else {records[p].symbol}
  }

  predicate RecordOk(records: Records, p: nat) {
    p == NULL || (p in records && records[p].symbol != p)
  }

  /** Every block of symbols any record has ever had: records stay in the map after they are freed. */
  function SymbolBlocks(records: Records): set<nat> {
    set p | p in records :: records[p].symbol
  }

  /** Records are added and none is changed. */
  predicate Grows(r1: Records, r2: Records) {
    forall p :: p in r1 ==> p in r2 && r2[p] == r1[p]
  }

  /** p is the list of the records in chain, in that order. */
  predicate IsList(nodes: Nodes, p: nat, chain: seq<nat>)
    decreases |chain|
  {
    if chain == [] then p == NULL
    else p == chain[0] && p != NULL && p in nodes && IsList(nodes, At(nodes, p).next, chain[1..])
  }

  /** The blocks of a list: each record and each record's data. */
  function ListBlocks(nodes: Nodes, chain: seq<nat>): set<nat>
    decreases |chain|
  {
    if chain == [] then {} else {chain[0], At(nodes, chain[0]).data} + ListBlocks(nodes, chain[1..])
  }

  /** All blocks of a list are distinct and none is NULL. */
  predicate Separate(nodes: Nodes, chain: seq<nat>)
    decreases |chain|
  {
    chain == [] ||
    (var p := chain[0];
     && p != NULL && At(nodes, p).data != NULL && p != At(nodes, p).data
     && {p, At(nodes, p).data} !! ListBlocks(nodes, chain[1..])
     && Separate(nodes, chain[1..]))
  }

  /** Blocks numbered n or later: those allocated since n was the next number. */
  predicate Since(blocks: set<nat>, n: nat) {
    forall b :: b in blocks ==> n <= b
  }

  predicate GoodList(nodes: Nodes, p: nat, chain: seq<nat>) {
    && (forall q :: q in chain ==> q in nodes)
    && IsList(nodes, p, chain) && Separate(nodes, chain)
  }

  // ----- what the list of string tables should be -----

  /** The section lies within the file. */
  predicate Fits(h: Header, file: seq<Byte>) {
    h.offset + h.size <= |file|
  }

  /** The bytes of a section. */
  function Content(h: Header, file: seq<Byte>): seq<Byte>
    requires Fits(h, file)
  {
    file[h.offset..h.offset + h.size]
  }

  predicate IsTable(headers: seq<Header>, id: int) {
    0 <= id < |headers| && headers[id].kind == SHT_STRTAB
  }

  /** All string table sections lie within the file. */
  ghost predicate TablesFit(headers: seq<Header>, file: seq<Byte>) {
    forall k :: IsTable(headers, k) ==> Fits(headers[k], file)
  }

  /** There is a string table section, and all of them lie within the file. */
  ghost predicate HasTables(headers: seq<Header>, file: seq<Byte>) {
    (exists k :: IsTable(headers, k)) && TablesFit(headers, file)
  }

  /** The first section of a kind from i on, or -1. */
  function FirstOf(headers: seq<Header>, kind: int, i: nat): (k: int)
    requires i <= |headers|
    ensures k == -1 || (i <= k < |headers| && headers[k].kind == kind)
    ensures forall j :: i <= j < |headers| && headers[j].kind == kind ==> k != -1 && k <= j
    decreases |headers| - i
  {
    if i == |headers| then -1 else if headers[i].kind == kind then i else FirstOf(headers, kind, i + 1)
  }

  /** The records of the string table sections below n, latest first, each with its section's bytes. */
  predicate Lists(headers: seq<Header>, file: seq<Byte>, nodes: Nodes, chain: seq<nat>, n: nat)
    requires n <= |headers|
    decreases n
  {
    if n == 0 then chain == []
    else if headers[n - 1].kind != SHT_STRTAB then Lists(headers, file, nodes, chain, n - 1)
    else
      && chain != [] && At(nodes, chain[0]).id == n - 1
      && Fits(headers[n - 1], file)
      && At(nodes, chain[0]).bytes == Content(headers[n - 1], file)
      && Lists(headers, file, nodes, chain[1..], n - 1)
  }

  lemma {:induction false} ListedIds(headers: seq<Header>, file: seq<Byte>, nodes: Nodes, chain: seq<nat>, n: nat)
    requires n <= |headers| && Lists(headers, file, nodes, chain, n)
    ensures forall i, j :: 0 <= i < j < |chain| ==> At(nodes, chain[i]).id > At(nodes, chain[j]).id
    ensures forall i :: 0 <= i < |chain| ==>
      var k := At(nodes, chain[i]).id;
      && 0 <= k < n && headers[k].kind == SHT_STRTAB && headers[k].offset + headers[k].size <= |file|
      && At(nodes, chain[i]).bytes == file[headers[k].offset..headers[k].offset + headers[k].size]
    ensures forall k :: 0 <= k < n && headers[k].kind == SHT_STRTAB ==>
      exists i :: 0 <= i < |chain| && At(nodes, chain[i]).id == k
    decreases n
  {
    if n != 0 {
      if headers[n - 1].kind != SHT_STRTAB {
        ListedIds(headers, file, nodes, chain, n - 1);
      } else {
        var rest := chain[1..];
        ListedIds(headers, file, nodes, rest, n - 1);
        forall k | 0 <= k < n && headers[k].kind == SHT_STRTAB
          ensures exists i :: 0 <= i < |chain| && At(nodes, chain[i]).id == k
        {
          if k == n - 1 {
            assert At(nodes, chain[0]).id == k;
          } else {
            var i :| 0 <= i < |rest| && At(nodes, rest[i]).id == k;
            assert At(nodes, chain[i + 1]).id == k;
          }
        }
      }
    }
  }

  lemma {:induction false} ListedFit(headers: seq<Header>, file: seq<Byte>, nodes: Nodes, chain: seq<nat>, n: nat)
    requires n <= |headers| && Lists(headers, file, nodes, chain, n)
    ensures forall k :: 0 <= k < n && headers[k].kind == SHT_STRTAB ==> Fits(headers[k], file)
    decreases n
  {
    if n != 0 {
      ListedFit(headers, file, nodes, if headers[n - 1].kind == SHT_STRTAB then chain[1..] else chain, n - 1);
    }
  }

  /** A full list is not empty exactly when there are string tables. */
  lemma ListedIff(headers: seq<Header>, file: seq<Byte>, nodes: Nodes, chain: seq<nat>)
    requires Lists(headers, file, nodes, chain, |headers|)
    ensures chain != [] <==> HasTables(headers, file)
    ensures chain != [] <==>
      && (exists k :: IsTable(headers, k))
      && forall k :: IsTable(headers, k) ==> headers[k].offset + headers[k].size <= |file|
    ensures TablesFit(headers, file)
  {
    ListedIds(headers, file, nodes, chain, |headers|);
    ListedFit(headers, file, nodes, chain, |headers|);
    if chain != [] {
      assert IsTable(headers, At(nodes, chain[0]).id);
    }
  }

  /** The search for a string table by section index. */
  function Lookup(nodes: Nodes, chain: seq<nat>, id: int): nat
    decreases |chain|
  {
    if chain == [] then NULL else if At(nodes, chain[0]).id == id then chain[0] else Lookup(nodes, chain[1..], id)
  }

  lemma {:induction false} LookupFinds(nodes: Nodes, chain: seq<nat>, id: int)
    requires Separate(nodes, chain)
    ensures Lookup(nodes, chain, id) != NULL <==> exists i :: 0 <= i < |chain| && At(nodes, chain[i]).id == id
    ensures Lookup(nodes, chain, id) != NULL ==>
      Lookup(nodes, chain, id) in chain && At(nodes, Lookup(nodes, chain, id)).id == id
    decreases |chain|
  {
    if chain != [] {
      LookupFinds(nodes, chain[1..], id);
      if At(nodes, chain[0]).id != id && exists i :: 0 <= i < |chain| && At(nodes, chain[i]).id == id {
        var i :| 0 <= i < |chain| && At(nodes, chain[i]).id == id;
        assert At(nodes, chain[1..][i - 1]).id == id;
      }
    }
  }

  /** A search in the full list succeeds exactly for the indices of string table sections. */
  lemma LookupIff(headers: seq<Header>, file: seq<Byte>, nodes: Nodes, p: nat, chain: seq<nat>, id: int)
    requires GoodList(nodes, p, chain) && Lists(headers, file, nodes, chain, |headers|)
    ensures Lookup(nodes, chain, id) != NULL <==> IsTable(headers, id)
  {
    ListedIds(headers, file, nodes, chain, |headers|);
    LookupFinds(nodes, chain, id);
  }

  // ----- what a symbol table should be -----

  /** The record holds the decode of section h, entry by entry. */
  predicate Decoded(c: Class, file: seq<Byte>, h: Header, r: SymRecord) {
    Fits(h, file) && r.count == h.size / RawSize(c) && AllConverted(c, r.bytes, Content(h, file))
  }

  /** The record names the string table of section id in the list. */
  predicate Names(nodes: Nodes, chain: seq<nat>, r: SymRecord, id: int) {
    r.strtab in chain && At(nodes, r.strtab).id == id
  }

  /** What a record's strtab field holds after the search, `junk` having been in it before. */
  function Found(nodes: Nodes, chain: seq<nat>, id: int, junk: nat): nat {
    if Lookup(nodes, chain, id) != NULL then Lookup(nodes, chain, id) else junk
  }

  lemma FoundIff(headers: seq<Header>, file: seq<Byte>, nodes: Nodes, p: nat, chain: seq<nat>, id: int, junk: nat)
    requires GoodList(nodes, p, chain) && Lists(headers, file, nodes, chain, |headers|)
    ensures Found(nodes, chain, id, junk) != NULL <==> IsTable(headers, id) || junk != NULL
  {
    LookupIff(headers, file, nodes, p, chain, id);
  }

  /** The field names the string table of section id exactly when that section is one, whatever it held. */
  lemma NamesIff(headers: seq<Header>, file: seq<Byte>, nodes: Nodes, p: nat, chain: seq<nat>, id: int,
                 r: SymRecord, junk: nat)
    requires GoodList(nodes, p, chain) && Lists(headers, file, nodes, chain, |headers|)
    requires r.strtab == Found(nodes, chain, id, junk)
    ensures Names(nodes, chain, r, id) <==> IsTable(headers, id)
    ensures !IsTable(headers, id) ==> r.strtab == junk
  {
    ListedIds(headers, file, nodes, chain, |headers|);
    LookupFinds(nodes, chain, id);
  }

  /** p is NULL, or the record of the first section of a kind: the decode of its bytes, beside a list of string
      tables in which it names the one its section links to, if that is one. */
  predicate SymOk(headers: seq<Header>, file: seq<Byte>, c: Class, nodes: Nodes, strtab: nat, chain: seq<nat>,
                  records: Records, p: nat, kind: int) {
    && RecordOk(records, p)
    && (p != NULL ==>
          var k := FirstOf(headers, kind, 0);
          && strtab != NULL && k != -1 && Decoded(c, file, headers[k], records[p])
          && (Names(nodes, chain, records[p], headers[k].link) <==> IsTable(headers, headers[k].link)))
  }

  // ----- framing -----

  /** Records in blocks below `bound` are the same. */
  predicate Keeps(n1: Nodes, n2: Nodes, bound: nat) {
    forall q :: q in n1 && q < bound ==> q in n2 && n2[q] == n1[q]
  }

  lemma {:induction false} SameRecords(n1: Nodes, n2: Nodes, p: nat, chain: seq<nat>)
    requires (forall q :: q in chain ==> q in n1 && q in n2 && n1[q] == n2[q])
    ensures IsList(n1, p, chain) == IsList(n2, p, chain)
    ensures ListBlocks(n1, chain) == ListBlocks(n2, chain) && Separate(n1, chain) == Separate(n2, chain)
    decreases |chain|
  {
    if chain != [] && p in n1 {
      SameRecords(n1, n2, At(n1, p).next, chain[1..]);
    }
    if chain != [] {
      SameRecords(n1, n2, At(n1, chain[0]).next, chain[1..]);
    }
  }

  lemma {:induction false} SameLists(headers: seq<Header>, file: seq<Byte>, n1: Nodes, n2: Nodes,
                                     chain: seq<nat>, n: nat)
    requires n <= |headers| && (forall q :: q in chain ==> q in n1 && q in n2 && n1[q] == n2[q])
    ensures Lists(headers, file, n1, chain, n) == Lists(headers, file, n2, chain, n)
    decreases n
  {
    if n != 0 {
      SameLists(headers, file, n1, n2, chain, n - 1);
      if chain != [] {
        SameLists(headers, file, n1, n2, chain[1..], n - 1);
      }
    }
  }

  lemma {:induction false} InBlocks(nodes: Nodes, chain: seq<nat>, q: nat)
    requires (forall r :: r in chain ==> r in nodes) && q in chain
    ensures q in ListBlocks(nodes, chain)
    decreases |chain|
  {
    if q != chain[0] {
      InBlocks(nodes, chain[1..], q);
    }
  }

  // ----- ownership -----

  /** The parts are disjoint and together make up the whole. */
  ghost predicate Partition(whole: set<nat>, parts: seq<set<nat>>) {
    && (forall x :: x in whole <==> exists i :: 0 <= i < |parts| && x in parts[i])
    && (forall i, j :: 0 <= i < j < |parts| ==> parts[i] !! parts[j])
  }

  /** One part is exchanged for another set of blocks. */
  lemma PartExchanged(whole: set<nat>, parts: seq<set<nat>>, i: nat, part: set<nat>)
    requires Partition(whole, parts) && i < |parts| && part !! (whole - parts[i])
    ensures parts[i] <= whole
    ensures Partition(whole - parts[i] + part, parts[i := part])
  {
    var parts1 := parts[i := part];
    forall x
      ensures x in whole - parts[i] + part <==> exists k :: 0 <= k < |parts1| && x in parts1[k]
    {
      if x in part {
        assert x in parts1[i];
      } else if x in whole - parts[i] {
        var k :| 0 <= k < |parts| && x in parts[k];
        assert x in parts1[k];
      }
    }
    forall j, k | 0 <= j < k < |parts1|
      ensures parts1[j] !! parts1[k]
    {
      forall x | x in parts1[j]
        ensures x !in parts1[k]
      {
        assert j != i ==> x in parts[j];
        assert k != i ==> parts1[k] == parts[k];
        assert k != i && x in parts1[k] ==> x in whole;
        assert j != i ==> x in whole && x !in parts[i] by {
          if j != i {
            assert parts[j] !! parts[i];
          }
        }
      }
    }
  }

  /** The owners of blocks, by their place in a PartList. */
  const PHDR := 1
  const SHDR := 2
  const STRTABS := 3
  const SYM := 4
  const DSYM := 5
  const LEAKED := 6

  function PartList(handle: set<nat>, phdr: set<nat>, shdr: set<nat>, strtabs: set<nat>, sym: set<nat>, dsym: set<nat>,
                    leaked: set<nat>): (parts: seq<set<nat>>)
    ensures |parts| == 7
  {
    [handle, phdr, shdr, strtabs, sym, dsym, leaked]
  }

  lemma PartListUpdated(h: set<nat>, p: set<nat>, s: set<nat>, t: set<nat>, y: set<nat>, d: set<nat>, l: set<nat>,
                        x: set<nat>)
    ensures var parts := PartList(h, p, s, t, y, d, l);
      && parts[PHDR] == p && parts[PHDR := x] == PartList(h, x, s, t, y, d, l)
      && parts[SHDR] == s && parts[SHDR := x] == PartList(h, p, x, t, y, d, l)
      && parts[STRTABS] == t && parts[STRTABS := x] == PartList(h, p, s, x, y, d, l)
      && parts[SYM] == y && parts[SYM := x] == PartList(h, p, s, t, x, d, l)
      && parts[DSYM] == d && parts[DSYM := x] == PartList(h, p, s, t, y, x, l)
      && parts[LEAKED] == l && parts[LEAKED := x] == PartList(h, p, s, t, y, d, x)
  {
  }
}
