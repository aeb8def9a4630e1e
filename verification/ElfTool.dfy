/** elftool.c's handle: every block it allocates is accounted for, over any calls and any failures. */
module ElfTool {
  import opened Words
  import opened ElfSymbols
  import opened ElfTables

  class Handle {
    /** The section header table as the program sees it once loaded, and the file. */
    const headers: seq<Header>
    const phnum: int
    /** Whether the class is known, and which of the two it then is. */
    const clazzOk: bool
    const clazz: Class
    const file: seq<Byte>
    /** Whether allocations and reads may fail. */
    const failing: bool
    /** The block of the handle itself. */
    const block: nat

    var phdr: nat
    var shdr: nat
    var strtab: nat
    var sym: nat
    var dsym: nat

    /** The allocator: the blocks in use, and the number of the next one; numbers are never used again. */
    var live: set<nat>
    var next: nat
    /** The string table and symbol table records in memory. */
    var nodes: Nodes
    var records: Records

    /** The string table records in list order, and the blocks nothing points to any more. */
    ghost var chain: seq<nat>
    ghost var leaked: set<nat>

    /** Every block in use, by who points to it. */
    ghost function Parts(): seq<set<nat>>
      reads this
    {
      PartList({block}, Ptr(phdr), Ptr(shdr), ListBlocks(nodes, chain), SymBlocks(records, sym),
               SymBlocks(records, dsym), leaked)
    }

    /** The allocator's numbering. */
    ghost predicate Numbered()
      reads this
    {
      next > 0 && (forall b :: b in live ==> 0 < b < next) && forall p :: p in records ==> p < next
    }

    // What the file allows, whatever is loaded.

    predicate HasPhdr() {
      phnum > 0 && clazzOk
    }

    predicate HasShdr() {
      |headers| > 0 && clazzOk
    }

    ghost predicate HasStrtab() {
      HasShdr() && HasTables(headers, file)
    }

    /** A symbol table needs its section in the file and a string table to name, unless `junk`, the uncleared
        field of the fresh record, passes for one. */
    predicate CanRecord(h: Header, junk: nat) {
      Fits(h, file) && (IsTable(headers, h.link) || junk != NULL)
    }

    ghost predicate CanSymtab(kind: int, junk: nat) {
      var k := FirstOf(headers, kind, 0);
      HasStrtab() && k != -1 && CanRecord(headers[k], junk)
    }

    ghost predicate CanAll() {
      HasPhdr() && HasStrtab()
    }

    /** Nothing fails, and the sections that are read all lie within the file. */
    ghost predicate Smooth() {
      && !failing && TablesFit(headers, file)
      && FirstFits(SHT_SYMTAB) && FirstFits(SHT_DYNSYM)
    }

    predicate FirstFits(kind: int) {
      var k := FirstOf(headers, kind, 0);
      k == -1 || Fits(headers[k], file)
    }

    /** How many blocks loading loses, where no allocation and no read fails: the record under construction and
        its data for a string table that does not lie within the file, and the block of symbols for a symbol
        table that does not. */
    ghost function StrtabLoss(): nat
      reads this`strtab
    {
      if strtab == NULL && HasShdr() && !TablesFit(headers, file) then 2 else 0
    }

    ghost function RecordLoss(h: Header, junk: nat): nat {
      if HasStrtab() && (IsTable(headers, h.link) || junk != NULL) && !Fits(h, file) then 1 else 0
    }

    ghost function SymtabLoss(p: nat, kind: int, junk: nat): nat
      reads this`strtab
    {
      var k := FirstOf(headers, kind, 0);
      if p != NULL || k == -1 then 0 else StrtabLoss() + RecordLoss(headers[k], junk)
    }

    /** A loaded list of string tables is the one the section headers call for, a loaded symbol table is the
        decode of the first section of its kind, and what is loaded is what the file allows. */
    ghost predicate Sound()
      reads this
    {
      && Numbered()
      && GoodList(nodes, strtab, chain)
      && (strtab != NULL ==> HasShdr() && Lists(headers, file, nodes, chain, |headers|))
      && SymOk(headers, file, clazz, nodes, strtab, chain, records, sym, SHT_SYMTAB)
      && SymOk(headers, file, clazz, nodes, strtab, chain, records, dsym, SHT_DYNSYM)
      && (phdr != NULL ==> HasPhdr()) && (shdr != NULL ==> HasShdr())
    }

    /** Moreover each block in use is owned by exactly one pointer of the handle, or lost. */
    ghost predicate Valid()
      reads this
    {
      Sound() && Partition(live, Parts())
    }

    /** elf_open, once the file has been read. */
    constructor (headers: seq<Header>, phnum: int, clazzOk: bool, clazz: Class, file: seq<Byte>, failing: bool)
      ensures Valid() && leaked == {} && live == {block} && records == map[]
      ensures phdr == NULL && shdr == NULL && strtab == NULL && sym == NULL && dsym == NULL
      ensures this.headers == headers && this.phnum == phnum && this.clazzOk == clazzOk && this.clazz == clazz
      ensures this.file == file && this.failing == failing
    {
      this.headers, this.phnum, this.clazzOk, this.clazz := headers, phnum, clazzOk, clazz;
      this.file, this.failing := file, failing;
      phdr, shdr, strtab, sym, dsym := NULL, NULL, NULL, NULL, NULL;
      block, live, next, nodes, records := 1, {1}, 2, map[], map[];
      chain, leaked := [], {};
      new;
      assert 1 in Parts()[0];
    }

    /** malloc, which may fail. */
    method Malloc() returns (p: nat)
      requires Numbered()
      modifies this`live, this`next
      ensures Numbered()
      ensures p == NULL ==> live == old(live) && next == old(next)
      ensures p != NULL ==> p == old(next) && live == old(live) + {p} && next == p + 1
      ensures p != NULL ==> p !in old(live) && p !in records
      ensures !failing ==> p != NULL
    {
      if failing {
        if * {
          return NULL;
        }
      }
      p := next;
      live, next := live + {p}, next + 1;
    }

    /** free: the block must be in use, so nothing is freed twice. */
    method Free(p: nat)
      requires p in live
      modifies this`live
      ensures live == old(live) - {p} && (old(Numbered()) ==> Numbered())
    {
      live := live - {p};
    }

    /** Reading a string table record: it must be in use. */
    method Record(p: nat) returns (n: StrNode)
      requires p in live && p in nodes
      ensures n == At(nodes, p)
    {
      n := nodes[p];
    }

    /** pread of a whole section, which may fail and does when the file is too short. */
    method ReadSection(h: Header) returns (ok: bool, bytes: seq<Byte>)
      ensures ok ==> h.offset + h.size <= |file| && bytes == file[h.offset..h.offset + h.size]
      ensures !failing ==> (ok <==> h.offset + h.size <= |file|)
    {
      ok, bytes := false, [];
      if Fits(h, file) {
        if failing {
          if * {
            return;
          }
        }
        ok, bytes := true, Content(h, file);
      }
    }

    /** elf_load_phdr */
    method GetPhdr() returns (p: nat)
      requires Valid()
      modifies this`phdr, this`live, this`next
      ensures Valid() && p == phdr && next >= old(next)
      ensures old(phdr) != NULL ==> phdr == old(phdr) && live == old(live)
      ensures p != NULL ==> phnum > 0 && clazzOk
      ensures !failing ==> (p != NULL <==> phnum > 0 && clazzOk)
    {
      hide Partition, GoodList, Lists, ListBlocks, SymBlocks, SymOk;
      if phdr != NULL {
        return phdr;
      }
      if phnum <= 0 || !clazzOk {
        return NULL;
      }
      ghost var parts, whole := Parts(), live;
      p := Malloc();
      phdr := p;
      PartExchanged(whole, parts, PHDR, Ptr(p));
      assert Parts() == parts[PHDR := Ptr(p)];
      assert live == whole - parts[PHDR] + Ptr(p);
    }

    /** elf_load_shdr */
    method GetShdr() returns (p: nat)
      requires Valid()
      modifies this`shdr, this`live, this`next
      ensures Valid() && p == shdr && next >= old(next)
      ensures old(shdr) != NULL ==> shdr == old(shdr) && live == old(live)
      ensures p != NULL ==> |headers| > 0 && clazzOk
      ensures !failing ==> (p != NULL <==> |headers| > 0 && clazzOk)
    {
      hide Partition, GoodList, Lists, ListBlocks, SymBlocks, SymOk;
      if shdr != NULL {
        return shdr;
      }
      if |headers| <= 0 || !clazzOk {
        return NULL;
      }
      ghost var parts, whole := Parts(), live;
      p := Malloc();
      shdr := p;
      PartExchanged(whole, parts, SHDR, Ptr(p));
      assert Parts() == parts[SHDR := Ptr(p)];
      assert live == whole - parts[SHDR] + Ptr(p);
    }

    /** elf_free_strtab: every record of the list and its data, once each. */
    method FreeList(p: nat, ghost list: seq<nat>)
      requires GoodList(nodes, p, list) && ListBlocks(nodes, list) <= live
      modifies this`live
      ensures live == old(live) - ListBlocks(nodes, list)
    {
      var curr := p;
      ghost var rest := list;
      while curr != NULL
        invariant GoodList(nodes, curr, rest) && ListBlocks(nodes, rest) <= live
        invariant ListBlocks(nodes, rest) <= ListBlocks(nodes, list)
        invariant live == old(live) - (ListBlocks(nodes, list) - ListBlocks(nodes, rest))
        decreases |rest|
      {
        var n := Record(curr);
        if n.data != NULL {
          Free(n.data);
        }
        Free(curr);
        curr, rest := n.next, rest[1..];
      }
    }

    /** One record: its block, its data block and the data; on failure what was allocated is lost. */
    method NewRecord(i: nat, list: nat) returns (curr: nat, ghost lost: set<nat>)
      requires i < |headers| && Numbered()
      modifies this`live, this`next, this`nodes
      ensures Numbered() && next >= old(next) && Keeps(old(nodes), nodes, old(next))
      ensures curr == NULL ==> live == old(live) + lost && |lost| <= 2 && old(live) !! lost && Since(lost, old(next))
      ensures curr != NULL ==>
        && curr >= old(next) && curr in nodes && At(nodes, curr).data >= old(next) && At(nodes, curr).data != curr
        && At(nodes, curr).id == i && At(nodes, curr).next == list
        && Fits(headers[i], file)
        && At(nodes, curr).bytes == Content(headers[i], file)
        && live == old(live) + {curr, At(nodes, curr).data}
      ensures !failing ==> if Fits(headers[i], file) then curr != NULL else curr == NULL && |lost| == 2
    {
      lost := {};
      curr := Malloc();
      if curr == NULL {
        return;
      }
      lost := {curr};
      var data := Malloc();
      if data == NULL {
        curr := NULL;
        return;
      }
      lost := {curr, data};
      var ok, bytes := ReadSection(headers[i]);
      if !ok {
        curr := NULL;
        return;
      }
      nodes := nodes[curr := StrNode(i, data, bytes, list)];
    }

    /** A list under construction in the blocks that are not in `before`. */
    ghost predicate Building(before: set<nat>, list: nat, own: seq<nat>, i: nat)
      reads this
      requires i <= |headers|
    {
      && Numbered()
      && GoodList(nodes, list, own) && Lists(headers, file, nodes, own, i)
      && live == before + ListBlocks(nodes, own) && before !! ListBlocks(nodes, own)
    }

    /** One turn of the loop of elf_load_strtab for a string table section. */
    method LinkOne(i: nat, list: nat, ghost own: seq<nat>, ghost before: set<nat>)
        returns (list1: nat, ghost own1: seq<nat>, ghost lost: set<nat>)
      requires i < |headers| && headers[i].kind == SHT_STRTAB && Building(before, list, own, i)
      modifies this`live, this`next, this`nodes
      ensures Numbered() && next >= old(next) && Keeps(old(nodes), nodes, old(next))
      ensures list1 != NULL ==> Building(before, list1, own1, i + 1)
      ensures list1 == NULL ==> live == before + lost && before !! lost && |lost| <= 2 && Since(lost, old(next))
      ensures !failing ==> if Fits(headers[i], file) then list1 != NULL else list1 == NULL && |lost| == 2
    {
      hide Lists, Keeps, ListBlocks, GoodList;
      list1, lost := NewRecord(i, list);
      RecordsKept(old(nodes), nodes, list, own, headers, file, i, old(next));
      own1 := [list1] + own;
      if list1 == NULL {
        FreeList(list, own);
      } else {
        Prepended(headers, file, nodes, list, own, i, list1);
      }
    }

    /** The loop of elf_load_strtab. On failure the records linked so far are freed, the one under
        construction is lost. */
    method BuildList() returns (ok: bool, list: nat, ghost own: seq<nat>, ghost lost: set<nat>)
      requires Numbered()
      modifies this`live, this`next, this`nodes
      ensures next >= old(next) && Keeps(old(nodes), nodes, old(next))
      ensures ok ==> Building(old(live), list, own, |headers|)
      ensures !ok ==> Numbered() && live == old(live) + lost && old(live) !! lost && |lost| <= 2
      ensures !ok ==> Since(lost, old(next))
      ensures ok ==> (list != NULL <==> HasTables(headers, file)) && TablesFit(headers, file)
      ensures !failing && !ok ==> !TablesFit(headers, file) && |lost| == 2
    {
      hide GoodList, Lists, ListBlocks, Keeps;
      list, own, lost := NULL, [], {};
      NoRecords(headers, file, nodes);
      KeepsSelf(nodes, next);
      for i := 0 to |headers|
        invariant next >= old(next) && Keeps(old(nodes), nodes, old(next))
        invariant Building(old(live), list, own, i)
      {
        if headers[i].kind == SHT_STRTAB {
          ghost var n1, bound := nodes, next;
          list, own, lost := LinkOne(i, list, own, old(live));
          KeepsJoins(old(nodes), n1, nodes, old(next), bound);
          if list == NULL {
            ok := false;
            assert IsTable(headers, i);
            return;
          }
        } else {
          NotListed(headers, file, nodes, own, i);
        }
      }
      ok := true;
      ListedIff(headers, file, nodes, own);
      ListEmptyIff(nodes, list, own);
    }

    /** As Valid, with some blocks in use that no field points to yet. */
    ghost predicate ValidWith(extra: set<nat>)
      reads this
    {
      Sound() && extra <= live && Partition(live - extra, Parts())
    }

    /** The list that was built becomes the handle's. */
    method Adopt(list: nat, ghost own: seq<nat>)
      requires strtab == NULL && chain == [] && ValidWith(ListBlocks(nodes, own))
      requires GoodList(nodes, list, own) && Lists(headers, file, nodes, own, |headers|) && HasShdr()
      modifies this`strtab, this`chain
      ensures Valid() && strtab == list
    {
      hide Partition, GoodList, Lists, ListBlocks, SymBlocks, Ptr, PartList, RecordOk, Decoded, FirstOf;
      ghost var part := ListBlocks(nodes, own);
      NoRecords(headers, file, nodes);
      PartListUpdated({block}, Ptr(phdr), Ptr(shdr), {}, SymBlocks(records, sym), SymBlocks(records, dsym), leaked,
                      part);
      PartExchanged(live - part, Parts(), STRTABS, part);
      assert live - part - {} + part == live;
      strtab, chain := list, own;
    }

    /** Blocks nothing points to are lost. */
    ghost method Lose(lost: set<nat>)
      requires ValidWith(lost)
      modifies this`leaked
      ensures Valid() && leaked == old(leaked) + lost && old(leaked) !! lost
    {
      hide Partition, GoodList, Lists, ListBlocks, SymBlocks, Ptr, PartList, SymOk;
      PartListUpdated({block}, Ptr(phdr), Ptr(shdr), ListBlocks(nodes, chain), SymBlocks(records, sym),
                      SymBlocks(records, dsym), leaked, leaked + lost);
      PartLost(live - lost, Parts(), LEAKED, lost);
      assert live - lost + lost == live;
      leaked := leaked + lost;
    }

    /** The list is built and cached, or what failed is lost. */
    method FillStrtab() returns (ghost lost: set<nat>)
      requires Valid() && strtab == NULL && HasShdr()
      modifies this`strtab, this`live, this`next, this`nodes, this`chain, this`leaked
      ensures Valid() && next >= old(next) && Since(lost, old(next))
      ensures strtab != NULL ==> HasTables(headers, file)
      ensures !failing ==> (strtab != NULL <==> HasTables(headers, file))
      ensures leaked == old(leaked) + lost && |lost| <= 2 && (strtab != NULL ==> lost == {})
      ensures !failing ==> |lost| == if TablesFit(headers, file) then 0 else 2
    {
      hide Partition, GoodList, Lists, ListBlocks, SymBlocks, Keeps, Ptr, PartList, TablesFit, Decoded, FirstOf;
      EmptyList(nodes, chain);
      NoRecords(headers, file, nodes);
      ghost var whole := live;
      var ok, list;
      ghost var own;
      ok, list, own, lost := BuildList();
      NoRecords(headers, file, nodes);
      if ok {
        assert live - ListBlocks(nodes, own) == whole;
        Adopt(list, own);
        lost := {};
      } else {
        assert live - lost == whole;
        Lose(lost);
      }
    }

    /** elf_load_strtab: NULL, or a list of exactly the string table sections. */
    method GetStrtab() returns (p: nat, ghost lost: set<nat>)
      requires Valid()
      modifies this`shdr, this`strtab, this`live, this`next, this`nodes, this`chain, this`leaked
      ensures Valid() && p == strtab && next >= old(next) && Since(lost, old(next))
      ensures old(shdr) != NULL ==> shdr == old(shdr)
      ensures old(strtab) != NULL ==>
        strtab == old(strtab) && live == old(live) && nodes == old(nodes) && chain == old(chain)
      ensures p != NULL ==> HasStrtab()
      ensures !failing ==> (p != NULL <==> HasStrtab())
      ensures leaked == old(leaked) + lost && |lost| <= 2 && (p != NULL ==> lost == {})
      ensures !failing ==> |lost| == old(StrtabLoss())
    {
      hide Partition, GoodList, Lists, HasTables, TablesFit, SymOk;
      lost := {};
      if strtab != NULL {
        ListedIff(headers, file, nodes, chain);
        ListEmptyIff(nodes, strtab, chain);
        return strtab, {};
      }
      p := GetShdr();
      if p == NULL {
        return;
      }
      lost := FillStrtab();
      p := strtab;
    }

    /** The search for the string table a symbol table names; `junk` is in the field if it finds none. */
    method FindTable(link: int, junk: nat) returns (tab: nat)
      requires GoodList(nodes, strtab, chain) && ListBlocks(nodes, chain) <= live
      ensures tab == Found(nodes, chain, link, junk)
    {
      tab := strtab;
      ghost var rest := chain;
      while tab != NULL
        invariant GoodList(nodes, tab, rest) && ListBlocks(nodes, rest) <= live
        invariant Lookup(nodes, rest, link) == Lookup(nodes, chain, link)
        decreases |rest|
      {
        var n := Record(tab);
        if n.id == link {
          return;
        }
        tab, rest := n.next, rest[1..];
      }
      return junk;
    }

    /** The second half of elf_load_symtab_internal: the block of symbols for the fresh record p, read and
        converted. `garbage` is what a fresh block holds. */
    method ReadSymbols(h: Header, p: nat, tab: nat, ghost before: set<nat>, garbage: Byte)
        returns (ok: bool, ghost lost: set<nat>)
      requires Numbered() && live == before + {p} && p !in before && p !in records && p < next
      modifies this`live, this`next, this`records
      ensures Numbered() && next >= old(next)
      ensures !ok ==> live == before + lost && before !! lost && records == old(records)
      ensures |lost| <= 1 && Since(lost, old(next))
      ensures ok ==>
        && p in records && records == old(records)[p := records[p]]
        && records[p].strtab == tab && Fits(h, file) && Decoded(clazz, file, h, records[p])
        && records[p].count == h.size / RawSize(clazz)
        && records[p].symbol >= old(next) && live == old(live) + {records[p].symbol}
      ensures !failing ==> if Fits(h, file) then ok else !ok && |lost| == 1
    {
      hide AllConverted;
      ok, lost := false, {};
      var symbol := Malloc();
      if symbol == NULL {
        Free(p);
        return;
      }
      var bytes;
      ok, bytes := ReadSection(h);
      if ok {
        var buffer, count := LoadSymbols(clazz, bytes, garbage);
        records := records[p := SymRecord(tab, symbol, count, buffer[..])];
      } else {
        Free(p);
        lost := {symbol};
      }
    }

    /** The records and blocks of a symbol table for section h. `junk` is what the fresh record's strtab field
        happens to hold, which the code never clears. On failure the record is freed; the block of symbols,
        if there is one, is lost, and so is the record itself when the class is unknown. */
    method NewSymtab(h: Header, junk: nat, garbage: Byte) returns (p: nat, ghost lost: set<nat>)
      requires Numbered() && GoodList(nodes, strtab, chain) && ListBlocks(nodes, chain) <= live
      modifies this`live, this`next, this`records
      ensures Numbered() && next >= old(next) && Grows(old(records), records)
      ensures p == NULL ==> live == old(live) + lost && old(live) !! lost && records == old(records)
      ensures |lost| <= 1 && (p != NULL ==> lost == {}) && Since(lost, old(next))
      ensures p != NULL ==>
        && p >= old(next) && p in records && records == old(records)[p := records[p]]
        && records[p].symbol >= old(next) && records[p].symbol != p
        && live == old(live) + {p, records[p].symbol} && old(live) !! {p, records[p].symbol}
        && records[p].strtab == Found(nodes, chain, h.link, junk) && records[p].strtab != NULL && clazzOk
        && Fits(h, file) && Decoded(clazz, file, h, records[p])
      ensures !failing && clazzOk ==>
        var named := Found(nodes, chain, h.link, junk) != NULL;
        (p != NULL <==> named && Fits(h, file)) && |lost| == if named && !Fits(h, file) then 1 else 0
    {
      hide GoodList, ListBlocks, Found, Partition, Decoded, Fits, Numbered;
      lost := {};
      p := Malloc();
      if p == NULL {
        return;
      }
      if !clazzOk {
        lost := {p};
        p := NULL;
        return;
      }
      var tab := FindTable(h.link, junk);
      if tab == NULL {
        Free(p);
        assert live == old(live);
        p := NULL;
        return;
      }
      var ok;
      ok, lost := ReadSymbols(h, p, tab, old(live), garbage);
      if !ok {
        p := NULL;
      } else {
        lost := {};
      }
    }

    /** p is a new symbol table record for section h, not yet cached: it holds the decode of the section and
        names the string table the section links to exactly when that is one. */
    ghost predicate Made(p: nat, h: Header)
      reads this
    {
      && p != NULL && p in records && records[p].symbol != p && strtab != NULL
      && ValidWith({p, records[p].symbol})
      && Decoded(clazz, file, h, records[p])
      && (Names(nodes, chain, records[p], h.link) <==> IsTable(headers, h.link))
    }

    /** elf_load_symtab_internal */
    method GetInternal(h: Header, junk: nat, garbage: Byte) returns (p: nat, ghost lost: set<nat>)
      requires Valid()
      modifies this`shdr, this`strtab, this`live, this`next, this`nodes, this`chain, this`leaked, this`records
      ensures p == NULL ==> Valid()
      ensures p != NULL ==> Made(p, h)
      ensures p != NULL ==> HasStrtab() && CanRecord(h, junk)
      ensures !failing ==> (p != NULL <==> HasStrtab() && CanRecord(h, junk))
      ensures leaked == old(leaked) + lost && |lost| <= 2
      ensures (p != NULL ==> lost == {}) && (old(strtab) != NULL ==> |lost| <= 1)
      ensures next >= old(next) && Since(lost, old(next))
      ensures !failing ==> |lost| == old(StrtabLoss()) + RecordLoss(h, junk)
      ensures old(shdr) != NULL ==> shdr == old(shdr)
      ensures old(strtab) != NULL ==> strtab == old(strtab) && nodes == old(nodes) && chain == old(chain)
      ensures Grows(old(records), records)
    {
      hide Partition, GoodList, Lists, SymOk, Decoded, ValidWith, Sound, HasTables, TablesFit, IsTable;
      lost := {};
      p := GetShdr();
      if p == NULL {
        return;
      }
      p, lost := GetStrtab();
      if p == NULL {
        return;
      }
      p, lost := AddSymtab(h, junk, garbage);
    }

    method AddSymtab(h: Header, junk: nat, garbage: Byte) returns (p: nat, ghost lost: set<nat>)
      requires Valid() && strtab != NULL
      modifies this`live, this`next, this`leaked, this`records
      ensures p == NULL ==> Valid()
      ensures p != NULL ==> Made(p, h) && CanRecord(h, junk)
      ensures !failing ==> (p != NULL <==> CanRecord(h, junk)) && |lost| == RecordLoss(h, junk)
      ensures leaked == old(leaked) + lost && |lost| <= 1 && (p != NULL ==> lost == {})
      ensures next >= old(next) && Since(lost, old(next))
      ensures Grows(old(records), records) && HasStrtab()
    {
      hide Partition, GoodList, Lists, ListBlocks, SymBlocks, Ptr, PartList, HasTables, FirstOf, Decoded, Names,
           Found, IsTable, Fits, Numbered, Grows;
      ListedIff(headers, file, nodes, chain);
      ListEmptyIff(nodes, strtab, chain);
      ghost var parts, whole := Parts(), live;
      PartWithin(whole, parts, STRTABS);
      PartListUpdated({block}, Ptr(phdr), Ptr(shdr), ListBlocks(nodes, chain), SymBlocks(records, sym),
                      SymBlocks(records, dsym), leaked, {});
      FoundIff(headers, file, nodes, strtab, chain, h.link, junk);
      p, lost := NewSymtab(h, junk, garbage);
      SymKept(old(records), records, sym);
      SymKept(old(records), records, dsym);
      if p == NULL {
        assert live - lost == whole;
        Lose(lost);
      } else {
        assert live - {p, records[p].symbol} == whole;
        NamesIff(headers, file, nodes, strtab, chain, h.link, records[p], junk);
      }
    }

    /** A cached symbol table, or what its first section gives. */
    method GetSymtab(junk: nat, garbage: Byte) returns (p: nat, ghost lost: set<nat>)
      requires Valid()
      modifies this`sym, this`shdr, this`strtab, this`live, this`next, this`nodes, this`chain, this`leaked
      modifies this`records
      ensures Valid() && p == sym && next >= old(next) && Since(lost, old(next))
      ensures old(sym) != NULL ==> sym == old(sym) && live == old(live)
      ensures old(sym) == NULL && sym != NULL ==> CanSymtab(SHT_SYMTAB, junk)
      ensures !failing && old(sym) == NULL ==> (sym != NULL <==> CanSymtab(SHT_SYMTAB, junk))
      ensures leaked == old(leaked) + lost && |lost| <= (if old(strtab) == NULL then 2 else 1)
      ensures sym != NULL ==> lost == {}
      ensures !failing ==> |lost| == old(SymtabLoss(sym, SHT_SYMTAB, junk))
      ensures old(shdr) != NULL ==> shdr == old(shdr)
      ensures old(strtab) != NULL ==> strtab == old(strtab) && nodes == old(nodes) && chain == old(chain)
      ensures Grows(old(records), records)
    {
      hide Partition, GoodList, Lists, ListBlocks, SymBlocks, Ptr, PartList, HasTables, TablesFit, Decoded, Names,
           IsTable, Fits;
      lost := {};
      if sym != NULL {
        return sym, {};
      }
      p := GetShdr();
      if p == NULL {
        return;
      }
      for i := 0 to |headers|
        invariant Valid() && sym == NULL && shdr != NULL && HasShdr()
        invariant FirstOf(headers, SHT_SYMTAB, i) == FirstOf(headers, SHT_SYMTAB, 0)
        invariant old(shdr) != NULL ==> shdr == old(shdr)
        invariant strtab == old(strtab) && leaked == old(leaked) && nodes == old(nodes) && chain == old(chain)
        invariant records == old(records) && next >= old(next)
      {
        if headers[i].kind == SHT_SYMTAB {
          p, lost := GetInternal(headers[i], junk, garbage);
          if p != NULL {
            ghost var parts, extra := Parts(), {p, records[p].symbol};
            PartListUpdated({block}, Ptr(phdr), Ptr(shdr), ListBlocks(nodes, chain), SymBlocks(records, sym),
                            SymBlocks(records, dsym), leaked, extra);
            NoSymBlocks(records);
            PartExchanged(live - extra, parts, SYM, extra);
            NewSymBlocks(records, p);
            assert live - extra - {} + extra == live;
            sym := p;
          }
          return;
        }
      }
      p := NULL;
    }

    /** The same for the dynamic symbol table. */
    method GetDsymtab(junk: nat, garbage: Byte) returns (p: nat, ghost lost: set<nat>)
      requires Valid()
      modifies this`dsym, this`shdr, this`strtab, this`live, this`next, this`nodes, this`chain, this`leaked
      modifies this`records
      ensures Valid() && p == dsym && next >= old(next) && Since(lost, old(next))
      ensures old(dsym) != NULL ==> dsym == old(dsym) && live == old(live)
      ensures old(dsym) == NULL && dsym != NULL ==> CanSymtab(SHT_DYNSYM, junk)
      ensures !failing && old(dsym) == NULL ==> (dsym != NULL <==> CanSymtab(SHT_DYNSYM, junk))
      ensures leaked == old(leaked) + lost && |lost| <= (if old(strtab) == NULL then 2 else 1)
      ensures dsym != NULL ==> lost == {}
      ensures !failing ==> |lost| == old(SymtabLoss(dsym, SHT_DYNSYM, junk))
      ensures old(shdr) != NULL ==> shdr == old(shdr)
      ensures old(strtab) != NULL ==> strtab == old(strtab) && nodes == old(nodes) && chain == old(chain)
      ensures Grows(old(records), records)
    {
      hide Partition, GoodList, Lists, ListBlocks, SymBlocks, Ptr, PartList, HasTables, TablesFit, Decoded, Names,
           IsTable, Fits;
      lost := {};
      if dsym != NULL {
        return dsym, {};
      }
      p := GetShdr();
      if p == NULL {
        return;
      }
      for i := 0 to |headers|
        invariant Valid() && dsym == NULL && shdr != NULL && HasShdr()
        invariant FirstOf(headers, SHT_DYNSYM, i) == FirstOf(headers, SHT_DYNSYM, 0)
        invariant old(shdr) != NULL ==> shdr == old(shdr)
        invariant strtab == old(strtab) && leaked == old(leaked) && nodes == old(nodes) && chain == old(chain)
        invariant records == old(records) && next >= old(next)
      {
        if headers[i].kind == SHT_DYNSYM {
          p, lost := GetInternal(headers[i], junk, garbage);
          if p != NULL {
            ghost var parts, extra := Parts(), {p, records[p].symbol};
            PartListUpdated({block}, Ptr(phdr), Ptr(shdr), ListBlocks(nodes, chain), SymBlocks(records, sym),
                            SymBlocks(records, dsym), leaked, extra);
            NoSymBlocks(records);
            PartExchanged(live - extra, parts, DSYM, extra);
            NewSymBlocks(records, p);
            assert live - extra - {} + extra == live;
            dsym := p;
          }
          return;
        }
      }
      p := NULL;
    }

    /** Releasing the symbol table: its record is freed, its block of symbols left behind. */
    method FreeSym()
      requires Valid()
      modifies this`sym, this`live, this`leaked
      ensures Valid() && sym == NULL && leaked == old(leaked) + old(SymbolOf(records, sym))
    {
      hide Partition, GoodList, Lists, ListBlocks, Ptr, PartList, Decoded, Names, FirstOf;
      if sym != NULL {
        ghost var parts, symbol := Parts(), records[sym].symbol;
        PartListUpdated({block}, Ptr(phdr), Ptr(shdr), ListBlocks(nodes, chain), SymBlocks(records, sym),
                        SymBlocks(records, dsym), leaked, {});
        PartListUpdated({block}, Ptr(phdr), Ptr(shdr), ListBlocks(nodes, chain), {},
                        SymBlocks(records, dsym), leaked, leaked + {symbol});
        PartExchanged(live, parts, SYM, {});
        PartLost(live - parts[SYM] + {}, parts[SYM := {}], LEAKED, {symbol});
        assert live - parts[SYM] + {} + {symbol} == live - {sym};
        Free(sym);
        sym := NULL;
        leaked := leaked + {symbol};
      }
    }

    /** The same for the dynamic symbol table. */
    method FreeDsym()
      requires Valid()
      modifies this`dsym, this`live, this`leaked
      ensures Valid() && dsym == NULL && leaked == old(leaked) + old(SymbolOf(records, dsym))
    {
      hide Partition, GoodList, Lists, ListBlocks, Ptr, PartList, Decoded, Names, FirstOf;
      if dsym != NULL {
        ghost var parts, symbol := Parts(), records[dsym].symbol;
        PartListUpdated({block}, Ptr(phdr), Ptr(shdr), ListBlocks(nodes, chain), SymBlocks(records, sym),
                        SymBlocks(records, dsym), leaked, {});
        PartListUpdated({block}, Ptr(phdr), Ptr(shdr), ListBlocks(nodes, chain), SymBlocks(records, sym),
                        {}, leaked, leaked + {symbol});
        PartExchanged(live, parts, DSYM, {});
        PartLost(live - parts[DSYM] + {}, parts[DSYM := {}], LEAKED, {symbol});
        assert live - parts[DSYM] + {} + {symbol} == live - {dsym};
        Free(dsym);
        dsym := NULL;
        leaked := leaked + {symbol};
      }
    }

    /** Releasing the string tables, once no symbol table can name one. */
    method FreeStrtab()
      requires Valid() && sym == NULL && dsym == NULL
      modifies this`strtab, this`live, this`chain
      ensures Valid() && strtab == NULL
    {
      hide Partition, GoodList, Lists, ListBlocks, SymBlocks, Ptr, PartList, Decoded, Names, FirstOf;
      if strtab != NULL {
        ghost var parts := Parts();
        PartListUpdated({block}, Ptr(phdr), Ptr(shdr), ListBlocks(nodes, chain), SymBlocks(records, sym),
                        SymBlocks(records, dsym), leaked, {});
        PartWithin(live, parts, STRTABS);
        PartExchanged(live, parts, STRTABS, {});
        FreeList(strtab, chain);
        NoRecords(headers, file, nodes);
        strtab, chain := NULL, [];
        assert live + {} == live;
      }
    }

    /** Releasing the two header tables. */
    method FreeHeaders()
      requires Valid()
      modifies this`shdr, this`phdr, this`live
      ensures Valid() && shdr == NULL && phdr == NULL
    {
      hide Partition, GoodList, Lists, ListBlocks, SymBlocks, PartList, SymOk;
      if shdr != NULL {
        ghost var parts := Parts();
        PartListUpdated({block}, Ptr(phdr), Ptr(shdr), ListBlocks(nodes, chain), SymBlocks(records, sym),
                        SymBlocks(records, dsym), leaked, {});
        PartExchanged(live, parts, SHDR, {});
        Free(shdr);
        shdr := NULL;
        assert live + {} == live;
      }
      if phdr != NULL {
        ghost var parts := Parts();
        PartListUpdated({block}, Ptr(phdr), Ptr(shdr), ListBlocks(nodes, chain), SymBlocks(records, sym),
                        SymBlocks(records, dsym), leaked, {});
        PartExchanged(live, parts, PHDR, {});
        Free(phdr);
        phdr := NULL;
        assert live + {} == live;
      }
    }

    /** The five frees that elf_load_all's error path and elf_close share. */
    method FreeTables()
      requires Valid()
      modifies this`phdr, this`shdr, this`strtab, this`sym, this`dsym, this`live, this`chain, this`leaked
      ensures Valid() && phdr == NULL && shdr == NULL && strtab == NULL && sym == NULL && dsym == NULL
      ensures leaked == old(leaked) + old(SymbolOf(records, dsym)) + old(SymbolOf(records, sym))
      ensures live == {block} + leaked && block !in leaked
    {
      hide Partition, GoodList, Lists, ListBlocks, SymBlocks, Ptr, PartList, SymOk, SymbolOf;
      FreeDsym();
      FreeSym();
      FreeStrtab();
      FreeHeaders();
      OnlyHandle(live, block, leaked, nodes, chain, records) by {
        EmptyList(nodes, chain);
      }
    }

    lemma NoLoss(p: nat, kind: int, junk: nat)
      requires kind == SHT_SYMTAB || kind == SHT_DYNSYM
      ensures Smooth() ==> !failing && StrtabLoss() == 0 && SymtabLoss(p, kind, junk) == 0
    {
      hide Fits, FirstOf, HasTables, TablesFit;
    }

    ghost predicate NothingLoaded()
      reads this
    {
      phdr == NULL && shdr == NULL && strtab == NULL && sym == NULL && dsym == NULL
    }

    /** The three required tables of elf_load_all. */
    method GetRequired() returns (ok: bool, ghost lost: set<nat>)
      requires Valid()
      modifies this`phdr, this`shdr, this`strtab, this`live, this`next, this`nodes, this`chain, this`leaked
      ensures next >= old(next) && Since(lost, old(next))
      ensures Valid() && (ok ==> phdr != NULL && shdr != NULL && strtab != NULL && CanAll())
      ensures !failing ==> (ok <==> CanAll())
      ensures Kept(old(phdr), phdr) && Kept(old(shdr), shdr)
      ensures old(strtab) != NULL ==> strtab == old(strtab) && nodes == old(nodes) && chain == old(chain)
      ensures leaked == old(leaked) + lost && |lost| <= 2 && (ok || Smooth() ==> lost == {})
      ensures !failing ==> |lost| == if HasPhdr() then old(StrtabLoss()) else 0
    {
      hide Sound, Valid, HasTables, Smooth;
      ok, lost := false, {};
      var p := GetPhdr();
      if p == NULL {
        return;
      }
      p := GetShdr();
      if p == NULL {
        return;
      }
      NoLoss(sym, SHT_SYMTAB, NULL);
      p, lost := GetStrtab();
      ok := p != NULL;
    }

    /** The two optional tables of elf_load_all. */
    method GetBoth(junk1: nat, junk2: nat, garbage: Byte) returns (ghost lost: set<nat>)
      requires Valid() && strtab != NULL
      modifies this`sym, this`dsym, this`shdr, this`strtab, this`live, this`next, this`nodes, this`chain
      modifies this`leaked, this`records
      ensures Valid() && next >= old(next) && Since(lost, old(next))
      ensures strtab == old(strtab) && nodes == old(nodes) && chain == old(chain)
      ensures Kept(old(shdr), shdr) && Kept(old(sym), sym) && Kept(old(dsym), dsym)
      ensures old(sym) == NULL && sym != NULL ==> CanSymtab(SHT_SYMTAB, junk1)
      ensures old(dsym) == NULL && dsym != NULL ==> CanSymtab(SHT_DYNSYM, junk2)
      ensures !failing && old(sym) == NULL ==> (sym != NULL <==> CanSymtab(SHT_SYMTAB, junk1))
      ensures !failing && old(dsym) == NULL ==> (dsym != NULL <==> CanSymtab(SHT_DYNSYM, junk2))
      ensures leaked == old(leaked) + lost && |lost| + Gain(old(sym), sym) + Gain(old(dsym), dsym) <= 2
      ensures Smooth() ==> lost == {}
      ensures Grows(old(records), records)
    {
      hide Sound, Valid, Smooth, SymtabLoss, CanSymtab;
      var s, d;
      ghost var lost1, lost2;
      NoLoss(sym, SHT_SYMTAB, junk1);
      s, lost1 := GetSymtab(junk1, garbage);
      NoLoss(dsym, SHT_DYNSYM, junk2);
      d, lost2 := GetDsymtab(junk2, garbage);
      lost := lost1 + lost2;
    }

    /** elf_load_all. On failure nothing is loaded and every block is free but the handle's own and the lost
        ones; these are at most two of the string tables', and the blocks of symbols of what was loaded. */
    method GetAll(junk1: nat, junk2: nat, garbage: Byte) returns (ok: bool, ghost lost: set<nat>)
      requires Valid()
      modifies this
      ensures Valid()
      ensures ok ==> phdr != NULL && shdr != NULL && strtab != NULL && CanAll()
      ensures !failing ==> (ok <==> CanAll())
      ensures ok && old(sym) == NULL && sym != NULL ==> CanSymtab(SHT_SYMTAB, junk1)
      ensures ok && old(dsym) == NULL && dsym != NULL ==> CanSymtab(SHT_DYNSYM, junk2)
      ensures !failing && ok && old(sym) == NULL ==> (sym != NULL <==> CanSymtab(SHT_SYMTAB, junk1))
      ensures !failing && ok && old(dsym) == NULL ==> (dsym != NULL <==> CanSymtab(SHT_DYNSYM, junk2))
      ensures !ok ==> NothingLoaded() && live == {block} + leaked && block !in leaked
      ensures !ok ==> leaked == old(leaked) + lost + old(SymbolOf(records, dsym)) + old(SymbolOf(records, sym))
      ensures ok ==> leaked == old(leaked) + lost
      ensures ok ==> |lost| + Gain(old(sym), sym) + Gain(old(dsym), dsym) <= 2
      ensures |lost| <= 2 && (Smooth() ==> lost == {}) && Since(lost, old(next))
      ensures !failing && !ok ==> |lost| == if HasPhdr() then old(StrtabLoss()) else 0
      ensures ok ==> Kept(old(phdr), phdr) && Kept(old(shdr), shdr) && Kept(old(sym), sym) && Kept(old(dsym), dsym)
      ensures ok && old(strtab) != NULL ==> strtab == old(strtab) && nodes == old(nodes) && chain == old(chain)
      ensures Grows(old(records), records)
    {
      hide Sound, Valid, Smooth, CanAll, CanSymtab, SymbolOf;
      ok, lost := GetRequired();
      if !ok {
        FreeTables();
        return;
      }
      lost := GetBoth(junk1, junk2, garbage);
    }

    /** elf_close: everything is freed except the blocks that were lost before, and the blocks of symbols. */
    method Close()
      requires Valid()
      modifies this`phdr, this`shdr, this`strtab, this`sym, this`dsym, this`live, this`chain, this`leaked
      ensures live == leaked
      ensures leaked == old(leaked) + old(SymbolOf(records, dsym)) + old(SymbolOf(records, sym))
    {
      hide GoodList, Lists, SymOk, SymbolOf;
      FreeTables();
      Free(block);
    }

    /** One call of a load function. Either elf_load_all fails, nothing stays loaded, and only the handle's own
        block and lost ones stay in use; or all that is loaded stays loaded, with the records unchanged. Each
        call loses at most two blocks, a new block of symbols counted as one. */
    method Use(call: Call, junk1: nat, junk2: nat, garbage: Byte) returns (ghost lost: set<nat>)
      requires Valid()
      modifies this
      ensures Valid() && |lost| <= 2 && (Smooth() ==> lost == {}) && Since(lost, old(next))
      ensures Grows(old(records), records)
      ensures
        || (&& call.LoadAll? && NothingLoaded() && (failing || !CanAll())
            && live == {block} + leaked && block !in leaked
            && leaked == old(leaked) + lost + old(SymbolOf(records, dsym)) + old(SymbolOf(records, sym)))
        || (&& Kept(old(phdr), phdr) && Kept(old(shdr), shdr) && Kept(old(sym), sym) && Kept(old(dsym), dsym)
            && (old(strtab) != NULL ==> strtab == old(strtab) && nodes == old(nodes) && chain == old(chain))
            && leaked == old(leaked) + lost
            && |lost| + Gain(old(sym), sym) + Gain(old(dsym), dsym) <= 2)
    {
      hide Partition, GoodList, Lists, ListBlocks, SymBlocks, Ptr, PartList, SymOk, SymbolOf, HasTables, TablesFit,
           FirstOf, IsTable, Fits;
      var p;
      lost := {};
      match call
      case LoadPhdr => p := GetPhdr();
      case LoadShdr => p := GetShdr();
      case LoadStrtab => p, lost := GetStrtab();
      case LoadSymtab => p, lost := GetSymtab(junk1, garbage);
      case LoadDsymtab => p, lost := GetDsymtab(junk2, garbage);
      case LoadAll =>
        var ok;
        ok, lost := GetAll(junk1, junk2, garbage);
    }
  }

  predicate Kept(before: nat, after: nat) {
    before != NULL ==> after == before
  }

  /** A symbol table loaded where there was none. */
  function Gain(before: nat, after: nat): nat {
    if before == NULL && after != NULL then 1 else 0
  }

  // ----- a handle's life -----

  /** The blocks lost so far, and those that closing the handle will lose. */
  ghost function Burden(leaked: set<nat>, records: Records, sym: nat, dsym: nat): nat {
    |leaked| + |SymbolOf(records, sym)| + |SymbolOf(records, dsym)|
  }

  lemma UnionCount(a: set<nat>, b: set<nat>)
    ensures |a + b| <= |a| + |b|
  {
  }

  lemma SymbolCounted(r1: Records, r2: Records, p: nat, q: nat)
    requires Grows(r1, r2) && RecordOk(r1, p) && Kept(p, q)
    ensures |SymbolOf(r2, q)| <= |SymbolOf(r1, p)| + Gain(p, q)
  {
  }

  /** One call adds at most two blocks to what is or will be lost; a failing elf_load_all takes the blocks of
      symbols over into the lost ones. */
  lemma BurdenGrows(leaked0: set<nat>, records0: Records, sym0: nat, dsym0: nat,
                    leaked1: set<nat>, records1: Records, sym1: nat, dsym1: nat, lost: set<nat>)
    requires Grows(records0, records1) && RecordOk(records0, sym0) && RecordOk(records0, dsym0)
    requires
      || (&& sym1 == NULL && dsym1 == NULL && |lost| <= 2
          && leaked1 == leaked0 + lost + SymbolOf(records0, dsym0) + SymbolOf(records0, sym0))
      || (&& Kept(sym0, sym1) && Kept(dsym0, dsym1) && leaked1 == leaked0 + lost
          && |lost| + Gain(sym0, sym1) + Gain(dsym0, dsym1) <= 2)
    ensures Burden(leaked1, records1, sym1, dsym1) <= Burden(leaked0, records0, sym0, dsym0) + 2
  {
    UnionCount(leaked0, lost);
    if leaked1 == leaked0 + lost && Kept(sym0, sym1) && Kept(dsym0, dsym1) {
      SymbolCounted(records0, records1, sym0, sym1);
      SymbolCounted(records0, records1, dsym0, dsym1);
    } else {
      UnionCount(leaked0 + lost, SymbolOf(records0, dsym0));
      UnionCount(leaked0 + lost + SymbolOf(records0, dsym0), SymbolOf(records0, sym0));
    }
  }

  lemma NoBurden(records: Records)
    ensures Burden({}, records, NULL, NULL) == 0
  {
  }

  /** What closing leaves. */
  lemma BurdenTaken(leaked: set<nat>, records: Records, sym: nat, dsym: nat)
    ensures var left := leaked + SymbolOf(records, dsym) + SymbolOf(records, sym);
      && |left| <= Burden(leaked, records, sym, dsym) && (leaked == {} ==> |left| <= 2)
      && (leaked <= SymbolBlocks(records) ==> left <= SymbolBlocks(records))
  {
    UnionCount(leaked, SymbolOf(records, dsym));
    UnionCount(leaked + SymbolOf(records, dsym), SymbolOf(records, sym));
    SymbolInBlocks(records, sym);
    SymbolInBlocks(records, dsym);
  }

  lemma SymbolInBlocks(records: Records, p: nat)
    ensures SymbolOf(records, p) <= SymbolBlocks(records)
  {
  }

  lemma BlocksGrow(r1: Records, r2: Records)
    requires Grows(r1, r2)
    ensures SymbolBlocks(r1) <= SymbolBlocks(r2)
  {
    forall p | p in r1
      ensures r1[p].symbol in SymbolBlocks(r2)
    {
      assert r2[p] == r1[p];
    }
  }

  /** A handle's life: opened, used in any way, closed. Nothing is freed twice or read after it was freed. What
      is left in use is what was lost, at most two blocks a call. If nothing fails and the sections lie within
      the file it is blocks of symbols and nothing else, and if moreover elf_load_all can succeed at most one for
      each of the two symbol tables. */
  method Lifetime(headers: seq<Header>, phnum: int, clazzOk: bool, clazz: Class, file: seq<Byte>, failing: bool,
                  calls: seq<Call>, junk: seq<nat>, garbage: Byte)
      returns (h: Handle)
    requires |junk| == 2 * |calls|
    ensures h.headers == headers && h.phnum == phnum && h.clazzOk == clazzOk && h.file == file && h.failing == failing
    ensures h.live == h.leaked && |h.live| <= 2 * |calls|
    ensures h.Smooth() ==> h.live <= SymbolBlocks(h.records)
    ensures h.Smooth() && h.CanAll() ==> |h.live| <= 2
  {
    hide Partition, GoodList, Lists, Decoded, Names, FirstOf, HasTables, TablesFit, IsTable, Fits, SymbolOf,
         SymbolBlocks, Grows, RecordOk, Burden, Ptr, PartList;
    h := new Handle(headers, phnum, clazzOk, clazz, file, failing);
    NoBurden(h.records);
    for i := 0 to |calls|
      invariant h.Valid() && fresh(h)
      invariant h.headers == headers && h.phnum == phnum && h.clazzOk == clazzOk && h.file == file
      invariant h.failing == failing
      invariant Burden(h.leaked, h.records, h.sym, h.dsym) <= 2 * i
      invariant h.Smooth() ==> h.leaked <= SymbolBlocks(h.records)
      invariant h.Smooth() && h.CanAll() ==> h.leaked == {}
    {
      ghost var leaked, records, sym, dsym := h.leaked, h.records, h.sym, h.dsym;
      ghost var lost := h.Use(calls[i], junk[2 * i], junk[2 * i + 1], garbage);
      BurdenGrows(leaked, records, sym, dsym, h.leaked, h.records, h.sym, h.dsym, lost);
      BlocksGrow(records, h.records);
      SymbolInBlocks(records, sym);
      SymbolInBlocks(records, dsym);
    }
    BurdenTaken(h.leaked, h.records, h.sym, h.dsym);
    h.Close();
  }

  /** When every table is NULL only the handle's own block and the lost ones are in use. */
  lemma OnlyHandle(live: set<nat>, block: nat, leaked: set<nat>, nodes: Nodes, chain: seq<nat>, records: Records)
    requires chain == []
    requires Partition(live, PartList({block}, Ptr(NULL), Ptr(NULL), ListBlocks(nodes, chain), SymBlocks(records, NULL),
                                      SymBlocks(records, NULL), leaked))
    ensures live == {block} + leaked && block !in leaked
  {
    var parts := PartList({block}, {}, {}, {}, {}, {}, leaked);
    assert parts[0] == {block} && parts[6] == leaked;
    assert parts[0] !! parts[6];
    forall x
      ensures x in live <==> x == block || x in leaked
    {
      if x == block {
        assert x in parts[0];
      }
      if x in leaked {
        assert x in parts[6];
      }
    }
  }

  lemma NoSymBlocks(r: Records)
    ensures SymBlocks(r, NULL) == {}
  {
  }

  lemma NewSymBlocks(r: Records, p: nat)
    requires p in r && p != NULL && r[p].symbol != p
    ensures SymBlocks(r, p) == {p, r[p].symbol} && RecordOk(r, p)
  {
  }

  lemma SymKept(r1: Records, r2: Records, q: nat)
    requires Grows(r1, r2) && RecordOk(r1, q)
    ensures SymBlocks(r2, q) == SymBlocks(r1, q) && RecordOk(r2, q)
    ensures q != NULL ==> r2[q] == r1[q]
  {
  }

  // ----- lists under construction -----

  /** The records of a list are blocks of it. */
  lemma ListBelow(nodes: Nodes, chain: seq<nat>, n: nat)
    requires (forall r :: r in chain ==> r in nodes) && forall b :: b in ListBlocks(nodes, chain) ==> b < n
    ensures forall q :: q in chain ==> q < n
  {
    forall q | q in chain
      ensures q < n
    {
      InBlocks(nodes, chain, q);
    }
  }

  lemma NoRecords(headers: seq<Header>, file: seq<Byte>, nodes: Nodes)
    ensures GoodList(nodes, NULL, []) && Lists(headers, file, nodes, [], 0) && ListBlocks(nodes, []) == {}
  {
  }

  lemma EmptyList(nodes: Nodes, chain: seq<nat>)
    requires GoodList(nodes, NULL, chain)
    ensures chain == []
  {
  }

  lemma ListEmptyIff(nodes: Nodes, list: nat, chain: seq<nat>)
    requires GoodList(nodes, list, chain)
    ensures list == NULL <==> chain == []
  {
  }

  lemma NotListed(headers: seq<Header>, file: seq<Byte>, nodes: Nodes, own: seq<nat>, i: nat)
    requires i < |headers| && headers[i].kind != SHT_STRTAB && Lists(headers, file, nodes, own, i)
    ensures Lists(headers, file, nodes, own, i + 1)
  {
  }

  /** A list is not disturbed by records written to newer blocks. */
  lemma RecordsKept(n1: Nodes, n2: Nodes, list: nat, own: seq<nat>,
                    headers: seq<Header>, file: seq<Byte>, i: nat, bound: nat)
    requires GoodList(n1, list, own) && i <= |headers| && Lists(headers, file, n1, own, i)
    requires (forall b :: b in ListBlocks(n1, own) ==> b < bound) && Keeps(n1, n2, bound)
    ensures GoodList(n2, list, own) && Lists(headers, file, n2, own, i)
    ensures ListBlocks(n2, own) == ListBlocks(n1, own)
  {
    ListBelow(n1, own, bound);
    SameRecords(n1, n2, list, own);
    SameLists(headers, file, n1, n2, own, i);
  }

  lemma KeepsSelf(n: Nodes, b: nat)
    ensures Keeps(n, n, b)
  {
  }

  lemma KeepsJoins(n1: Nodes, n2: Nodes, n3: Nodes, b1: nat, b2: nat)
    requires Keeps(n1, n2, b1) && Keeps(n2, n3, b2) && b1 <= b2
    ensures Keeps(n1, n3, b1)
  {
  }

  /** A new record in front of the list. */
  lemma Prepended(headers: seq<Header>, file: seq<Byte>, nodes: Nodes, list: nat, own: seq<nat>, i: nat,
                  curr: nat)
    requires GoodList(nodes, list, own) && i < |headers| && Lists(headers, file, nodes, own, i)
    requires headers[i].kind == SHT_STRTAB && Fits(headers[i], file)
    requires curr != NULL && curr in nodes && At(nodes, curr).data != NULL && At(nodes, curr).data != curr
    requires {curr, At(nodes, curr).data} !! ListBlocks(nodes, own)
    requires At(nodes, curr).id == i && At(nodes, curr).next == list
    requires At(nodes, curr).bytes == Content(headers[i], file)
    ensures GoodList(nodes, curr, [curr] + own) && Lists(headers, file, nodes, [curr] + own, i + 1)
    ensures ListBlocks(nodes, [curr] + own) == {curr, At(nodes, curr).data} + ListBlocks(nodes, own)
  {
  }

  /** One part grows by new blocks. */
  lemma PartLost(whole: set<nat>, parts: seq<set<nat>>, i: nat, lost: set<nat>)
    requires Partition(whole, parts) && i < |parts| && whole !! lost
    ensures Partition(whole + lost, parts[i := parts[i] + lost])
    ensures parts[i] !! lost
  {
    hide Partition;
    PartWithin(whole, parts, i);
    PartExchanged(whole, parts, i, parts[i] + lost);
    assert whole - parts[i] + (parts[i] + lost) == whole + lost;
  }

  lemma PartWithin(whole: set<nat>, parts: seq<set<nat>>, i: nat)
    requires Partition(whole, parts) && i < |parts|
    ensures parts[i] <= whole
  {
  }
}
