/** Lifting the traps again: the loop of sdb_disasm that pokes every saved word back. */
module Unpatching {
  import opened Words
  import opened Machine
  import opened Ptrace
  import opened Breakpoints

  /** The saved words of slots i, i+1, ... poked back in ascending order, at the addresses as given. */
  function UnpatchFrom(slots: seq<Slot>, t: Process, i: nat): Process
    requires i <= |slots|
    decreases |slots| - i
  {
    if i == |slots| then t
    else UnpatchFrom(slots, if slots[i].used then Poke(t, slots[i].addr, slots[i].word) else t, i + 1)
  }

  /** The same pokes in descending order, from slot n-1 down to slot 0. */
  function UnpatchDown(slots: seq<Slot>, t: Process, n: nat): Process
    requires n <= |slots|
    decreases n
  {
    if n == 0 then t
    else UnpatchDown(slots, if slots[n - 1].used then Poke(t, slots[n - 1].addr, slots[n - 1].word) else t, n - 1)
  }

  predicate Covers(s: Slot, x: nat) {
    s.used && s.addr <= x < s.addr + 8
  }

  /** The last of the slots from i on whose word covers x, or -1. */
  function LastCover(slots: seq<Slot>, x: nat, i: nat): (j: int)
    requires i <= |slots|
    ensures j == -1 || (i <= j < |slots| && Covers(slots[j], x))
    ensures forall k :: i <= k < |slots| && Covers(slots[k], x) ==> k <= j
    decreases |slots| - i
  {
    if i == |slots| then -1
    else
      var j := LastCover(slots, x, i + 1);
      if j != -1 then j else if Covers(slots[i], x) then i else -1
  }

  /** The first of the slots below n whose word covers x, or -1. */
  function FirstCover(slots: seq<Slot>, x: nat, n: nat): (j: int)
    requires n <= |slots|
    ensures j == -1 || (0 <= j < n && Covers(slots[j], x))
    ensures forall k :: 0 <= k < n && Covers(slots[k], x) ==> 0 <= j <= k
  {
    if n == 0 then -1
    else
      var j := FirstCover(slots, x, n - 1);
      if j != -1 then j else if Covers(slots[n - 1], x) then n - 1 else -1
  }

  /** What one poke does, byte by byte. */
  lemma PokeByte(t: Process, s: Slot, x: nat)
    requires t.Live? && x in t.mem && (s.used ==> Mapped(t.mem, s.addr))
    ensures var r := if s.used then Poke(t, s.addr, s.word) else t;
      && r.Live? && r.st == t.st && r.mem.Keys == t.mem.Keys
      && r.mem[x] == if Covers(s, x) then ByteOf(s.word, x - s.addr) else t.mem[x]
  {
  }

  function Covered(slots: seq<Slot>, j: int, x: nat, otherwise: Byte): Byte
    requires j == -1 || (0 <= j < |slots| && Covers(slots[j], x))
  {
    if j == -1 then otherwise else ByteOf(slots[j].word, x - slots[j].addr)
  }

  /** Ascending pokes leave at x what the last covering word says. */
  lemma {:induction false} UnpatchByte(slots: seq<Slot>, t: Process, i: nat, x: nat)
    requires i <= |slots| && t.Live? && SitesMapped(slots, 0, t.mem) && x in t.mem
    ensures var r := UnpatchFrom(slots, t, i);
      && r.Live? && r.st == t.st && r.mem.Keys == t.mem.Keys
      && r.mem[x] == Covered(slots, LastCover(slots, x, i), x, t.mem[x])
    decreases |slots| - i
  {
    hide ByteOf, Poke;
    if i < |slots| {
      PokeByte(t, slots[i], x);
      UnpatchByte(slots, if slots[i].used then Poke(t, slots[i].addr, slots[i].word) else t, i + 1, x);
    }
  }

  /** Descending pokes leave at x what the first covering word says. */
  lemma {:induction false} UnpatchDownByte(slots: seq<Slot>, t: Process, n: nat, x: nat)
    requires n <= |slots| && t.Live? && SitesMapped(slots, 0, t.mem) && x in t.mem
    ensures var r := UnpatchDown(slots, t, n);
      && r.Live? && r.st == t.st && r.mem.Keys == t.mem.Keys
      && r.mem[x] == Covered(slots, FirstCover(slots, x, n), x, t.mem[x])
    decreases n
  {
    hide ByteOf, Poke;
    if n > 0 {
      PokeByte(t, slots[n - 1], x);
      UnpatchDownByte(slots, if slots[n - 1].used then Poke(t, slots[n - 1].addr, slots[n - 1].word) else t, n - 1, x);
    }
  }

  // ----- fresh text, patched once -----

  /** Distinct sites on mapped bytes that are no traps, none of them under rip. */
  ghost predicate FreshSites(slots: seq<Slot>, text: Memory, rip: nat) {
    && SitesMapped(slots, 0, text)
    && (forall k :: 0 <= k < |slots| && slots[k].used ==> text[slots[k].addr] != TRAP && rip != slots[k].addr)
    && (forall i, j :: 0 <= i < j < |slots| && slots[i].used && slots[j].used ==> slots[i].addr != slots[j].addr)
  }

  /** No later slot's word covers the site of an earlier one. */
  ghost predicate NoLaterWordOver(slots: seq<Slot>) {
    forall i, j :: 0 <= i < j < |slots| && slots[i].used && slots[j].used ==> !(0 < slots[i].addr - slots[j].addr < 8)
  }

  /** After the patch pass on fresh text slot j holds the text with the traps of the slots before it. */
  lemma PatchedWord(cpu: Cpu, slots: seq<Slot>, text: Memory, st: State, j: nat, x: nat)
    requires FreshSites(slots, text, st.rip) && j < |slots| && Covers(slots[j], x)
    ensures var r := PatchFrom(cpu, 0, slots, Live(text, st), 0);
      && r.1 == Live(Overlay(text, Used(slots, 0)), st)
      && x in text
      && ByteOf(r.0[j].word, x - slots[j].addr) == Overlay(text, UsedIn(slots, 0, 0, j))[x]
  {
    hide Load, Store, IsTrapWord, TrapWord, Step, PatchFrom, ByteOf;
    assert st.rip !in Used(slots, 0);
    PatchQuiet(cpu, 0, slots, Live(text, st), 0);
    PatchWords(cpu, 0, slots, Live(text, st), 0, j);
    var before := Overlay(text, UsedIn(slots, 0, 0, j));
    assert slots[j].addr !in UsedIn(slots, 0, 0, j);
    ByteOfLoad(before, slots[j].addr, x - slots[j].addr);
  }

  lemma AscendingRestores(cpu: Cpu, slots: seq<Slot>, text: Memory, st: State)
    requires FreshSites(slots, text, st.rip) && NoLaterWordOver(slots)
    ensures var r := PatchFrom(cpu, 0, slots, Live(text, st), 0);
      UnpatchFrom(r.0, r.1, 0) == Live(text, st)
  {
    hide Load, Store, IsTrapWord, TrapWord, Step, PatchFrom, ByteOf, UnpatchFrom;
    var r := PatchFrom(cpu, 0, slots, Live(text, st), 0);
    PatchQuiet(cpu, 0, slots, Live(text, st), 0);
    var u := UnpatchFrom(r.0, r.1, 0);
    UnpatchShape(r.0, r.1, 0);
    forall x | x in text
      ensures u.mem[x] == text[x]
    {
      UnpatchByte(r.0, r.1, 0, x);
      var j := LastCover(r.0, x, 0);
      if j != -1 {
        PatchedWord(cpu, slots, text, st, j, x);
      } else {
        assert forall k :: 0 <= k < |slots| && slots[k].used ==> Covers(r.0[k], Where(slots[k], 0));
      }
    }
    assert u.mem == text;
  }

  /** If the word of slot j > i covers the site of slot i, ascending pokes leave a trap at that site. */
  lemma LaterWordLeavesTrap(cpu: Cpu, slots: seq<Slot>, text: Memory, st: State, i: nat, j: nat)
    requires FreshSites(slots, text, st.rip)
    requires i < j < |slots| && slots[i].used && slots[j].used && 0 < slots[i].addr - slots[j].addr < 8
    ensures var r := PatchFrom(cpu, 0, slots, Live(text, st), 0);
      var u := UnpatchFrom(r.0, r.1, 0);
      u.Live? && slots[i].addr in u.mem && u.mem[slots[i].addr] == TRAP
  {
    hide Load, Store, IsTrapWord, TrapWord, Step, PatchFrom, ByteOf, UnpatchFrom;
    var r := PatchFrom(cpu, 0, slots, Live(text, st), 0);
    PatchQuiet(cpu, 0, slots, Live(text, st), 0);
    var x := slots[i].addr;
    assert Covers(r.0[j], x);
    UnpatchByte(r.0, r.1, 0, x);
    var l := LastCover(r.0, x, 0);
    PatchedWord(cpu, slots, text, st, l, x);
    assert x == Where(slots[i], 0);
    assert x in UsedIn(slots, 0, 0, l);
  }

  /** The listing loop's ascending pokes give the text back exactly when no later word covers an earlier site. */
  lemma AscendingRestoresIff(cpu: Cpu, slots: seq<Slot>, text: Memory, st: State)
    requires FreshSites(slots, text, st.rip)
    ensures var r := PatchFrom(cpu, 0, slots, Live(text, st), 0);
      UnpatchFrom(r.0, r.1, 0) == Live(text, st) <==> NoLaterWordOver(slots)
  {
    hide Step, PatchFrom, UnpatchFrom;
    if NoLaterWordOver(slots) {
      AscendingRestores(cpu, slots, text, st);
    } else {
      var i, j :| 0 <= i < j < |slots| && slots[i].used && slots[j].used && 0 < slots[i].addr - slots[j].addr < 8;
      LaterWordLeavesTrap(cpu, slots, text, st, i, j);
    }
  }

  /** The pokes never move the process or unmap a byte. */
  lemma {:induction false} UnpatchShape(slots: seq<Slot>, t: Process, i: nat)
    requires i <= |slots| && t.Live? && SitesMapped(slots, 0, t.mem)
    ensures UnpatchFrom(slots, t, i).Live? && UnpatchFrom(slots, t, i).st == t.st
    ensures UnpatchFrom(slots, t, i).mem.Keys == t.mem.Keys
    decreases |slots| - i
  {
    hide ByteOf;
    if i < |slots| {
      UnpatchShape(slots, if slots[i].used then Poke(t, slots[i].addr, slots[i].word) else t, i + 1);
    }
  }

  lemma {:induction false} UnpatchDownShape(slots: seq<Slot>, t: Process, n: nat)
    requires n <= |slots| && t.Live? && SitesMapped(slots, 0, t.mem)
    ensures UnpatchDown(slots, t, n).Live? && UnpatchDown(slots, t, n).st == t.st
    ensures UnpatchDown(slots, t, n).mem.Keys == t.mem.Keys
    decreases n
  {
    hide ByteOf;
    if n > 0 {
      UnpatchDownShape(slots, if slots[n - 1].used then Poke(t, slots[n - 1].addr, slots[n - 1].word) else t, n - 1);
    }
  }

  /** In descending order the same pokes always give the text back. */
  lemma DescendingRestores(cpu: Cpu, slots: seq<Slot>, text: Memory, st: State)
    requires FreshSites(slots, text, st.rip)
    ensures var r := PatchFrom(cpu, 0, slots, Live(text, st), 0);
      UnpatchDown(r.0, r.1, |slots|) == Live(text, st)
  {
    hide Load, Store, IsTrapWord, TrapWord, Step, PatchFrom, ByteOf, UnpatchDown;
    var r := PatchFrom(cpu, 0, slots, Live(text, st), 0);
    PatchQuiet(cpu, 0, slots, Live(text, st), 0);
    var u := UnpatchDown(r.0, r.1, |slots|);
    UnpatchDownShape(r.0, r.1, |slots|);
    forall x | x in text
      ensures u.mem[x] == text[x]
    {
      UnpatchDownByte(r.0, r.1, |slots|, x);
      var j := FirstCover(r.0, x, |slots|);
      if j == -1 {
        assert forall k :: 0 <= k < |slots| && slots[k].used ==> Covers(r.0[k], Where(slots[k], 0));
      } else {
        PatchedWord(cpu, slots, text, st, j, x);
        assert forall k :: 0 <= k < j && slots[k].used ==> Covers(r.0[k], Where(slots[k], 0));
      }
    }
    assert u.mem == text;
  }
}
