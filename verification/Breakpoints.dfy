/** The breakpoint table and the passes that plant and lift its traps. */
module Breakpoints {
  import opened Words
  import opened Machine
  import opened Ptrace

  const MAX_BREAK: nat := 10

  datatype Slot = Slot(used: bool, addr: nat, word: Word)

  /** Where the trap of a slot goes: the given address plus the load bias. */
  function Where(s: Slot, bias: nat): nat {
    s.addr + bias
  }

  /** The addresses of the used slots among lo..hi. */
  ghost function UsedIn(slots: seq<Slot>, bias: nat, lo: nat, hi: nat): set<nat>
    requires hi <= |slots|
  {
    set k | lo <= k < hi && slots[k].used :: Where(slots[k], bias)
  }

  ghost function Used(slots: seq<Slot>, bias: nat): set<nat> {
    UsedIn(slots, bias, 0, |slots|)
  }

  predicate SameSites(s1: seq<Slot>, s2: seq<Slot>) {
    && |s1| == |s2|
    && forall k :: 0 <= k < |s1| ==> s1[k].used == s2[k].used && s1[k].addr == s2[k].addr
  }

  // ----- planting -----

  function StepOff(cpu: Cpu, t: Process, a: nat): Process {
    if t.Live? && t.st.rip == a then SingleStep(cpu, t) else t
  }

  datatype Turn = Turn(slots: seq<Slot>, proc: Process, go: bool)

  /** One turn of the loop of sdb_patch_all_bp: step off the site if rip is there, and unless a trap is
      in place already save the word and plant one. A failing poke ends the pass. */
  function PatchSlot(cpu: Cpu, bias: nat, slots: seq<Slot>, t: Process, i: nat): (r: Turn)
    requires i < |slots|
    ensures SameSites(slots, r.slots)
    ensures forall k :: 0 <= k < |slots| && k != i ==> r.slots[k] == slots[k]
  {
    if !slots[i].used then Turn(slots, t, true)
    else
      var a := Where(slots[i], bias);
      var t1 := StepOff(cpu, t, a);
      var word := Peek(t1, a);
      if IsTrapWord(word) then Turn(slots, t1, true)
      else Turn(slots[i := slots[i].(word := word)], Poke(t1, a, TrapWord(word)), Accessible(t1, a))
  }

  /** sdb_patch_all_bp from slot i on. */
  function PatchFrom(cpu: Cpu, bias: nat, slots: seq<Slot>, t: Process, i: nat): (r: (seq<Slot>, Process))
    requires i <= |slots|
    ensures SameSites(slots, r.0)
    ensures forall k :: 0 <= k < i ==> r.0[k] == slots[k]
    decreases |slots| - i
  {
    if i == |slots| then (slots, t)
    else
      var turn := PatchSlot(cpu, bias, slots, t, i);
      if turn.go then PatchFrom(cpu, bias, turn.slots, turn.proc, i + 1) else (turn.slots, turn.proc)
  }

  ghost predicate SitesMapped(slots: seq<Slot>, bias: nat, mem: Memory) {
    forall k :: 0 <= k < |slots| && slots[k].used ==> Mapped(mem, Where(slots[k], bias))
  }

  lemma UsedSplit(slots: seq<Slot>, bias: nat, lo: nat, mid: nat, hi: nat)
    requires lo <= mid <= hi <= |slots|
    ensures UsedIn(slots, bias, lo, hi) == UsedIn(slots, bias, lo, mid) + UsedIn(slots, bias, mid, hi)
  {
  }

  lemma UsedSame(s1: seq<Slot>, s2: seq<Slot>, bias: nat, lo: nat, hi: nat)
    requires SameSites(s1, s2) && hi <= |s1|
    ensures UsedIn(s1, bias, lo, hi) == UsedIn(s2, bias, lo, hi)
  {
  }

  /** Peeking a word and poking it back with its low byte replaced plants one trap byte. */
  lemma PlantOne(t: Process, a: nat)
    requires Accessible(t, a)
    ensures IsTrapWord(Peek(t, a)) <==> t.mem[a] == TRAP
    ensures Poke(t, a, TrapWord(Peek(t, a))) == t.(mem := Overlay(t.mem, {a}))
  {
    TrapByLowByte(t.mem, a);
    StoreOfTrapWord(t.mem, a);
  }

  /** One turn on a process that survives it. */
  lemma PatchTurn(cpu: Cpu, bias: nat, slots: seq<Slot>, t: Process, i: nat)
    requires i < |slots| && t.Live? && (slots[i].used ==> Mapped(t.mem, Where(slots[i], bias)))
    requires slots[i].used ==> StepOff(cpu, t, Where(slots[i], bias)).Live?
    ensures var r := PatchSlot(cpu, bias, slots, t, i);
      && r.go && r.proc.Live?
      && r.proc.mem == Overlay(t.mem, UsedIn(slots, bias, i, i + 1))
      && r.proc.st == (if slots[i].used then StepOff(cpu, t, Where(slots[i], bias)).st else t.st)
      && r.slots[i].word == if !slots[i].used || t.mem[Where(slots[i], bias)] == TRAP then slots[i].word
                            else Load(t.mem, Where(slots[i], bias))
  {
    hide Load, Store, IsTrapWord, TrapWord, Step;
    if !slots[i].used {
      assert UsedIn(slots, bias, i, i + 1) == {};
    } else {
      var a := Where(slots[i], bias);
      assert UsedIn(slots, bias, i, i + 1) == {a};
      PlantOne(StepOff(cpu, t, a), a);
    }
  }

  /** Arming the site of slot i and then those up to hi is arming those of i..hi. */
  lemma ArmInTwo(mem: Memory, slots: seq<Slot>, slots1: seq<Slot>, bias: nat, i: nat, hi: nat)
    requires i < hi <= |slots| && SameSites(slots, slots1)
    ensures Overlay(Overlay(mem, UsedIn(slots, bias, i, i + 1)), UsedIn(slots1, bias, i + 1, hi))
         == Overlay(mem, UsedIn(slots, bias, i, hi))
  {
  }

  lemma ArmNone(mem: Memory, slots: seq<Slot>, bias: nat, i: nat)
    requires i <= |slots|
    ensures UsedIn(slots, bias, i, i) == {} && Overlay(mem, UsedIn(slots, bias, i, i)) == mem
  {
  }

  /** A process that survives the pass has a trap at every used site and is unchanged everywhere else,
      wherever rip was and however the words overlap. */
  lemma {:induction false} PatchMemory(cpu: Cpu, bias: nat, slots: seq<Slot>, t: Process, i: nat)
    requires i <= |slots| && t.Live? && SitesMapped(slots, bias, t.mem)
    ensures var r := PatchFrom(cpu, bias, slots, t, i);
      r.1.Live? ==> r.1.mem == Overlay(t.mem, UsedIn(slots, bias, i, |slots|))
    decreases |slots| - i
  {
    hide Load, Store, IsTrapWord, TrapWord, Step;
    if i == |slots| {
      ArmNone(t.mem, slots, bias, i);
    } else if slots[i].used && StepOff(cpu, t, Where(slots[i], bias)).Gone? {
      TurnOnDying(cpu, bias, slots, t, i);
    } else {
      PatchTurn(cpu, bias, slots, t, i);
      var r := PatchSlot(cpu, bias, slots, t, i);
      PatchMemory(cpu, bias, r.slots, r.proc, i + 1);
      ArmInTwo(t.mem, slots, r.slots, bias, i, |slots|);
    }
  }

  /** When stepping off a site ends the process the pass ends there. */
  lemma TurnOnDying(cpu: Cpu, bias: nat, slots: seq<Slot>, t: Process, i: nat)
    requires i < |slots| && slots[i].used && StepOff(cpu, t, Where(slots[i], bias)).Gone?
    ensures PatchFrom(cpu, bias, slots, t, i).1 == Gone
  {
  }

  /** The word a slot holds after its turn on memory mem. */
  function SavedWord(s: Slot, bias: nat, mem: Memory): Word
    requires Mapped(mem, Where(s, bias))
  {
    var a := Where(s, bias);
    if mem[a] == TRAP then s.word else Load(mem, a)
  }

  /** The saved words: each one is what memory held at its site when the turn came to it. */
  lemma {:induction false} PatchWords(cpu: Cpu, bias: nat, slots: seq<Slot>, t: Process, i: nat, k: nat)
    requires i <= k < |slots| && slots[k].used && t.Live? && SitesMapped(slots, bias, t.mem)
    requires PatchFrom(cpu, bias, slots, t, i).1.Live?
    ensures PatchFrom(cpu, bias, slots, t, i).0[k].word
         == SavedWord(slots[k], bias, Overlay(t.mem, UsedIn(slots, bias, i, k)))
    decreases |slots| - i
  {
    hide Load, Store, IsTrapWord, TrapWord, Step;
    if slots[i].used && StepOff(cpu, t, Where(slots[i], bias)).Gone? {
      TurnOnDying(cpu, bias, slots, t, i);
    } else {
      PatchTurn(cpu, bias, slots, t, i);
      var r := PatchSlot(cpu, bias, slots, t, i);
      if i == k {
        ArmNone(t.mem, slots, bias, i);
      } else {
        PatchWords(cpu, bias, r.slots, r.proc, i + 1, k);
        ArmInTwo(t.mem, slots, r.slots, bias, i, k);
      }
    }
  }

  /** Turns of slots whose sites rip is not at only plant traps. */
  lemma {:induction false} PatchPrefix(cpu: Cpu, bias: nat, slots: seq<Slot>, t: Process, i: nat, k: nat)
      returns (slots1: seq<Slot>, t1: Process)
    requires i <= k <= |slots| && t.Live? && SitesMapped(slots, bias, t.mem)
    requires t.st.rip !in UsedIn(slots, bias, i, k)
    ensures SameSites(slots, slots1) && t1 == Live(Overlay(t.mem, UsedIn(slots, bias, i, k)), t.st)
    ensures PatchFrom(cpu, bias, slots, t, i) == PatchFrom(cpu, bias, slots1, t1, k)
    decreases k - i
  {
    hide Load, Store, IsTrapWord, TrapWord, Step, PatchSlot;
    if i == k {
      ArmNone(t.mem, slots, bias, i);
      slots1, t1 := slots, t;
    } else {
      UsedSplit(slots, bias, i, i + 1, k);
      assert slots[i].used ==> Where(slots[i], bias) in UsedIn(slots, bias, i, i + 1);
      PatchTurn(cpu, bias, slots, t, i);
      var r := PatchSlot(cpu, bias, slots, t, i);
      UsedSame(slots, r.slots, bias, i + 1, k);
      slots1, t1 := PatchPrefix(cpu, bias, r.slots, r.proc, i + 1, k);
      ArmInTwo(t.mem, slots, r.slots, bias, i, k);
    }
  }

  /** With rip at no remaining site the pass does not move the process. */
  lemma PatchQuiet(cpu: Cpu, bias: nat, slots: seq<Slot>, t: Process, i: nat)
    requires i <= |slots| && t.Live? && SitesMapped(slots, bias, t.mem)
    requires t.st.rip !in UsedIn(slots, bias, i, |slots|)
    ensures PatchFrom(cpu, bias, slots, t, i).1 == Live(Overlay(t.mem, UsedIn(slots, bias, i, |slots|)), t.st)
  {
    hide Step, PatchSlot, UsedIn;
    var slots1, t1 := PatchPrefix(cpu, bias, slots, t, i, |slots|);
  }

  /** The turn of the slot under rip steps the process once; the turns after it, up to a slot whose site that
      step leads to or the end, only plant traps. */
  lemma PatchPast(cpu: Cpu, bias: nat, slots: seq<Slot>, t: Process, k: nat, j: nat, st: State)
      returns (slots1: seq<Slot>, t1: Process)
    requires k < j <= |slots| && t.Live? && SitesMapped(slots, bias, t.mem)
    requires slots[k].used && Where(slots[k], bias) == t.st.rip
    requires SingleStep(cpu, t) == Live(t.mem, st) && st.rip !in UsedIn(slots, bias, k + 1, j)
    ensures SameSites(slots, slots1) && t1 == Live(Overlay(t.mem, UsedIn(slots, bias, k, j)), st)
    ensures PatchFrom(cpu, bias, slots, t, k) == PatchFrom(cpu, bias, slots1, t1, j)
  {
    hide Load, Store, IsTrapWord, TrapWord, Step, PatchSlot, UsedIn;
    PatchTurn(cpu, bias, slots, t, k);
    var r := PatchSlot(cpu, bias, slots, t, k);
    UsedSame(slots, r.slots, bias, k + 1, j);
    slots1, t1 := PatchPrefix(cpu, bias, r.slots, r.proc, k + 1, j);
    ArmInTwo(t.mem, slots, r.slots, bias, k, j);
  }

  /** In particular, when that step leads to no later site. */
  lemma PatchUnderRip(cpu: Cpu, bias: nat, slots: seq<Slot>, t: Process, k: nat, st: State)
    requires k < |slots| && t.Live? && SitesMapped(slots, bias, t.mem)
    requires slots[k].used && Where(slots[k], bias) == t.st.rip
    requires SingleStep(cpu, t) == Live(t.mem, st) && st.rip !in UsedIn(slots, bias, k + 1, |slots|)
    ensures PatchFrom(cpu, bias, slots, t, k).1 == Live(Overlay(t.mem, UsedIn(slots, bias, k, |slots|)), st)
  {
    hide Step, PatchSlot, UsedIn;
    var slots1, t1 := PatchPast(cpu, bias, slots, t, k, |slots|, st);
  }

  /** Once every used site is armed, a pass from a state with rip at none of them changes nothing. */
  lemma {:induction false} PatchIdle(cpu: Cpu, bias: nat, slots: seq<Slot>, t: Process, i: nat)
    requires i <= |slots| && t.Live? && SitesMapped(slots, bias, t.mem)
    requires t.st.rip !in UsedIn(slots, bias, i, |slots|)
    requires forall a :: a in UsedIn(slots, bias, i, |slots|) ==> t.mem[a] == TRAP
    ensures PatchFrom(cpu, bias, slots, t, i) == (slots, t)
    decreases |slots| - i
  {
    hide Load, Store, IsTrapWord, TrapWord, Step;
    if i < |slots| {
      UsedSplit(slots, bias, i, i + 1, |slots|);
      if slots[i].used {
        var a := Where(slots[i], bias);
        assert a in UsedIn(slots, bias, i, i + 1);
        PlantOne(t, a);
      }
      PatchIdle(cpu, bias, slots, t, i + 1);
    }
  }

  /** The pass without any spacing of the sites: it arms every used site, touches no other byte, and a
      second pass touches nothing at all, neither memory nor a saved word. */
  lemma PatchTwice(cpu: Cpu, bias: nat, slots: seq<Slot>, t: Process)
    requires t.Live? && SitesMapped(slots, bias, t.mem)
    requires t.st.rip !in Used(slots, bias)
    ensures var r := PatchFrom(cpu, bias, slots, t, 0);
      && r.1 == Live(Overlay(t.mem, Used(slots, bias)), t.st)
      && PatchFrom(cpu, bias, r.0, r.1, 0) == r
  {
    hide Load, Store, IsTrapWord, TrapWord, Step;
    PatchQuiet(cpu, bias, slots, t, 0);
    var r := PatchFrom(cpu, bias, slots, t, 0);
    UsedSame(slots, r.0, bias, 0, |slots|);
    forall a | a in Used(slots, bias)
      ensures r.1.mem[a] == TRAP
    {
      assert Mapped(t.mem, a);
    }
    PatchIdle(cpu, bias, r.0, r.1, 0);
  }

  // ----- pokes that fail -----

  /** The first used site that is not mapped ends the pass: earlier sites are armed, the slot's word is the -1 of
      the failing peek, and later slots are left as they are. */
  lemma {:induction false} PatchUntilUnmapped(cpu: Cpu, bias: nat, slots: seq<Slot>, t: Process, i: nat, k: nat)
    requires i <= k < |slots| && t.Live? && slots[k].used && !Mapped(t.mem, Where(slots[k], bias))
    requires forall j :: i <= j < k && slots[j].used ==> Mapped(t.mem, Where(slots[j], bias))
    requires forall j :: i <= j <= k && slots[j].used ==> t.st.rip != Where(slots[j], bias)
    ensures var r := PatchFrom(cpu, bias, slots, t, i);
      && r.1 == Live(Overlay(t.mem, UsedIn(slots, bias, i, k)), t.st)
      && r.0[k].word == ALL_ONES && forall j :: k < j < |slots| ==> r.0[j] == slots[j]
    decreases k - i
  {
    hide Load, Store, TrapWord, Step, PatchSlot;
    if i == k {
      ArmNone(t.mem, slots, bias, i);
      UnmappedTurn(cpu, bias, slots, t, k);
    } else {
      PatchTurn(cpu, bias, slots, t, i);
      var r := PatchSlot(cpu, bias, slots, t, i);
      SameMapped(t.mem, UsedIn(slots, bias, i, i + 1));
      PatchUntilUnmapped(cpu, bias, r.slots, r.proc, i + 1, k);
      ArmInTwo(t.mem, slots, r.slots, bias, i, k);
    }
  }

  lemma UnmappedTurn(cpu: Cpu, bias: nat, slots: seq<Slot>, t: Process, i: nat)
    requires i < |slots| && slots[i].used && !Accessible(t, Where(slots[i], bias))
    requires t.Live? ==> t.st.rip != Where(slots[i], bias)
    ensures PatchSlot(cpu, bias, slots, t, i) == Turn(slots[i := slots[i].(word := ALL_ONES)], t, false)
  {
    hide Step;
    assert !IsTrapWord(ALL_ONES);
  }

  lemma SameMapped(mem: Memory, armed: set<nat>)
    ensures forall a :: Mapped(Overlay(mem, armed), a) <==> Mapped(mem, a)
  {
    forall a
      ensures Mapped(Overlay(mem, armed), a) <==> Mapped(mem, a)
    {
      assert forall x :: x in Overlay(mem, armed) <==> x in mem;
    }
  }

  /** Without a process the first used slot's word becomes that -1, and nothing else changes. */
  lemma {:induction false} PatchGone(cpu: Cpu, bias: nat, slots: seq<Slot>, i: nat)
    requires i <= |slots|
    ensures PatchFrom(cpu, bias, slots, Gone, i).1 == Gone
    ensures (forall j :: i <= j < |slots| ==> !slots[j].used) ==> PatchFrom(cpu, bias, slots, Gone, i).0 == slots
    ensures forall k :: i <= k < |slots| && slots[k].used && (forall j :: i <= j < k ==> !slots[j].used) ==>
      PatchFrom(cpu, bias, slots, Gone, i).0 == slots[k := slots[k].(word := ALL_ONES)]
    decreases |slots| - i
  {
    hide PatchSlot;
    if i < |slots| {
      if slots[i].used {
        UnmappedTurn(cpu, bias, slots, Gone, i);
      } else {
        SkippedTurn(cpu, bias, slots, Gone, i);
        PatchGone(cpu, bias, slots, i + 1);
      }
    }
  }

  lemma SkippedTurn(cpu: Cpu, bias: nat, slots: seq<Slot>, t: Process, i: nat)
    requires i < |slots| && !slots[i].used
    ensures PatchSlot(cpu, bias, slots, t, i) == Turn(slots, t, true)
  {
  }
}
