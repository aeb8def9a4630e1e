/** Where the debugger's transparency ends: each hypothesis of a session, and what happens without it. */
module Limits {
  import opened Words
  import opened Machine
  import opened Ptrace
  import opened Breakpoints
  import opened Unpatching
  import opened Listing
  import opened Debugger
  import opened Simulation
  import opened Transparency
  import opened Commands

  // ----- stepping off a site onto another -----

  /** With rip at a used site, the patch pass leaves the process in step one native step further exactly
      when that step leads to no used site. */
  lemma PatchKeepsIff(p: Image, slots: seq<Slot>, t: Process, armed: set<nat>, n: nat)
    requires WellBehaved(p) && Placed(p, slots) && Over(p, slots, t, armed, n)
    ensures var r := PatchFrom(p.cpu, p.bias, slots, t, 0);
      t.st.rip in Used(slots, p.bias) ==>
      match Native(p, n + 1)
      case Alive(_) => Synced(p, r.0, r.1, n + 1) <==> Calm(p, slots, t.st)
      case Finished(_) => r.1 == Gone
      case Broken => false
  {
    hide Step, PatchFrom, Sited, NativeWord;
    var r := PatchFrom(p.cpu, p.bias, slots, t, 0);
    PlacedSame(p, slots, r.0);
    UsedSited(p, slots, armed);
    if Calm(p, slots, t.st) {
      PatchCommand(p, Dbg(true, true, slots, t, 0), armed, n);
    } else if r.1.Live? {
      PatchMemory(p.cpu, p.bias, slots, t, 0);
      assert armed + Used(slots, p.bias) == Used(slots, p.bias);
      assert r.1.mem == Overlay(p.text, Used(slots, p.bias));
      ArmedIs(p, r.0, Used(slots, p.bias));
    }
  }

  /** For run and cont it is enough that the step leads to no later slot's site, and not less. */
  lemma ContinuePatchIff(p: Image, slots: seq<Slot>, t: Process, n: nat)
    requires WellBehaved(p) && Placed(p, slots) && Synced(p, slots, t, n)
    ensures var r := PatchFrom(p.cpu, p.bias, slots, t, 0);
      t.st.rip in Used(slots, p.bias) ==>
      match Native(p, n + 1)
      case Alive(_) => FullyArmed(p, r.0, r.1, n + 1) <==> CalmLater(p, slots, t.st)
      case Finished(_) => r.1 == Gone
      case Broken => false
  {
    hide Step, PatchFrom, Sited, NativeWord, UsedIn;
    var armed := ArmedIn(p, slots, t.mem);
    if CalmLater(p, slots, t.st) {
      PatchSyncs(p, slots, t, armed, n);
    } else {
      var k :| 0 <= k < |slots| && slots[k].used && Where(slots[k], p.bias) == t.st.rip
        && Native(p, n + 1).st.rip in UsedIn(slots, p.bias, k + 1, |slots|);
      var j := IndexIn(slots, p.bias, k + 1, |slots|, Native(p, n + 1).st.rip);
      PatchTrapsItself(p, slots, t, armed, k, j, n);
    }
  }

  lemma IndexIn(slots: seq<Slot>, bias: nat, lo: nat, hi: nat, a: nat) returns (j: nat)
    requires hi <= |slots| && a in UsedIn(slots, bias, lo, hi)
    ensures lo <= j < hi && slots[j].used && Where(slots[j], bias) == a
  {
    j :| lo <= j < hi && slots[j].used && Where(slots[j], bias) == a;
  }

  /** The step lands on the armed site of a later slot: that slot's own turn then executes the trap. */
  lemma PatchTrapsItself(p: Image, slots: seq<Slot>, t: Process, armed: set<nat>, k: nat, j: nat, n: nat)
    requires WellBehaved(p) && Placed(p, slots) && Over(p, slots, t, armed, n)
    requires k < j < |slots| && slots[k].used && slots[j].used && Where(slots[k], p.bias) == t.st.rip
    requires AtMostOneDisarmed(p, slots, armed)
    ensures var r := PatchFrom(p.cpu, p.bias, slots, t, 0);
      Native(p, n + 1).Alive? && Native(p, n + 1).st.rip == Where(slots[j], p.bias) ==>
        r.1.Live? && r.1.st == Native(p, n + 1).st.(rip := Where(slots[j], p.bias) + 1)
  {
    hide Step, PatchFrom, Sited, UsedIn, Native, NativeWord;
    UsedSited(p, slots, armed);
    SitesApart(p, slots, 0, k, k);
    var slots1, t1 := PatchPrefix(p.cpu, p.bias, slots, t, 0, k);
    PlacedSame(p, slots, slots1);
    var armed1 := armed + UsedIn(slots, p.bias, 0, k);
    PrefixUsed(slots, p.bias, k);
    assert t1.mem == Overlay(p.text, armed1);
    UsedSited(p, slots1, armed1);
    NativeStep(p, armed1, n);
    if Native(p, n + 1).Alive? && Native(p, n + 1).st.rip == Where(slots[j], p.bias) {
      WhereUsed(slots, p.bias, k);
      WhereUsed(slots, p.bias, j);
      DistinctSites(p, slots, k, j);
      PatchOntoTrap(p, slots1, t1, armed1, k, j, Native(p, n + 1).st);
    }
  }

  lemma PrefixUsed(slots: seq<Slot>, bias: nat, k: nat)
    requires k <= |slots|
    ensures UsedIn(slots, bias, 0, k) <= Used(slots, bias)
  {
  }

  lemma WhereUsed(slots: seq<Slot>, bias: nat, k: nat)
    requires k < |slots| && slots[k].used
    ensures Where(slots[k], bias) in Used(slots, bias)
  {
  }

  lemma DistinctSites(p: Image, slots: seq<Slot>, k: nat, j: nat)
    requires Placed(p, slots) && k < j < |slots| && slots[k].used && slots[j].used
    ensures Where(slots[k], p.bias) != Where(slots[j], p.bias)
  {
  }

  lemma PatchOntoTrap(p: Image, slots: seq<Slot>, t: Process, armed: set<nat>, k: nat, j: nat, st: State)
    requires Placed(p, slots) && armed <= Used(slots, p.bias)
    requires t.Live? && t.mem == Overlay(p.text, armed)
    requires k < j < |slots| && slots[k].used && slots[j].used && Where(slots[k], p.bias) == t.st.rip
    requires SingleStep(p.cpu, t) == Live(t.mem, st)
    requires st.rip == Where(slots[j], p.bias) && st.rip in armed
    ensures PatchFrom(p.cpu, p.bias, slots, t, k).1.Live?
    ensures PatchFrom(p.cpu, p.bias, slots, t, k).1.st == st.(rip := st.rip + 1)
  {
    hide Step, PatchFrom, Placed, UsedIn, SitesMapped, SingleStep;
    UsedSited(p, slots, armed);
    SitesApart(p, slots, k + 1, j, j);
    var slots1, t1 := PatchPast(p.cpu, p.bias, slots, t, k, j, st);
    PlacedSame(p, slots, slots1);
    ArmedByte(p, slots1, armed, UsedIn(slots, p.bias, k, j), j);
    TrapStep(p.cpu, t1);
    NextByteFree(p, slots1, j);
    PatchUnderRip(p.cpu, p.bias, slots1, t1, j, st.(rip := st.rip + 1));
  }

  lemma ArmedByte(p: Image, slots: seq<Slot>, armed: set<nat>, more: set<nat>, j: nat)
    requires Placed(p, slots) && j < |slots| && slots[j].used && Where(slots[j], p.bias) in armed
    ensures var mem := Overlay(Overlay(p.text, armed), more);
      Where(slots[j], p.bias) in mem && mem[Where(slots[j], p.bias)] == TRAP
    ensures SitesMapped(slots, p.bias, Overlay(Overlay(p.text, armed), more))
  {
  }

  lemma TrapStep(cpu: Cpu, t: Process)
    requires t.Live? && t.st.rip in t.mem && t.mem[t.st.rip] == TRAP
    ensures SingleStep(cpu, t) == t.(st := t.st.(rip := t.st.rip + 1))
  {
  }

  lemma NextByteFree(p: Image, slots: seq<Slot>, j: nat)
    requires Placed(p, slots) && j < |slots| && slots[j].used
    ensures Where(slots[j], p.bias) + 1 !in UsedIn(slots, p.bias, j + 1, |slots|)
  {
  }

  // ----- si -----

  /** si is one native step, and keeps the process in step exactly when that does not end on an armed byte. */
  lemma StepKeepsIff(p: Image, d: Dbg, n: nat)
    requires WellBehaved(p) && System(p, d, n) && d.proc.Live?
    ensures match Native(p, n + 1)
      case Alive(st) => System(p, DoStep(p, d), n + 1) <==> st.rip !in ArmedIn(p, d.slots, d.proc.mem)
      case Finished(_) => System(p, DoStep(p, d), n + 1) && DoStep(p, d).proc == Gone
      case Broken => false
    ensures Stepped(p, d, DoStep(p, d), n)
  {
    hide Step, Sited, NativeWord;
    var armed := ArmedIn(p, d.slots, d.proc.mem);
    UsedSited(p, d.slots, armed);
    NativeStep(p, armed, n);
    if Native(p, n + 1).Finished? || Native(p, n + 1).st.rip !in armed {
      StepKeeps(p, d, n);
    }
  }

  // ----- a trap of the program's own, executed -----

  /** The patched process runs natively up to a trap of the program's own, and stops behind it. */
  lemma {:induction false} RunToOwnTrap(p: Image, sites: set<nat>, n: nat, m: nat)
    requires PrefixDetermined(p.cpu.size) && (forall a :: a in sites ==> Sited(p, a)) && n <= m
    requires Native(p, m).Alive? && Native(p, m).st.rip in p.text && p.text[Native(p, m).st.rip] == TRAP
    requires forall k :: n <= k <= m ==> Native(p, k).Alive? && Native(p, k).st.rip !in sites
    ensures var st := Native(p, m).st;
      RunFor(p.cpu, Overlay(p.text, sites), Native(p, n).st, m - n) == Stopped(st.(rip := st.rip + 1))
    decreases m - n
  {
    hide Step, Mapped;
    if n == m {
      OwnTrapStep(p, sites, Native(p, m).st);
    } else {
      assert Native(p, n + 1).Alive?;
      StepUnderOverlay(p.cpu, p.text, sites, Native(p, n).st);
      RunToOwnTrap(p, sites, n + 1, m);
    }
  }

  lemma OwnTrapStep(p: Image, sites: set<nat>, st: State)
    requires st.rip in p.text && p.text[st.rip] == TRAP
    ensures Step(p.cpu, Overlay(p.text, sites), st) == Trapped(st.(rip := st.rip + 1))
  {
  }

  lemma {:induction false} AliveBefore(p: Image, k: nat, m: nat)
    requires k <= m && Native(p, m).Alive?
    ensures Native(p, k).Alive?
    decreases m - k
  {
    hide Advance;
    if k < m {
      AliveBefore(p, k + 1, m);
    }
  }

  /** A program that comes to execute a trap of its own before it is at a used site: the stop matches no slot,
      and cont does not come back. */
  lemma OwnTrapHangs(p: Image, d: Dbg, n: nat, m: nat)
    requires PrefixDetermined(p.cpu.size) && System(p, d, n) && d.proc.Live?
    requires n <= m && Native(p, m).Alive? && Native(p, m).st.rip in p.text && p.text[Native(p, m).st.rip] == TRAP
    requires forall k :: n <= k <= m && Native(p, k).Alive? ==> Native(p, k).st.rip !in Used(d.slots, p.bias)
    ensures !ContReturns(p, d)
  {
    hide Step, PatchFrom, Sited, NativeWord, Native, RunFor, Resume, Halts;
    var used := Used(d.slots, p.bias);
    UsedSited(p, d.slots, ArmedIn(p, d.slots, d.proc.mem));
    UsedSited(p, d.slots, used);
    PatchQuiet(p.cpu, p.bias, d.slots, d.proc, 0);
    assert ArmedIn(p, d.slots, d.proc.mem) + used == used;
    var d1 := Patch(p, d);
    assert d1.proc == Live(Overlay(p.text, used), d.proc.st);
    PlacedSame(p, d.slots, d1.slots);
    forall k | n <= k <= m
      ensures Native(p, k).Alive? && Native(p, k).st.rip !in used
    {
      AliveBefore(p, k, m);
    }
    RunToOwnTrap(p, used, n, m);
    ResumeIs(p.cpu, d1.proc.mem, d1.proc.st, m - n);
    NoHit(d1.slots, p.bias, Native(p, m).st.rip);
  }

  lemma NoHit(slots: seq<Slot>, bias: nat, a: nat)
    requires a !in Used(slots, bias)
    ensures FindHit(slots, bias, a + 1, 0) == -1
  {
  }

  // ----- a fault -----

  /** The process comes from st to st1 in k steps. */
  predicate MovesTo(cpu: Cpu, mem: Memory, st: State, k: nat, st1: State)
    decreases k
  {
    if k == 0 then st1 == st
    else Step(cpu, mem, st).Moved? && MovesTo(cpu, mem, Step(cpu, mem, st).st, k - 1, st1)
  }

  lemma {:induction false} RunToFault(cpu: Cpu, mem: Memory, st: State, k: nat, st1: State)
    requires MovesTo(cpu, mem, st, k, st1) && Step(cpu, mem, st1).Faulted?
    ensures RunFor(cpu, mem, st, k) == Stopped(st1)
    decreases k
  {
    hide Step;
    if k != 0 {
      RunToFault(cpu, mem, Step(cpu, mem, st).st, k - 1, st1);
    }
  }

  /** A process that comes to an instruction it cannot execute is stopped there, still alive: si leaves it where
      it is, and the wait of run and cont ends only if a used site happens to be one byte before. */
  lemma FaultIsWaitedOn(p: Image, d: Dbg, k: nat, st: State)
    requires d.running && d.proc.Live?
    requires MovesTo(p.cpu, d.proc.mem, d.proc.st, k, st) && Step(p.cpu, d.proc.mem, st).Faulted?
    ensures k == 0 ==> DoStep(p, d) == d
    ensures WaitReturns(p, d) <==> exists a :: a in Used(d.slots, p.bias) && a + 1 == st.rip
  {
    hide Step, RunFor, Resume, Halts, MovesTo, Used;
    RunToFault(p.cpu, d.proc.mem, d.proc.st, k, st);
    ResumeIs(p.cpu, d.proc.mem, d.proc.st, k);
    HitIff(d.slots, p.bias, st.rip);
    assert k == 0 ==> MovesTo(p.cpu, d.proc.mem, d.proc.st, 0, st);
    if k == 0 {
      NoMove(p.cpu, d.proc.mem, d.proc.st, st);
    }
  }

  lemma NoMove(cpu: Cpu, mem: Memory, st: State, st1: State)
    requires MovesTo(cpu, mem, st, 0, st1)
    ensures st1 == st
  {
  }

  lemma HitIff(slots: seq<Slot>, bias: nat, rip: nat)
    ensures FindHit(slots, bias, rip, 0) != -1 <==> exists a :: a in Used(slots, bias) && a + 1 == rip
  {
    var k := FindHit(slots, bias, rip, 0);
    if k != -1 {
      assert Where(slots[k], bias) in Used(slots, bias);
    }
  }

  // ----- the load bias -----

  /** delete lifts an armed trap exactly when the load bias is 0; otherwise the trap stays behind with no
      slot to answer for it. A bias, being the start of a mapping, is at least a page when it is not 0. */
  lemma DeleteLiftsIff(p: Image, d: Dbg, k: nat, n: nat)
    requires System(p, d, n) && d.proc.Live? && k < |d.slots| && d.slots[k].used
    requires Where(d.slots[k], p.bias) in ArmedIn(p, d.slots, d.proc.mem)
    requires p.bias == 0 || p.bias >= 4096
    ensures var a, after := Where(d.slots[k], p.bias), DoDelete(d, k);
      && after.proc.Live? && a in after.proc.mem && a !in Used(after.slots, p.bias)
      && (after.proc.mem[a] != TRAP <==> p.bias == 0)
      && FindHit(after.slots, p.bias, a + 1, 0) == -1
  {
    hide Load, ByteOf, Step, Sited, NativeWord, IsTrapWord;
    UsedSited(p, d.slots, ArmedIn(p, d.slots, d.proc.mem));
    ReleasedPlaced(p, d.slots, k);
    var a, after := Where(d.slots[k], p.bias), DoDelete(d, k);
    assert a !in Used(after.slots, p.bias);
    if p.bias == 0 {
      DeleteKeeps(p, d, k, n);
      SitedByte(p, d.slots, k);
    }
  }

  lemma SitedByte(p: Image, slots: seq<Slot>, k: nat)
    requires Placed(p, slots) && k < |slots| && slots[k].used
    ensures Where(slots[k], p.bias) in p.text && p.text[Where(slots[k], p.bias)] != TRAP
  {
  }

  /** disasm lifts the traps before it lists, but at raw addresses too: an armed trap is lifted exactly when the
      load bias is 0. Otherwise, raw addresses not being mapped, it lists the traps as part of the code. */
  lemma DisasmLiftsIff(p: Image, d: Dbg, k: nat, a: nat, n: nat)
    requires System(p, d, n) && d.proc.Live? && k < |d.slots| && d.slots[k].used
    requires Where(d.slots[k], p.bias) in ArmedIn(p, d.slots, d.proc.mem)
    requires p.bias == 0 || RawUnmapped(p, d.slots)
    ensures var site, lifted := Where(d.slots[k], p.bias), UnpatchFrom(d.slots, d.proc, 0);
      && lifted.Live? && site in lifted.mem && (lifted.mem[site] != TRAP <==> p.bias == 0)
    ensures p.bias != 0 ==> ListAt(p, d, a).1 == Sweep(p.dec, LiveWindow(d.proc, a, WINDOW / 8), a, LINES)
  {
    hide Load, Step, Sited, NativeWord, UnpatchFrom, LiveWindow, Sweep, PatchFrom;
    SitedByte(p, d.slots, k);
    if p.bias == 0 {
      LiftAll(p, d.slots, d.proc, n);
    } else {
      LiftNone(p, d.slots, d.proc, n);
    }
  }

  // ----- a trap of the program's own -----

  /** Only slots 0 and 1 may be in use. */
  predicate OnlyFirstTwo(slots: seq<Slot>) {
    |slots| == MAX_BREAK && forall k :: 2 <= k < MAX_BREAK ==> !slots[k].used
  }

  lemma UsedOfFirstTwo(slots: seq<Slot>)
    requires OnlyFirstTwo(slots)
    ensures Used(slots, 0)
         == (if slots[0].used then {slots[0].addr} else {}) + (if slots[1].used then {slots[1].addr} else {})
    ensures UsedIn(slots, 0, 0, 0) == {}
    ensures UsedIn(slots, 0, 0, 1) == if slots[0].used then {slots[0].addr} else {}
  {
  }

  /** A breakpoint at an address where the program itself has 0xCC: the pass saves nothing there, so the slot
      keeps the word left over in it, and the next listing pokes that word into the text. The text survives
      exactly when the leftover happens to be its own word. */
  lemma NativeTrapKeepsIff(p: Image, d: Dbg, a: nat)
    requires p.bias == 0 && d.loaded && d.running && |d.slots| == MAX_BREAK
    requires forall i :: 0 <= i < MAX_BREAK ==> !d.slots[i].used
    requires Mapped(p.text, a) && p.text[a] == TRAP
    requires d.proc.Live? && d.proc.mem == p.text && d.proc.st.rip != a
    ensures FreeSlot(d.slots, 0) == 0
    ensures var d1 := DoBreak(p, d, a);
      && d1 == d.(slots := d.slots[0 := Slot(true, a, d.slots[0].word)])
      && UnpatchFrom(d1.slots, d1.proc, 0) == Live(Store(p.text, a, d.slots[0].word), d.proc.st)
      && (Store(p.text, a, d.slots[0].word) == p.text <==> d.slots[0].word == Load(p.text, a))
  {
    hide Step, PatchFrom, UnpatchFrom, Load, UsedIn;
    var slots := Occupied(d.slots, a);
    UsedOfFirstTwo(slots);
    PatchIdle(p.cpu, 0, slots, d.proc, 0);
    UnpatchOne(slots, d.proc);
    StoreKeepsIff(p.text, a, d.slots[0].word);
  }

  lemma UnpatchOne(slots: seq<Slot>, t: Process)
    requires OnlyFirstTwo(slots) && slots[0].used && !slots[1].used
    ensures UnpatchFrom(slots, t, 0) == Poke(t, slots[0].addr, slots[0].word)
  {
    hide Poke;
    UnpatchUnused(slots, Poke(t, slots[0].addr, slots[0].word), 1);
  }

  lemma {:induction false} UnpatchUnused(slots: seq<Slot>, t: Process, i: nat)
    requires i <= |slots| && forall k :: i <= k < |slots| ==> !slots[k].used
    ensures UnpatchFrom(slots, t, i) == t
    decreases |slots| - i
  {
    if i < |slots| {
      UnpatchUnused(slots, t, i + 1);
    }
  }

  /** A word poked leaves memory as it was exactly when it is the word memory held. */
  lemma StoreKeepsIff(mem: Memory, a: nat, w: Word)
    requires Mapped(mem, a)
    ensures Store(mem, a, w) == mem <==> w == Load(mem, a)
  {
    hide Load, ByteOf;
    if Store(mem, a, w) == mem {
      forall k: nat | k < 8
        ensures ByteOf(w, k) == ByteOf(Load(mem, a), k)
      {
        ByteOfLoad(mem, a, k);
        assert Store(mem, a, w)[a + k] == ByteOf(w, k);
      }
      BytesDecide(w, Load(mem, a));
    } else if w == Load(mem, a) {
      StoreOfLoad(mem, mem, a);
      assert false;
    }
  }

  // ----- overlapping words -----

  /** The quiet pass over the first two slots: memory, and the words saved. */
  lemma PatchFirstTwo(p: Image, d: Dbg, armed: set<nat>)
    requires p.bias == 0 && OnlyFirstTwo(d.slots) && d.proc.Live? && d.proc.mem == Overlay(p.text, armed)
    requires SitesMapped(d.slots, 0, p.text)
    requires forall k :: 0 <= k < 2 && d.slots[k].used ==> d.proc.st.rip != d.slots[k].addr
    ensures Patch(p, d).proc == Live(Overlay(p.text, armed + Used(d.slots, 0)), d.proc.st)
    ensures OnlyFirstTwo(Patch(p, d).slots) && SameSites(d.slots, Patch(p, d).slots)
    ensures d.slots[0].used ==>
      Patch(p, d).slots[0].word == SavedWord(d.slots[0], 0, Overlay(p.text, armed))
    ensures d.slots[1].used ==>
      Patch(p, d).slots[1].word == SavedWord(d.slots[1], 0, Overlay(p.text, armed + UsedIn(d.slots, 0, 0, 1)))
  {
    hide Step, PatchFrom, Load, UsedIn;
    UsedOfFirstTwo(d.slots);
    PatchQuiet(p.cpu, 0, d.slots, d.proc, 0);
    assert Overlay(Overlay(p.text, armed), Used(d.slots, 0)) == Overlay(p.text, armed + Used(d.slots, 0));
    if d.slots[0].used {
      PatchWords(p.cpu, 0, d.slots, d.proc, 0, 0);
      assert Overlay(Overlay(p.text, armed), {}) == Overlay(p.text, armed);
    }
    if d.slots[1].used {
      PatchWords(p.cpu, 0, d.slots, d.proc, 0, 1);
      var first := UsedIn(d.slots, 0, 0, 1);
      assert Overlay(Overlay(p.text, armed), first) == Overlay(p.text, armed + first);
    }
  }

  /** A running process on its own text, no breakpoint set, and two addresses less than eight bytes apart
      at neither of which rip is. */
  ghost predicate CloseSites(p: Image, d: Dbg, a: nat, k: nat) {
    && p.bias == 0 && d.loaded && d.running && |d.slots| == MAX_BREAK
    && (forall i :: 0 <= i < MAX_BREAK ==> !d.slots[i].used)
    && 1 <= k <= 7 && Mapped(p.text, a) && Mapped(p.text, a + k)
    && p.text[a] != TRAP && p.text[a + k] != TRAP
    && d.proc.Live? && d.proc.mem == p.text && d.proc.st.rip != a && d.proc.st.rip != a + k
  }

  /** The table and the process after the breakpoint at a+k. */
  lemma BreakAbove(p: Image, d: Dbg, a: nat, k: nat)
    requires CloseSites(p, d, a, k)
    ensures FreeSlot(d.slots, 0) == 0
    ensures var d1 := DoBreak(p, d, a + k);
      && OnlyFirstTwo(d1.slots) && !d1.slots[1].used && d1.slots[0] == Slot(true, a + k, Load(p.text, a + k))
      && d1 == d.(slots := d1.slots, proc := Live(Overlay(p.text, {a + k}), d.proc.st))
  {
    hide Step, PatchFrom, Load, UsedIn;
    var e1 := d.(slots := Occupied(d.slots, a + k));
    UsedOfFirstTwo(e1.slots);
    assert Overlay(p.text, {}) == p.text;
    PatchFirstTwo(p, e1, {});
    assert {} + Used(e1.slots, 0) == {a + k};
  }

  /** ... and after the one at a: the word saved for it holds the trap at a+k. */
  lemma BreakBelow(p: Image, d: Dbg, a: nat, k: nat)
    requires CloseSites(p, d, a, k)
    ensures var d1 := DoBreak(p, d, a + k);
      FreeSlot(d.slots, 0) == 0 && FreeSlot(d1.slots, 0) == 1
      && var d2 := DoBreak(p, d1, a);
      && OnlyFirstTwo(d2.slots) && d2.slots[0] == Slot(true, a + k, Load(p.text, a + k))
      && d2.slots[1] == Slot(true, a, Load(Overlay(p.text, {a + k}), a))
      && d2 == d.(slots := d2.slots, proc := Live(Overlay(p.text, {a, a + k}), d.proc.st))
  {
    hide Step, PatchFrom, Load, UsedIn;
    BreakAbove(p, d, a, k);
    var d1 := DoBreak(p, d, a + k);
    var e2 := d1.(slots := Occupied(d1.slots, a));
    UsedOfFirstTwo(e2.slots);
    PatchFirstTwo(p, e2, {a + k});
    assert {a + k} + UsedIn(e2.slots, 0, 0, 1) == {a + k};
    assert {a + k} + Used(e2.slots, 0) == {a, a + k};
  }

  /** Deleting the first breakpoint leaves the trap at a alone in memory, over that same word. */
  lemma DeleteAbove(p: Image, d: Dbg, a: nat, k: nat)
    requires CloseSites(p, d, a, k)
    ensures var d1 := DoBreak(p, d, a + k);
      FreeSlot(d.slots, 0) == 0 && FreeSlot(d1.slots, 0) == 1
      && var d3 := DoDelete(DoBreak(p, d1, a), 0);
      && OnlyFirstTwo(d3.slots) && !d3.slots[0].used
      && d3.slots[1] == Slot(true, a, Load(Overlay(p.text, {a + k}), a))
      && d3 == d.(slots := d3.slots, proc := Live(Overlay(p.text, {a}), d.proc.st))
  {
    hide Step, PatchFrom, Load, Store, UsedIn, DoBreak, FreeSlot, IsTrapWord;
    BreakAbove(p, d, a, k);
    BreakBelow(p, d, a, k);
    var d2 := DoBreak(p, DoBreak(p, d, a + k), a);
    TrapByLowByte(d2.proc.mem, a + k);
    StoreOfLoad(d2.proc.mem, p.text, a + k);
    assert Store(d2.proc.mem, a + k, Load(p.text, a + k)) == Overlay(p.text, {a});
  }

  /** Spacing is necessary. Set a breakpoint at a+k, then one at a, delete the first, and hit the second:
      the trap at a+k is back with no used slot there, so a stop at it matches no slot. */
  lemma SpacingNecessary(p: Image, d: Dbg, a: nat, k: nat, st: State)
    requires CloseSites(p, d, a, k)
    ensures FreeSlot(d.slots, 0) != -1 && FreeSlot(DoBreak(p, d, a + k).slots, 0) != -1
    ensures
      var d3 := DoDelete(DoBreak(p, DoBreak(p, d, a + k), a), 0);
      && d3.proc.Live?
      && (Halts(p.cpu, d3.proc.mem, d3.proc.st)
          && Resume(p.cpu, d3.proc.mem, d3.proc.st) == Stopped(st) && st.rip == a + 1
          ==>
          && ContReturns(p, d3)
          && var d4 := DoCont(p, d3);
             && d4.proc == Live(Overlay(p.text, {a + k}), st.(rip := a))
             && Used(d4.slots, 0) == {a}
             && FindHit(d4.slots, 0, a + k + 1, 0) == -1)
  {
    hide Step, PatchFrom, Load, Store, IsTrapWord, TrapWord, UsedIn, FreeSlot, DoBreak, DoDelete, Halts, Resume;
    BreakAbove(p, d, a, k);
    BreakBelow(p, d, a, k);
    DeleteAbove(p, d, a, k);
    var d3 := DoDelete(DoBreak(p, DoBreak(p, d, a + k), a), 0);
    UsedOfFirstTwo(d3.slots);
    assert Where(d3.slots[1], 0) == a;
    PatchIdle(p.cpu, 0, d3.slots, d3.proc, 0);
    StoreOfLoad(Overlay(p.text, {a}), Overlay(p.text, {a + k}), a);
    assert Store(Overlay(p.text, {a}), a, d3.slots[1].word) == Overlay(p.text, {a + k});
  }
}
