/** The debugger's commands keep the process in step with the native run. */
module Transparency {
  import opened Words
  import opened Machine
  import opened Ptrace
  import opened Breakpoints
  import opened Unpatching
  import opened Debugger
  import opened Simulation
  import opened Continuing

  /** The used sites that hold a trap. */
  ghost function ArmedIn(p: Image, slots: seq<Slot>, mem: Memory): set<nat> {
    set a | a in Used(slots, p.bias) && a in mem && mem[a] == TRAP
  }

  ghost predicate AtMostOneDisarmed(p: Image, slots: seq<Slot>, armed: set<nat>) {
    forall a, b :: a in Used(slots, p.bias) && b in Used(slots, p.bias) && a !in armed && b !in armed ==> a == b
  }

  /** The process is native state n: text under traps at exactly the armed sites, rip at none of them,
      every saved word native, and at most one used site disarmed. */
  ghost predicate Synced(p: Image, slots: seq<Slot>, t: Process, n: nat) {
    && t.Live?
    && Over(p, slots, t, ArmedIn(p, slots, t.mem), n)
    && NativeWords(p, slots, Used(slots, p.bias))
    && AtMostOneDisarmed(p, slots, ArmedIn(p, slots, t.mem))
  }

  /** The invariant of the whole debugger. */
  ghost predicate System(p: Image, d: Dbg, n: nat) {
    && Placed(p, d.slots)
    && (d.running ==> d.loaded)
    && (!d.running ==> d.proc.Gone?)
    && (d.proc.Live? ==> Synced(p, d.slots, d.proc, n))
    && (d.running && d.proc.Gone? ==> Native(p, n).Finished?)
  }

  lemma ArmedIs(p: Image, slots: seq<Slot>, armed: set<nat>)
    requires Placed(p, slots) && armed <= Used(slots, p.bias)
    ensures ArmedIn(p, slots, Overlay(p.text, armed)) == armed
  {
  }

  lemma SyncedFrom(p: Image, slots: seq<Slot>, t: Process, armed: set<nat>, n: nat)
    requires Placed(p, slots) && Over(p, slots, t, armed, n)
    requires NativeWords(p, slots, Used(slots, p.bias)) && AtMostOneDisarmed(p, slots, armed)
    ensures Synced(p, slots, t, n) && ArmedIn(p, slots, t.mem) == armed
  {
  }

  // ----- the patch pass as part of a command -----

  /** The process after a patch pass: native state m under traps at every used site, or gone. */
  ghost predicate ArmedAt(p: Image, d: Dbg, m: nat) {
    match Native(p, m)
    case Alive(st) => d.proc == Live(Overlay(p.text, Used(d.slots, p.bias)), st)
    case Finished(_) => d.proc == Gone
    case Broken => false
  }

  /** start, break and disasm end with this pass: it keeps the process in step, one native step further if
      rip was at a used site, and leaves every used site armed. */
  lemma PatchCommand(p: Image, d: Dbg, armed: set<nat>, n: nat)
    requires WellBehaved(p) && Placed(p, d.slots) && d.running && d.loaded
    requires Over(p, d.slots, d.proc, armed, n) && Calm(p, d.slots, d.proc.st)
    ensures var m := PassedTo(p, d.slots, d.proc.st, n);
      System(p, Patch(p, d), m) && ArmedAt(p, Patch(p, d), m)
  {
    hide Step, PatchFrom, Sited, NativeWord;
    PatchSyncs(p, d.slots, d.proc, armed, n);
    var d1 := Patch(p, d);
    PlacedSame(p, d.slots, d1.slots);
    if d1.proc.Live? {
      SyncedFrom(p, d1.slots, d1.proc, Used(d.slots, p.bias), PassedTo(p, d.slots, d.proc.st, n));
    }
  }

  /** start: the new process, patched, is in step with the native run. */
  lemma StartKeeps(p: Image, d: Dbg)
    requires WellBehaved(p) && Placed(p, d.slots) && d.loaded && Calm(p, d.slots, State(p.entry, p.ctx))
    ensures var m := PassedTo(p, d.slots, State(p.entry, p.ctx), 0);
      System(p, DoStart(p, d), m) && ArmedAt(p, DoStart(p, d), m)
    ensures SameSites(d.slots, DoStart(p, d).slots)
    ensures Used(DoStart(p, d).slots, p.bias) == Used(d.slots, p.bias)
  {
    FreshOver(p, d.slots);
    PatchCommand(p, d.(running := true, proc := Launch(p)), {}, 0);
    PlacedSame(p, d.slots, DoStart(p, d).slots);
  }

  lemma FreshOver(p: Image, slots: seq<Slot>)
    ensures Over(p, slots, Launch(p), {}, 0)
  {
  }

  // ----- run and cont -----

  /** Neither a missed nor a spurious stop: from native state n the patched process, continued, comes back
      exactly when a later native state is at a used site or the end, and is then at the first such state. */
  lemma StopsExactly(p: Image, d: Dbg, armed: set<nat>, n: nat)
    requires WellBehaved(p) && Placed(p, d.slots) && d.running
    requires Over(p, d.slots, d.proc, armed, n) && CalmLater(p, d.slots, d.proc.st)
    ensures WaitReturns(p, Patch(p, d)) <==> exists m :: n < m && StopsAt(p, Used(d.slots, p.bias), m)
    ensures WaitReturns(p, Patch(p, d)) ==> exists m ::
      FirstStop(p, Used(d.slots, p.bias), n + 1, m) && EndsAt(p, Patch(p, d), Await(p, Patch(p, d)), m)
  {
    hide Step, PatchFrom, Sited, NativeWord, Native, WaitReturns;
    PatchSyncs(p, d.slots, d.proc, armed, n);
    var d1, used := Patch(p, d), Used(d.slots, p.bias);
    PlacedSame(p, d.slots, d1.slots);
    var m0 := PassedTo(p, d.slots, d.proc.st, n);
    if d1.proc.Live? {
      AwaitStops(p, d1, m0);
      assert m0 == n ==> !StopsAt(p, used, n);
      assert (exists m :: m0 <= m && StopsAt(p, used, m)) <==> (exists m :: n < m && StopsAt(p, used, m));
      if WaitReturns(p, d1) {
        var bound :| m0 <= bound && StopsAt(p, used, bound);
        var m := LeastStop(p, used, m0, bound);
        assert FirstStop(p, used, n + 1, m);
        assert EndsAt(p, d1, Await(p, d1), m);
      }
    } else {
      GoneReturns(p, d1);
      assert FirstStop(p, used, n + 1, n + 1);
      assert EndsAt(p, d1, Await(p, d1), n + 1);
    }
  }

  lemma GoneReturns(p: Image, d: Dbg)
    requires d.proc.Gone?
    ensures WaitReturns(p, d) && Await(p, d) == d.(running := false)
  {
  }

  /** Where run and cont end, the invariant holds again. */
  lemma EndKeeps(p: Image, before: Dbg, after: Dbg, m: nat)
    requires Placed(p, before.slots) && before.loaded && EndsAt(p, before, after, m)
    ensures System(p, after, m)
  {
    hide Placed, Sited, NativeWord;
    if after.running {
      var st := Native(p, m).st;
      SyncedFrom(p, after.slots, after.proc, Used(after.slots, p.bias) - {st.rip}, m);
    }
  }

  // ----- si, break, delete, disasm -----

  /** si: one native step, in step as long as it does not end on an armed byte. */
  lemma StepKeeps(p: Image, d: Dbg, n: nat)
    requires WellBehaved(p) && System(p, d, n) && d.proc.Live?
    requires Advance(p, d.proc.st).Alive? ==> Advance(p, d.proc.st).st.rip !in ArmedIn(p, d.slots, d.proc.mem)
    ensures System(p, DoStep(p, d), n + 1)
    ensures match Native(p, n + 1)
            case Alive(st) => DoStep(p, d) == d.(proc := d.proc.(st := st))
            case Finished(_) => DoStep(p, d) == d.(proc := Gone)
            case Broken => false
  {
    hide Step, Sited, NativeWord;
    var armed := ArmedIn(p, d.slots, d.proc.mem);
    UsedSited(p, d.slots, armed);
    NativeStep(p, armed, n);
  }

  /** The address is sound and at least eight bytes from every used site. */
  ghost predicate Spaced(p: Image, slots: seq<Slot>, a: nat) {
    && Sited(p, a)
    && forall k :: 0 <= k < |slots| && slots[k].used ==>
         Where(slots[k], p.bias) + 8 <= a || a + 8 <= Where(slots[k], p.bias)
  }

  lemma OccupiedPlaced(p: Image, slots: seq<Slot>, a: nat)
    requires Placed(p, slots) && FreeSlot(slots, 0) != -1 && Spaced(p, slots, a + p.bias)
    ensures Placed(p, Occupied(slots, a))
    ensures Used(Occupied(slots, a), p.bias) == Used(slots, p.bias) + {a + p.bias}
    ensures a + p.bias !in Used(slots, p.bias)
  {
    hide Sited;
    var k, after := FreeSlot(slots, 0), Occupied(slots, a);
    assert Where(after[k], p.bias) == a + p.bias;
    assert forall j :: 0 <= j < |slots| && j != k ==> after[j] == slots[j];
    assert Used(after, p.bias) == Used(slots, p.bias) + {a + p.bias} by {
      forall x | x in Used(slots, p.bias)
        ensures x in Used(after, p.bias)
      {
        var j :| 0 <= j < |slots| && slots[j].used && Where(slots[j], p.bias) == x;
        assert after[j] == slots[j];
      }
    }
  }

  lemma BreakOver(p: Image, slots: seq<Slot>, t: Process, a: nat, n: nat)
    requires Placed(p, slots) && FreeSlot(slots, 0) != -1 && Spaced(p, slots, a + p.bias)
    requires Synced(p, slots, t, n)
    ensures Over(p, Occupied(slots, a), t, ArmedIn(p, slots, t.mem), n)
  {
    hide Sited, NativeWord, Placed, Spaced;
    OccupiedPlaced(p, slots, a);
  }

  /** break on a running process: one native step if rip is at a used site, the new one included, else none;
      and every used site armed. */
  lemma BreakKeeps(p: Image, d: Dbg, a: nat, n: nat)
    requires WellBehaved(p) && System(p, d, n) && d.proc.Live?
    requires FreeSlot(d.slots, 0) != -1 && Spaced(p, d.slots, a + p.bias)
    requires Calm(p, Occupied(d.slots, a), d.proc.st)
    ensures var m := PassedTo(p, Occupied(d.slots, a), d.proc.st, n);
      System(p, DoBreak(p, d, a), m) && ArmedAt(p, DoBreak(p, d, a), m)
  {
    hide Step, PatchFrom, Sited, NativeWord, Calm, Placed, Spaced, Over, Synced, PassedTo, ArmedAt;
    OccupiedPlaced(p, d.slots, a);
    BreakOver(p, d.slots, d.proc, a, n);
    PatchCommand(p, d.(slots := Occupied(d.slots, a)), ArmedIn(p, d.slots, d.proc.mem), n);
  }

  lemma ReleasedPlaced(p: Image, slots: seq<Slot>, k: nat)
    requires Placed(p, slots) && k < |slots| && slots[k].used
    ensures var after := slots[k := slots[k].(used := false)];
      Placed(p, after) && Used(after, p.bias) == Used(slots, p.bias) - {Where(slots[k], p.bias)}
  {
    hide Sited;
    var after := slots[k := slots[k].(used := false)];
    assert forall j :: 0 <= j < |slots| && j != k ==> after[j] == slots[j];
    forall x | x in Used(slots, p.bias) - {Where(slots[k], p.bias)}
      ensures x in Used(after, p.bias)
    {
      var j :| 0 <= j < |slots| && slots[j].used && Where(slots[j], p.bias) == x;
      assert after[j] == slots[j];
    }
  }

  /** delete at load bias 0 lifts the trap if there is one, and frees the slot. */
  lemma DeleteKeeps(p: Image, d: Dbg, k: nat, n: nat)
    requires p.bias == 0 && System(p, d, n) && d.proc.Live? && k < |d.slots| && d.slots[k].used
    ensures var a := d.slots[k].addr;
      && System(p, DoDelete(d, k), n)
      && DoDelete(d, k).proc == Live(Overlay(p.text, ArmedIn(p, d.slots, d.proc.mem) - {a}), d.proc.st)
      && DoDelete(d, k).slots == d.slots[k := d.slots[k].(used := false)]
  {
    hide Load, Store, Step, Sited, NativeWord, IsTrapWord;
    var armed, a := ArmedIn(p, d.slots, d.proc.mem), Where(d.slots[k], p.bias);
    ReleasedPlaced(p, d.slots, k);
    UsedSited(p, d.slots, armed);
    TrapByLowByte(d.proc.mem, a);
    assert a in Used(d.slots, p.bias);
    LiftOne(p, d.slots, armed, k);
    if a !in armed {
      assert armed - {a} == armed;
    }
    var after := DoDelete(d, k);
    SyncedFrom(p, after.slots, after.proc, armed - {a}, n);
  }

  /** At load bias 0 every byte a saved word covers is native, and every armed byte is covered. */
  lemma LiftedByte(p: Image, slots: seq<Slot>, t: Process, n: nat, x: nat)
    requires p.bias == 0 && Placed(p, slots) && Synced(p, slots, t, n) && x in p.text
    ensures x in t.mem && Covered(slots, LastCover(slots, x, 0), x, t.mem[x]) == p.text[x]
  {
    hide Load, ByteOf, Sited, Step;
    var j := LastCover(slots, x, 0);
    if j != -1 {
      assert Where(slots[j], p.bias) in Used(slots, p.bias);
      ByteOfLoad(p.text, slots[j].addr, x - slots[j].addr);
    } else {
      assert forall k :: 0 <= k < |slots| && slots[k].used ==> Covers(slots[k], Where(slots[k], 0));
    }
  }

  /** At load bias 0 the listing loop lifts every trap: memory is the text again. */
  lemma LiftAll(p: Image, slots: seq<Slot>, t: Process, n: nat)
    requires p.bias == 0 && Placed(p, slots) && Synced(p, slots, t, n)
    ensures UnpatchFrom(slots, t, 0) == Live(p.text, t.st)
  {
    hide Load, Store, ByteOf, UnpatchFrom, Placed, Covered, LastCover, NativeWords;
    var u := UnpatchFrom(slots, t, 0);
    UsedSited(p, slots, ArmedIn(p, slots, t.mem));
    UnpatchShape(slots, t, 0);
    forall x | x in p.text
      ensures u.mem[x] == p.text[x]
    {
      UnpatchByte(slots, t, 0, x);
      LiftedByte(p, slots, t, n, x);
    }
    assert u.mem == p.text;
  }

  /** The addresses are not mapped as they were given, before the load bias is added. */
  predicate RawUnmapped(p: Image, slots: seq<Slot>) {
    forall k :: 0 <= k < |slots| && slots[k].used ==> !Mapped(p.text, slots[k].addr)
  }

  lemma {:induction false} NoPokes(slots: seq<Slot>, t: Process, i: nat)
    requires i <= |slots| && forall k :: i <= k < |slots| && slots[k].used ==> !Accessible(t, slots[k].addr)
    ensures UnpatchFrom(slots, t, i) == t
    decreases |slots| - i
  {
    if i < |slots| {
      NoPokes(slots, t, i + 1);
    }
  }

  /** Then the listing loop's pokes all fail. */
  lemma LiftNone(p: Image, slots: seq<Slot>, t: Process, n: nat)
    requires RawUnmapped(p, slots) && Synced(p, slots, t, n)
    ensures UnpatchFrom(slots, t, 0) == t
  {
    hide UnpatchFrom;
    forall k | 0 <= k < |slots| && slots[k].used
      ensures !Accessible(t, slots[k].addr)
    {
      var x :| slots[k].addr <= x < slots[k].addr + 8 && x !in p.text;
      assert x !in t.mem;
    }
    NoPokes(slots, t, 0);
  }

  /** disasm on a running process, apart from what it prints: the same side effect as break. */
  lemma DisasmKeeps(p: Image, d: Dbg, a: nat, n: nat)
    requires WellBehaved(p) && System(p, d, n) && d.proc.Live? && Calm(p, d.slots, d.proc.st)
    requires p.bias == 0 || RawUnmapped(p, d.slots)
    ensures var m := PassedTo(p, d.slots, d.proc.st, n);
      System(p, ListAt(p, d, a).0, m) && ArmedAt(p, ListAt(p, d, a).0, m)
  {
    hide Step, PatchFrom, UnpatchFrom, Sited, NativeWord, Calm, Placed, PassedTo;
    if p.bias == 0 {
      LiftAll(p, d.slots, d.proc, n);
      assert Overlay(p.text, {}) == p.text;
      PatchCommand(p, d.(proc := Live(p.text, d.proc.st)), {}, n);
    } else {
      LiftNone(p, d.slots, d.proc, n);
      PatchCommand(p, d, ArmedIn(p, d.slots, d.proc.mem), n);
    }
  }
}
