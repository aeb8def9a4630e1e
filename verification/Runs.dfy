/** Whole debugging sessions: a debugged run is a stuttering simulation of the native run. */
module Runs {
  import opened Words
  import opened Machine
  import opened Ptrace
  import opened Breakpoints
  import opened Unpatching
  import opened Debugger
  import opened Simulation
  import opened Continuing
  import opened Transparency
  import opened Commands

  /** What a command asks of the state it is given in. Every clause is about the program and the table:
      a sound address for break, load bias 0 for delete, which uses raw addresses, for disasm at least none of
      them mapped, and that the next instruction does not lead from a used site, or by si from anywhere, onto a trap. */
  ghost predicate Allowed(p: Image, d: Dbg, c: Command) {
    match c
    case Start => d.loaded ==> Calm(p, d.slots, State(p.entry, p.ctx))
    case Run => d.loaded && Launched(p, d).proc.Live? ==> CalmLater(p, d.slots, Launched(p, d).proc.st)
    case Cont => d.proc.Live? ==> CalmLater(p, d.slots, d.proc.st)
    case StepInsn => d.proc.Live? && Advance(p, d.proc.st).Alive? ==>
      Advance(p, d.proc.st).st.rip !in ArmedIn(p, d.slots, d.proc.mem)
    case Break(a) => d.loaded ==>
      && FreeSlot(d.slots, 0) != -1
      && Spaced(p, d.slots, a + p.bias)
      && (d.proc.Live? ==> Calm(p, Occupied(d.slots, a), d.proc.st))
    case Delete(_) => d.proc.Live? ==> p.bias == 0
    case Disasm(arg) => d.proc.Live? && (arg.At? || d.last != 0) ==>
      (p.bias == 0 || RawUnmapped(p, d.slots)) && Calm(p, d.slots, d.proc.st)
  }

  /** The command begins a new process and with it a new native run. */
  predicate Restarts(d: Dbg, c: Command) {
    d.loaded && (c.Start? || (c.Run? && !d.running))
  }

  lemma {:induction false} UnpatchGone(slots: seq<Slot>, i: nat)
    requires i <= |slots|
    ensures UnpatchFrom(slots, Gone, i) == Gone
    decreases |slots| - i
  {
    if i < |slots| {
      UnpatchGone(slots, i + 1);
    }
  }

  /** A patch pass when the process is gone changes saved words at most. */
  lemma PatchWhenGone(p: Image, d: Dbg, n: nat)
    requires Placed(p, d.slots) && d.proc.Gone? && d.running && d.loaded && Native(p, n).Finished?
    ensures System(p, Patch(p, d), n) && Patch(p, d).proc == Gone
  {
    PatchGone(p.cpu, p.bias, d.slots, 0);
    PlacedSame(p, d.slots, Patch(p, d).slots);
  }

  lemma ContinueKeeps(p: Image, d: Dbg, armed: set<nat>, n: nat) returns (m: nat)
    requires WellBehaved(p) && Placed(p, d.slots) && d.running && d.loaded
    requires d.proc.Live? ==> Over(p, d.slots, d.proc, armed, n) && CalmLater(p, d.slots, d.proc.st)
    requires d.proc.Gone? ==> Native(p, n).Finished?
    requires WaitReturns(p, Patch(p, d))
    ensures n <= m && System(p, Await(p, Patch(p, d)), m)
    ensures Continued(p, d, Await(p, Patch(p, d)), n, m)
  {
    hide Step, PatchFrom, Sited, NativeWord, Native, WaitReturns, CalmLater, Over, Await, EndsAt, FirstStop;
    var d1 := Patch(p, d);
    PlacedSame(p, d.slots, d1.slots);
    if d.proc.Live? {
      StopsExactly(p, d, armed, n);
      m :| FirstStop(p, Used(d.slots, p.bias), n + 1, m) && EndsAt(p, d1, Await(p, d1), m);
      FirstStopAfter(p, Used(d.slots, p.bias), n + 1, m);
      EndKeeps(p, d1, Await(p, d1), m);
      ArrivedFrom(p, d, d1, Await(p, d1), m);
    } else {
      PatchWhenGone(p, d, n);
      GoneReturns(p, d1);
      m := n;
    }
  }

  lemma ArrivedFrom(p: Image, d: Dbg, d1: Dbg, e: Dbg, m: nat)
    requires SameTable(d, d1) && EndsAt(p, d1, e, m)
    ensures Arrived(p, d, e, m)
  {
    hide StoppedAt, OneSlotAt;
  }

  lemma FirstStopAfter(p: Image, sites: set<nat>, n: nat, m: nat)
    requires FirstStop(p, sites, n, m)
    ensures n <= m
  {
  }

  // ----- where run and cont stop -----

  /** cont from native state n comes back exactly when a later native state is at a used site or the end of the
      program, and ends at the first such state. */
  lemma ContStops(p: Image, d: Dbg, n: nat)
    requires WellBehaved(p) && System(p, d, n) && d.proc.Live? && CalmLater(p, d.slots, d.proc.st)
    ensures ContReturns(p, d) <==> exists m :: n < m && StopsAt(p, Used(d.slots, p.bias), m)
    ensures ContReturns(p, d) ==>
      exists m :: FirstStop(p, Used(d.slots, p.bias), n + 1, m) && Arrived(p, d, DoCont(p, d), m)
  {
    hide Step, PatchFrom, Placed, Native, WaitReturns, CalmLater, Over, Await, NativeWords, FirstStop, StopsAt,
         StoppedAt, OneSlotAt;
    StopsExactly(p, d, ArmedIn(p, d.slots, d.proc.mem), n);
    if ContReturns(p, d) {
      var m :| FirstStop(p, Used(d.slots, p.bias), n + 1, m) && EndsAt(p, Patch(p, d), Await(p, Patch(p, d)), m);
      assert Arrived(p, d, DoCont(p, d), m);
    }
  }

  /** run on a loaded program that is not running does the same from its beginning. */
  lemma RunStops(p: Image, d: Dbg, n: nat)
    requires WellBehaved(p) && System(p, d, n) && d.loaded && !d.running
    requires CalmLater(p, d.slots, State(p.entry, p.ctx))
    ensures RunReturns(p, d) <==> exists m :: 0 < m && StopsAt(p, Used(d.slots, p.bias), m)
    ensures RunReturns(p, d) ==>
      exists m :: FirstStop(p, Used(d.slots, p.bias), 1, m) && Arrived(p, d, DoRun(p, d), m)
  {
    hide Step, PatchFrom, Placed, Native, WaitReturns, CalmLater, Over, Await, NativeWords, FirstStop, StopsAt,
         StoppedAt, OneSlotAt;
    var d0 := Launched(p, d);
    FreshOver(p, d.slots);
    StopsExactly(p, d0, {}, 0);
    if RunReturns(p, d) {
      var m :| FirstStop(p, Used(d.slots, p.bias), 1, m) && EndsAt(p, Patch(p, d0), Await(p, Patch(p, d0)), m);
      assert Arrived(p, d, DoRun(p, d), m);
    }
  }

  /** run on a running program is cont. */
  lemma RunIsCont(p: Image, d: Dbg)
    requires d.loaded && d.running
    ensures RunReturns(p, d) <==> ContReturns(p, d)
    ensures RunReturns(p, d) ==> DoRun(p, d) == DoCont(p, d)
  {
  }

  // ----- every command -----

  lemma RunKeeps(p: Image, d: Dbg, n: nat) returns (m: nat)
    requires WellBehaved(p) && System(p, d, n) && Returns(p, d, Run) && Allowed(p, d, Run)
    ensures System(p, DoRun(p, d), m) && (Restarts(d, Run) || n <= m)
    ensures Performed(p, d, Run, DoRun(p, d), n, m)
  {
    hide Step, PatchFrom, Placed, Native, WaitReturns, CalmLater, Over, Await, NativeWords;
    m := n;
    if d.loaded {
      if d.running {
        m := ContinueKeeps(p, d, if d.proc.Live? then ArmedIn(p, d.slots, d.proc.mem) else {}, n);
      } else {
        FreshOver(p, d.slots);
        m := ContinueKeeps(p, Launched(p, d), {}, 0);
      }
    }
  }

  lemma ContKeeps(p: Image, d: Dbg, n: nat) returns (m: nat)
    requires WellBehaved(p) && System(p, d, n) && Returns(p, d, Cont) && Allowed(p, d, Cont)
    ensures System(p, DoCont(p, d), m) && n <= m
    ensures Performed(p, d, Cont, DoCont(p, d), n, m)
  {
    hide Step, PatchFrom, Placed, Native, WaitReturns, CalmLater, Over, Await, NativeWords;
    m := n;
    if d.running {
      m := ContinueKeeps(p, d, if d.proc.Live? then ArmedIn(p, d.slots, d.proc.mem) else {}, n);
    }
  }

  lemma BreakAnyKeeps(p: Image, d: Dbg, a: nat, n: nat) returns (m: nat)
    requires WellBehaved(p) && System(p, d, n) && Allowed(p, d, Break(a)) && d.loaded
    ensures n <= m && System(p, DoBreak(p, d, a), m)
    ensures Performed(p, d, Break(a), DoBreak(p, d, a), n, m)
  {
    hide Step, PatchFrom, Placed, Native, Calm, Over, Spaced, NativeWords;
    m := n;
    if d.proc.Live? {
      BreakKeeps(p, d, a, n);
      m := PassedTo(p, Occupied(d.slots, a), d.proc.st, n);
    } else {
      OccupiedPlaced(p, d.slots, a);
      if d.running {
        PatchWhenGone(p, d.(slots := Occupied(d.slots, a)), n);
      }
    }
  }

  lemma DeleteAnyKeeps(p: Image, d: Dbg, index: int, n: nat)
    requires WellBehaved(p) && System(p, d, n) && Allowed(p, d, Delete(index))
    ensures System(p, DoDelete(d, index), n)
    ensures Performed(p, d, Delete(index), DoDelete(d, index), n, n)
  {
    hide Step, Sited, Native, Over, NativeWords;
    if 0 <= index < |d.slots| && d.slots[index].used {
      if d.proc.Live? {
        DeleteKeeps(p, d, index, n);
      } else {
        ReleasedPlaced(p, d.slots, index);
      }
    }
  }

  lemma ListKeeps(p: Image, d: Dbg, a: nat, n: nat) returns (m: nat)
    requires WellBehaved(p) && System(p, d, n) && Allowed(p, d, Disasm(At(a)))
    ensures n <= m && System(p, ListAt(p, d, a).0, m)
    ensures Performed(p, d, Disasm(At(a)), ListAt(p, d, a).0, n, m)
  {
    hide Step, PatchFrom, UnpatchFrom, Placed, Native, Calm, Over, NativeWords;
    m := n;
    if d.proc.Live? {
      DisasmKeeps(p, d, a, n);
      m := PassedTo(p, d.slots, d.proc.st, n);
    } else if d.running {
      UnpatchGone(d.slots, 0);
      PatchWhenGone(p, d, n);
    }
  }

  /** Every command does what it is for and keeps the invariant, and the native index never falls unless a new
      process begins. */
  lemma CommandKeeps(p: Image, d: Dbg, c: Command, n: nat) returns (m: nat)
    requires WellBehaved(p) && System(p, d, n) && Returns(p, d, c) && Allowed(p, d, c)
    ensures System(p, Do(p, d, c), m) && (Restarts(d, c) || n <= m)
    ensures Performed(p, d, c, Do(p, d, c), n, m)
  {
    hide System, WellBehaved, Calm, CalmLater, DoRun, DoCont, DoBreak, DoDelete, ListAt, DoStart, Spaced, Performed;
    m := n;
    match c
    case Start => m := StartAnyKeeps(p, d, n);
    case Run => m := RunKeeps(p, d, n);
    case Cont => m := ContKeeps(p, d, n);
    case StepInsn => m := StepAnyKeeps(p, d, n);
    case Break(a) => m := BreakOrNotKeeps(p, d, a, n);
    case Delete(i) => DeleteAnyKeeps(p, d, i, n);
    case Disasm(arg) => m := DisasmAnyKeeps(p, d, arg, n);
  }

  lemma BreakOrNotKeeps(p: Image, d: Dbg, a: nat, n: nat) returns (m: nat)
    requires WellBehaved(p) && System(p, d, n) && Allowed(p, d, Break(a))
    ensures n <= m && System(p, DoBreak(p, d, a), m)
    ensures Performed(p, d, Break(a), DoBreak(p, d, a), n, m)
  {
    hide System, WellBehaved, Calm, Spaced, BreakSet;
    m := n;
    if d.loaded {
      m := BreakAnyKeeps(p, d, a, n);
    }
  }

  lemma StartAnyKeeps(p: Image, d: Dbg, n: nat) returns (m: nat)
    requires WellBehaved(p) && System(p, d, n) && Allowed(p, d, Start)
    ensures System(p, DoStart(p, d), m) && (Restarts(d, Start) || n <= m)
    ensures Performed(p, d, Start, DoStart(p, d), n, m)
  {
    hide Step, PatchFrom, Placed, Native, Calm, Over, NativeWords;
    m := n;
    if d.loaded {
      StartKeeps(p, d);
      m := PassedTo(p, d.slots, State(p.entry, p.ctx), 0);
    }
  }

  lemma StepAnyKeeps(p: Image, d: Dbg, n: nat) returns (m: nat)
    requires WellBehaved(p) && System(p, d, n) && Allowed(p, d, StepInsn)
    ensures n <= m && System(p, DoStep(p, d), m)
    ensures Performed(p, d, StepInsn, DoStep(p, d), n, m)
  {
    hide Step, Placed, Native, Over, NativeWords;
    m := n;
    if d.proc.Live? {
      StepKeeps(p, d, n);
      m := n + 1;
    }
  }

  lemma DisasmAnyKeeps(p: Image, d: Dbg, arg: Debugger.Address, n: nat) returns (m: nat)
    requires WellBehaved(p) && System(p, d, n) && Allowed(p, d, Disasm(arg))
    ensures n <= m && System(p, DoDisasm(p, d, arg).0, m)
    ensures Performed(p, d, Disasm(arg), DoDisasm(p, d, arg).0, n, m)
  {
    hide System, WellBehaved, Calm, ListAt, Listed;
    m := n;
    match arg
    case At(a) => m := ListKeeps(p, d, a, n);
    case Omitted =>
      if d.last != 0 {
        m := ListKeeps(p, d, d.last, n);
      }
  }

  // ----- sessions -----

  /** Every command of the session comes back and is allowed where it is given. */
  ghost predicate Admissible(p: Image, d: Dbg, cs: seq<Command>)
    decreases |cs|
  {
    cs == [] || (Returns(p, d, cs[0]) && Allowed(p, d, cs[0]) && Admissible(p, Do(p, d, cs[0]), cs[1..]))
  }

  /** Each state of the session is native state n, n', ... in turn, each command having done what it is for, and
      the index never falling within a process. */
  ghost predicate Follows(p: Image, d: Dbg, cs: seq<Command>, n: nat)
    requires Admissible(p, d, cs)
    decreases |cs|
  {
    && System(p, d, n)
    && (cs == [] || exists m: nat ::
          && (Restarts(d, cs[0]) || n <= m) && Performed(p, d, cs[0], Do(p, d, cs[0]), n, m)
          && Follows(p, Do(p, d, cs[0]), cs[1..], m))
  }

  /** Transparency: any session from any state in step with the native run stays in step with it. */
  lemma {:induction false} SessionFollows(p: Image, d: Dbg, cs: seq<Command>, n: nat)
    requires WellBehaved(p) && System(p, d, n) && Admissible(p, d, cs)
    ensures Follows(p, d, cs, n)
    decreases |cs|
  {
    hide System, WellBehaved, Returns, Allowed, Do, Performed;
    if cs != [] {
      var m := CommandKeeps(p, d, cs[0], n);
      SessionFollows(p, Do(p, d, cs[0]), cs[1..], m);
    }
  }

  /** The state sdb_load leaves: no process, no slot in use, whatever is left over in the slots. */
  predicate FreshlyLoaded(d: Dbg) {
    && d.loaded && !d.running && d.proc.Gone? && d.last == 0 && |d.slots| == MAX_BREAK
    && forall k :: 0 <= k < MAX_BREAK ==> !d.slots[k].used
  }

  lemma LoadedIsSystem(p: Image, d: Dbg, n: nat)
    requires FreshlyLoaded(d)
    ensures System(p, d, n)
  {
  }

  /** The session is admissible whatever the freshly loaded table holds. */
  ghost predicate AdmissibleFromLoad(p: Image, cs: seq<Command>) {
    forall d: Dbg :: FreshlyLoaded(d) ==> Admissible(p, d, cs)
  }

  // ----- what the user sees -----

  /** Memory with every armed byte replaced by the low byte of the word its slot saved. */
  ghost function Unmasked(slots: seq<Slot>, bias: nat, mem: Memory): Memory {
    map x | x in mem :: UnmaskedByte(slots, bias, mem, x, 0)
  }

  function UnmaskedByte(slots: seq<Slot>, bias: nat, mem: Memory, x: nat, i: nat): Byte
    requires i <= |slots| && x in mem
    decreases |slots| - i
  {
    if i == |slots| then mem[x]
    else if slots[i].used && Where(slots[i], bias) == x && mem[x] == TRAP then ByteOf(slots[i].word, 0)
    else UnmaskedByte(slots, bias, mem, x, i + 1)
  }

  lemma {:induction false} UnmaskedByteIs(p: Image, slots: seq<Slot>, mem: Memory, armed: set<nat>, x: nat, i: nat)
    requires Placed(p, slots) && i <= |slots| && mem == Overlay(p.text, armed) && x in p.text
    requires NativeWords(p, slots, Used(slots, p.bias)) && armed <= Used(slots, p.bias)
    requires x in armed ==> x in UsedIn(slots, p.bias, i, |slots|)
    ensures UnmaskedByte(slots, p.bias, mem, x, i) == p.text[x]
    decreases |slots| - i
  {
    hide Load, ByteOf, OnBoundary;
    if i < |slots| {
      if slots[i].used && Where(slots[i], p.bias) == x {
        assert x in Used(slots, p.bias);
        ByteOfLoad(p.text, x, 0);
        if mem[x] != TRAP {
          UnmaskedByteIs(p, slots, mem, armed, x, i + 1);
        }
      } else {
        UnmaskedByteIs(p, slots, mem, armed, x, i + 1);
      }
    }
  }

  /** In every state of a session the live process, its armed bytes masked out with the debugger's own saved
      words, is a state of the native program. */
  lemma MaskedStateIsNative(p: Image, d: Dbg, n: nat)
    requires System(p, d, n) && d.proc.Live?
    ensures Native(p, n) == Alive(d.proc.st)
    ensures Unmasked(d.slots, p.bias, d.proc.mem) == p.text
  {
    hide Load, ByteOf, Sited, Placed, NativeWords;
    forall x | x in p.text
      ensures UnmaskedByte(d.slots, p.bias, d.proc.mem, x, 0) == p.text[x]
    {
      UnmaskedByteIs(p, d.slots, d.proc.mem, ArmedIn(p, d.slots, d.proc.mem), x, 0);
    }
  }
}
