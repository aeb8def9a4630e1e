/** Sessions on straight-line programs of eight-byte instructions: the assumptions of the theorems hold together,
    and breakpoints on neighbouring instructions show what happens when one of them does not. */
module Scenario {
  import opened Words
  import opened Machine
  import opened Breakpoints
  import opened Debugger
  import opened Simulation
  import opened Continuing
  import opened Transparency
  import opened Commands
  import opened Runs
  import opened Limits

  const NOTHING := Context([], map[], [])

  predicate InText(n: nat, x: nat) {
    x < 8 * n + 8
  }

  function EightBytes(w: seq<Byte>): nat {
    if |w| < 8 then 0 else 8
  }

  /** n instructions that go on to the next one, and one that exits. */
  function StraightLine(n: nat): Image {
    Image(Cpu(EightBytes, (insn, rip: nat, ctx) => if rip < 8 * n then Goto(rip + 8, ctx) else Quit(0)),
          map x: nat | x < 8 * n + 8 && InText(n, x) :: 0x90, 0, NOTHING, 0, [], [], EightBytes)
  }

  lemma StraightText(n: nat, k: nat)
    requires k <= n
    ensures forall x :: 8 * k <= x < 8 * k + 8 ==> x in StraightLine(n).text && StraightLine(n).text[x] == 0x90
  {
    forall x: nat | 8 * k <= x < 8 * k + 8
      ensures x in StraightLine(n).text
    {
      assert InText(n, x);
    }
  }

  lemma StraightFetch(n: nat, a: nat)
    ensures |Fetch(EightBytes, StraightLine(n).text, a)| <= 8
    ensures a % 8 == 0 && a <= 8 * n ==> |Fetch(EightBytes, StraightLine(n).text, a)| == 8
  {
    if a % 8 == 0 && a <= 8 * n {
      StraightText(n, a / 8);
      Listing.ExtentAtLeast(StraightLine(n).text, a, MAX_INSN, 8);
    }
  }

  lemma StraightStep(n: nat, k: nat)
    requires k <= n
    ensures Advance(StraightLine(n), State(8 * k, NOTHING))
         == if k < n then Alive(State(8 * k + 8, NOTHING)) else Finished(0)
  {
    hide Fetch;
    StraightFetch(n, 8 * k);
    StraightText(n, k);
  }

  lemma {:induction false} StraightRun(n: nat, k: nat)
    ensures Native(StraightLine(n), k) == if k <= n then Alive(State(8 * k, NOTHING)) else Finished(0)
  {
    hide Advance;
    if k > 0 {
      StraightRun(n, k - 1);
      if k - 1 <= n {
        StraightStep(n, k - 1);
      }
    }
  }

  lemma StraightIsWellBehaved(n: nat)
    ensures WellBehaved(StraightLine(n))
  {
    forall k: nat
      ensures !Native(StraightLine(n), k).Broken?
    {
      StraightRun(n, k);
    }
  }

  lemma StraightSites(n: nat, i: nat)
    requires i <= n
    ensures Sited(StraightLine(n), 8 * i)
  {
    hide Fetch, Native;
    var p := StraightLine(n);
    StraightText(n, i);
    forall k: nat | Native(p, k).Alive?
      ensures var rip := Native(p, k).st.rip; !(rip < 8 * i < rip + |Fetch(p.cpu.size, p.text, rip)|)
    {
      StraightRun(n, k);
      StraightFetch(n, 8 * k);
    }
  }

  /** break at instruction i of a loaded program that is not running. */
  lemma AfterBreak(n: nat, i: nat, d: Dbg)
    requires i <= n && System(StraightLine(n), d, 0) && d.loaded && !d.running && FreeSlot(d.slots, 0) != -1
    requires forall k :: 0 <= k < |d.slots| && d.slots[k].used ==> d.slots[k].addr % 8 == 0 && d.slots[k].addr != 8 * i
    ensures var p := StraightLine(n);
      && Returns(p, d, Break(8 * i)) && Allowed(p, d, Break(8 * i))
      && var d1 := DoBreak(p, d, 8 * i);
      && System(p, d1, 0) && d1.loaded && !d1.running && Used(d1.slots, 0) == Used(d.slots, 0) + {8 * i}
  {
    hide PatchFrom, Native, Sited;
    StraightSites(n, i);
    OccupiedPlaced(StraightLine(n), d.slots, 8 * i);
  }

  // ----- one breakpoint: everything holds -----

  lemma StraightStops(n: nat, i: nat, m: nat)
    requires i <= n
    ensures StopsAt(StraightLine(n), {8 * i}, m) <==> m == i || n < m
  {
    hide Native;
    StraightRun(n, m);
  }

  /** With one site, no step from it leads to a later one. */
  lemma OneSiteIsCalm(n: nat, i: nat, slots: seq<Slot>, k: nat)
    requires Used(slots, 0) == {8 * i} && k <= n
    ensures CalmLater(StraightLine(n), slots, State(8 * k, NOTHING))
  {
    hide Advance;
    StraightStep(n, k);
    forall j | 0 <= j < |slots| && slots[j].used && Where(slots[j], 0) == 8 * k
      ensures 8 * k + 8 !in UsedIn(slots, 0, j + 1, |slots|)
    {
      assert Where(slots[j], 0) in Used(slots, 0);
      RestUsed(slots, j + 1);
    }
  }

  lemma RestUsed(slots: seq<Slot>, j: nat)
    requires j <= |slots|
    ensures UsedIn(slots, 0, j, |slots|) <= Used(slots, 0)
  {
  }

  /** run comes back, at the breakpoint. */
  lemma AfterRun(n: nat, i: nat, d: Dbg)
    requires 0 < i <= n && System(StraightLine(n), d, 0) && d.loaded && !d.running && Used(d.slots, 0) == {8 * i}
    ensures var p := StraightLine(n);
      && Returns(p, d, Run) && Allowed(p, d, Run)
      && var d1 := DoRun(p, d);
      && System(p, d1, i) && d1.running && d1.proc.Live? && d1.proc.st == State(8 * i, NOTHING)
      && Used(d1.slots, 0) == {8 * i}
  {
    hide Step, PatchFrom, Placed, Native, WaitReturns, Await, NativeWords, StopsAt, CalmLater;
    var p := StraightLine(n);
    StraightIsWellBehaved(n);
    OneSiteIsCalm(n, i, d.slots, 0);
    StraightStops(n, i, i);
    RunStops(p, d, 0);
    var m :| FirstStop(p, {8 * i}, 1, m) && Arrived(p, d, DoRun(p, d), m);
    StraightStops(n, i, m);
    StraightRun(n, m);
    UsedSame(d.slots, DoRun(p, d).slots, 0, 0, |d.slots|);
    var k := RunKeeps(p, d, 0);
    StraightRun(n, k);
  }

  /** cont comes back, at the exit. */
  lemma AfterCont(n: nat, i: nat, d: Dbg)
    requires 0 < i <= n && System(StraightLine(n), d, i) && d.running && d.proc.Live? && Used(d.slots, 0) == {8 * i}
    ensures var p := StraightLine(n);
      && Returns(p, d, Cont) && Allowed(p, d, Cont) && !DoCont(p, d).running
  {
    hide Step, PatchFrom, Placed, Native, WaitReturns, Await, NativeWords, StopsAt, CalmLater;
    var p := StraightLine(n);
    StraightIsWellBehaved(n);
    StraightRun(n, i);
    OneSiteIsCalm(n, i, d.slots, i);
    StraightStops(n, i, n + 1);
    ContStops(p, d, i);
    var m :| FirstStop(p, {8 * i}, i + 1, m) && Arrived(p, d, DoCont(p, d), m);
    StraightStops(n, i, m);
    StraightRun(n, m);
  }

  lemma AdmissibleCons(p: Image, d: Dbg, c: Command, cs: seq<Command>)
    requires Returns(p, d, c) && Allowed(p, d, c) && Admissible(p, Do(p, d, c), cs)
    ensures Admissible(p, d, [c] + cs)
  {
    hide Returns, Allowed, Do;
    assert ([c] + cs)[1..] == cs;
  }

  /** break, run, cont is an admissible session: run stops at the breakpoint, and cont runs to the exit. */
  lemma BreakRunCont(n: nat, i: nat, d: Dbg)
    requires 0 < i <= n && FreshlyLoaded(d)
    ensures var p := StraightLine(n);
      && WellBehaved(p) && Admissible(p, d, [Break(8 * i), Run, Cont])
      && FreeSlot(d.slots, 0) != -1 && RunReturns(p, DoBreak(p, d, 8 * i))
      && var stopped := DoRun(p, DoBreak(p, d, 8 * i));
      && stopped.proc.Live? && stopped.proc.st.rip == 8 * i
      && ContReturns(p, stopped) && !DoCont(p, stopped).running
  {
    hide System, WellBehaved, DoBreak, DoRun, DoCont, Allowed, RunReturns, ContReturns;
    var p := StraightLine(n);
    StraightIsWellBehaved(n);
    LoadedIsSystem(p, d, 0);
    assert Used(d.slots, 0) == {};
    AfterBreak(n, i, d);
    var d1 := DoBreak(p, d, 8 * i);
    AfterRun(n, i, d1);
    var d2 := DoRun(p, d1);
    AfterCont(n, i, d2);
    AdmissibleCons(p, d2, Cont, []);
    AdmissibleCons(p, d1, Run, [Cont]);
    AdmissibleCons(p, d, Break(8 * i), [Run, Cont]);
    assert [Break(8 * i)] + ([Run] + ([Cont] + [])) == [Break(8 * i), Run, Cont];
  }

  // ----- breakpoints on neighbouring instructions -----

  /** The table after break at instruction i and then at the next. */
  lemma AfterTwoBreaks(n: nat, i: nat, d: Dbg)
    requires 0 < i < n && FreshlyLoaded(d)
    ensures var p := StraightLine(n);
      && FreeSlot(d.slots, 0) != -1 && FreeSlot(DoBreak(p, d, 8 * i).slots, 0) != -1
      && var d2 := DoBreak(p, DoBreak(p, d, 8 * i), 8 * i + 8);
      && Admissible(p, d, [Break(8 * i), Break(8 * i + 8)])
      && System(p, d2, 0) && d2.loaded && !d2.running && Used(d2.slots, 0) == {8 * i, 8 * i + 8}
      && d2.slots[0].used && d2.slots[0].addr == 8 * i && d2.slots[1].used && d2.slots[1].addr == 8 * i + 8
  {
    hide PatchFrom, Native, Placed, Allowed;
    var p, cs := StraightLine(n), [Break(8 * i), Break(8 * i + 8)];
    LoadedIsSystem(p, d, 0);
    assert Used(d.slots, 0) == {};
    AfterBreak(n, i, d);
    var d1 := DoBreak(p, d, 8 * i);
    AfterBreak(n, i + 1, d1);
    assert cs[1..] == [Break(8 * i + 8)];
    assert Admissible(p, DoBreak(p, d1, 8 * i + 8), []);
    assert Admissible(p, d1, [Break(8 * i + 8)]);
  }

  lemma NeighbourStops(n: nat, i: nat, m: nat)
    requires i < n
    ensures StopsAt(StraightLine(n), {8 * i, 8 * i + 8}, m) <==> m == i || m == i + 1 || n < m
  {
    hide Native;
    StraightRun(n, m);
  }

  /** run stops at the first of the two. */
  lemma RunToNeighbour(n: nat, i: nat, d: Dbg)
    requires 0 < i < n && System(StraightLine(n), d, 0) && d.loaded && !d.running
    requires Used(d.slots, 0) == {8 * i, 8 * i + 8}
    ensures var p := StraightLine(n);
      && RunReturns(p, d)
      && var d1 := DoRun(p, d);
      && System(p, d1, i) && d1.running && d1.proc.Live? && d1.proc.st == State(8 * i, NOTHING)
      && SameSites(d.slots, d1.slots)
  {
    hide Step, PatchFrom, Placed, Native, WaitReturns, Await, NativeWords, StopsAt;
    var p := StraightLine(n);
    StraightIsWellBehaved(n);
    assert forall k :: 0 <= k < |d.slots| && d.slots[k].used ==> Where(d.slots[k], 0) in Used(d.slots, 0);
    assert CalmLater(p, d.slots, State(0, NOTHING));
    NeighbourStops(n, i, i);
    RunStops(p, d, 0);
    var m :| FirstStop(p, {8 * i, 8 * i + 8}, 1, m) && Arrived(p, d, DoRun(p, d), m);
    NeighbourStops(n, i, m);
    StraightRun(n, m);
    var k := RunKeeps(p, d, 0);
    StraightRun(n, k);
  }

  /** The patch pass from there. */
  lemma RearmNeighbours(n: nat, i: nat, d: Dbg)
    requires i < n && System(StraightLine(n), d, i) && d.proc.Live? && d.proc.st == State(8 * i, NOTHING)
    requires d.slots[0].used && d.slots[0].addr == 8 * i && d.slots[1].used && d.slots[1].addr == 8 * i + 8
    ensures var t := Patch(StraightLine(n), d).proc;
      t.Live? && t.st == State(8 * i + 9, NOTHING)
  {
    hide Step, PatchFrom, Native, Sited, NativeWords;
    var p := StraightLine(n);
    StraightIsWellBehaved(n);
    StraightRun(n, i + 1);
    PatchTrapsItself(p, d.slots, d.proc, ArmedIn(p, d.slots, d.proc.mem), 0, 1, i);
  }

  lemma OffTheLine(n: nat, i: nat)
    ensures forall m :: Native(StraightLine(n), m) != Alive(State(8 * i + 9, NOTHING))
  {
    hide Native;
    forall m
      ensures Native(StraightLine(n), m) != Alive(State(8 * i + 9, NOTHING))
    {
      StraightRun(n, m);
    }
  }

  /** With breakpoints on two instructions in a row, set in that order, cont from the first steps onto the trap
      of the second while re-arming, executes it, and goes on one byte behind it, where no native state is. */
  lemma NeighboursDerail(n: nat, i: nat, d: Dbg)
    requires 0 < i < n && FreshlyLoaded(d)
    ensures var p := StraightLine(n);
      && FreeSlot(d.slots, 0) != -1 && FreeSlot(DoBreak(p, d, 8 * i).slots, 0) != -1
      && var both := DoBreak(p, DoBreak(p, d, 8 * i), 8 * i + 8);
      && RunReturns(p, both)
      && var stopped := DoRun(p, both);
      && stopped.proc.Live? && stopped.proc.st.rip == 8 * i
      && var rearmed := Patch(p, stopped);
      && rearmed.proc.Live? && rearmed.proc.st.rip == 8 * i + 9
      && forall m :: Native(p, m) != Alive(rearmed.proc.st)
  {
    hide Patch, Native, DoBreak, DoRun, FreeSlot, RunReturns, FreshlyLoaded;
    var p := StraightLine(n);
    AfterTwoBreaks(n, i, d);
    var both := DoBreak(p, DoBreak(p, d, 8 * i), 8 * i + 8);
    RunToNeighbour(n, i, both);
    RearmNeighbours(n, i, DoRun(p, both));
    OffTheLine(n, i);
  }
}
