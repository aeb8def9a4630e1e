/** run and cont: which native state they stop at, and when they come back at all. */
module Continuing {
  import opened Words
  import opened Machine
  import opened Ptrace
  import opened Breakpoints
  import opened Debugger
  import opened Simulation

  /** Native state m is the end of the program or sits at one of the sites. */
  ghost predicate StopsAt(p: Image, sites: set<nat>, m: nat) {
    match Native(p, m)
    case Alive(st) => st.rip in sites
    case Finished(_) => true
    case Broken => false
  }

  ghost predicate FirstStop(p: Image, sites: set<nat>, n: nat, m: nat) {
    && n <= m && StopsAt(p, sites, m)
    && forall k :: n <= k < m ==> !StopsAt(p, sites, k)
  }

  /** The event that native state m makes of an undisturbed run over the traps. */
  function EventAt(s: Status): Event
    requires !s.Broken?
  {
    match s
    case Alive(st) => Stopped(st.(rip := st.rip + 1))
    case Finished(code) => Exited(code)
  }

  lemma TrapsAt(p: Image, sites: set<nat>, st: State)
    requires st.rip in sites && Sited(p, st.rip)
    ensures Step(p.cpu, Overlay(p.text, sites), st) == Trapped(st.(rip := st.rip + 1))
  {
  }

  /** Over traps at `sites` the process runs natively up to the first stop, and stops there. */
  lemma {:induction false} RunToStop(p: Image, sites: set<nat>, n: nat, m: nat)
    requires WellBehaved(p) && (forall a :: a in sites ==> Sited(p, a))
    requires Native(p, n).Alive? && FirstStop(p, sites, n, m)
    ensures RunFor(p.cpu, Overlay(p.text, sites), Native(p, n).st, m - n) == EventAt(Native(p, m))
    decreases m - n
  {
    hide Step, Sited;
    var st := Native(p, n).st;
    if st.rip in sites {
      assert StopsAt(p, sites, n);
      TrapsAt(p, sites, st);
    } else {
      assert n < m;
      NativeStep(p, sites, n);
      if Native(p, n + 1).Alive? {
        RunToStop(p, sites, n + 1, m);
      } else {
        assert StopsAt(p, sites, n + 1);
      }
    }
  }

  /** Conversely a run that ends within `fuel` steps has met a native stop. */
  lemma {:induction false} EndedRunStops(p: Image, sites: set<nat>, n: nat, fuel: nat) returns (m: nat)
    requires WellBehaved(p) && (forall a :: a in sites ==> Sited(p, a))
    requires Native(p, n).Alive?
    requires RunFor(p.cpu, Overlay(p.text, sites), Native(p, n).st, fuel) != Running
    ensures n <= m && StopsAt(p, sites, m)
    decreases fuel
  {
    hide Step, OnBoundary;
    if Native(p, n).st.rip in sites {
      m := n;
    } else {
      NativeStep(p, sites, n);
      if Native(p, n + 1).Alive? {
        m := EndedRunStops(p, sites, n + 1, fuel - 1);
      } else {
        m := n + 1;
      }
    }
  }

  lemma {:induction false} LeastStop(p: Image, sites: set<nat>, n: nat, bound: nat) returns (m: nat)
    requires n <= bound && StopsAt(p, sites, bound)
    ensures FirstStop(p, sites, n, m)
    decreases bound - n
  {
    if StopsAt(p, sites, n) {
      m := n;
    } else {
      m := LeastStop(p, sites, n + 1, bound);
    }
  }

  /** An undisturbed run over the traps ends exactly when the native run meets a site or its end. */
  lemma HaltsIff(p: Image, sites: set<nat>, n: nat)
    requires WellBehaved(p) && (forall a :: a in sites ==> Sited(p, a)) && Native(p, n).Alive?
    ensures Halts(p.cpu, Overlay(p.text, sites), Native(p, n).st) <==> exists m :: n <= m && StopsAt(p, sites, m)
  {
    hide Step, Sited, Native, RunFor, StopsAt;
    var mem, st := Overlay(p.text, sites), Native(p, n).st;
    if Halts(p.cpu, mem, st) {
      var fuel: nat :| RunFor(p.cpu, mem, st, fuel) != Running;
      var m := EndedRunStops(p, sites, n, fuel);
    }
    if exists m :: n <= m && StopsAt(p, sites, m) {
      var bound :| n <= bound && StopsAt(p, sites, bound);
      var m := LeastStop(p, sites, n, bound);
      StopNotBroken(p, sites, m);
      RunToStop(p, sites, n, m);
      assert RunFor(p.cpu, mem, st, m - n) != Running;
    }
  }

  lemma StopNotBroken(p: Image, sites: set<nat>, m: nat)
    requires StopsAt(p, sites, m)
    ensures !Native(p, m).Broken?
  {
  }

  /** Stopped at native state m of site a: only that site is disarmed, rip is back on it. */
  ghost predicate StoppedAt(p: Image, d: Dbg, m: nat) {
    && Native(p, m).Alive? && d.running
    && var st := Native(p, m).st;
       && st.rip in Used(d.slots, p.bias)
       && d.proc == Live(Overlay(p.text, Used(d.slots, p.bias) - {st.rip}), st)
       && NativeWords(p, d.slots, Used(d.slots, p.bias))
  }

  /** Exactly one used slot is at address a. */
  ghost predicate OneSlotAt(p: Image, slots: seq<Slot>, a: nat) {
    exists k :: 0 <= k < |slots| && slots[k].used && Where(slots[k], p.bias) == a
      && forall j :: 0 <= j < |slots| && slots[j].used && Where(slots[j], p.bias) == a ==> j == k
  }

  /** Lifting one trap with its native word. */
  lemma LiftOne(p: Image, slots: seq<Slot>, sites: set<nat>, k: nat)
    requires Placed(p, slots) && sites <= Used(slots, p.bias)
    requires k < |slots| && slots[k].used && NativeWord(p, slots[k])
    ensures var a := Where(slots[k], p.bias);
      Mapped(p.text, a) && Store(Overlay(p.text, sites), a, slots[k].word) == Overlay(p.text, sites - {a})
  {
    hide Load, Store, OnBoundary;
    var a := Where(slots[k], p.bias);
    StoreOfLoad(Overlay(p.text, sites), p.text, a);
  }

  /** The hit: the one slot at rip-1 is found, its trap lifted, and rip moved back. */
  lemma HitRestores(p: Image, d: Dbg, m: nat)
    requires Placed(p, d.slots) && NativeWords(p, d.slots, Used(d.slots, p.bias)) && d.running
    requires Native(p, m).Alive? && Native(p, m).st.rip in Used(d.slots, p.bias)
    requires d.proc.Live? && d.proc.mem == Overlay(p.text, Used(d.slots, p.bias))
    requires Halts(p.cpu, d.proc.mem, d.proc.st)
    requires Resume(p.cpu, d.proc.mem, d.proc.st) == EventAt(Native(p, m))
    ensures WaitReturns(p, d) && StoppedAt(p, Await(p, d), m)
    ensures Await(p, d).slots == d.slots && OneSlotAt(p, d.slots, Native(p, m).st.rip)
  {
    hide Load, Store, Step, Sited, Native, Halts, Resume;
    var st := Native(p, m).st;
    var k := FindHit(d.slots, p.bias, st.rip + 1, 0);
    assert k != -1;
    LiftOne(p, d.slots, Used(d.slots, p.bias), k);
    assert Where(d.slots[k], p.bias) == st.rip;
  }

  /** The wait after a full patch comes back exactly when the native run meets a used site or its end, and
      then the process is at the first such state, or gone. */
  lemma AwaitStops(p: Image, d: Dbg, n: nat)
    requires WellBehaved(p) && Placed(p, d.slots) && FullyArmed(p, d.slots, d.proc, n) && d.running
    ensures WaitReturns(p, d) <==> exists m :: n <= m && StopsAt(p, Used(d.slots, p.bias), m)
    ensures forall m :: FirstStop(p, Used(d.slots, p.bias), n, m) ==> WaitReturns(p, d) && EndsAt(p, d, Await(p, d), m)
  {
    hide Step, Sited, Native, RunFor, WaitReturns, Halts, Resume, StopsAt;
    UsedSited(p, d.slots, Used(d.slots, p.bias));
    HaltsIff(p, Used(d.slots, p.bias), n);
    if exists m :: n <= m && StopsAt(p, Used(d.slots, p.bias), m) {
      var bound :| n <= bound && StopsAt(p, Used(d.slots, p.bias), bound);
      var m := LeastStop(p, Used(d.slots, p.bias), n, bound);
      AwaitFirstStop(p, d, n, m);
    } else {
      NoHaltNoReturn(p, d);
    }
    forall m | FirstStop(p, Used(d.slots, p.bias), n, m)
      ensures WaitReturns(p, d) && EndsAt(p, d, Await(p, d), m)
    {
      AwaitFirstStop(p, d, n, m);
    }
  }

  lemma NoHaltNoReturn(p: Image, d: Dbg)
    requires d.proc.Live? && !Halts(p.cpu, d.proc.mem, d.proc.st)
    ensures !WaitReturns(p, d)
  {
  }

  /** What run and cont leave behind when native state m is where they end. */
  ghost predicate EndsAt(p: Image, before: Dbg, after: Dbg, m: nat) {
    && after.slots == before.slots && after.loaded == before.loaded && after.last == before.last
    && match Native(p, m)
       case Alive(st) => StoppedAt(p, after, m) && OneSlotAt(p, after.slots, st.rip)
       case Finished(_) => !after.running && after.proc == Gone
       case Broken => false
  }

  lemma AwaitFirstStop(p: Image, d: Dbg, n: nat, m: nat)
    requires WellBehaved(p) && Placed(p, d.slots) && FullyArmed(p, d.slots, d.proc, n) && d.running
    requires FirstStop(p, Used(d.slots, p.bias), n, m)
    ensures WaitReturns(p, d) && EndsAt(p, d, Await(p, d), m)
  {
    hide Step, Sited, Native, RunFor, Halts, Resume, OneSlotAt, StoppedAt, PrefixDetermined;
    UsedSited(p, d.slots, Used(d.slots, p.bias));
    RunToStop(p, Used(d.slots, p.bias), n, m);
    ResumeIs(p.cpu, d.proc.mem, d.proc.st, m - n);
    if Native(p, m).Alive? {
      HitRestores(p, d, m);
    }
  }
}
