/** The traced process as ptrace and waitpid show it to the debugger. */
module Ptrace {
  import opened Words
  import opened Machine

  datatype Process = Live(mem: Memory, st: State) | Gone

  predicate Accessible(t: Process, a: nat) {
    t.Live? && Mapped(t.mem, a)
  }

  /** PTRACE_PEEKTEXT; the failing call returns -1. */
  function Peek(t: Process, a: nat): Word {
    if Accessible(t, a) then Load(t.mem, a) else ALL_ONES
  }

  /** PTRACE_POKETEXT; a failing call changes nothing. */
  function Poke(t: Process, a: nat, w: Word): Process {
    if Accessible(t, a) then t.(mem := Store(t.mem, a, w)) else t
  }

  /** PTRACE_SINGLESTEP and the wait for it. A process stopped by another signal stays where it is. */
  function SingleStep(cpu: Cpu, t: Process): Process {
    if t.Gone? then Gone
    else match Step(cpu, t.mem, t.st)
         case Moved(st) => t.(st := st)
         case Trapped(st) => t.(st := st)
         case Ended(_) => Gone
         case Faulted => t
  }

  datatype Event = Stopped(st: State) | Exited(code: int) | Running

  /** What PTRACE_CONT leads to within the given number of steps. */
  function RunFor(cpu: Cpu, mem: Memory, st: State, fuel: nat): Event
    decreases fuel
  {
    match Step(cpu, mem, st)
    case Moved(s) => if fuel == 0 then Running else RunFor(cpu, mem, s, fuel - 1)
    case Trapped(s) => Stopped(s)
    case Ended(c) => Exited(c)
    case Faulted => Stopped(st)
  }

  ghost predicate Halts(cpu: Cpu, mem: Memory, st: State) {
    exists fuel: nat :: RunFor(cpu, mem, st, fuel) != Running
  }

  lemma {:induction false} RunForStable(cpu: Cpu, mem: Memory, st: State, k: nat, j: nat)
    requires k <= j && RunFor(cpu, mem, st, k) != Running
    ensures RunFor(cpu, mem, st, j) == RunFor(cpu, mem, st, k)
    decreases k
  {
    hide Step;
    if Step(cpu, mem, st).Moved? {
      assert k != 0;
      RunForStable(cpu, mem, Step(cpu, mem, st).st, k - 1, j - 1);
    }
  }

  /** The event that ends an undisturbed PTRACE_CONT. */
  ghost function Resume(cpu: Cpu, mem: Memory, st: State): Event
    requires Halts(cpu, mem, st)
  {
    var fuel: nat :| RunFor(cpu, mem, st, fuel) != Running;
    RunFor(cpu, mem, st, fuel)
  }

  lemma ResumeIs(cpu: Cpu, mem: Memory, st: State, k: nat)
    requires RunFor(cpu, mem, st, k) != Running
    ensures Halts(cpu, mem, st) && Resume(cpu, mem, st) == RunFor(cpu, mem, st, k)
  {
    assert Halts(cpu, mem, st);
    var fuel: nat :| RunFor(cpu, mem, st, fuel) != Running && Resume(cpu, mem, st) == RunFor(cpu, mem, st, fuel);
    if k <= fuel {
      RunForStable(cpu, mem, st, k, fuel);
    } else {
      RunForStable(cpu, mem, st, fuel, k);
    }
  }

  lemma HaltsMeans(cpu: Cpu, mem: Memory, st: State)
    requires Halts(cpu, mem, st)
    ensures exists fuel: nat :: RunFor(cpu, mem, st, fuel) != Running
  {
  }

  /** PTRACE_CONT followed by waitpid, executed step by step. */
  method Continue(cpu: Cpu, mem: Memory, start: State) returns (ev: Event)
    requires Halts(cpu, mem, start)
    ensures ev != Running && ev == Resume(cpu, mem, start)
  {
    hide Step, Halts, Resume;
    assert exists fuel: nat :: RunFor(cpu, mem, start, fuel) != Running by {
      HaltsMeans(cpu, mem, start);
    }
    ghost var total: nat :| RunFor(cpu, mem, start, total) != Running;
    ghost var fuel := total;
    ResumeIs(cpu, mem, start, total);
    var st := start;
    while true
      invariant RunFor(cpu, mem, st, fuel) == RunFor(cpu, mem, start, total)
      decreases fuel
    {
      match Step(cpu, mem, st)
      case Moved(s) => st, fuel := s, fuel - 1;
      case Trapped(s) => return Stopped(s);
      case Ended(c) => return Exited(c);
      case Faulted => return Stopped(st);
    }
  }
}
