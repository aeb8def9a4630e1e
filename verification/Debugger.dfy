/** The debugger's state and what each command makes of it. */
module Debugger {
  import opened Words
  import opened Machine
  import opened Ptrace
  import opened Breakpoints
  import opened Unpatching
  import opened Listing

  /** `running` is the pid test of the debugger: it can stay true after the process has gone. */
  datatype Dbg = Dbg(loaded: bool, running: bool, slots: seq<Slot>, proc: Process, last: nat)

  datatype Address = At(addr: nat) | Omitted

  datatype Command =
    | Start
    | Run
    | Cont
    | StepInsn
    | Break(addr: nat)
    | Delete(index: int)
    | Disasm(arg: Address)

  function Launch(p: Image): Process {
    Live(p.text, State(p.entry, p.ctx))
  }

  function Patch(p: Image, d: Dbg): Dbg {
    var r := PatchFrom(p.cpu, p.bias, d.slots, d.proc, 0);
    d.(slots := r.0, proc := r.1)
  }

  /** sdb_start: a new process, stopped at its first instruction, then patched. */
  function DoStart(p: Image, d: Dbg): Dbg {
    if !d.loaded then d else Patch(p, d.(running := true, proc := Launch(p)))
  }

  /** The scan after a stop: the first used slot from i on whose trap rip has just passed, or -1. */
  function FindHit(slots: seq<Slot>, bias: nat, rip: nat, i: nat): (k: int)
    requires i <= |slots|
    ensures k == -1 || (i <= k < |slots| && slots[k].used && Where(slots[k], bias) == rip - 1)
    ensures forall j :: i <= j < |slots| && slots[j].used && Where(slots[j], bias) == rip - 1 ==> k != -1 && k <= j
    decreases |slots| - i
  {
    if i == |slots| then -1
    else if slots[i].used && Where(slots[i], bias) == rip - 1 then i
    else FindHit(slots, bias, rip, i + 1)
  }

  /** The wait loop ends: the process exits or is gone, or stops at a trap one of the slots accounts for.
      A stop that matches no slot is waited on for ever. */
  ghost predicate WaitReturns(p: Image, d: Dbg) {
    d.proc.Live? ==>
      && Halts(p.cpu, d.proc.mem, d.proc.st)
      && var ev := Resume(p.cpu, d.proc.mem, d.proc.st);
         ev.Stopped? ==> FindHit(d.slots, p.bias, ev.st.rip, 0) != -1
  }

  /** PTRACE_CONT and the wait loop of sdb_cont and sdb_run. */
  ghost function Await(p: Image, d: Dbg): Dbg
    requires WaitReturns(p, d)
  {
    if d.proc.Gone? then d.(running := false)
    else match Resume(p.cpu, d.proc.mem, d.proc.st)
         case Stopped(st) =>
           var s := d.slots[FindHit(d.slots, p.bias, st.rip, 0)];
           var t := Poke(Live(d.proc.mem, st), Where(s, p.bias), s.word);
           d.(proc := t.(st := st.(rip := st.rip - 1)))
         case _ => d.(running := false, proc := Gone)
  }

  ghost predicate ContReturns(p: Image, d: Dbg) {
    d.running ==> WaitReturns(p, Patch(p, d))
  }

  ghost function DoCont(p: Image, d: Dbg): Dbg
    requires ContReturns(p, d)
  {
    if !d.running then d else Await(p, Patch(p, d))
  }

  /** sdb_run launches a process only if none is running. */
  function Launched(p: Image, d: Dbg): Dbg {
    if d.running then d else d.(running := true, proc := Launch(p))
  }

  ghost predicate RunReturns(p: Image, d: Dbg) {
    d.loaded ==> WaitReturns(p, Patch(p, Launched(p, d)))
  }

  ghost function DoRun(p: Image, d: Dbg): Dbg
    requires RunReturns(p, d)
  {
    if !d.loaded then d else Await(p, Patch(p, Launched(p, d)))
  }

  function DoStep(p: Image, d: Dbg): Dbg {
    if !d.running then d else d.(proc := SingleStep(p.cpu, d.proc))
  }

  /** The first unused slot from i on, or -1. */
  function FreeSlot(slots: seq<Slot>, i: nat): (k: int)
    requires i <= |slots|
    ensures k == -1 || (i <= k < |slots| && !slots[k].used && forall j :: i <= j < k ==> slots[j].used)
    ensures k == -1 ==> forall j :: i <= j < |slots| ==> slots[j].used
    decreases |slots| - i
  {
    if i == |slots| then -1 else if !slots[i].used then i else FreeSlot(slots, i + 1)
  }

  function Occupied(slots: seq<Slot>, a: nat): (r: seq<Slot>)
    requires FreeSlot(slots, 0) != -1
  {
    var k := FreeSlot(slots, 0);
    slots[k := Slot(true, a, slots[k].word)]
  }

  function DoBreak(p: Image, d: Dbg, a: nat): Dbg
    requires d.loaded ==> FreeSlot(d.slots, 0) != -1
  {
    if !d.loaded then d
    else
      var d1 := d.(slots := Occupied(d.slots, a));
      if d.running then Patch(p, d1) else d1
  }

  function DoDelete(d: Dbg, index: int): Dbg {
    if 0 <= index < |d.slots| && d.slots[index].used then
      var s := d.slots[index];
      var t := if IsTrapWord(Peek(d.proc, s.addr)) then Poke(d.proc, s.addr, s.word) else d.proc;
      d.(slots := d.slots[index := s.(used := false)], proc := t)
    else d
  }

  /** The lines listed at address a, and the state the listing leaves behind. */
  function ListAt(p: Image, d: Dbg, a: nat): (r: (Dbg, seq<Insn>)) {
    if d.running then
      var lifted := UnpatchFrom(d.slots, d.proc, 0);
      var l := Sweep(p.dec, LiveWindow(lifted, a, WINDOW / 8), a, LINES);
      (Patch(p, d.(proc := lifted)).(last := a + TotalSize(l)), l)
    else
      var k := SectionOf(p.sections, a, 0);
      var l := if k == -1 then [] else
        Sweep(p.dec, FileWindow(p.file, p.sections[k].offset + (a - p.sections[k].addr)), a, LINES);
      (d.(last := a + TotalSize(l)), l)
  }

  /** sdb_disasm: a given address restarts the listing, none goes on where the last one stopped. */
  function DoDisasm(p: Image, d: Dbg, arg: Address): (r: (Dbg, seq<Insn>)) {
    match arg
    case At(a) => ListAt(p, d, a)
    case Omitted => if d.last == 0 then (d, []) else ListAt(p, d, d.last)
  }

  /** The command comes back, and finds a free slot if it needs one. */
  ghost predicate Returns(p: Image, d: Dbg, c: Command) {
    match c
    case Run => RunReturns(p, d)
    case Cont => ContReturns(p, d)
    case Break(_) => d.loaded ==> FreeSlot(d.slots, 0) != -1
    case _ => true
  }

  ghost function Do(p: Image, d: Dbg, c: Command): Dbg
    requires Returns(p, d, c)
  {
    match c
    case Start => DoStart(p, d)
    case Run => DoRun(p, d)
    case Cont => DoCont(p, d)
    case StepInsn => DoStep(p, d)
    case Break(a) => DoBreak(p, d, a)
    case Delete(i) => DoDelete(d, i)
    case Disasm(arg) => DoDisasm(p, d, arg).0
  }
}
