/** What each command does to a debugged process, in terms of the native run, the table and the sites. */
module Commands {
  import opened Words
  import opened Machine
  import opened Ptrace
  import opened Breakpoints
  import opened Debugger
  import opened Continuing
  import opened Transparency

  /** The same sites in the same slots, and the rest but the process as before. */
  predicate SameTable(d: Dbg, e: Dbg) {
    SameSites(d.slots, e.slots) && e.loaded == d.loaded && e.last == d.last
  }

  /** The process has been re-armed from state st of index n: one native step if rip was at a used site, none
      otherwise, and a trap at every used site. */
  ghost predicate Rearmed(p: Image, e: Dbg, st: State, n: nat, m: nat) {
    m == (if st.rip in Used(e.slots, p.bias) then n + 1 else n) && ArmedAt(p, e, m)
  }

  /** From d, run or cont has ended at native state m: at a site, its one slot disarmed and every other armed,
      or with the process gone. */
  ghost predicate Arrived(p: Image, d: Dbg, e: Dbg, m: nat) {
    && SameTable(d, e)
    && match Native(p, m)
       case Alive(st) => StoppedAt(p, e, m) && OneSlotAt(p, e.slots, st.rip)
       case Finished(_) => !e.running && e.proc == Gone
       case Broken => false
  }

  /** A live process has gone on to the first stop after native state n; a gone one is found to be gone. */
  ghost predicate Continued(p: Image, d: Dbg, e: Dbg, n: nat, m: nat) {
    if d.proc.Live? then FirstStop(p, Used(d.slots, p.bias), n + 1, m) && Arrived(p, d, e, m)
    else m == n && SameTable(d, e) && !e.running && e.proc == Gone
  }

  /** A new process has gone on to the first stop after the beginning. */
  ghost predicate Ran(p: Image, d: Dbg, e: Dbg, m: nat) {
    FirstStop(p, Used(d.slots, p.bias), 1, m) && Arrived(p, d, e, m)
  }

  /** The process has gone one native step on, and nothing else has changed. */
  ghost predicate Stepped(p: Image, d: Dbg, e: Dbg, n: nat)
    requires d.proc.Live?
  {
    match Native(p, n + 1)
    case Alive(st) => e == d.(proc := d.proc.(st := st))
    case Finished(_) => e == d.(proc := Gone)
    case Broken => false
  }

  predicate FirstFree(slots: seq<Slot>, k: nat) {
    k < |slots| && !slots[k].used && forall j :: 0 <= j < k ==> slots[j].used
  }

  /** The first free slot holds a; a process is re-armed. */
  ghost predicate BreakSet(p: Image, d: Dbg, a: nat, e: Dbg, n: nat, m: nat) {
    exists k: nat :: FirstFree(d.slots, k) && SameTable(d.(slots := d.slots[k := Slot(true, a, d.slots[k].word)]), e)
      && e.running == d.running
      && (!d.running ==> e.slots == d.slots[k := Slot(true, a, d.slots[k].word)])
      && if d.proc.Live? then Rearmed(p, e, d.proc.st, n, m) else m == n && e.proc == Gone
  }

  /** Slot i is free, and of the armed sites its own alone is lifted; everything else is as before. */
  ghost predicate Freed(p: Image, d: Dbg, i: nat, e: Dbg)
    requires i < |d.slots|
  {
    && e == d.(slots := d.slots[i := d.slots[i].(used := false)], proc := e.proc)
    && e.proc == if d.proc.Gone? then Gone else
         Live(Overlay(p.text, ArmedIn(p, d.slots, d.proc.mem) - {d.slots[i].addr}), d.proc.st)
  }

  /** Apart from what is printed and the cursor: nothing happens to the program unless it runs, and a process
      is re-armed. */
  ghost predicate Listed(p: Image, d: Dbg, e: Dbg, n: nat, m: nat) {
    if !d.running then e == d.(last := e.last) && m == n
    else
      && SameTable(d.(last := e.last), e) && e.running
      && if d.proc.Live? then Rearmed(p, e, d.proc.st, n, m) else m == n && e.proc == Gone
  }

  /** Command c, given in state d at native index n, has led to state e at native index m. */
  ghost predicate Performed(p: Image, d: Dbg, c: Command, e: Dbg, n: nat, m: nat) {
    match c
    case Start =>
      if !d.loaded then e == d && m == n
      else SameTable(d, e) && e.running && Rearmed(p, e, State(p.entry, p.ctx), 0, m)
    case Run =>
      if !d.loaded then e == d && m == n else if d.running then Continued(p, d, e, n, m) else Ran(p, d, e, m)
    case Cont =>
      if !d.running then e == d && m == n else Continued(p, d, e, n, m)
    case StepInsn =>
      if d.proc.Live? then m == n + 1 && Stepped(p, d, e, n) else e == d && m == n
    case Break(a) =>
      if !d.loaded then e == d && m == n else BreakSet(p, d, a, e, n, m)
    case Delete(i) =>
      m == n && if 0 <= i < |d.slots| && d.slots[i].used then Freed(p, d, i, e) else e == d
    case Disasm(arg) =>
      if arg.Omitted? && d.last == 0 then e == d && m == n else Listed(p, d, e, n, m)
  }

  /** The eight bytes the slot's word covers are poked back if the first of them is a trap. */
  ghost predicate Undone(t: Process, s: Slot, u: Process) {
    match t
    case Gone => u == Gone
    case Live(mem, st) =>
      && u.Live? && u.st == st && u.mem.Keys == mem.Keys
      && var undo := Mapped(mem, s.addr) && mem[s.addr] == TRAP;
         forall x :: x in mem ==>
           u.mem[x] == if undo && s.addr <= x < s.addr + 8 then ByteOf(s.word, x - s.addr) else mem[x]
  }

  /** delete in any state, with or without a process and whatever memory holds: any index but that of a used
      slot changes nothing; otherwise that slot alone is freed, and of a live process at most the eight bytes
      its word covers change, when the first of them is a trap. */
  lemma DeleteFrees(d: Dbg, i: int)
    ensures var e := DoDelete(d, i);
      if 0 <= i < |d.slots| && d.slots[i].used then
        && e == d.(slots := d.slots[i := d.slots[i].(used := false)], proc := e.proc)
        && Undone(d.proc, d.slots[i], e.proc)
      else e == d
  {
    hide Load, ByteOf, IsTrapWord;
    if 0 <= i < |d.slots| && d.slots[i].used {
      if Accessible(d.proc, d.slots[i].addr) {
        TrapByLowByte(d.proc.mem, d.slots[i].addr);
      }
    }
  }
}
