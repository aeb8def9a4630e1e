/** The debugger object: its methods against the functions of module Debugger. */
module Sdb {
  import opened Words
  import opened Machine
  import opened Ptrace
  import opened Breakpoints
  import opened Unpatching
  import opened Listing
  import opened Debugger

  class SDB {
    var image: Image
    var loaded: bool
    var pid: int
    const breaks: array<Slot>
    var last: nat
    /** The traced process, which ptrace reads and changes on the debugger's behalf. */
    var proc: Process

    ghost predicate Valid()
      reads this
    {
      breaks.Length == MAX_BREAK == 10
    }

    ghost function State(): Dbg
      reads this, breaks
    {
      Dbg(loaded, pid != -1, breaks[..], proc, last)
    }

    /** sdb_create */
    constructor (nothing: Image)
      ensures Valid() && fresh(breaks) && image == nothing
      ensures !loaded && pid == -1 && proc == Gone && last == 0
      ensures forall k :: 0 <= k < MAX_BREAK ==> !breaks[k].used
    {
      image, loaded, pid, last, proc := nothing, false, -1, 0, Gone;
      breaks := new Slot[MAX_BREAK](_ => Slot(false, 0, 0));
    }

    /** sdb_load, once the file has been read: a fresh table, no process, no listing cursor. */
    method Load(p: Image)
      requires Valid()
      modifies this`image, this`loaded, this`pid, this`last, this`proc, breaks
      ensures Valid() && image == p && loaded && pid == -1 && proc == Gone && last == 0
      ensures forall k :: 0 <= k < MAX_BREAK ==> breaks[k] == old(breaks[k]).(used := false)
    {
      image, loaded, pid, proc, last := p, true, -1, Gone, 0;
      for i := 0 to MAX_BREAK
        invariant forall k :: 0 <= k < i ==> breaks[k] == old(breaks[k]).(used := false)
        invariant forall k :: i <= k < MAX_BREAK ==> breaks[k] == old(breaks[k])
        modifies breaks
      {
        breaks[i] := breaks[i].(used := false);
      }
    }

    /** One turn of the loop below; false if its poke failed. */
    method ArmSlot(i: nat) returns (go: bool)
      requires Valid() && i < MAX_BREAK
      modifies this`proc, breaks
      ensures Turn(breaks[..], proc, go) == PatchSlot(image.cpu, image.bias, old(breaks[..]), old(proc), i)
    {
      hide Words.Load, Store, IsTrapWord, TrapWord, Step;
      var bp := breaks[i];
      if bp.used {
        var addr := Where(bp, image.bias);
        if proc.Live? && proc.st.rip == addr {
          proc := SingleStep(image.cpu, proc);
        }
        var word := Peek(proc, addr);
        if !IsTrapWord(word) {
          ghost var before := breaks[..];
          breaks[i] := bp.(word := word);
          assert breaks[..] == before[i := bp.(word := word)];
          if !Accessible(proc, addr) {
            return false;
          }
          proc := Poke(proc, addr, TrapWord(word));
        }
      }
      return true;
    }

    /** sdb_patch_all_bp */
    method PatchAll()
      requires Valid()
      modifies this`proc, breaks
      ensures State() == Patch(image, old(State()))
    {
      hide PatchSlot;
      for i := 0 to MAX_BREAK
        invariant PatchFrom(image.cpu, image.bias, breaks[..], proc, i)
               == PatchFrom(image.cpu, image.bias, old(breaks[..]), old(proc), 0)
      {
        var go := ArmSlot(i);
        if !go {
          return;
        }
      }
    }

    /** fork and execlp, and the wait for the new process to stop. */
    method Spawn()
      requires Valid()
      modifies this`pid, this`proc
      ensures pid != -1 && proc == Launch(image)
    {
      var child: int :| child > 0;
      pid := child;
      proc := Launch(image);
    }

    /** sdb_start */
    method Start()
      requires Valid()
      modifies this`pid, this`proc, breaks
      ensures State() == DoStart(image, old(State()))
    {
      if !loaded {
        return;
      }
      Spawn();
      PatchAll();
    }

    /** The scan over the table after a stop; true if a slot answers for it. */
    method Hit() returns (found: bool)
      requires Valid() && proc.Live?
      modifies this`proc
      ensures var k := FindHit(breaks[..], image.bias, old(proc).st.rip, 0);
        && (found <==> k != -1)
        && (found ==>
              var s, t := breaks[..][k], Poke(old(proc), Where(breaks[..][k], image.bias), breaks[..][k].word);
              proc == t.(st := t.st.(rip := t.st.rip - 1)))
    {
      for i := 0 to MAX_BREAK
        invariant proc == old(proc)
        invariant FindHit(breaks[..], image.bias, proc.st.rip, i) == FindHit(breaks[..], image.bias, proc.st.rip, 0)
      {
        var bp := breaks[i];
        var vaddr := Where(bp, image.bias);
        if bp.used && vaddr == proc.st.rip - 1 {
          proc := Poke(proc, vaddr, bp.word);
          proc := proc.(st := proc.st.(rip := proc.st.rip - 1));
          return true;
        }
      }
      return false;
    }

    /** PTRACE_CONT and the wait loop. */
    method AwaitStop()
      requires Valid() && pid != -1 && WaitReturns(image, State())
      modifies this`pid, this`proc
      ensures State() == Await(image, old(State()))
    {
      hide Words.Load, Store, ByteOf, Step;
      if proc.Gone? {
        pid := -1;
        return;
      }
      var ev := Continue(image.cpu, proc.mem, proc.st);
      if ev.Stopped? {
        proc := proc.(st := ev.st);
        var found := Hit();
        assert found;
      } else {
        proc := Gone;
        pid := -1;
      }
    }

    /** sdb_cont */
    method Cont()
      requires Valid() && ContReturns(image, State())
      modifies this`pid, this`proc, breaks
      ensures State() == DoCont(image, old(State()))
    {
      if pid == -1 {
        return;
      }
      PatchAll();
      AwaitStop();
    }

    /** sdb_run */
    method Run()
      requires Valid() && RunReturns(image, State())
      modifies this`pid, this`proc, breaks
      ensures State() == DoRun(image, old(State()))
    {
      if !loaded {
        return;
      }
      if pid == -1 {
        Spawn();
      }
      PatchAll();
      AwaitStop();
    }

    /** sdb_step */
    method StepInsn()
      requires Valid()
      modifies this`proc
      ensures State() == DoStep(image, old(State()))
    {
      if pid == -1 {
        return;
      }
      proc := SingleStep(image.cpu, proc);
    }

    /** sdb_set_break. The table must have a free slot: the program has no answer when it is full. */
    method SetBreak(addr: nat)
      requires Valid() && (loaded ==> FreeSlot(breaks[..], 0) != -1)
      modifies this`proc, breaks
      ensures State() == DoBreak(image, old(State()), addr)
    {
      if !loaded {
        return;
      }
      var i := 0;
      while breaks[i].used
        invariant 0 <= i < MAX_BREAK
        invariant FreeSlot(breaks[..], i) == FreeSlot(breaks[..], 0)
        decreases MAX_BREAK - i
      {
        i := i + 1;
      }
      ghost var before := breaks[..];
      breaks[i] := Slot(true, addr, breaks[i].word);
      assert breaks[..] == before[i := Slot(true, addr, before[i].word)];
      if pid != -1 {
        PatchAll();
      }
    }

    /** sdb_delete */
    method Delete(index: int)
      requires Valid()
      modifies this`proc, breaks
      ensures State() == DoDelete(old(State()), index)
    {
      if 0 <= index < MAX_BREAK && breaks[index].used {
        var bp := breaks[index];
        if IsTrapWord(Peek(proc, bp.addr)) {
          proc := Poke(proc, bp.addr, bp.word);
        }
        ghost var before := breaks[..];
        breaks[index] := bp.(used := false);
        assert breaks[..] == before[index := bp.(used := false)];
      }
    }

    /** The listing loop's pokes. */
    method LiftTraps()
      requires Valid()
      modifies this`proc
      ensures proc == UnpatchFrom(breaks[..], old(proc), 0)
    {
      hide Poke;
      for i := 0 to MAX_BREAK
        invariant UnpatchFrom(breaks[..], proc, i) == UnpatchFrom(breaks[..], old(proc), 0)
      {
        var bp := breaks[i];
        if bp.used {
          proc := Poke(proc, bp.addr, bp.word);
        }
      }
    }

    /** memcpy of a peeked word into the buffer. */
    static method CopyWord(buffer: array<Byte>, at: nat, word: Word)
      requires at + 8 <= buffer.Length
      modifies buffer
      ensures buffer[..at + 8] == old(buffer[..at]) + WordBytes(word)
    {
      hide ByteOf;
      for k := 0 to 8
        invariant buffer[..at] == old(buffer[..at])
        invariant forall j :: 0 <= j < k ==> buffer[at + j] == WordBytes(word)[j]
      {
        buffer[at + k] := ByteOf(word, k);
      }
      assert buffer[..at + 8] == buffer[..at] + buffer[at..at + 8];
    }

    /** Up to 64 bytes from addr on, peeked word by word into the buffer. */
    method ReadWindow(addr: nat) returns (buffer: array<Byte>, size: nat)
      ensures fresh(buffer) && size <= buffer.Length == WINDOW
      ensures buffer[..size] == LiveWindow(proc, addr, WINDOW / 8)
    {
      hide Peek, Accessible, ByteOf, WordBytes, LiveWindow;
      buffer := new Byte[WINDOW](_ => 0);
      size := 0;
      ghost var left: nat := WINDOW / 8;
      while size < WINDOW
        invariant size + 8 * left == WINDOW
        invariant buffer[..size] + LiveWindow(proc, addr + size, left) == LiveWindow(proc, addr, WINDOW / 8)
      {
        LiveWindowStep(proc, addr + size, left);
        if !Accessible(proc, addr + size) {
          return;
        }
        CopyWord(buffer, size, Peek(proc, addr + size));
        size, left := size + 8, left - 1;
      }
      LiveWindowNone(proc, addr + size);
    }

    /** The section scan; -1 when no section holds the address. */
    method FindSection(addr: nat) returns (k: int)
      ensures k == SectionOf(image.sections, addr, 0)
    {
      for i := 0 to |image.sections|
        invariant SectionOf(image.sections, addr, i) == SectionOf(image.sections, addr, 0)
      {
        var s := image.sections[i];
        if s.addr <= addr < s.addr + s.size {
          return i;
        }
      }
      return -1;
    }

    /** cs_disasm on the window and the loop that prints at most ten lines, moving the cursor along. */
    method PrintLines(w: seq<Byte>, addr: nat) returns (lines: seq<Insn>)
      modifies this`last
      ensures lines == Sweep(image.dec, w, addr, LINES)
      ensures last == old(last) + TotalSize(lines)
    {
      hide Sweep, TotalSize;
      lines := [];
      var at := 0;
      var k := image.dec(w[at..]);
      NoLines();
      while |lines| < LINES && 0 < k <= |w| - at
        invariant at <= |w| && |lines| <= LINES && k == image.dec(w[at..])
        invariant lines + Sweep(image.dec, w[at..], addr + at, LINES - |lines|) == Sweep(image.dec, w, addr, LINES)
        invariant last == old(last) + TotalSize(lines)
        decreases LINES - |lines|
      {
        SweepStep(image.dec, w, at, addr, LINES - |lines|);
        var insn := Insn(addr + at, w[at..at + k]);
        LineSize(lines, insn);
        lines, last, at := lines + [insn], last + k, at + k;
        k := image.dec(w[at..]);
      }
      SweepStep(image.dec, w, at, addr, LINES - |lines|);
    }

    static lemma NoLines()
      ensures TotalSize([]) == 0
    {
    }

    static lemma LineSize(lines: seq<Insn>, insn: Insn)
      ensures TotalSize(lines + [insn]) == TotalSize(lines) + |insn.bytes|
    {
      TotalSizeJoins(lines, [insn]);
    }

    /** sdb_disasm; the lines it prints are its result. */
    method Disasm(arg: Address) returns (lines: seq<Insn>)
      requires Valid()
      modifies this`last, this`proc, breaks
      ensures (State(), lines) == DoDisasm(image, old(State()), arg)
    {
      hide Sweep, PatchFrom, UnpatchFrom, LiveWindow, FileWindow;
      if arg.Omitted? {
        if last == 0 {
          return [];
        }
      } else {
        last := arg.addr;
      }
      var addr := last;
      var window: seq<Byte>;
      if pid == -1 {
        var k := FindSection(addr);
        if k == -1 {
          return [];
        }
        window := FileWindow(image.file, image.sections[k].offset + (addr - image.sections[k].addr));
      } else {
        LiftTraps();
        var buffer, size := ReadWindow(addr);
        window := buffer[..size];
        PatchAll();
      }
      lines := PrintLines(window, addr);
    }
  }
}
