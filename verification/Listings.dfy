/** What the user reads: listings over whole sequences of disasm commands, running or not. */
module Listings {
  import opened Words
  import opened Machine
  import opened Ptrace
  import opened Breakpoints
  import opened Unpatching
  import opened Listing
  import opened Debugger
  import opened Simulation
  import opened Transparency
  import opened Runs

  /** k times `disasm` without an address: the state left behind and all the lines printed. */
  function ListOn(p: Image, d: Dbg, k: nat): (r: (Dbg, seq<Insn>))
    decreases k
  {
    if k == 0 then (d, [])
    else
      var head := DoDisasm(p, d, Omitted);
      var rest := ListOn(p, head.0, k - 1);
      (rest.0, head.1 + rest.1)
  }

  /** `disasm a` and then k times `disasm`. */
  function ListFrom(p: Image, d: Dbg, a: nat, k: nat): (r: (Dbg, seq<Insn>)) {
    var head := DoDisasm(p, d, At(a));
    var rest := ListOn(p, head.0, k);
    (rest.0, head.1 + rest.1)
  }

  /** The lines are the linear sweep of mem from a on, and the cursor is just behind them. */
  ghost predicate SweptTo(p: Image, mem: Memory, a: nat, r: (Dbg, seq<Insn>)) {
    && r.1 == LinearSweep(p.dec, mem, a, |r.1|)
    && r.0.last == a + TotalSize(r.1)
  }

  predicate Present(mem: Memory, a: nat, size: nat) {
    forall x :: a <= x < a + size ==> x in mem
  }

  /** A piece has at most ten lines and 64 bytes. With `size` bytes before it, counted in words, it has ten lines,
      or fewer than 15 of those bytes were left, or it ends where the sweep itself ends. */
  ghost predicate Full(p: Image, mem: Memory, a: nat, l: seq<Insn>) {
    && |l| <= 10 && TotalSize(l) <= 64
    && forall size: nat :: size % 8 == 0 && size <= 64 && Present(mem, a, size) ==>
         |l| == 10 || size < TotalSize(l) + 15 || LinearSweep(p.dec, mem, a, |l| + 1) == l
  }

  /** One listing: a full piece of the sweep of mem from a on, the cursor just behind it. */
  ghost predicate Prints(p: Image, mem: Memory, a: nat, r: (Dbg, seq<Insn>)) {
    SweptTo(p, mem, a, r) && Full(p, mem, a, r.1)
  }

  lemma WindowPrints(p: Image, mem: Memory, a: nat, w: seq<Byte>, r: (Dbg, seq<Insn>))
    requires IsDecoder(p.dec) && Shows(mem, a, w) && |w| <= 64
    requires forall size: nat :: size % 8 == 0 && size <= 64 && Present(mem, a, size) ==> size <= |w|
    requires r.1 == Sweep(p.dec, w, a, LINES) && r.0.last == a + TotalSize(r.1)
    ensures Prints(p, mem, a, r)
  {
    hide IsDecoder, LinearSweep, Sweep, Fetch, Shows;
    SweepIsLinear(p.dec, mem, a, w, LINES);
    SweepStopsLate(p.dec, mem, a, w, LINES);
  }

  lemma SweptJoin(p: Image, mem: Memory, a: nat, head: (Dbg, seq<Insn>), rest: (Dbg, seq<Insn>))
    requires SweptTo(p, mem, a, head) && SweptTo(p, mem, head.0.last, rest)
    ensures SweptTo(p, mem, a, (rest.0, head.1 + rest.1))
  {
    hide Fetch;
    LinearSweepJoins(p.dec, mem, a, |head.1|, |rest.1|);
    TotalSizeJoins(head.1, rest.1);
  }

  // ----- running -----

  /** A state in which every disasm is allowed: gone, or off every site with nothing left to step over. */
  ghost predicate Listable(p: Image, d: Dbg, n: nat) {
    System(p, d, n) && d.running && (d.proc.Live? ==> Calm(p, d.slots, d.proc.st))
  }

  /** The lines printed for a live process are those of the text itself. */
  lemma LivePiece(p: Image, d: Dbg, a: nat, n: nat)
    requires p.bias == 0 && System(p, d, n) && d.proc.Live?
    ensures var w := LiveWindow(Live(p.text, d.proc.st), a, WINDOW / 8);
      ListAt(p, d, a).1 == Sweep(p.dec, w, a, LINES) && Shows(p.text, a, w)
  {
    hide Step, PatchFrom, UnpatchFrom, LiveWindow, Sweep, Placed, Shows;
    LiftAll(p, d.slots, d.proc, n);
    LiveWindowShows(Live(p.text, d.proc.st), a, WINDOW / 8);
  }

  /** After a listing every used site is armed and rip is at none of them, or the process is gone. */
  lemma StaysListable(p: Image, d: Dbg, a: nat, n: nat) returns (m: nat)
    requires WellBehaved(p) && p.bias == 0 && Listable(p, d, n)
    ensures Listable(p, ListAt(p, d, a).0, m)
  {
    hide Step, PatchFrom, UnpatchFrom, Sited, NativeWords, LiveWindow, Sweep, Placed;
    if d.proc.Live? {
      DisasmKeeps(p, d, a, n);
      m := PassedTo(p, d.slots, d.proc.st, n);
      if ListAt(p, d, a).0.proc.Live? {
        CalmWhenArmed(p, ListAt(p, d, a).0, m);
      }
    } else {
      UnpatchGone(d.slots, 0);
      PatchWhenGone(p, d, n);
      m := n;
    }
  }

  lemma CalmWhenArmed(p: Image, d: Dbg, m: nat)
    requires System(p, d, m) && ArmedAt(p, d, m) && d.proc.Live?
    ensures Calm(p, d.slots, d.proc.st)
  {
  }

  lemma {:induction false} LiveWindowAtLeast(t: Process, a: nat, n: nat, m: nat)
    requires m <= n && t.Live? && Present(t.mem, a, 8 * m)
    ensures 8 * m <= |LiveWindow(t, a, n)|
    decreases m
  {
    if m != 0 {
      LiveWindowAtLeast(t, a + 8, n - 1, m - 1);
    }
  }

  lemma LiveWindowTakes(t: Process, a: nat)
    requires t.Live?
    ensures |LiveWindow(t, a, WINDOW / 8)| <= 64
    ensures forall size: nat :: size % 8 == 0 && size <= 64 && Present(t.mem, a, size) ==>
      size <= |LiveWindow(t, a, WINDOW / 8)|
  {
    hide LiveWindow;
    forall size: nat | size % 8 == 0 && size <= 64 && Present(t.mem, a, size)
      ensures size <= |LiveWindow(t, a, WINDOW / 8)|
    {
      LiveWindowAtLeast(t, a, 8, size / 8);
    }
  }

  /** What a listing of a live process shows: the text itself, or at a load bias the text with the traps. */
  function Visible(p: Image, d: Dbg): Memory
    requires d.proc.Live?
  {
    if p.bias == 0 then p.text else d.proc.mem
  }

  /** One listing of a live process is a full piece of the sweep of what it shows, through all the traps. */
  lemma LivePrints(p: Image, d: Dbg, a: nat, n: nat)
    requires IsDecoder(p.dec) && System(p, d, n) && d.running && d.proc.Live?
    requires p.bias == 0 || RawUnmapped(p, d.slots)
    ensures Prints(p, Visible(p, d), a, ListAt(p, d, a))
  {
    hide Step, PatchFrom, UnpatchFrom, LiveWindow, IsDecoder, LinearSweep, Sweep, Placed, Shows, Prints;
    if p.bias == 0 {
      LiftAll(p, d.slots, d.proc, n);
    } else {
      LiftNone(p, d.slots, d.proc, n);
    }
    var t := Live(Visible(p, d), d.proc.st);
    LiveWindowShows(t, a, WINDOW / 8);
    LiveWindowTakes(t, a);
    WindowPrints(p, t.mem, a, LiveWindow(t, a, WINDOW / 8), ListAt(p, d, a));
  }

  /** With no process behind it a listing shows nothing. */
  lemma GonePrints(p: Image, d: Dbg, a: nat)
    requires d.running && d.proc.Gone?
    ensures ListAt(p, d, a).1 == [] && ListAt(p, d, a).0.last == a
  {
    hide PatchFrom, UnpatchFrom, Sweep, LiveWindow;
    UnpatchGone(d.slots, 0);
    GoneListsNothing(p.dec, a);
  }

  /** One listing of a running process, through all its traps, is a piece of the sweep of the text. */
  lemma LiveListing(p: Image, d: Dbg, a: nat, n: nat)
    requires IsDecoder(p.dec) && p.bias == 0 && Listable(p, d, n)
    ensures SweptTo(p, p.text, a, ListAt(p, d, a))
  {
    hide ListAt, IsDecoder, LinearSweep, Placed, Synced, Calm, Full;
    if d.proc.Live? {
      LivePrints(p, d, a, n);
    } else {
      GonePrints(p, d, a);
      LinearSweepNone(p.dec, p.text, a);
    }
  }

  lemma GoneListsNothing(dec: seq<Byte> -> nat, a: nat)
    ensures Sweep(dec, LiveWindow(Gone, a, WINDOW / 8), a, LINES) == []
  {
  }

  lemma LinearSweepNone(dec: seq<Byte> -> nat, mem: Memory, a: nat)
    ensures LinearSweep(dec, mem, a, 0) == []
  {
  }

  lemma {:induction false} LiveListOn(p: Image, d: Dbg, k: nat, n: nat)
    requires WellBehaved(p) && IsDecoder(p.dec) && p.bias == 0 && Listable(p, d, n)
    ensures SweptTo(p, p.text, d.last, ListOn(p, d, k))
    decreases k
  {
    hide WellBehaved, IsDecoder, Listable, ListAt, LinearSweep;
    LinearSweepNone(p.dec, p.text, d.last);
    if k != 0 {
      if d.last != 0 {
        LiveListing(p, d, d.last, n);
        var m := StaysListable(p, d, d.last, n);
        var head := ListAt(p, d, d.last);
        LiveListOn(p, head.0, k - 1, m);
        SweptJoin(p, p.text, d.last, head, ListOn(p, head.0, k - 1));
      } else {
        LiveListOn(p, d, k - 1, n);
        SweptJoin(p, p.text, d.last, (d, []), ListOn(p, d, k - 1));
      }
    }
  }

  /** Chunked listing, running: `disasm a` and any number of `disasm` print consecutive, gap-free,
      repeat-free pieces of the linear sweep of the text, whatever traps are planted in it. */
  lemma LiveListFrom(p: Image, d: Dbg, a: nat, k: nat, n: nat)
    requires WellBehaved(p) && IsDecoder(p.dec) && p.bias == 0 && Listable(p, d, n)
    ensures SweptTo(p, p.text, a, ListFrom(p, d, a, k))
  {
    hide WellBehaved, IsDecoder, Listable, ListAt, LinearSweep;
    LiveListing(p, d, a, n);
    var m := StaysListable(p, d, a, n);
    LiveListOn(p, ListAt(p, d, a).0, k, m);
    SweptJoin(p, p.text, a, ListAt(p, d, a), ListOn(p, ListAt(p, d, a).0, k));
  }

  /** A piece with 64 mapped bytes before it never stops early: it has ten lines, or at least 50 bytes of
      code, or it ends where the sweep itself ends. */
  lemma LivePieceIsFull(p: Image, d: Dbg, a: nat, n: nat)
    requires IsDecoder(p.dec) && p.bias == 0 && System(p, d, n) && d.proc.Live?
    requires forall x :: a <= x < a + WINDOW ==> x in p.text
    ensures var l := ListAt(p, d, a).1;
      |l| == LINES || 50 <= TotalSize(l) || LinearSweep(p.dec, p.text, a, |l| + 1) == l
  {
    hide Step, LiveWindow, IsDecoder, LinearSweep, Sweep, System, ListAt;
    var t := Live(p.text, d.proc.st);
    LivePiece(p, d, a, n);
    LiveWindowFull(t, a, WINDOW / 8);
    SweepStopsLate(p.dec, p.text, a, LiveWindow(t, a, WINDOW / 8), LINES);
  }

  // ----- not running: the file seen through a section -----

  predicate Holds(s: Section, a: nat) {
    s.addr <= a < s.addr + s.size
  }

  /** No section before section k shares an address with it. Later ones may: sections that are not loaded all
      have address 0. */
  ghost predicate Foremost(sections: seq<Section>, k: nat)
    requires k < |sections|
  {
    forall i, x :: 0 <= i < k && Holds(sections[k], x) ==> !Holds(sections[i], x)
  }

  lemma {:induction false} ScanFinds(sections: seq<Section>, k: nat, a: nat, i: nat)
    requires i <= k < |sections| && Holds(sections[k], a)
    requires forall j :: i <= j < k ==> !Holds(sections[j], a)
    ensures SectionOf(sections, a, i) == k
    decreases k - i
  {
    if i < k {
      ScanFinds(sections, k, a, i + 1);
    }
  }

  /** The scan finds a section for every address in it exactly when no earlier section shares one with it. */
  lemma ForemostIff(sections: seq<Section>, k: nat)
    requires k < |sections|
    ensures Foremost(sections, k) <==> forall a :: Holds(sections[k], a) ==> SectionOf(sections, a, 0) == k
  {
    if Foremost(sections, k) {
      forall a | Holds(sections[k], a)
        ensures SectionOf(sections, a, 0) == k
      {
        ScanFinds(sections, k, a, 0);
      }
    } else {
      var i, x :| 0 <= i < k && Holds(sections[k], x) && Holds(sections[i], x);
      ScanStopsBy(sections, i, x, 0);
    }
  }

  lemma {:induction false} ScanStopsBy(sections: seq<Section>, i: nat, a: nat, from: nat)
    requires from <= i < |sections| && Holds(sections[i], a)
    ensures from <= SectionOf(sections, a, from) <= i
    decreases i - from
  {
    if from < i && !Holds(sections[from], a) {
      ScanStopsBy(sections, i, a, from + 1);
    }
  }

  /** Address x falls inside the file when section s places it. */
  predicate InFile(p: Image, s: Section, x: nat) {
    s.addr <= x && s.offset + (x - s.addr) < |p.file|
  }

  function FileByte(p: Image, s: Section, x: nat): Byte
    requires InFile(p, s, x)
  {
    p.file[s.offset + (x - s.addr)]
  }

  /** The file laid out at the addresses of section s, up to the end of the file. */
  function FileMem(p: Image, s: Section): Memory {
    map x: nat | s.addr <= x < s.addr + |p.file| && InFile(p, s, x) :: FileByte(p, s, x)
  }

  lemma FileShows(p: Image, s: Section, a: nat)
    requires s.addr <= a
    ensures var w := FileWindow(p.file, s.offset + (a - s.addr));
      && Shows(FileMem(p, s), a, w) && |w| <= 64
      && forall size: nat :: size % 8 == 0 && size <= 64 && Present(FileMem(p, s), a, size) ==> size <= |w|
  {
    var w := FileWindow(p.file, s.offset + (a - s.addr));
    forall size: nat | size % 8 == 0 && size <= 64 && Present(FileMem(p, s), a, size)
      ensures size <= |w|
    {
      assert size > 0 ==> a + size - 1 in FileMem(p, s);
    }
  }

  /** One listing of a program that is not running is a full piece of the sweep of the file, seen through the
      section the scan finds. */
  lemma FileListing(p: Image, d: Dbg, a: nat)
    requires IsDecoder(p.dec) && !d.running && SectionOf(p.sections, a, 0) != -1
    ensures Prints(p, FileMem(p, p.sections[SectionOf(p.sections, a, 0)]), a, ListAt(p, d, a))
    ensures !ListAt(p, d, a).0.running
  {
    hide IsDecoder, LinearSweep, Sweep, Fetch, FileMem, FileWindow, Shows, Prints;
    var s := p.sections[SectionOf(p.sections, a, 0)];
    FileShows(p, s, a);
    WindowPrints(p, FileMem(p, s), a, FileWindow(p.file, s.offset + (a - s.addr)), ListAt(p, d, a));
  }

  lemma {:induction false} FileListOn(p: Image, d: Dbg, k: nat, n: nat)
    requires IsDecoder(p.dec) && !d.running && k < |p.sections| && Foremost(p.sections, k)
    requires n > 0 ==> Holds(p.sections[k], d.last) && Holds(p.sections[k], ListOn(p, d, n - 1).0.last)
    ensures SweptTo(p, FileMem(p, p.sections[k]), d.last, ListOn(p, d, n))
    decreases n
  {
    hide IsDecoder, Foremost, ListAt, LinearSweep;
    LinearSweepNone(p.dec, FileMem(p, p.sections[k]), d.last);
    if n != 0 {
      if d.last != 0 {
        ForemostIff(p.sections, k);
        FileListing(p, d, d.last);
        var head := ListAt(p, d, d.last);
        if n > 1 {
          ListHeadGrows(p, d, d.last);
          CursorGrows(p, head.0, n - 2);
        }
        FileListOn(p, head.0, k, n - 1);
        SweptJoin(p, FileMem(p, p.sections[k]), d.last, head, ListOn(p, head.0, n - 1));
      } else {
        FileListOn(p, d, k, n - 1);
        SweptJoin(p, FileMem(p, p.sections[k]), d.last, (d, []), ListOn(p, d, n - 1));
      }
    }
  }

  lemma ListHeadGrows(p: Image, d: Dbg, a: nat)
    ensures a <= ListAt(p, d, a).0.last
  {
    hide Sweep, PatchFrom, UnpatchFrom;
  }

  /** The cursor never goes back. */
  lemma {:induction false} CursorGrows(p: Image, d: Dbg, n: nat)
    ensures d.last <= ListOn(p, d, n).0.last
    decreases n
  {
    hide Sweep, PatchFrom, UnpatchFrom;
    if n != 0 {
      CursorGrows(p, DoDisasm(p, d, Omitted).0, n - 1);
    }
  }

  /** Chunked listing, not running: as long as every cursor a command starts from is in the section of a, the
      pieces are consecutive pieces of the sweep of the file's bytes. The last one may end at the section's end
      or past it. */
  lemma FileListFrom(p: Image, d: Dbg, k: nat, a: nat, n: nat)
    requires IsDecoder(p.dec) && !d.running && k < |p.sections| && Foremost(p.sections, k)
    requires Holds(p.sections[k], a)
    requires n > 0 ==> Holds(p.sections[k], ListFrom(p, d, a, n - 1).0.last)
    ensures SweptTo(p, FileMem(p, p.sections[k]), a, ListFrom(p, d, a, n))
  {
    hide IsDecoder, Foremost, ListAt, LinearSweep;
    ForemostIff(p.sections, k);
    FileListing(p, d, a);
    var head := ListAt(p, d, a);
    ListHeadGrows(p, d, a);
    if n > 0 {
      CursorGrows(p, head.0, n - 1);
    }
    FileListOn(p, head.0, k, n);
    SweptJoin(p, FileMem(p, p.sections[k]), a, head, ListOn(p, head.0, n));
  }

  // ----- the two views agree -----

  /** Section s is loaded byte for byte, and its last word can be peeked. */
  predicate Verbatim(p: Image, s: Section) {
    && s.offset + s.size <= |p.file|
    && (forall x :: s.addr <= x < s.addr + s.size + 7 ==> x in p.text)
    && (forall x :: s.addr <= x < s.addr + s.size ==> p.text[x] == FileByte(p, s, x))
  }

  lemma {:induction false} LiveWindowCovers(t: Process, a: nat, n: nat, need: nat)
    requires t.Live? && forall x :: a <= x < a + need + 7 ==> x in t.mem
    ensures need <= |LiveWindow(t, a, n)| || |LiveWindow(t, a, n)| == 8 * n
    decreases n
  {
    if n != 0 && need > 8 {
      LiveWindowCovers(t, a + 8, n - 1, need - 8);
    }
  }

  /** What disasm lists before start from the file, it lists while running from memory, whatever
      breakpoints are armed: the instructions inside the section that the scan finds are the same. */
  lemma ViewsAgree(p: Image, idle: Dbg, live: Dbg, a: nat, n: nat)
    requires IsDecoder(p.dec) && p.bias == 0 && SectionOf(p.sections, a, 0) != -1
    requires Verbatim(p, p.sections[SectionOf(p.sections, a, 0)])
    requires !idle.running && System(p, live, n) && live.proc.Live?
    ensures var s := p.sections[SectionOf(p.sections, a, 0)];
      Below(ListAt(p, idle, a).1, s.addr + s.size) == Below(ListAt(p, live, a).1, s.addr + s.size)
  {
    hide Step, System, Sweep, Below, PatchFrom, LiveWindow, ListAt, PrefixDetermined;
    var s, t := p.sections[SectionOf(p.sections, a, 0)], Live(p.text, live.proc.st);
    var v, w := FileWindow(p.file, s.offset + (a - s.addr)), LiveWindow(t, a, WINDOW / 8);
    IdlePiece(p, idle, a);
    LivePiece(p, live, a, n);
    var need := s.addr + s.size - a;
    LiveWindowCovers(t, a, WINDOW / 8, need);
    var both := if need <= WINDOW then need else WINDOW;
    forall i | 0 <= i < both
      ensures v[i] == w[i]
    {
      assert p.text[a + i] == FileByte(p, s, a + i);
    }
    assert v[..both] == w[..both];
    if need <= WINDOW {
      SweepsAgree(p.dec, v, w, a, need, LINES);
    } else {
      assert v == w;
    }
  }

  lemma IdlePiece(p: Image, d: Dbg, a: nat)
    requires !d.running && SectionOf(p.sections, a, 0) != -1
    ensures var s := p.sections[SectionOf(p.sections, a, 0)];
      ListAt(p, d, a).1 == Sweep(p.dec, FileWindow(p.file, s.offset + (a - s.addr)), a, LINES)
  {
    hide Sweep;
  }

  // ----- every case of disasm -----

  /** Section k is the first that holds a. */
  predicate Holder(sections: seq<Section>, k: nat, a: nat) {
    k < |sections| && Holds(sections[k], a) && forall i :: 0 <= i < k ==> !Holds(sections[i], a)
  }

  /** What disasm prints and where it leaves the cursor. Without an address and with no cursor: nothing, and
      nothing else happens either. Of a live process: what it shows; of one that is gone: nothing. Of a program
      that does not run: the file, seen through the first section that holds the address, and nothing if none
      does; and only the cursor is changed. */
  ghost predicate Shown(p: Image, d: Dbg, arg: Debugger.Address, e: Dbg, lines: seq<Insn>) {
    if arg.Omitted? && d.last == 0 then lines == [] && e == d
    else
      var a := if arg.At? then arg.addr else d.last;
      if d.running then
        if d.proc.Live? then Prints(p, Visible(p, d), a, (e, lines)) else lines == [] && e.last == a
      else
        && e == d.(last := e.last)
        && ((forall k :: 0 <= k < |p.sections| ==> !Holds(p.sections[k], a)) ==> lines == [] && e.last == a)
        && forall k: nat :: Holder(p.sections, k, a) ==> Prints(p, FileMem(p, p.sections[k]), a, (e, lines))
  }

  lemma DisasmShows(p: Image, d: Dbg, arg: Debugger.Address, n: nat)
    requires IsDecoder(p.dec)
    requires d.running && d.proc.Live? && (arg.At? || d.last != 0) ==>
      System(p, d, n) && (p.bias == 0 || RawUnmapped(p, d.slots))
    ensures Shown(p, d, arg, DoDisasm(p, d, arg).0, DoDisasm(p, d, arg).1)
  {
    hide IsDecoder, System, Prints, FileMem, FileWindow, Sweep, PatchFrom, UnpatchFrom, LiveWindow;
    var a := if arg.At? then arg.addr else d.last;
    if arg.At? || d.last != 0 {
      if !d.running {
        IdleShows(p, d, a);
      } else if d.proc.Live? {
        LivePrints(p, d, a, n);
      } else {
        GonePrints(p, d, a);
      }
    }
  }

  lemma IdleShows(p: Image, d: Dbg, a: nat)
    requires IsDecoder(p.dec) && !d.running
    ensures Shown(p, d, At(a), ListAt(p, d, a).0, ListAt(p, d, a).1)
  {
    hide IsDecoder, Prints, FileMem, FileWindow, Sweep;
    if SectionOf(p.sections, a, 0) != -1 {
      FileListing(p, d, a);
    }
    forall k: nat | Holder(p.sections, k, a)
      ensures Prints(p, FileMem(p, p.sections[k]), a, ListAt(p, d, a))
    {
      ScanFinds(p.sections, k, a, 0);
    }
  }

  // ----- an ordinary file -----

  /** The section table of the sample program hello64. */
  const HELLO: seq<Section> := [
    Section(0, 0, 0),
    Section(0x4000b0, 0xb0, 0x23),
    Section(0x6000d4, 0xd4, 0xf),
    Section(0, 0xe8, 0xd8),
    Section(0, 0x1c0, 0x2b),
    Section(0, 0x1eb, 0x27)
  ]

  /** Its loaded sections, and the first of those at address 0, are found for all their addresses; the
      string tables behind that one never are. */
  lemma SampleSections()
    ensures Foremost(HELLO, 1) && Foremost(HELLO, 2) && Foremost(HELLO, 3)
    ensures !Foremost(HELLO, 4) && !Foremost(HELLO, 5)
  {
    assert Holds(HELLO[4], 0) && Holds(HELLO[5], 0) && Holds(HELLO[3], 0);
  }
}
