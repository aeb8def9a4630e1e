/** The traced program: an arbitrary variable-length instruction set over read-only text. */
module Machine {
  import opened Words

  /** Everything an instruction may read or change apart from rip and text. Never inspected by the proofs. */
  datatype Context = Context(regs: seq<Word>, data: map<nat, Byte>, input: seq<Byte>)

  datatype State = State(rip: nat, ctx: Context)

  datatype Effect = Goto(rip: nat, ctx: Context) | Quit(code: int)

  /** `size` decodes the length of the instruction at the head of a byte window (0 if there is none),
      `exec` says what an instruction does, given its bytes, its address and the context. */
  datatype Cpu = Cpu(size: seq<Byte> -> nat, exec: (seq<Byte>, nat, Context) -> Effect)

  datatype Outcome =
    | Moved(st: State)
    | Ended(code: int)
    | Trapped(st: State)
    | Faulted

  const MAX_INSN: nat := 15

  /** The length of an instruction depends on the instruction's own bytes only. */
  ghost predicate PrefixDetermined(size: seq<Byte> -> nat) {
    forall v: seq<Byte>, w: seq<Byte> ::
      0 < size(v) <= |v| && size(v) <= |w| && w[..size(v)] == v[..size(v)] ==> size(w) == size(v)
  }

  lemma SameHead(size: seq<Byte> -> nat, v: seq<Byte>, w: seq<Byte>)
    requires PrefixDetermined(size) && 0 < size(v) <= |v| && size(v) <= |w|
    requires forall i :: 0 <= i < size(v) ==> v[i] == w[i]
    ensures size(w) == size(v) && w[..size(w)] == v[..size(v)]
  {
  }

  /** How many of the n addresses from a on are mapped before the first gap. */
  function Extent(mem: Memory, a: nat, n: nat): (e: nat)
    ensures e <= n
    ensures forall x :: a <= x < a + e ==> x in mem
    ensures e == n || a + e !in mem
    decreases n
  {
    if n == 0 || a !in mem then 0 else 1 + Extent(mem, a + 1, n - 1)
  }

  /** The mapped bytes from a on, at most n of them. */
  function Window(mem: Memory, a: nat, n: nat): (w: seq<Byte>)
    ensures |w| == Extent(mem, a, n)
    ensures forall i :: 0 <= i < |w| ==> w[i] == mem[a + i]
  {
    var e := Extent(mem, a, n);
    seq(e, i requires 0 <= i < e => mem[a + i])
  }

  /** The bytes of the instruction at a; none when they do not decode. */
  function Fetch(size: seq<Byte> -> nat, mem: Memory, a: nat): (insn: seq<Byte>) {
    var w := Window(mem, a, MAX_INSN);
    var k := size(w);
    if 0 < k <= |w| then w[..k] else []
  }

  /** One processor step. A trap byte at rip raises SIGTRAP with rip just behind it. */
  function Step(cpu: Cpu, mem: Memory, st: State): Outcome {
    if st.rip in mem && mem[st.rip] == TRAP then Trapped(st.(rip := st.rip + 1))
    else
      var insn := Fetch(cpu.size, mem, st.rip);
      if insn == [] then Faulted
      else match cpu.exec(insn, st.rip, st.ctx)
           case Goto(rip, ctx) => Moved(State(rip, ctx))
           case Quit(code) => Ended(code)
  }

  // ----- trap bytes over a text -----

  function Overlay(text: Memory, armed: set<nat>): Memory {
    map x | x in text :: if x in armed then TRAP else text[x]
  }

  /** No armed byte lies inside the instruction at a, behind its first byte. */
  predicate ClearOf(cpu: Cpu, text: Memory, a: nat, armed: set<nat>) {
    forall x :: x in armed ==> !(a < x < a + |Fetch(cpu.size, text, a)|)
  }

  lemma {:induction false} SameExtent(m1: Memory, m2: Memory, a: nat, n: nat)
    requires m1.Keys == m2.Keys
    ensures Extent(m1, a, n) == Extent(m2, a, n)
    decreases n
  {
  }

  lemma FetchUnderOverlay(cpu: Cpu, text: Memory, armed: set<nat>, a: nat)
    requires PrefixDetermined(cpu.size)
    requires a !in armed && ClearOf(cpu, text, a, armed)
    requires Fetch(cpu.size, text, a) != []
    ensures Fetch(cpu.size, Overlay(text, armed), a) == Fetch(cpu.size, text, a)
  {
    var w, v := Window(text, a, MAX_INSN), Window(Overlay(text, armed), a, MAX_INSN);
    SameExtent(text, Overlay(text, armed), a, MAX_INSN);
    forall i | 0 <= i < cpu.size(w)
      ensures v[i] == w[i]
    {
      assert a + i !in armed;
    }
    SameHead(cpu.size, w, v);
  }

  /** Away from the armed bytes the processor does on patched text what it does on the text itself. */
  lemma StepUnderOverlay(cpu: Cpu, text: Memory, armed: set<nat>, st: State)
    requires PrefixDetermined(cpu.size)
    requires st.rip !in armed && ClearOf(cpu, text, st.rip, armed)
    requires Step(cpu, text, st).Moved? || Step(cpu, text, st).Ended?
    ensures Step(cpu, Overlay(text, armed), st) == Step(cpu, text, st)
  {
    FetchUnderOverlay(cpu, text, armed, st.rip);
  }

  // ----- the program and its native run -----

  datatype Section = Section(addr: nat, offset: nat, size: nat)

  /** An executable: its processor, its text as loaded, where it starts, the file it came from, and the
      disassembler's instruction lengths. `bias` is what convert_dynamic_addr adds: 0 unless ET_DYN. */
  datatype Image = Image(cpu: Cpu, text: Memory, entry: nat, ctx: Context, bias: nat,
                         sections: seq<Section>, file: seq<Byte>, dec: seq<Byte> -> nat)

  datatype Status = Alive(st: State) | Finished(code: int) | Broken

  function Advance(p: Image, st: State): Status {
    match Step(p.cpu, p.text, st)
    case Moved(s) => Alive(s)
    case Ended(c) => Finished(c)
    case _ => Broken
  }

  /** The program after n undisturbed steps. */
  function Native(p: Image, n: nat): Status {
    if n == 0 then Alive(State(p.entry, p.ctx))
    else match Native(p, n - 1)
         case Alive(st) => Advance(p, st)
         case other => other
  }

  /** The program itself never faults and never executes a trap instruction of its own. */
  ghost predicate WellBehaved(p: Image) {
    && PrefixDetermined(p.cpu.size)
    && forall n: nat :: !Native(p, n).Broken?
  }

  /** a is never strictly inside an instruction the program executes. */
  ghost predicate OnBoundary(p: Image, a: nat) {
    forall n: nat :: Native(p, n).Alive? ==>
      var rip := Native(p, n).st.rip;
      !(rip < a < rip + |Fetch(p.cpu.size, p.text, rip)|)
  }

  /** A sound place for a breakpoint: mapped, not a trap already, on an instruction boundary. */
  ghost predicate Sited(p: Image, a: nat) {
    && Mapped(p.text, a)
    && p.text[a] != TRAP
    && OnBoundary(p, a)
  }

  /** The step from native state n, taken on text patched at sited addresses other than rip. */
  lemma NativeStep(p: Image, armed: set<nat>, n: nat)
    requires WellBehaved(p) && Native(p, n).Alive?
    requires forall a :: a in armed ==> Sited(p, a)
    requires Native(p, n).st.rip !in armed
    ensures match Step(p.cpu, Overlay(p.text, armed), Native(p, n).st)
            case Moved(s) => Native(p, n + 1) == Alive(s)
            case Ended(c) => Native(p, n + 1) == Finished(c)
            case _ => false
  {
    assert !Native(p, n + 1).Broken?;
    StepUnderOverlay(p.cpu, p.text, armed, Native(p, n).st);
  }
}
