/** The command loop over a debugger object. */
module Sessions {
  import opened Machine
  import opened Listing
  import opened Debugger
  import opened Transparency
  import opened Commands
  import opened Runs
  import opened Listings
  import opened Sdb

  /** Where the theorems on commands apply: in step with the native run, and the command allowed. */
  ghost predicate InStep(p: Image, d: Dbg, c: Command, n: nat) {
    WellBehaved(p) && System(p, d, n) && Returns(p, d, c) && Allowed(p, d, c)
  }

  /** What the user sees of a command: lines from disasm, in all its cases, and none from the others. */
  ghost predicate Answered(p: Image, d: Dbg, c: Command, e: Dbg, lines: seq<Insn>) {
    if c.Disasm? then IsDecoder(p.dec) ==> Shown(p, d, c.arg, e, lines) else lines == []
  }

  /** One command, dispatched as the program's main loop does. In step with the native run it does what the
      command is for, prints what it should, and stays in step. */
  method Execute(sdb: SDB, c: Command, ghost n: nat) returns (lines: seq<Insn>, ghost m: nat)
    requires sdb.Valid() && Returns(sdb.image, sdb.State(), c)
    modifies sdb, sdb.breaks
    ensures sdb.Valid() && sdb.image == old(sdb.image)
    ensures sdb.State() == Do(sdb.image, old(sdb.State()), c)
    ensures lines == if c.Disasm? then DoDisasm(sdb.image, old(sdb.State()), c.arg).1 else []
    ensures old(InStep(sdb.image, sdb.State(), c, n)) ==>
      && System(sdb.image, sdb.State(), m) && (Restarts(old(sdb.State()), c) || n <= m)
      && Performed(sdb.image, old(sdb.State()), c, sdb.State(), n, m)
      && Answered(sdb.image, old(sdb.State()), c, sdb.State(), lines)
  {
    hide DoStart, DoRun, DoCont, DoStep, DoBreak, DoDelete, DoDisasm, Performed, System, Shown, WellBehaved, IsDecoder;
    ghost var p, d := sdb.image, sdb.State();
    lines, m := [], n;
    match c {
      case Start => sdb.Start();
      case Run => sdb.Run();
      case Cont => sdb.Cont();
      case StepInsn => sdb.StepInsn();
      case Break(a) => sdb.SetBreak(a);
      case Delete(i) => sdb.Delete(i);
      case Disasm(arg) => lines := sdb.Disasm(arg);
    }
    if InStep(p, d, c, n) {
      m := CommandKeeps(p, d, c, n);
      if c.Disasm? && IsDecoder(p.dec) {
        LivesRunning(p, d, n);
        DisasmShows(p, d, c.arg, n);
      }
    }
  }

  lemma LivesRunning(p: Image, d: Dbg, n: nat)
    requires System(p, d, n)
    ensures d.proc.Live? ==> d.running
  {
  }

  /** A session so far: states, their native indices and what was printed. Every state is in step with the native
      run, each command has done what it is for and printed what it should, and the index has never fallen except
      where a new process began. */
  ghost predicate Log(p: Image, cs: seq<Command>, ds: seq<Dbg>, ns: seq<nat>, out: seq<seq<Insn>>) {
    && |ds| == |ns| == |out| + 1 && |out| <= |cs|
    && FreshlyLoaded(ds[0])
    && (forall i :: 0 <= i < |ds| ==> System(p, ds[i], ns[i]))
    && forall i :: 0 <= i < |out| ==>
         && (Restarts(ds[i], cs[i]) || ns[i] <= ns[i + 1])
         && Performed(p, ds[i], cs[i], ds[i + 1], ns[i], ns[i + 1])
         && Answered(p, ds[i], cs[i], ds[i + 1], out[i])
  }

  lemma LogExtended(p: Image, cs: seq<Command>, ds: seq<Dbg>, ns: seq<nat>, out: seq<seq<Insn>>,
                    e: Dbg, m: nat, lines: seq<Insn>)
    requires Log(p, cs, ds, ns, out) && |out| < |cs| && System(p, e, m)
    requires var k := |out|;
      && (Restarts(ds[k], cs[k]) || ns[k] <= m) && Performed(p, ds[k], cs[k], e, ns[k], m)
      && Answered(p, ds[k], cs[k], e, lines)
    ensures Log(p, cs, ds + [e], ns + [m], out + [lines])
  {
    hide System, Restarts, Performed, Answered, FreshlyLoaded;
  }

  /** A whole session on a freshly loaded program. */
  method Session(sdb: SDB, p: Image, cs: seq<Command>)
      returns (out: seq<seq<Insn>>, ghost ns: seq<nat>, ghost ds: seq<Dbg>)
    requires sdb.Valid() && WellBehaved(p) && AdmissibleFromLoad(p, cs)
    modifies sdb, sdb.breaks
    ensures |out| == |cs| && Log(p, cs, ds, ns, out)
    ensures ds[|cs|] == sdb.State() && sdb.image == p
    ensures sdb.State().proc.Live? ==>
      Unmasked(sdb.State().slots, p.bias, sdb.State().proc.mem) == p.text
  {
    hide System, WellBehaved, Allowed, Do, Returns, Restarts, Unmasked, Performed, Answered, DoDisasm;
    sdb.Load(p);
    assert FreshlyLoaded(sdb.State());
    assert cs[0..] == cs;
    LoadedIsSystem(p, sdb.State(), 0);
    out, ns, ds := [], [0], [sdb.State()];
    for i := 0 to |cs|
      invariant sdb.Valid() && sdb.image == p && |out| == i
      invariant Log(p, cs, ds, ns, out) && ds[i] == sdb.State()
      invariant Admissible(p, sdb.State(), cs[i..])
    {
      assert cs[i..][0] == cs[i] && cs[i..][1..] == cs[i + 1..];
      var lines;
      ghost var m;
      lines, m := Execute(sdb, cs[i], ns[i]);
      LogExtended(p, cs, ds, ns, out, sdb.State(), m, lines);
      out, ns, ds := out + [lines], ns + [m], ds + [sdb.State()];
    }
    if sdb.State().proc.Live? {
      MaskedStateIsNative(p, sdb.State(), ns[|cs|]);
    }
  }
}
