/** setjmp and longjmp, instruction by instruction, with the kernel's signal mask. */
module Setjmp {
  import opened SignalSets

  const SIG_BLOCK := 0
  const SIG_UNBLOCK := 1
  const SIG_SETMASK := 2

  /** SIGKILL and SIGSTOP, which the kernel never lets anybody block. */
  const UNBLOCKABLE: SigSet := 0x40100

  /** Bytes of stack a compiled call may use below the rsp it is made with. */
  const CALL_ROOM := 256
  /** The same for setjmp and longjmp, with the call they make. */
  const JMP_ROOM := 512

  /** A given set without the signals that are never blocked. */
  function Sieved(set_: SigSet): SigSet {
    Less(set_, UNBLOCKABLE)
  }

  function Union(s: SigSet, t: SigSet): SigSet {
    s | t
  }

  function Less(s: SigSet, t: SigSet): SigSet {
    s & !t
  }

  /** The kernel's rt_sigprocmask on the mask itself: an unknown `how` changes nothing. */
  function NewMask(mask: SigSet, how: int, set_: SigSet): SigSet {
    if how == SIG_BLOCK then Union(mask, Sieved(set_))
    else if how == SIG_UNBLOCK then Less(mask, Sieved(set_))
    else if how == SIG_SETMASK then Sieved(set_)
    else mask
  }

  /** Signal numbers 9 and 19, SIGKILL and SIGSTOP. */
  ghost const NEVER_BLOCKED: iset<Signal> := iset{9, 19}

  /** The blocked signals after a call, as a set. */
  ghost function SetBy(blocked: iset<Signal>, how: int, given: iset<Signal>): iset<Signal> {
    match how
    case 0 => blocked + (given - NEVER_BLOCKED)
    case 1 => blocked - (given - NEVER_BLOCKED)
    case 2 => given - NEVER_BLOCKED
    case _ => blocked
  }

  lemma MembersOfUnblockable()
    ensures Members(UNBLOCKABLE) == NEVER_BLOCKED
  {
    assert forall sig: Signal :: IsMember(0x40100, sig) <==> sig == 9 || sig == 19;
  }

  lemma MembersOfUnion(s: SigSet, t: SigSet)
    ensures Members(Union(s, t)) == Members(s) + Members(t)
  {
    hide Members;
    UnionIsUnion(s, t);
  }

  lemma MembersOfLess(s: SigSet, t: SigSet)
    ensures Members(Less(s, t)) == Members(s) - Members(t)
  {
    hide Members;
    DifferenceIsDifference(s, t);
  }

  lemma MembersOfSieved(set_: SigSet)
    ensures Members(Sieved(set_)) == Members(set_) - NEVER_BLOCKED
  {
    hide Members, Less;
    MembersOfUnblockable();
    MembersOfLess(set_, UNBLOCKABLE);
  }

  /** The mask word stands for that set. */
  lemma NewMaskIs(mask: SigSet, how: int, set_: SigSet)
    ensures Members(NewMask(mask, how, set_)) == SetBy(Members(mask), how, Members(set_))
  {
    hide Members, Sieved, Union, Less;
    MembersOfSieved(set_);
    MembersOfUnion(mask, Sieved(set_));
    MembersOfLess(mask, Sieved(set_));
  }

  /** What setjmp saves: the callee-saved registers, and where to go on. */
  datatype Context = Context(rbx: int, rsp: int, rbp: int, r12: int, r13: int, r14: int, r15: int, rip: int)

  function Get(mem: map<int, int>, a: int): int {
    if a in mem then mem[a] else 0
  }

  function GetSet(sets: map<int, SigSet>, a: int): SigSet {
    if a in sets then sets[a] else EMPTY
  }

  /** The context recorded in the jmp_buf at env, in the order of its reg array. */
  function Recorded(mem: map<int, int>, env: int): Context {
    Context(Get(mem, env), Get(mem, env + 8), Get(mem, env + 16), Get(mem, env + 24),
            Get(mem, env + 32), Get(mem, env + 40), Get(mem, env + 48), Get(mem, env + 56))
  }

  /** env and the stack are aligned, and env is no part of the stack from `room` below rsp to the return address. */
  predicate Apart(env: int, rsp: int, room: int) {
    env % 8 == 0 && rsp % 8 == 0 && (env + 64 <= rsp - room || rsp + 8 <= env)
  }

  /** Memory is the same except in the jmp_buf and in `room` bytes below rsp. */
  ghost predicate SameOutside(m1: map<int, int>, m2: map<int, int>, env: int, rsp: int, room: int) {
    forall a :: !(env <= a < env + 64) && !(rsp - room <= a < rsp) ==> Get(m1, a) == Get(m2, a)
  }

  /** Memory is the same except in `room` bytes below rsp. */
  ghost predicate SameAbove(m1: map<int, int>, m2: map<int, int>, rsp: int, room: int) {
    forall a :: !(rsp - room <= a < rsp) ==> Get(m1, a) == Get(m2, a)
  }

  lemma SameAboveJoins(m1: map<int, int>, m2: map<int, int>, m3: map<int, int>, rsp: int,
                       used: nat, room: nat, all: nat)
    requires SameAbove(m1, m2, rsp, used) && SameAbove(m2, m3, rsp - used, room) && used + room <= all
    ensures SameAbove(m1, m3, rsp, all)
  {
  }

  /** Memory with a context written into the jmp_buf at env. */
  function Saved(mem: map<int, int>, env: int, c: Context): map<int, int> {
    mem[env := c.rbx][env + 8 := c.rsp][env + 16 := c.rbp][env + 24 := c.r12]
       [env + 32 := c.r13][env + 40 := c.r14][env + 48 := c.r15][env + 56 := c.rip]
  }

  lemma RecordedSaved(mem: map<int, int>, env: int, c: Context)
    ensures Recorded(Saved(mem, env, c), env) == c
    ensures forall a :: !(env <= a < env + 64) ==> Get(Saved(mem, env, c), a) == Get(mem, a)
  {
  }

  lemma RecordedSame(m1: map<int, int>, m2: map<int, int>, env: int, rsp: int, room: int)
    requires SameAbove(m1, m2, rsp, room) && (env + 64 <= rsp - room || rsp <= env)
    ensures Recorded(m1, env) == Recorded(m2, env)
  {
  }

  /** The registers, as 64-bit patterns. */
  datatype Regs = Regs(rax: int, rbx: int, rcx: int, rdx: int, rsi: int, rdi: int, rbp: int, rsp: int,
                       r12: int, r13: int, r14: int, r15: int, rip: int)

  /** Where execution goes on, and with which callee-saved registers. */
  function ContextOf(r: Regs): Context {
    Context(r.rbx, r.rsp, r.rbp, r.r12, r.r13, r.r14, r.r15, r.rip)
  }

  /** Everything the two functions read or write. */
  datatype Machine = Machine(regs: Regs, mem: map<int, int>, sets: map<int, SigSet>, mask: SigSet)

  /** What a call of setjmp does, from its entry in s to its return in t: it returns 0 with the callee-saved
      registers as they were, and records exactly the context it returns with, and the mask. */
  ghost predicate SetjmpStep(s: Machine, t: Machine) {
    var env, rsp := s.regs.rdi, s.regs.rsp;
    && ContextOf(t.regs) == ContextOf(s.regs).(rsp := rsp + 8, rip := Get(s.mem, rsp))
    && t.regs.rax == 0
    && Recorded(t.mem, env) == ContextOf(t.regs)
    && t.sets == s.sets[env + 64 := s.mask]
    && t.mask == s.mask
    && SameOutside(s.mem, t.mem, env, rsp, JMP_ROOM)
  }

  /** What longjmp does: it goes on in the recorded context with val, or 1 for 0, and blocks what the
      recorded mask blocks in addition to what is blocked already. */
  ghost predicate LongjmpStep(s: Machine, t: Machine) {
    var env := s.regs.rdi;
    && ContextOf(t.regs) == Recorded(s.mem, env)
    && t.regs.rax == (if s.regs.rsi == 0 then 1 else s.regs.rsi)
    && t.sets == s.sets
    && t.mask == NewMask(s.mask, SIG_BLOCK, GetSet(s.sets, env + 64))
    && SameAbove(s.mem, t.mem, s.regs.rsp, JMP_ROOM)
  }

  /** env may be used as a jmp_buf with the stack where it is. */
  predicate JmpBufAt(s: Machine, env: int) {
    Apart(env, s.regs.rsp, JMP_ROOM) && env + 64 != 0
  }

  class Cpu {
    var regs: Regs
    /** Memory, one integer per aligned 8-byte cell, and the sigset_t objects in it. */
    var mem: map<int, int>
    var sets: map<int, SigSet>
    /** The mask the kernel keeps for the process. */
    var mask: SigSet

    function Now(): Machine
      reads this
    {
      Machine(regs, mem, sets, mask)
    }

    /** A compiled C function that computes and returns: the callee-saved registers, rsp and all memory but
        the scratch below rsp come back as they were, the other registers with anything. */
    method Clobber()
      modifies this`regs, this`mem
      ensures ContextOf(regs) == old(ContextOf(regs))
      ensures SameAbove(old(mem), mem, regs.rsp, CALL_ROOM)
    {
      var a: int, c: int, d: int, si: int, di: int := *, *, *, *, *;
      regs := regs.(rax := a, rcx := c, rdx := d, rsi := si, rdi := di);
      var slot: int, junk: int := *, *;
      if regs.rsp - CALL_ROOM <= slot < regs.rsp {
        mem := mem[slot := junk];
      }
    }

    /** sigprocmask(edi, rsi, rdx): the wrapper and the system call. */
    method SigProcMask()
      modifies this
      ensures ContextOf(regs) == old(ContextOf(regs))
      ensures SameAbove(old(mem), mem, regs.rsp, CALL_ROOM)
      ensures mask == if old(regs.rsi) == 0 then old(mask)
                      else NewMask(old(mask), old(regs.rdi), GetSet(old(sets), old(regs.rsi)))
      ensures old(regs.rsi) == 0 ==> Members(mask) == Members(old(mask))
      ensures old(regs.rsi) != 0 ==>
        var blocked, given := Members(old(mask)), Members(GetSet(old(sets), old(regs.rsi)));
        Members(mask) == match old(regs.rdi)
                         case 0 => blocked + (given - iset{9, 19})
                         case 1 => blocked - (given - iset{9, 19})
                         case 2 => given - iset{9, 19}
                         case _ => blocked
      ensures sets == if old(regs.rdx) == 0 || (old(regs.rsi) != 0 && !(SIG_BLOCK <= old(regs.rdi) <= SIG_SETMASK))
                      then old(sets) else old(sets)[old(regs.rdx) := old(mask)]
    {
      hide Get, NewMask, Members;
      var was := mask;
      NewMaskIs(mask, regs.rdi, GetSet(sets, regs.rsi));
      var invalid := regs.rsi != 0 && !(SIG_BLOCK <= regs.rdi <= SIG_SETMASK);
      if regs.rsi != 0 {
        mask := NewMask(mask, regs.rdi, GetSet(sets, regs.rsi));
      }
      if regs.rdx != 0 && !invalid {
        sets := sets[regs.rdx := was];
      }
      Clobber();
    }

    /** push %rbp; mov %rsp,%rbp; sub $16,%rsp; mov %rdi,-8(%rbp) */
    method Enter()
      modifies this`regs, this`mem
      ensures regs == old(regs).(rbp := old(regs.rsp) - 8, rsp := old(regs.rsp) - 24)
      ensures Get(mem, regs.rbp) == old(regs.rbp) && Get(mem, regs.rbp - 8) == regs.rdi
      ensures SameAbove(old(mem), mem, old(regs.rsp), 24)
    {
      var r, m := regs, mem;
      r := r.(rsp := r.rsp - 8);
      m := m[r.rsp := r.rbp];
      r := r.(rbp := r.rsp);
      r := r.(rsp := r.rsp - 16);
      m := m[r.rbp - 8 := r.rdi];
      regs, mem := r, m;
    }

    /** leave; ret */
    method LeaveAndRet()
      modifies this`regs
      ensures regs == old(regs).(rsp := old(regs.rbp) + 16, rbp := Get(mem, old(regs.rbp)),
                                 rip := Get(mem, old(regs.rbp) + 8))
    {
      var r := regs;
      r := r.(rsp := r.rbp);
      r := r.(rbp := Get(mem, r.rsp), rsp := r.rsp + 8);
      r := r.(rip := Get(mem, r.rsp), rsp := r.rsp + 8);
      regs := r;
    }

    /** The saving sequence: what the caller will see after the return, into the jmp_buf at rdi. */
    method SaveContext()
      requires regs.rdi % 8 == 0 && regs.rbp % 8 == 0
      requires regs.rbp + 16 <= regs.rdi || regs.rdi + 64 <= regs.rbp
      modifies this`regs, this`mem
      ensures regs == old(regs).(rax := Get(old(mem), old(regs.rbp) + 8))
      ensures Recorded(mem, regs.rdi) == old(ContextOf(regs)).(rsp := regs.rbp + 16, rbp := Get(old(mem), regs.rbp),
                                                               rip := Get(old(mem), regs.rbp + 8))
      ensures forall a :: !(regs.rdi <= a < regs.rdi + 64) ==> Get(mem, a) == Get(old(mem), a)
    {
      hide Recorded;
      var r, m := regs, mem;
      m := m[r.rdi := r.rbx];
      r := r.(rax := r.rbp + 16);
      m := m[r.rdi + 8 := r.rax];
      r := r.(rax := Get(m, r.rbp));
      m := m[r.rdi + 16 := r.rax];
      m := m[r.rdi + 24 := r.r12];
      m := m[r.rdi + 32 := r.r13];
      m := m[r.rdi + 40 := r.r14];
      m := m[r.rdi + 48 := r.r15];
      r := r.(rax := Get(m, r.rbp + 8));
      m := m[r.rdi + 56 := r.rax];
      ghost var c := ContextOf(regs).(rsp := regs.rbp + 16, rbp := Get(mem, regs.rbp), rip := Get(mem, regs.rbp + 8));
      assert m == Saved(mem, regs.rdi, c);
      RecordedSaved(mem, regs.rdi, c);
      regs, mem := r, m;
    }

    /** The restoring sequence: rax from val in rsi, everything else from the jmp_buf at rdi. */
    method RestoreContext()
      modifies this`regs
      ensures ContextOf(regs) == Recorded(mem, old(regs.rdi))
      ensures regs.rax == if old(regs.rsi) == 0 then 1 else old(regs.rsi)
    {
      hide Get;
      var r := regs;
      r := r.(rax := r.rsi);
      if r.rax == 0 {
        r := r.(rax := r.rax + 1);
      }
      r := r.(rbx := Get(mem, r.rdi));
      r := r.(rsp := Get(mem, r.rdi + 8));
      r := r.(rbp := Get(mem, r.rdi + 16));
      r := r.(r12 := Get(mem, r.rdi + 24));
      r := r.(r13 := Get(mem, r.rdi + 32));
      r := r.(r14 := Get(mem, r.rdi + 40));
      r := r.(r15 := Get(mem, r.rdi + 48));
      r := r.(rcx := Get(mem, r.rdi + 56));
      r := r.(rip := r.rcx);
      regs := r;
    }

    /** setjmp(env), entered with env in rdi and the return address on top of the stack. */
    method Setjmp()
      requires JmpBufAt(Now(), regs.rdi)
      modifies this
      ensures SetjmpStep(old(Now()), Now())
    {
      hide NewMask, GetSet, Get, Recorded;
      Enter();
      SaveContext();
      ghost var saved := mem;
      ghost var back := regs.rbp;
      assert Get(saved, back) == old(regs.rbp) && Get(saved, back + 8) == Get(old(mem), old(regs.rsp));
      regs := regs.(rax := Get(mem, regs.rbp - 8));
      regs := regs.(rdx := regs.rax + 64, rsi := 0, rdi := SIG_UNBLOCK);
      SigProcMask();
      RecordedSame(saved, mem, old(regs.rdi), regs.rsp, CALL_ROOM);
      assert Get(mem, back) == Get(saved, back) && Get(mem, back + 8) == Get(saved, back + 8);
      regs := regs.(rax := 0);
      LeaveAndRet();
    }

    /** The head of longjmp: the frame, the spills, and push %rdi; push %rsi. */
    method EnterAndPush()
      modifies this`regs, this`mem
      ensures regs == old(regs).(rbp := old(regs.rsp) - 8, rsp := old(regs.rsp) - 40)
      ensures Get(mem, regs.rsp) == regs.rsi && Get(mem, regs.rsp + 8) == regs.rdi
      ensures Get(mem, regs.rbp - 8) == regs.rdi
      ensures SameAbove(old(mem), mem, old(regs.rsp), 40)
    {
      Enter();
      var r, m := regs, mem;
      m := m[r.rbp - 16 := r.rsi];
      r := r.(rsp := r.rsp - 8);
      m := m[r.rsp := r.rdi];
      r := r.(rsp := r.rsp - 8);
      m := m[r.rsp := r.rsi];
      regs, mem := r, m;
    }

    /** longjmp(env, val), entered with env in rdi and val in rsi. */
    method Longjmp()
      requires JmpBufAt(Now(), regs.rdi)
      modifies this
      ensures LongjmpStep(old(Now()), Now())
    {
      hide NewMask, GetSet, Get, Recorded;
      EnterAndPush();
      ghost var pushed := mem;
      regs := regs.(rax := Get(mem, regs.rbp - 8));
      regs := regs.(rsi := regs.rax + 64, rdx := 0, rdi := SIG_BLOCK);
      SigProcMask();
      assert Get(mem, regs.rsp) == Get(pushed, regs.rsp) && Get(mem, regs.rsp + 8) == Get(pushed, regs.rsp + 8);
      regs := regs.(rsi := Get(mem, regs.rsp), rdi := Get(mem, regs.rsp + 8), rsp := regs.rsp + 16);
      SameAboveJoins(old(mem), pushed, mem, old(regs.rsp), 40, CALL_ROOM, JMP_ROOM);
      RecordedSame(old(mem), mem, old(regs.rdi), old(regs.rsp), JMP_ROOM);
      RestoreContext();
    }
  }

  // ----- the round trip -----

  predicate Blockable(mask: SigSet) {
    mask & UNBLOCKABLE == 0
  }

  lemma SievedSame(s: SigSet)
    requires Blockable(s)
    ensures Sieved(s) == s
  {
    AndNotSame(s, UNBLOCKABLE);
  }

  lemma AndNotSame(s: bv64, u: bv64)
    requires s & u == 0
    ensures s & !u == s
  {
  }

  lemma UnionSecondIff(s: SigSet, t: SigSet)
    ensures Union(s, t) == t <==> Members(s) <= Members(t)
  {
    hide Members;
    UnionIsSecondIff(s, t);
  }

  /** Blocking a saved mask on top of the present one: the laws of the result. */
  lemma BlockLaws(mask: SigSet, saved: SigSet)
    requires Blockable(saved)
    ensures NewMask(mask, SIG_BLOCK, saved) == Union(mask, saved)
    ensures Members(Union(mask, saved)) == Members(mask) + Members(saved)
    ensures Union(mask, saved) == saved <==> Members(mask) <= Members(saved)
  {
    hide Members, Union, Less, Sieved, Blockable;
    SievedSame(saved);
    MembersOfUnion(mask, saved);
    UnionSecondIff(mask, saved);
  }

  /** longjmp in t0 on the jmp_buf that setjmp filled in s1, whatever happened in between: control and the
      callee-saved registers are as just after setjmp returned, val comes back nonzero, and the mask is the
      union of the present and the saved one. It is the saved one exactly when nothing else is blocked. */
  lemma RoundTrip(s0: Machine, s1: Machine, t0: Machine, t1: Machine)
    requires SetjmpStep(s0, s1) && LongjmpStep(t0, t1) && Blockable(s0.mask)
    requires t0.regs.rdi == s0.regs.rdi
    requires Recorded(t0.mem, s0.regs.rdi) == Recorded(s1.mem, s0.regs.rdi)
    requires GetSet(t0.sets, s0.regs.rdi + 64) == GetSet(s1.sets, s0.regs.rdi + 64)
    ensures ContextOf(t1.regs) == ContextOf(s1.regs)
    ensures t1.regs.rip == Get(s0.mem, s0.regs.rsp) && t1.regs.rsp == s0.regs.rsp + 8
    ensures t1.regs.rax == if t0.regs.rsi == 0 then 1 else t0.regs.rsi
    ensures t1.mask == Union(t0.mask, s0.mask)
    ensures Members(t1.mask) == Members(t0.mask) + Members(s0.mask)
    ensures t1.mask == s0.mask <==> Members(t0.mask) <= Members(s0.mask)
  {
    hide Members, Recorded, NewMask, Union, Blockable, SameOutside, SameAbove;
    BlockLaws(t0.mask, s0.mask);
  }

  /** val is an int, but the code tests all 64 bits of rsi: the caller sees val, or 1 for 0, exactly when rsi
      is 0 or its low half is not. With a 0 under a nonzero upper half setjmp seems to return 0 again. */
  lemma IntResultIff(s: Machine, t: Machine)
    requires LongjmpStep(s, t)
    ensures var val, result := s.regs.rsi % 0x1_0000_0000, t.regs.rax % 0x1_0000_0000;
      && (result == (if val == 0 then 1 else val) <==> s.regs.rsi == 0 || val != 0)
      && (result == 0 <==> s.regs.rsi != 0 && val == 0)
  {
    hide Recorded, NewMask, SameAbove;
  }

  // ----- the mask over any calls in between -----

  datatype MaskCall = MaskCall(how: int, set_: SigSet)

  function MaskAfter(mask: SigSet, calls: seq<MaskCall>): SigSet
    decreases |calls|
  {
    if calls == [] then mask else MaskAfter(NewMask(mask, calls[0].how, calls[0].set_), calls[1..])
  }

  lemma BlockStaysBlockable(m: bv64, s: bv64)
    requires m & UNBLOCKABLE == 0
    ensures (m | (s & !UNBLOCKABLE)) & UNBLOCKABLE == 0
  {
  }

  lemma UnblockStaysBlockable(m: bv64, s: bv64)
    requires m & UNBLOCKABLE == 0
    ensures (m & !(s & !UNBLOCKABLE)) & UNBLOCKABLE == 0
  {
  }

  lemma SetStaysBlockable(s: bv64)
    ensures (s & !UNBLOCKABLE) & UNBLOCKABLE == 0
  {
  }

  lemma NewMaskBlockable(mask: SigSet, how: int, set_: SigSet)
    requires Blockable(mask)
    ensures Blockable(NewMask(mask, how, set_))
  {
    if how == SIG_BLOCK {
      BlockStaysBlockable(mask, set_);
    } else if how == SIG_UNBLOCK {
      UnblockStaysBlockable(mask, set_);
    } else {
      SetStaysBlockable(set_);
    }
  }

  lemma {:induction false} MaskAfterBlockable(mask: SigSet, calls: seq<MaskCall>)
    requires Blockable(mask)
    ensures Blockable(MaskAfter(mask, calls))
    decreases |calls|
  {
    hide Blockable, NewMask;
    if calls != [] {
      NewMaskBlockable(mask, calls[0].how, calls[0].set_);
      MaskAfterBlockable(NewMask(mask, calls[0].how, calls[0].set_), calls[1..]);
    }
  }

  /** The blocked signals after a sequence of calls, as a set. */
  ghost function SetAfter(blocked: iset<Signal>, calls: seq<MaskCall>): iset<Signal>
    decreases |calls|
  {
    if calls == [] then blocked else SetAfter(SetBy(blocked, calls[0].how, Members(calls[0].set_)), calls[1..])
  }

  lemma {:induction false} MaskAfterIs(mask: SigSet, calls: seq<MaskCall>)
    ensures Members(MaskAfter(mask, calls)) == SetAfter(Members(mask), calls)
    decreases |calls|
  {
    hide NewMask, Members, SetBy;
    if calls != [] {
      NewMaskIs(mask, calls[0].how, calls[0].set_);
      MaskAfterIs(NewMask(mask, calls[0].how, calls[0].set_), calls[1..]);
    }
  }

  /** A call that names the signal. */
  ghost predicate Named(calls: seq<MaskCall>, sig: Signal) {
    exists c :: c in calls && sig in Members(c.set_)
  }

  /** The signals no call names, and the two that cannot be touched. */
  ghost function Untouched(calls: seq<MaskCall>): iset<Signal> {
    NEVER_BLOCKED + iset sig: Signal | !Named(calls, sig)
  }

  /** Unblocking calls take exactly the signals they name out of the mask. */
  lemma {:induction false} UnblocksRemove(mask: SigSet, calls: seq<MaskCall>)
    requires forall c :: c in calls ==> c.how == SIG_UNBLOCK
    ensures Members(MaskAfter(mask, calls)) == Members(mask) * Untouched(calls)
    decreases |calls|
  {
    hide NewMask, Members;
    if calls != [] {
      var mask1 := NewMask(mask, SIG_UNBLOCK, calls[0].set_);
      NewMaskIs(mask, SIG_UNBLOCK, calls[0].set_);
      UnblocksRemove(mask1, calls[1..]);
      assert calls == [calls[0]] + calls[1..];
      forall sig: Signal
        ensures Named(calls, sig) <==> sig in Members(calls[0].set_) || Named(calls[1..], sig)
      {
      }
    }
  }

  /** The mask law over any sequence of sigprocmask calls between setjmp and longjmp: what the calls leave, and
      the saved mask on top. If all the calls only unblock, just the signals they name are unblocked before
      the jump, and the mask after it is the saved one. */
  lemma MaskLaw(s0: Machine, s1: Machine, t0: Machine, t1: Machine, calls: seq<MaskCall>)
    requires SetjmpStep(s0, s1) && LongjmpStep(t0, t1) && Blockable(s0.mask)
    requires t0.regs.rdi == s0.regs.rdi && t0.mask == MaskAfter(s1.mask, calls)
    requires Recorded(t0.mem, s0.regs.rdi) == Recorded(s1.mem, s0.regs.rdi)
    requires GetSet(t0.sets, s0.regs.rdi + 64) == GetSet(s1.sets, s0.regs.rdi + 64)
    ensures Members(t0.mask) == SetAfter(Members(s0.mask), calls)
    ensures Members(t1.mask) == Members(t0.mask) + Members(s0.mask) && Blockable(t1.mask)
    ensures (forall c :: c in calls ==> c.how == SIG_UNBLOCK) ==>
      Members(t0.mask) == Members(s0.mask) * Untouched(calls) && t1.mask == s0.mask
  {
    hide Members, Recorded, NewMask, Union, Blockable, SameOutside, SameAbove, SetAfter, Untouched;
    RoundTrip(s0, s1, t0, t1);
    MaskAfterBlockable(s0.mask, calls);
    OrBlockable(t0.mask, s0.mask);
    MaskAfterIs(s0.mask, calls);
    if forall c :: c in calls ==> c.how == SIG_UNBLOCK {
      UnblocksRemove(s0.mask, calls);
    }
  }

  lemma OrBlockable(s: SigSet, t: SigSet)
    requires Blockable(s) && Blockable(t)
    ensures Blockable(Union(s, t))
  {
  }
}
