/** The program jmp1: a loop made of nothing but setjmp and longjmp, for any number of functions. */
module Trampoline {
  import opened SignalSets
  import opened Setjmp

  /** Code addresses: where setjmp returns to in main, where the functions and longjmp would return to, and
      main's epilogue. */
  const AFTER_SETJMP := 1
  const AFTER_FUN := 2
  const AFTER_LONGJMP := 3
  const EPILOGUE := 4

  /** Stack one function needs below main's frame, and main itself below its entry. */
  const FUN_ROOM := 1024
  const MAIN_ROOM := 2048

  method Push(c: Cpu, v: int)
    modifies c`regs, c`mem
    ensures c.regs == old(c.regs).(rsp := old(c.regs.rsp) - 8)
    ensures Get(c.mem, c.regs.rsp) == v && SameAbove(old(c.mem), c.mem, old(c.regs.rsp), 8)
  {
    c.regs := c.regs.(rsp := c.regs.rsp - 8);
    c.mem := c.mem[c.regs.rsp := v];
  }

  /** funs[i](): it writes its line and longjmps to jb with i + 1; it never returns. */
  method CallFun(c: Cpu, jb: int, i: nat)
    requires Apart(jb, c.regs.rsp, FUN_ROOM) && jb + 64 != 0
    modifies c
    ensures ContextOf(c.regs) == Recorded(old(c.mem), jb) && c.regs.rax == i + 1
    ensures c.sets == old(c.sets) && c.mask == NewMask(old(c.mask), SIG_BLOCK, GetSet(old(c.sets), jb + 64))
    ensures SameAbove(old(c.mem), c.mem, old(c.regs.rsp), FUN_ROOM)
  {
    hide Get, Recorded, NewMask, GetSet;
    Push(c, AFTER_FUN);
    Push(c, c.regs.rbp);
    c.regs := c.regs.(rbp := c.regs.rsp);
    c.Clobber();
    c.regs := c.regs.(rsi := i + 1, rdi := jb);
    Push(c, AFTER_LONGJMP);
    RecordedSame(old(c.mem), c.mem, jb, old(c.regs.rsp), FUN_ROOM);
    c.Longjmp();
  }

  /** What holds each time the processor is behind the call of setjmp: `called` functions have run. */
  ghost predicate AtSetjmp(m: Machine, jb: int, frame: Context, mask: SigSet, called: nat) {
    && ContextOf(m.regs) == frame && Recorded(m.mem, jb) == frame
    && m.mask == mask && GetSet(m.sets, jb + 64) == mask
    && (if m.regs.rax == 0 then called == 0 && Get(m.mem, frame.rbp - 8) == 0
        else m.regs.rax == called && Get(m.mem, frame.rbp - 8) == called - 1)
  }

  lemma MaskKept(mask: SigSet)
    requires Blockable(mask)
    ensures NewMask(mask, SIG_BLOCK, mask) == mask
  {
  }

  /** mov v,-8(%rbp), main's variable i. */
  method StoreLocal(c: Cpu, v: int)
    modifies c`mem
    ensures Get(c.mem, c.regs.rbp - 8) == v
    ensures forall a :: a != c.regs.rbp - 8 ==> Get(c.mem, a) == Get(old(c.mem), a)
  {
    c.mem := c.mem[c.regs.rbp - 8 := v];
  }

  /** One pass through main's code behind setjmp, which counts a return by longjmp and calls the function whose
      number is then due: either function number `called` runs and control is back behind setjmp, or all n have
      run and main is at its end. */
  method Round(c: Cpu, jb: int, n: nat, ghost frame: Context, ghost mask: SigSet, ghost called: nat) returns (i: int)
    requires AtSetjmp(c.Now(), jb, frame, mask, called) && called <= n && Blockable(mask)
    requires Apart(jb, frame.rsp, FUN_ROOM) && jb + 64 != 0
    requires frame.rip == AFTER_SETJMP && frame.rbp == frame.rsp + 16 && !(jb <= frame.rbp - 8 < jb + 64)
    modifies c
    ensures called < n ==> i == called && AtSetjmp(c.Now(), jb, frame, mask, called + 1) && ContextOf(c.regs) == frame
    ensures called == n ==> ContextOf(c.regs) == frame.(rip := EPILOGUE) && c.mask == mask
    ensures forall a :: frame.rbp <= a ==> Get(c.mem, a) == Get(old(c.mem), a)
  {
    hide Get, NewMask, GetSet, Blockable;
    if c.regs.rax != 0 {
      StoreLocal(c, Get(c.mem, c.regs.rbp - 8) + 1);
    }
    i := Get(c.mem, c.regs.rbp - 8);
    assert i == called;
    if i < n {
      MaskKept(mask);
      CallFun(c, jb, i);
      RecordedSame(old(c.mem), c.mem, jb, frame.rbp, FUN_ROOM + 16);
    } else {
      c.regs := c.regs.(rip := EPILOGUE);
    }
  }

  /** main up to the return of setjmp. */
  method Begin(c: Cpu, jb: int)
    requires Apart(jb, c.regs.rsp, MAIN_ROOM) && jb + 64 != 0
    modifies c
    ensures var rsp := old(c.regs.rsp);
      && ContextOf(c.regs) == old(ContextOf(c.regs)).(rsp := rsp - 24, rbp := rsp - 8, rip := AFTER_SETJMP)
      && AtSetjmp(c.Now(), jb, ContextOf(c.regs), old(c.mask), 0)
      && Get(c.mem, rsp - 8) == old(c.regs.rbp) && Get(c.mem, rsp) == Get(old(c.mem), rsp)
  {
    hide Get, GetSet, Recorded;
    c.Enter();
    c.regs := c.regs.(rax := 0);
    StoreLocal(c, 0);
    c.regs := c.regs.(rdi := jb);
    Push(c, AFTER_SETJMP);
    ghost var sets := c.sets;
    c.Setjmp();
    SetRecorded(sets, jb + 64, old(c.mask));
  }

  lemma SetRecorded(sets: map<int, SigSet>, a: int, mask: SigSet)
    ensures GetSet(sets[a := mask], a) == mask
  {
  }

  /** main, entered with its return address on top of the stack: funs[0], ..., funs[n-1] run once each, in
      that order, and main returns 0 with the callee-saved registers, rsp and the mask as they were. */
  method RunMain(c: Cpu, jb: int, n: nat) returns (calls: seq<int>)
    requires Apart(jb, c.regs.rsp, MAIN_ROOM) && jb + 64 != 0 && Blockable(c.mask)
    modifies c
    ensures |calls| == n && forall i :: 0 <= i < n ==> calls[i] == i
    ensures c.regs.rax == 0
    ensures ContextOf(c.regs)
         == old(ContextOf(c.regs)).(rsp := old(c.regs.rsp) + 8, rip := Get(old(c.mem), old(c.regs.rsp)))
    ensures c.mask == old(c.mask)
  {
    hide Get, Blockable, AtSetjmp;
    Begin(c, jb);
    ghost var frame := ContextOf(c.regs);
    calls := [];
    while c.regs.rip == AFTER_SETJMP
      invariant |calls| <= n && forall i :: 0 <= i < |calls| ==> calls[i] == i
      invariant c.regs.rip == AFTER_SETJMP ==> AtSetjmp(c.Now(), jb, frame, old(c.mask), |calls|)
      invariant c.regs.rip != AFTER_SETJMP ==>
        |calls| == n && ContextOf(c.regs) == frame.(rip := EPILOGUE) && c.mask == old(c.mask)
      invariant Get(c.mem, frame.rbp) == old(c.regs.rbp)
      invariant Get(c.mem, frame.rbp + 8) == Get(old(c.mem), old(c.regs.rsp))
      decreases n - |calls|, if c.regs.rip == AFTER_SETJMP then 1 else 0
    {
      var i := Round(c, jb, n, frame, old(c.mask), |calls|);
      if c.regs.rip == AFTER_SETJMP {
        calls := calls + [i];
      }
    }
    c.regs := c.regs.(rax := 0);
    c.LeaveAndRet();
  }
}
