/** The 64-bit signal sets of libmini.h and the sets of signals they stand for. */
module SignalSets {

  type SigSet = bv64

  /** A signal number, held in a register. */
  type Signal = s: bv64 | 1 <= s <= 64 witness 1

  const EMPTY: SigSet := 0
  const FULL: SigSet := 0xffff_ffff_ffff_ffff

  function Bit(sig: Signal): SigSet {
    1 << (sig - 1)
  }

  /** sigismember */
  predicate IsMember(set_: SigSet, sig: Signal) {
    set_ & Bit(sig) != 0
  }

  /** The word sigaddset leaves. */
  function Insert(set_: SigSet, sig: Signal): SigSet {
    set_ | Bit(sig)
  }

  /** The word sigdelset leaves. */
  function Remove(set_: SigSet, sig: Signal): SigSet {
    set_ & !Bit(sig)
  }

  /** The signals a 64-bit word stands for. */
  ghost function Members(set_: SigSet): iset<Signal> {
    iset sig: Signal | IsMember(set_, sig)
  }

  class Cell {
    var bits: SigSet

    /** sigemptyset */
    method Empty()
      modifies this
      ensures Members(bits) == iset{}
    {
      bits := 0;
      assert forall sig: Signal :: !IsMember(0, sig);
    }

    /** sigfillset */
    method Fill()
      modifies this
      ensures forall sig: Signal :: sig in Members(bits)
    {
      bits := !0;
      FullHasAll();
    }

    /** sigaddset */
    method Add(sig: Signal)
      modifies this
      ensures Members(bits) == old(Members(bits)) + iset{sig}
    {
      MembersOfInsert(bits, sig);
      bits := bits | Bit(sig);
    }

    /** sigdelset */
    method Delete(sig: Signal)
      modifies this
      ensures Members(bits) == old(Members(bits)) - iset{sig}
    {
      MembersOfRemove(bits, sig);
      bits := bits & !Bit(sig);
    }
  }

  lemma FullHasAll()
    ensures forall sig: Signal :: IsMember(FULL, sig)
  {
  }

  lemma MembersOfBit(sig: Signal)
    ensures Members(Bit(sig)) == iset{sig}
  {
  }

  /** Membership, read off the one bit. */
  predicate Test(s: SigSet, k: bv64)
    requires k < 64
  {
    (s >> k) & 1 == 1
  }

  lemma MemberIsTest(s: SigSet, sig: Signal)
    ensures IsMember(s, sig) <==> Test(s, sig - 1)
  {
  }

  lemma TestOfOr(s: SigSet, t: SigSet, k: bv64)
    requires k < 64
    ensures Test(s | t, k) <==> Test(s, k) || Test(t, k)
  {
  }

  lemma TestOfAndNot(s: SigSet, t: SigSet, k: bv64)
    requires k < 64
    ensures Test(s & !t, k) <==> Test(s, k) && !Test(t, k)
  {
  }

  lemma UnionMember(s: SigSet, t: SigSet, sig: Signal)
    ensures IsMember(s | t, sig) <==> IsMember(s, sig) || IsMember(t, sig)
  {
    hide IsMember, Test;
    MemberIsTest(s, sig);
    MemberIsTest(t, sig);
    MemberIsTest(s | t, sig);
    TestOfOr(s, t, sig - 1);
  }

  /** Bitwise or is union. */
  lemma UnionIsUnion(s: SigSet, t: SigSet)
    ensures Members(s | t) == Members(s) + Members(t)
  {
    hide Bit, IsMember;
    forall sig: Signal
      ensures IsMember(s | t, sig) <==> IsMember(s, sig) || IsMember(t, sig)
    {
      UnionMember(s, t, sig);
    }
  }

  lemma DifferenceMember(s: SigSet, t: SigSet, sig: Signal)
    ensures IsMember(s & !t, sig) <==> IsMember(s, sig) && !IsMember(t, sig)
  {
    hide IsMember, Test;
    MemberIsTest(s, sig);
    MemberIsTest(t, sig);
    MemberIsTest(s & !t, sig);
    TestOfAndNot(s, t, sig - 1);
  }

  /** And with the complement is difference. */
  lemma DifferenceIsDifference(s: SigSet, t: SigSet)
    ensures Members(s & !t) == Members(s) - Members(t)
  {
    hide Bit, IsMember;
    forall sig: Signal
      ensures IsMember(s & !t, sig) <==> IsMember(s, sig) && !IsMember(t, sig)
    {
      DifferenceMember(s, t, sig);
    }
  }

  lemma MembersOfInsert(s: SigSet, sig: Signal)
    ensures Members(Insert(s, sig)) == Members(s) + iset{sig}
  {
    hide Bit, IsMember, Members;
    UnionIsUnion(s, Bit(sig));
    MembersOfBit(sig);
  }

  lemma MembersOfRemove(s: SigSet, sig: Signal)
    ensures Members(Remove(s, sig)) == Members(s) - iset{sig}
  {
    hide Bit, IsMember, Members;
    DifferenceIsDifference(s, Bit(sig));
    MembersOfBit(sig);
  }

  // ----- extensionality -----

  function LowBits(n: bv64): bv64
    requires n <= 64
  {
    if n == 64 then 0xffff_ffff_ffff_ffff else (1 << n) - 1
  }

  lemma LowBitsEnds(x: bv64)
    ensures x & LowBits(0) == 0 && x & LowBits(64) == x
  {
  }

  lemma LowBitsOfSignal(x: bv64, sig: Signal)
    requires x & LowBits(sig - 1) == 0 && !IsMember(x, sig)
    ensures x & LowBits(sig) == 0
  {
    hide LowBits, Bit;
    NextLowBits(sig);
    NoneOfBoth(x, LowBits(sig - 1), Bit(sig));
  }

  lemma NextLowBits(sig: Signal)
    ensures LowBits(sig) == LowBits(sig - 1) | Bit(sig)
  {
  }

  lemma NoneOfBoth(x: bv64, a: bv64, b: bv64)
    requires x & a == 0 && x & b == 0
    ensures x & (a | b) == 0
  {
  }

  lemma {:induction false} NoLowBits(x: bv64, n: bv64)
    requires n <= 64 && forall sig: Signal :: !IsMember(x, sig)
    ensures x & LowBits(n) == 0
    decreases n
  {
    hide LowBits, IsMember;
    if n == 0 {
      LowBitsEnds(x);
    } else {
      NoLowBits(x, n - 1);
      LowBitsOfSignal(x, n);
    }
  }

  /** A word with no member is zero. */
  lemma NoMembers(x: bv64)
    requires Members(x) == iset{}
    ensures x == 0
  {
    forall sig: Signal
      ensures !IsMember(x, sig)
    {
      assert sig !in Members(x);
    }
    NoLowBits(x, 64);
    LowBitsEnds(x);
  }

  lemma OrIsSecond(s: bv64, t: bv64)
    ensures s | t == t <==> s & !t == 0
  {
  }

  /** The union with t is t exactly when nothing outside t is in s. */
  lemma UnionIsSecondIff(s: SigSet, t: SigSet)
    ensures s | t == t <==> Members(s) <= Members(t)
  {
    OrIsSecond(s, t);
    DifferenceIsDifference(s, t);
    if Members(s) <= Members(t) {
      NoMembers(s & !t);
    } else {
      assert Members(0) == iset{} by {
        assert forall sig: Signal :: !IsMember(0, sig);
      }
    }
  }

  // ----- whole sequences of operations -----

  datatype SetOp = AddSig(sig: Signal) | DelSig(sig: Signal)

  function ApplyOp(s: SigSet, op: SetOp): SigSet {
    match op
    case AddSig(sig) => Insert(s, sig)
    case DelSig(sig) => Remove(s, sig)
  }

  ghost function ApplyToSet(m: iset<Signal>, op: SetOp): iset<Signal> {
    match op
    case AddSig(sig) => m + iset{sig}
    case DelSig(sig) => m - iset{sig}
  }

  function Applied(s: SigSet, ops: seq<SetOp>): SigSet
    decreases |ops|
  {
    if ops == [] then s else Applied(ApplyOp(s, ops[0]), ops[1..])
  }

  ghost function AppliedToSet(m: iset<Signal>, ops: seq<SetOp>): iset<Signal>
    decreases |ops|
  {
    if ops == [] then m else AppliedToSet(ApplyToSet(m, ops[0]), ops[1..])
  }

  lemma OpRefines(s: SigSet, op: SetOp)
    ensures Members(ApplyOp(s, op)) == ApplyToSet(Members(s), op)
  {
    hide Insert, Remove, Members;
    match op
    case AddSig(sig) => MembersOfInsert(s, sig);
    case DelSig(sig) => MembersOfRemove(s, sig);
  }

  /** After any sequence of additions and deletions membership is membership in the mathematical set. */
  lemma {:induction false} SequenceRefines(s: SigSet, ops: seq<SetOp>)
    ensures Members(Applied(s, ops)) == AppliedToSet(Members(s), ops)
    decreases |ops|
  {
    hide ApplyOp, ApplyToSet, Members;
    if ops != [] {
      OpRefines(s, ops[0]);
      SequenceRefines(ApplyOp(s, ops[0]), ops[1..]);
    }
  }
}
