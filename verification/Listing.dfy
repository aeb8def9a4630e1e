/** Disassembly listings: the 64-byte window, the ten-line cut, and the linear sweep they are pieces of. */
module Listing {
  import opened Words
  import opened Machine
  import opened Ptrace

  const WINDOW: nat := 64
  const LINES: nat := 10

  datatype Insn = Insn(addr: nat, bytes: seq<Byte>)

  function TotalSize(l: seq<Insn>): nat {
    if l == [] then 0 else |l[0].bytes| + TotalSize(l[1..])
  }

  /** The lines printed for window w at address a: decode until the bytes run out or do not decode. */
  function Sweep(dec: seq<Byte> -> nat, w: seq<Byte>, a: nat, max: nat): (l: seq<Insn>)
    ensures |l| <= max
    ensures TotalSize(l) <= |w|
    decreases max
  {
    var k := dec(w);
    if max == 0 || !(0 < k <= |w|) then [] else [Insn(a, w[..k])] + Sweep(dec, w[k..], a + k, max - 1)
  }

  lemma SweepStep(dec: seq<Byte> -> nat, w: seq<Byte>, at: nat, a: nat, max: nat)
    requires at <= |w|
    ensures var k := dec(w[at..]);
      Sweep(dec, w[at..], a + at, max) ==
        if max != 0 && 0 < k <= |w| - at
        then [Insn(a + at, w[at..at + k])] + Sweep(dec, w[at + k..], a + at + k, max - 1)
        else []
  {
    var k := dec(w[at..]);
    if max != 0 && 0 < k <= |w| - at {
      assert w[at..][..k] == w[at..at + k] && w[at..][k..] == w[at + k..];
    }
  }

  /** The reference listing: n instructions in a row, each decoded from memory itself. */
  function LinearSweep(dec: seq<Byte> -> nat, mem: Memory, a: nat, n: nat): (l: seq<Insn>)
    ensures |l| <= n
    decreases n
  {
    var insn := Fetch(dec, mem, a);
    if n == 0 || insn == [] then [] else [Insn(a, insn)] + LinearSweep(dec, mem, a + |insn|, n - 1)
  }

  /** A disassembler: lengths depend on the instruction's own bytes and never exceed 15. */
  ghost predicate IsDecoder(dec: seq<Byte> -> nat) {
    && PrefixDetermined(dec)
    && forall w: seq<Byte> :: dec(w) <= MAX_INSN
  }

  /** w is what memory holds from a on. */
  predicate Shows(mem: Memory, a: nat, w: seq<Byte>) {
    && (forall x :: a <= x < a + |w| ==> x in mem)
    && (forall i :: 0 <= i < |w| ==> w[i] == mem[a + i])
  }

  lemma {:induction false} ExtentAtLeast(mem: Memory, a: nat, n: nat, k: nat)
    requires k <= n && forall x :: a <= x < a + k ==> x in mem
    ensures k <= Extent(mem, a, n)
    decreases n
  {
  }

  /** An instruction decoded from a window is the one memory holds. */
  lemma WindowDecodes(dec: seq<Byte> -> nat, mem: Memory, a: nat, w: seq<Byte>)
    requires IsDecoder(dec) && Shows(mem, a, w) && 0 < dec(w) <= |w|
    ensures Fetch(dec, mem, a) == w[..dec(w)]
  {
  }

  /** Conversely an instruction memory holds decodes from any window that has 15 bytes of it. */
  lemma MemoryDecodes(dec: seq<Byte> -> nat, mem: Memory, a: nat, w: seq<Byte>)
    requires IsDecoder(dec) && Shows(mem, a, w) && Fetch(dec, mem, a) != [] && MAX_INSN <= |w|
    ensures 0 < dec(w) <= |w|
  {
  }

  lemma ShowsRest(mem: Memory, a: nat, w: seq<Byte>, k: nat)
    requires Shows(mem, a, w) && k <= |w|
    ensures Shows(mem, a + k, w[k..])
  {
  }

  /** A piece printed from a window is a piece of the linear sweep. */
  lemma {:induction false} SweepIsLinear(dec: seq<Byte> -> nat, mem: Memory, a: nat, w: seq<Byte>, max: nat)
    requires IsDecoder(dec) && Shows(mem, a, w)
    ensures var l := Sweep(dec, w, a, max); l == LinearSweep(dec, mem, a, |l|)
    decreases max
  {
    hide Fetch, PrefixDetermined, Shows;
    var k := dec(w);
    if max != 0 && 0 < k <= |w| {
      WindowDecodes(dec, mem, a, w);
      ShowsRest(mem, a, w, k);
      SweepIsLinear(dec, mem, a + k, w[k..], max - 1);
    }
  }

  lemma LinearSweepCons(dec: seq<Byte> -> nat, mem: Memory, a: nat, n: nat)
    requires n > 0
    ensures var insn := Fetch(dec, mem, a);
      LinearSweep(dec, mem, a, n) ==
        if insn == [] then [] else [Insn(a, insn)] + LinearSweep(dec, mem, a + |insn|, n - 1)
  {
  }

  /** Where the window stops a piece short of its line limit, the sweep itself has ended there or fewer
      than 15 bytes of the window were left. */
  lemma {:induction false} SweepStopsLate(dec: seq<Byte> -> nat, mem: Memory, a: nat, w: seq<Byte>, max: nat)
    requires IsDecoder(dec) && Shows(mem, a, w)
    ensures var l := Sweep(dec, w, a, max);
      |l| == max || |w| < TotalSize(l) + MAX_INSN || LinearSweep(dec, mem, a, |l| + 1) == l
    decreases max
  {
    hide Fetch, PrefixDetermined, Shows, LinearSweep;
    var k := dec(w);
    if max != 0 {
      LinearSweepCons(dec, mem, a, |Sweep(dec, w, a, max)| + 1);
      if 0 < k <= |w| {
        WindowDecodes(dec, mem, a, w);
        ShowsRest(mem, a, w, k);
        SweepStopsLate(dec, mem, a + k, w[k..], max - 1);
      } else if |w| >= MAX_INSN && Fetch(dec, mem, a) != [] {
        MemoryDecodes(dec, mem, a, w);
      }
    }
  }

  /** Consecutive pieces join: the sweep goes on where the first piece ended. */
  lemma {:induction false} LinearSweepJoins(dec: seq<Byte> -> nat, mem: Memory, a: nat, m: nat, n: nat)
    requires |LinearSweep(dec, mem, a, m)| == m
    ensures var first := LinearSweep(dec, mem, a, m);
      LinearSweep(dec, mem, a, m + n) == first + LinearSweep(dec, mem, a + TotalSize(first), n)
    decreases m
  {
    hide Fetch;
    if m != 0 {
      var insn := Fetch(dec, mem, a);
      LinearSweepJoins(dec, mem, a + |insn|, m - 1, n);
    }
  }

  lemma {:induction false} TotalSizeJoins(l: seq<Insn>, r: seq<Insn>)
    ensures TotalSize(l + r) == TotalSize(l) + TotalSize(r)
  {
    if l == [] {
      assert l + r == r;
    } else {
      TotalSizeJoins(l[1..], r);
      assert (l + r)[1..] == l[1..] + r;
    }
  }

  // ----- the two sources of a window -----

  /** memcpy of a peeked word into the buffer. */
  function WordBytes(w: Word): (b: seq<Byte>)
    ensures |b| == 8
  {
    seq(8, k requires 0 <= k < 8 => ByteOf(w, k))
  }

  /** The running case: n words peeked from a on, up to the first peek that fails. */
  function LiveWindow(t: Process, a: nat, n: nat): (w: seq<Byte>)
    ensures |w| <= 8 * n
    decreases n
  {
    if n == 0 || !Accessible(t, a) then [] else WordBytes(Peek(t, a)) + LiveWindow(t, a + 8, n - 1)
  }

  lemma LiveWindowStep(t: Process, a: nat, n: nat)
    requires n > 0
    ensures LiveWindow(t, a, n) ==
      if Accessible(t, a) then WordBytes(Peek(t, a)) + LiveWindow(t, a + 8, n - 1) else []
  {
  }

  lemma LiveWindowNone(t: Process, a: nat)
    ensures LiveWindow(t, a, 0) == []
  {
  }

  lemma {:induction false} LiveWindowShows(t: Process, a: nat, n: nat)
    requires t.Live?
    ensures Shows(t.mem, a, LiveWindow(t, a, n))
    decreases n
  {
    hide Load, ByteOf;
    if n != 0 && Accessible(t, a) {
      LiveWindowShows(t, a + 8, n - 1);
      var w, rest := LiveWindow(t, a, n), LiveWindow(t, a + 8, n - 1);
      forall i | 0 <= i < |w|
        ensures w[i] == t.mem[a + i]
      {
        if i < 8 {
          ByteOfLoad(t.mem, a, i);
          assert w[i] == WordBytes(Peek(t, a))[i];
        } else {
          assert w[i] == rest[i - 8] == t.mem[a + 8 + (i - 8)];
        }
      }
    }
  }

  /** Where everything is mapped the window is full. */
  lemma {:induction false} LiveWindowFull(t: Process, a: nat, n: nat)
    requires t.Live? && forall x :: a <= x < a + 8 * n ==> x in t.mem
    ensures |LiveWindow(t, a, n)| == 8 * n
    decreases n
  {
    if n != 0 {
      LiveWindowFull(t, a + 8, n - 1);
    }
  }

  /** The section scan of the not-running case: the first section that holds a. */
  function SectionOf(sections: seq<Section>, a: nat, i: nat): (k: int)
    requires i <= |sections|
    ensures k == -1 || (i <= k < |sections| && sections[k].addr <= a < sections[k].addr + sections[k].size)
    ensures k == -1 ==>
      forall j :: i <= j < |sections| ==> !(sections[j].addr <= a < sections[j].addr + sections[j].size)
    decreases |sections| - i
  {
    if i == |sections| then -1
    else if sections[i].addr <= a < sections[i].addr + sections[i].size then i
    else SectionOf(sections, a, i + 1)
  }

  /** fseek and fread of the not-running case. */
  function FileWindow(file: seq<Byte>, offset: nat): (w: seq<Byte>)
    ensures |w| <= WINDOW
  {
    if |file| <= offset then []
    else if offset + WINDOW <= |file| then file[offset..offset + WINDOW] else file[offset..]
  }

  // ----- agreement of two windows -----

  /** The lines that lie below `limit`. */
  function Below(l: seq<Insn>, limit: nat): seq<Insn> {
    if l == [] || limit < l[0].addr + |l[0].bytes| then [] else [l[0]] + Below(l[1..], limit)
  }

  lemma BelowOfSweep(dec: seq<Byte> -> nat, w: seq<Byte>, a: nat, t: nat, max: nat)
    requires t <= |w|
    ensures var k := dec(w);
      Below(Sweep(dec, w, a, max), a + t) == if max == 0 || !(0 < k <= t) then [] else
        [Insn(a, w[..k])] + Below(Sweep(dec, w[k..], a + k, max - 1), a + t)
  {
  }

  /** Two windows that agree on their first t bytes list the same instructions within those bytes. */
  lemma {:induction false} SweepsAgree(dec: seq<Byte> -> nat, v: seq<Byte>, w: seq<Byte>, a: nat, t: nat, max: nat)
    requires PrefixDetermined(dec) && t <= |v| && t <= |w| && v[..t] == w[..t]
    ensures Below(Sweep(dec, v, a, max), a + t) == Below(Sweep(dec, w, a, max), a + t)
    decreases max
  {
    hide PrefixDetermined, Sweep, Below;
    BelowOfSweep(dec, v, a, t, max);
    BelowOfSweep(dec, w, a, t, max);
    var k, j := dec(v), dec(w);
    if max != 0 && (0 < k <= t || 0 < j <= t) {
      assert forall i :: 0 <= i < t ==> v[i] == v[..t][i] == w[..t][i] == w[i];
      if 0 < k <= t {
        SameHead(dec, v, w);
      } else {
        SameHead(dec, w, v);
      }
      assert v[k..][..t - k] == w[k..][..t - k];
      SweepsAgree(dec, v[k..], w[k..], a + k, t - k, max - 1);
    }
  }
}
