/** The debugged process against the native run: what the patch pass, and each command, preserves. */
module Simulation {
  import opened Words
  import opened Machine
  import opened Ptrace
  import opened Breakpoints

  // ----- hypotheses on the table -----

  /** Ten slots; the used ones hold sound breakpoint addresses at least eight bytes apart. */
  ghost predicate Placed(p: Image, slots: seq<Slot>) {
    && |slots| == MAX_BREAK
    && (forall k :: 0 <= k < |slots| && slots[k].used ==> Sited(p, Where(slots[k], p.bias)))
    && (forall i, j :: 0 <= i < j < |slots| && slots[i].used && slots[j].used ==>
          || Where(slots[i], p.bias) + 8 <= Where(slots[j], p.bias)
          || Where(slots[j], p.bias) + 8 <= Where(slots[i], p.bias))
  }

  /** Slot k holds the word the program itself has at its site. */
  predicate NativeWord(p: Image, s: Slot) {
    Mapped(p.text, Where(s, p.bias)) && s.word == Load(p.text, Where(s, p.bias))
  }

  ghost predicate NativeWords(p: Image, slots: seq<Slot>, sites: set<nat>) {
    forall k :: 0 <= k < |slots| && slots[k].used && Where(slots[k], p.bias) in sites ==> NativeWord(p, slots[k])
  }

  // ----- the relation to the native run -----

  /** The process is native state n under traps at exactly `armed`, rip being at none of them. */
  ghost predicate Over(p: Image, slots: seq<Slot>, t: Process, armed: set<nat>, n: nat) {
    && t.Live?
    && t.mem == Overlay(p.text, armed)
    && Native(p, n) == Alive(t.st)
    && armed <= Used(slots, p.bias)
    && t.st.rip !in armed
    && NativeWords(p, slots, armed)
  }

  /** The process is native state n with every used site armed and every saved word native. */
  ghost predicate FullyArmed(p: Image, slots: seq<Slot>, t: Process, n: nat) {
    && t.Live?
    && t.mem == Overlay(p.text, Used(slots, p.bias))
    && Native(p, n) == Alive(t.st)
    && NativeWords(p, slots, Used(slots, p.bias))
  }

  lemma PlacedSame(p: Image, s1: seq<Slot>, s2: seq<Slot>)
    requires Placed(p, s1) && SameSites(s1, s2)
    ensures Placed(p, s2) && Used(s1, p.bias) == Used(s2, p.bias)
  {
  }

  lemma UsedSited(p: Image, slots: seq<Slot>, sites: set<nat>)
    requires Placed(p, slots) && sites <= Used(slots, p.bias)
    ensures forall a :: a in sites ==> Sited(p, a)
    ensures SitesMapped(slots, p.bias, Overlay(p.text, sites))
  {
  }

  // ----- the patch pass -----

  lemma SitesApart(p: Image, slots: seq<Slot>, lo: nat, hi: nat, k: nat)
    requires Placed(p, slots) && lo <= hi <= |slots| && k < |slots| && slots[k].used && !(lo <= k < hi)
    ensures Where(slots[k], p.bias) !in UsedIn(slots, p.bias, lo, hi)
  {
  }

  /** The pass reaches the slot under rip, steps off it natively, and finishes quietly. */
  lemma PatchPassing(p: Image, slots: seq<Slot>, t: Process, armed: set<nat>, k: nat, n: nat)
    requires WellBehaved(p) && Placed(p, slots)
    requires t.Live? && t.mem == Overlay(p.text, armed) && Native(p, n) == Alive(t.st)
    requires armed <= Used(slots, p.bias) && t.st.rip !in armed
    requires k < |slots| && slots[k].used && Where(slots[k], p.bias) == t.st.rip
    ensures var r := PatchFrom(p.cpu, p.bias, slots, t, 0).1;
      match Native(p, n + 1)
      case Alive(s) =>
        s.rip !in UsedIn(slots, p.bias, k + 1, |slots|) ==> r == Live(Overlay(p.text, Used(slots, p.bias)), s)
      case Finished(_) => r == Gone
      case Broken => false
  {
    hide Step, PatchFrom, Sited, Native, UsedIn;
    UsedSited(p, slots, armed);
    SitesApart(p, slots, 0, k, k);
    var slots1, t1 := PatchPrefix(p.cpu, p.bias, slots, t, 0, k);
    PlacedSame(p, slots, slots1);
    var armed1 := armed + UsedIn(slots, p.bias, 0, k);
    assert t1.mem == Overlay(p.text, armed1);
    UsedSplit(slots, p.bias, 0, k, |slots|);
    UsedSame(slots, slots1, p.bias, k + 1, |slots|);
    UsedSame(slots, slots1, p.bias, k, |slots|);
    UsedSited(p, slots, armed1);
    NativeStep(p, armed1, n);
    match Native(p, n + 1) {
      case Finished(_) => TurnOnDying(p.cpu, p.bias, slots1, t1, k);
      case Alive(s) =>
        if s.rip !in UsedIn(slots, p.bias, k + 1, |slots|) {
          PatchUnderRip(p.cpu, p.bias, slots1, t1, k, s);
        }
    }
    assert armed1 + UsedIn(slots, p.bias, k, |slots|) == Used(slots, p.bias);
  }

  /** Whatever the pass saved under the traps of `armed` is the program's own word. */
  lemma PatchSavesNative(p: Image, slots: seq<Slot>, t: Process, armed: set<nat>)
    requires Placed(p, slots) && t.Live? && t.mem == Overlay(p.text, armed)
    requires armed <= Used(slots, p.bias) && NativeWords(p, slots, armed)
    requires PatchFrom(p.cpu, p.bias, slots, t, 0).1.Live?
    ensures NativeWords(p, PatchFrom(p.cpu, p.bias, slots, t, 0).0, Used(slots, p.bias))
  {
    hide Load, Step, PatchFrom, OnBoundary;
    UsedSited(p, slots, armed);
    var r := PatchFrom(p.cpu, p.bias, slots, t, 0);
    forall k | 0 <= k < |slots| && slots[k].used
      ensures NativeWord(p, r.0[k])
    {
      PatchWords(p.cpu, p.bias, slots, t, 0, k);
      var a := Where(slots[k], p.bias);
      var sites := armed + UsedIn(slots, p.bias, 0, k);
      assert Overlay(Overlay(p.text, armed), UsedIn(slots, p.bias, 0, k)) == Overlay(p.text, sites);
      SitesApart(p, slots, 0, k, k);
      if a !in armed {
        WordUnderOverlay(p, slots, sites, k);
      }
    }
  }

  /** The word at a disarmed site holds no trap of any other slot. */
  lemma WordUnderOverlay(p: Image, slots: seq<Slot>, sites: set<nat>, k: nat)
    requires Placed(p, slots) && sites <= Used(slots, p.bias)
    requires k < |slots| && slots[k].used && Where(slots[k], p.bias) !in sites
    ensures Mapped(p.text, Where(slots[k], p.bias))
    ensures Load(Overlay(p.text, sites), Where(slots[k], p.bias)) == Load(p.text, Where(slots[k], p.bias))
  {
  }

  /** The step from a site under rip leads to no site of a later slot. */
  ghost predicate CalmLater(p: Image, slots: seq<Slot>, st: State) {
    forall k :: 0 <= k < |slots| && slots[k].used && Where(slots[k], p.bias) == st.rip && Advance(p, st).Alive? ==>
      Advance(p, st).st.rip !in UsedIn(slots, p.bias, k + 1, |slots|)
  }

  /** The step from a site under rip leads to no site at all. */
  ghost predicate Calm(p: Image, slots: seq<Slot>, st: State) {
    st.rip in Used(slots, p.bias) && Advance(p, st).Alive? ==> Advance(p, st).st.rip !in Used(slots, p.bias)
  }

  /** How far the pass itself carries the process. */
  ghost function PassedTo(p: Image, slots: seq<Slot>, st: State, n: nat): nat {
    if st.rip in Used(slots, p.bias) then n + 1 else n
  }

  /** The patch pass is one native step if rip is at a used site and none otherwise, and arms every site. */
  lemma PatchSyncs(p: Image, slots: seq<Slot>, t: Process, armed: set<nat>, n: nat)
    requires WellBehaved(p) && Placed(p, slots) && Over(p, slots, t, armed, n) && CalmLater(p, slots, t.st)
    ensures var r := PatchFrom(p.cpu, p.bias, slots, t, 0);
      match Native(p, PassedTo(p, slots, t.st, n))
      case Alive(s) => FullyArmed(p, r.0, r.1, PassedTo(p, slots, t.st, n)) && r.1.st == s
      case Finished(_) => r.1 == Gone
      case Broken => false
  {
    hide Step, PatchFrom, Sited, NativeWord;
    var r := PatchFrom(p.cpu, p.bias, slots, t, 0);
    PlacedSame(p, slots, r.0);
    UsedSited(p, slots, armed);
    if t.st.rip in Used(slots, p.bias) {
      var k :| 0 <= k < |slots| && slots[k].used && Where(slots[k], p.bias) == t.st.rip;
      PatchPassing(p, slots, t, armed, k, n);
    } else {
      PatchQuiet(p.cpu, p.bias, slots, t, 0);
      assert armed + Used(slots, p.bias) == Used(slots, p.bias);
    }
    if r.1.Live? {
      PatchSavesNative(p, slots, t, armed);
    }
  }
}
