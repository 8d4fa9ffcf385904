/**
 What the fold of the risk engine means over whole runs of windows: the pending count is the length of a run,
 the state switches exactly when the run is long enough, states settle, lock inside the bands and change rarely,
 and a verdict can be continued from its saved state.
 */
module Hysteresis {
  import opened Wrappers
  import opened RiskEngine

  // ---------------------------------------------------------------- traces

  ghost predicate Ascending(rs: seq<Reading>) {
    forall i, j :: 0 <= i < j < |rs| ==> rs[i].sequence < rs[j].sequence
  }

  /** The fold after the first n windows. */
  ghost function At(policy: Policy, start: Fold, rs: seq<Reading>, n: nat): Fold
    requires n <= |rs|
  {
    Run(policy, start, rs[..n])
  }

  lemma AtStep(policy: Policy, start: Fold, rs: seq<Reading>, n: nat)
    requires n < |rs|
    ensures At(policy, start, rs, n + 1) == Step(policy, At(policy, start, rs, n), rs[n])
  {
    assert rs[..n + 1][..n] == rs[..n];
  }

  /** What an observer of a run sees: before window i the state `states[i]` is in force, the window is numbered
      `sequences[i]` and decides `decisions[i]`. */
  datatype History = History(states: seq<RiskState>, sequences: seq<int>, decisions: seq<Option<RiskState>>)
  {
    ghost predicate Valid() {
      |states| == |sequences| + 1 == |decisions| + 1
    }
  }

  ghost function Observe(policy: Policy, start: Fold, rs: seq<Reading>): (h: History)
    ensures h.Valid() && |h.sequences| == |rs|
  {
    History(
      seq(|rs| + 1, i requires 0 <= i <= |rs| => At(policy, start, rs, i).effective),
      seq(|rs|, i requires 0 <= i < |rs| => rs[i].sequence),
      seq(|rs|, i requires 0 <= i < |rs| => DecideReading(policy, At(policy, start, rs, i).effective, rs[i]).state))
  }

  /** The k windows before position n form a run towards s: they all decide s, no gap between neighbours is wider
      than allowed, and one state other than s was in force for all of them. */
  ghost predicate IsRun(h: History, widest: int, n: nat, k: nat, s: RiskState)
    requires h.Valid() && n <= |h.sequences|
  {
    && 0 < k <= n
    && h.states[n - 1] != s
    && (forall j :: n - k <= j < n ==> h.decisions[j] == Some(s) && h.states[j] == h.states[n - 1])
    && (forall j :: n - k < j < n ==> h.sequences[j] - h.sequences[j - 1] <= widest)
  }

  ghost predicate MaximalRun(h: History, widest: int, n: nat, k: nat, s: RiskState)
    requires h.Valid() && n <= |h.sequences|
  {
    IsRun(h, widest, n, k, s) && !IsRun(h, widest, n, k + 1, s)
  }

  ghost predicate Fresh(f: Fold) {
    f.pending == None && f.count == 0
  }

  /** The saved counters after n windows say exactly this. */
  ghost predicate CountersExact(policy: Policy, h: History, n: nat, f: Fold)
    requires h.Valid() && n <= |h.sequences|
  {
    && f.effective == h.states[n]
    && match f.pending
       case None => f.count == 0
       case Some(s) =>
         && n > 0
         && h.states[n] == h.states[n - 1] != s
         && f.previous == Some(h.sequences[n - 1])
         && MaximalRun(h, policy.maximumWindowGap + 1, n, f.count, s)
         && f.count < Required(policy, f.effective, s)
  }

  /** The n-th window ends a maximal run of k windows towards s, no longer than what the state requires. */
  ghost predicate EndsRun(h: History, policy: Policy, n: nat, k: nat, s: RiskState)
    requires h.Valid() && 0 < n <= |h.sequences|
  {
    MaximalRun(h, policy.maximumWindowGap + 1, n, k, s) && k <= Required(policy, h.states[n - 1], s)
  }

  /** What the n-th window does to the state: it moves exactly when the run it ends reaches the required length. */
  ghost predicate SwitchExact(policy: Policy, h: History, n: nat)
    requires h.Valid() && 0 < n <= |h.sequences|
  {
    var before, after := h.states[n - 1], h.states[n];
    match h.decisions[n - 1]
    case None => after == before
    case Some(s) =>
      if s == before then after == before
      else exists k: nat :: EndsRun(h, policy, n, k, s) && after == if k == Required(policy, before, s) then s else before
  }

  /** Hysteresis is exact along every run: the pending count is the length of the longest run ending here, and
      the state switches exactly when that run reaches the entry or the clear count. */
  lemma {:induction false} HysteresisExact(policy: Policy, start: Fold, rs: seq<Reading>, n: nat)
    requires policy.Parsed() && Fresh(start) && Ascending(rs) && n <= |rs|
    ensures CountersExact(policy, Observe(policy, start, rs), n, At(policy, start, rs, n))
    ensures n > 0 ==> SwitchExact(policy, Observe(policy, start, rs), n)
  {
    if n > 0 {
      HysteresisExact(policy, start, rs, n - 1);
      if n > 1 { AtStep(policy, start, rs, n - 2); }
      AtStep(policy, start, rs, n - 1);
      var h := Observe(policy, start, rs);
      assert n > 1 ==> h.sequences[n - 2] < h.sequences[n - 1];
      var f := At(policy, start, rs, n - 1);
      if n > 1 {
        LeavesPending(policy, At(policy, start, rs, n - 2), rs[n - 2]);
      }
      StepExact(policy, h, n, f, At(policy, start, rs, n), DecideReading(policy, f.effective, rs[n - 1]));
    }
  }

  /** A window that decides against the state without moving it leaves its decision pending. */
  lemma LeavesPending(policy: Policy, f: Fold, r: Reading)
    ensures var f', d := Step(policy, f, r), DecideReading(policy, f.effective, r).state;
      d.Some? && d.value != f.effective && f'.effective == f.effective ==>
        f'.pending == d && f'.previous == Some(r.sequence)
  {}

  lemma StepExact(policy: Policy, h: History, n: nat, f: Fold, f': Fold, decision: WindowDecision)
    requires policy.Parsed() && h.Valid() && 0 < n <= |h.sequences|
    requires CountersExact(policy, h, n - 1, f)
    requires n > 1 ==> h.sequences[n - 2] < h.sequences[n - 1]
    requires n > 1 ==>
      var d := h.decisions[n - 2];
      d.Some? && d.value != h.states[n - 2] && h.states[n - 1] == h.states[n - 2] ==>
        f.pending == d && f.previous == Some(h.sequences[n - 2])
    requires decision.state == h.decisions[n - 1]
    requires f' == Apply(policy, f, h.sequences[n - 1], decision) && f'.effective == h.states[n]
    ensures CountersExact(policy, h, n, f')
    ensures SwitchExact(policy, h, n)
  {
    var d := h.decisions[n - 1];
    if d.Some? && d.value != f.effective {
      DeviatingRun(policy, h, n, f, d.value);
      DeviatingStep(policy, h, n, f, f', decision);
    }
  }

  /** What a deviating decision counts is the maximal run it ends. */
  lemma DeviatingRun(policy: Policy, h: History, n: nat, f: Fold, s: RiskState)
    requires h.Valid() && 0 < n <= |h.sequences|
    requires CountersExact(policy, h, n - 1, f)
    requires n > 1 ==> h.sequences[n - 2] < h.sequences[n - 1]
    requires n > 1 ==>
      var d := h.decisions[n - 2];
      d.Some? && d.value != h.states[n - 2] && h.states[n - 1] == h.states[n - 2] ==>
        f.pending == d && f.previous == Some(h.sequences[n - 2])
    requires h.decisions[n - 1] == Some(s) && s != f.effective
    ensures MaximalRun(h, policy.maximumWindowGap + 1, n, CountAfter(policy, f, h.sequences[n - 1], s), s)
  {
    var widest := policy.maximumWindowGap + 1;
    if f.pending == Some(s) && f.previous.Some? && h.sequences[n - 1] - f.previous.value <= widest {
      ExtendRun(h, widest, n, f.count, s);
    } else {
      LoneRun(h, widest, n, s, f);
    }
  }

  lemma DeviatingStep(policy: Policy, h: History, n: nat, f: Fold, f': Fold, decision: WindowDecision)
    requires policy.Parsed() && h.Valid() && 0 < n <= |h.sequences|
    requires f.effective == h.states[n - 1]
    requires f.pending.Some? ==> f.previous.Some? && f.count < Required(policy, f.effective, f.pending.value)
    requires decision.state == h.decisions[n - 1] && decision.state.Some? && decision.state.value != f.effective
    requires MaximalRun(h, policy.maximumWindowGap + 1, n,
                        CountAfter(policy, f, h.sequences[n - 1], decision.state.value), decision.state.value)
    requires f' == Apply(policy, f, h.sequences[n - 1], decision) && f'.effective == h.states[n]
    ensures CountersExact(policy, h, n, f')
    ensures SwitchExact(policy, h, n)
  {
    assert EndsRun(h, policy, n, CountAfter(policy, f, h.sequences[n - 1], decision.state.value), decision.state.value);
  }

  /** The count a deviating decision leaves, before it is compared with the required length. */
  function CountAfter(policy: Policy, f: Fold, sequence: int, s: RiskState): nat {
    if f.pending == Some(s)
       && (f.previous.None? || 0 < sequence - f.previous.value <= policy.maximumWindowGap + 1)
    then f.count + 1 else 1
  }

  /** Adding a window to a maximal run gives the maximal run that is one longer. */
  lemma ExtendRun(h: History, widest: int, n: nat, k: nat, s: RiskState)
    requires h.Valid() && 1 < n <= |h.sequences|
    requires MaximalRun(h, widest, n - 1, k, s)
    requires h.states[n - 2] == h.states[n - 1]
    requires h.decisions[n - 1] == Some(s)
    requires h.sequences[n - 1] - h.sequences[n - 2] <= widest
    ensures MaximalRun(h, widest, n, k + 1, s)
  {
    assert IsRun(h, widest, n, k + 1, s);
    if IsRun(h, widest, n, k + 2, s) {
      assert IsRun(h, widest, n - 1, k + 1, s);
    }
  }

  /** A window whose predecessor left nothing pending for it, or too long ago, is a run of its own. */
  lemma LoneRun(h: History, widest: int, n: nat, s: RiskState, f: Fold)
    requires h.Valid() && 0 < n <= |h.sequences|
    requires h.decisions[n - 1] == Some(s) && h.states[n - 1] != s
    requires n > 1 ==>
      var d := h.decisions[n - 2];
      d.Some? && d.value != h.states[n - 2] && h.states[n - 1] == h.states[n - 2] ==>
        f.pending == d && f.previous == Some(h.sequences[n - 2])
    requires !(f.pending == Some(s) && f.previous.Some? && h.sequences[n - 1] - f.previous.value <= widest)
    ensures MaximalRun(h, widest, n, 1, s)
  {
    assert IsRun(h, widest, n, 1, s);
    if n > 1 && IsRun(h, widest, n, 2, s) {
      RunOfTwo(h, widest, n, s);
    }
  }

  lemma RunOfTwo(h: History, widest: int, n: nat, s: RiskState)
    requires h.Valid() && 1 < n <= |h.sequences| && IsRun(h, widest, n, 2, s)
    ensures h.decisions[n - 2] == Some(s) && h.states[n - 2] == h.states[n - 1]
    ensures h.sequences[n - 1] - h.sequences[n - 2] <= widest
  {}

  // ---------------------------------------------------------------- settling and locking

  function Max(a: nat, b: nat): nat {
    if a < b then b else a
  }

  function Min(a: nat, b: nat): nat {
    if a < b then a else b
  }

  /** A score outside the band of its two thresholds reads the same under either of them. */
  predicate OutsideBand(score: real, enter: real, clear: real) {
    (score >= enter && score >= clear) || (score < enter && score < clear)
  }

  predicate InsideBand(score: real, enter: real, clear: real) {
    clear <= score < enter
  }

  ghost predicate Contiguous(policy: Policy, rs: seq<Reading>) {
    forall i :: 0 < i < |rs| ==> rs[i].sequence - rs[i - 1].sequence <= policy.maximumWindowGap + 1
  }

  /** The window is sufficient, both scores lie outside their bands, and they name quadrant q. */
  ghost predicate Names(policy: Policy, w: Reading, q: RiskState)
  {
    var m := w.measured;
    && m.Usable?
    && OutsideBand(m.identity, policy.identityEnter, policy.identityClear)
    && OutsideBand(m.spoof, policy.spoofEnter, policy.spoofClear)
    && q == Quadrant(m.identity >= policy.identityEnter, m.spoof >= policy.spoofEnter)
  }

  /** From any fold state whatever, enough contiguous windows naming one quadrant leave the state there. */
  lemma Settles(policy: Policy, start: Fold, rs: seq<Reading>, q: RiskState)
    requires policy.Parsed() && Ascending(rs) && Contiguous(policy, rs)
    requires forall i :: 0 <= i < |rs| ==> Names(policy, rs[i], q)
    requires |rs| >= Max(policy.entryConsecutiveWindows, policy.clearConsecutiveWindows)
    ensures Run(policy, start, rs).effective == q
  {
    SettlesAfter(policy, start, rs, q, |rs|);
    assert rs[..|rs|] == rs;
  }

  /** What a window naming a quadrant does to the counters. */
  ghost predicate Towards(policy: Policy, f: Fold, f': Fold, sequence: int, q: RiskState) {
    && f'.previous == Some(sequence)
    && if q == f.effective then f'.effective == q && Fresh(f')
       else
         var k := CountAfter(policy, f, sequence, q);
         if k >= Required(policy, f.effective, q) then f'.effective == q && Fresh(f')
         else f'.effective == f.effective && f'.pending == Some(q) && f'.count == k
  }

  lemma AtTowards(policy: Policy, start: Fold, rs: seq<Reading>, n: nat, q: RiskState)
    requires policy.Parsed() && n < |rs| && Names(policy, rs[n], q)
    ensures Towards(policy, At(policy, start, rs, n), At(policy, start, rs, n + 1), rs[n].sequence, q)
  {
    AtStep(policy, start, rs, n);
    NamesDecides(policy, At(policy, start, rs, n).effective, rs[n], q);
  }

  lemma NamesDecides(policy: Policy, current: RiskState, r: Reading, q: RiskState)
    requires Names(policy, r, q)
    ensures DecideReading(policy, current, r).state == Some(q)
  {}

  lemma {:induction false} SettlesAfter(policy: Policy, start: Fold, rs: seq<Reading>, q: RiskState, n: nat)
    requires policy.Parsed() && Ascending(rs) && Contiguous(policy, rs)
    requires forall i :: 0 <= i < |rs| ==> Names(policy, rs[i], q)
    requires 0 < n <= |rs|
    ensures var f := At(policy, start, rs, n);
      f.effective == q || (f.pending == Some(q) && f.previous == Some(rs[n - 1].sequence)
                           && n <= f.count < Required(policy, f.effective, q))
  {
    if n > 1 {
      SettlesAfter(policy, start, rs, q, n - 1);
      assert rs[n - 2].sequence < rs[n - 1].sequence;
    }
    AtTowards(policy, start, rs, n - 1, q);
  }

  /** Less severe than a high-risk or critical state. */
  predicate Recovers(from: RiskState, q: RiskState) {
    (from == Critical && q != Critical) || (from == HighRisk && (q == Verified || q == Unverified))
  }

  /** From a state with nothing pending, windows that all name another quadrant move the state there exactly with the
      entry count, or with the clear count when that is a recovery. */
  lemma {:induction false} SwitchesAfterExactly(policy: Policy, start: Fold, rs: seq<Reading>, q: RiskState, n: nat)
    requires policy.Parsed() && Fresh(start) && Ascending(rs) && Contiguous(policy, rs) && n <= |rs|
    requires q != start.effective && forall i :: 0 <= i < |rs| ==> Names(policy, rs[i], q)
    ensures var f := At(policy, start, rs, n);
      var needed := if Recovers(start.effective, q) then policy.clearConsecutiveWindows else policy.entryConsecutiveWindows;
      if n < needed
      then f.effective == start.effective && f.count == n
           && (n > 0 ==> f.pending == Some(q) && f.previous == Some(rs[n - 1].sequence))
      else f.effective == q && Fresh(f)
  {
    if n > 0 {
      SwitchesAfterExactly(policy, start, rs, q, n - 1);
      AtTowards(policy, start, rs, n - 1, q);
      assert n > 1 ==> rs[n - 2].sequence < rs[n - 1].sequence;
    }
  }

  /** A window keeps the state exactly when each score stays on the state's side of the threshold in force. */
  lemma KeepsStateExactly(policy: Policy, current: RiskState, identity: real, spoof: real)
    ensures Decide(policy, current, identity, spoof) == current <==>
      && (if current == Verified || current == Critical
          then identity >= policy.identityClear else identity < policy.identityEnter)
      && (if current == HighRisk || current == Critical
          then spoof >= policy.spoofClear else spoof < policy.spoofEnter)
  {}

  /** While every sufficient window scores inside both bands the state never changes, from any fold state. */
  lemma {:induction false} BandLock(policy: Policy, start: Fold, rs: seq<Reading>)
    requires forall i :: 0 <= i < |rs| ==>
      var m := rs[i].measured;
      m.Usable? ==> InsideBand(m.identity, policy.identityEnter, policy.identityClear)
                    && InsideBand(m.spoof, policy.spoofEnter, policy.spoofClear)
    ensures Run(policy, start, rs).effective == start.effective
  {
    if rs != [] {
      BandLock(policy, start, rs[..|rs| - 1]);
      var m := rs[|rs| - 1].measured;
      if m.Usable? {
        KeepsStateExactly(policy, start.effective, m.identity, m.spoof);
      }
    }
  }

  /** Acting on a decision about two probabilities and looking again never decides otherwise. */
  ghost predicate ChatterFree(policy: Policy) {
    forall current, identity, spoof {:trigger Decide(policy, current, identity, spoof)} ::
      0.0 <= identity <= 1.0 && 0.0 <= spoof <= 1.0 ==>
        var next := Decide(policy, current, identity, spoof);
        Decide(policy, next, identity, spoof) == next
  }

  /** The parser does not order the thresholds; unchanged evidence is free of chatter exactly when they are. */
  lemma ChatterFreeExactly(policy: Policy)
    requires policy.Parsed()
    ensures ChatterFree(policy) <==>
      policy.identityClear <= policy.identityEnter && policy.spoofClear <= policy.spoofEnter
  {
    if policy.identityEnter < policy.identityClear {
      IdentityChatter(policy);
    } else if policy.spoofEnter < policy.spoofClear {
      SpoofChatter(policy);
    } else {
      forall current, identity, spoof {:trigger Decide(policy, current, identity, spoof)}
        ensures Decide(policy, Decide(policy, current, identity, spoof), identity, spoof)
             == Decide(policy, current, identity, spoof)
      {
        OrderedSettles(policy, current, identity, spoof);
      }
    }
  }

  lemma OrderedSettles(policy: Policy, current: RiskState, identity: real, spoof: real)
    requires policy.identityClear <= policy.identityEnter && policy.spoofClear <= policy.spoofEnter
    ensures Decide(policy, Decide(policy, current, identity, spoof), identity, spoof)
         == Decide(policy, current, identity, spoof)
  {
    KeepsStateExactly(policy, Decide(policy, current, identity, spoof), identity, spoof);
  }

  /** An identity score between the thresholds, with a spoof score no threshold exceeds. */
  lemma IdentityChatter(policy: Policy)
    requires policy.Parsed() && policy.identityEnter < policy.identityClear
    ensures !ChatterFree(policy)
  {
    assert Decide(policy, HighRisk, policy.identityEnter, 1.0) == Critical;
    assert Decide(policy, Critical, policy.identityEnter, 1.0) == HighRisk;
  }

  lemma SpoofChatter(policy: Policy)
    requires policy.Parsed() && policy.spoofEnter < policy.spoofClear
    ensures !ChatterFree(policy)
  {
    assert Decide(policy, Verified, 1.0, policy.spoofEnter) == Critical;
    assert Decide(policy, Critical, 1.0, policy.spoofEnter) == Verified;
  }

  /** With single-window counts and enter below clear, one constant score flips the state at every window. */
  lemma {:induction false} ChatterForever(policy: Policy, start: Fold, rs: seq<Reading>)
    requires policy.Parsed() && start.effective == Unverified
    requires policy.entryConsecutiveWindows == policy.clearConsecutiveWindows == 1
    requires forall i :: 0 <= i < |rs| ==>
      var m := rs[i].measured;
      m.Usable? && policy.identityEnter <= m.identity < policy.identityClear && m.spoof < policy.spoofEnter
    ensures Run(policy, start, rs).effective == if |rs| % 2 == 0 then Unverified else Verified
  {
    if rs != [] {
      ChatterForever(policy, start, rs[..|rs| - 1]);
      ChatterStep(policy, Run(policy, start, rs[..|rs| - 1]), rs[|rs| - 1]);
    }
  }

  lemma ChatterStep(policy: Policy, f: Fold, r: Reading)
    requires policy.entryConsecutiveWindows == policy.clearConsecutiveWindows == 1
    requires f.effective == Unverified || f.effective == Verified
    requires r.measured.Usable? && policy.identityEnter <= r.measured.identity < policy.identityClear
    requires r.measured.spoof < policy.spoofEnter
    ensures Step(policy, f, r).effective == if f.effective == Unverified then Verified else Unverified
  {}

  // ---------------------------------------------------------------- how often the state changes

  ghost function Transitions(policy: Policy, start: Fold, rs: seq<Reading>): nat
  {
    if rs == [] then 0
    else
      var init := rs[..|rs| - 1];
      Transitions(policy, start, init)
      + if Run(policy, start, rs).effective != Run(policy, start, init).effective then 1 else 0
  }

  /** Windows that pass every gate; whether one does never depends on the state. */
  ghost function DecidedWindows(policy: Policy, rs: seq<Reading>): nat
  {
    if rs == [] then 0
    else DecidedWindows(policy, rs[..|rs| - 1]) + if rs[|rs| - 1].measured.Usable? then 1 else 0
  }

  lemma StepCost(policy: Policy, f: Fold, r: Reading)
    requires policy.Parsed()
    ensures var f', decided := Step(policy, f, r), if r.measured.Usable? then 1 else 0;
      if f'.effective == f.effective then f'.count <= f.count + decided
      else f'.count == 0 && Min(policy.entryConsecutiveWindows, policy.clearConsecutiveWindows) <= f.count + decided
  {}

  /** Every change of state is paid for by min(entry, clear) decided windows of its own. */
  lemma {:induction false} TransitionBound(policy: Policy, start: Fold, rs: seq<Reading>)
    requires policy.Parsed()
    ensures Transitions(policy, start, rs) * Min(policy.entryConsecutiveWindows, policy.clearConsecutiveWindows)
            + Run(policy, start, rs).count
            <= DecidedWindows(policy, rs) + start.count
  {
    if rs != [] {
      var init := rs[..|rs| - 1];
      TransitionBound(policy, start, init);
      StepCost(policy, Run(policy, start, init), rs[|rs| - 1]);
      AddOne(Transitions(policy, start, init),
             Min(policy.entryConsecutiveWindows, policy.clearConsecutiveWindows));
    }
  }

  lemma AddOne(t: nat, m: nat)
    ensures (t + 1) * m == t * m + m
  {}

  /** Unchanged evidence under ordered thresholds moves the state at most once, from any fold state. */
  lemma {:induction false} ConstantEvidenceMovesOnce(policy: Policy, start: Fold, rs: seq<Reading>, identity: real, spoof: real)
    requires policy.identityClear <= policy.identityEnter && policy.spoofClear <= policy.spoofEnter
    requires forall i :: 0 <= i < |rs| ==>
      var m := rs[i].measured; m.Usable? ==> m.identity == identity && m.spoof == spoof
    ensures Transitions(policy, start, rs) <= 1
    ensures var now := Run(policy, start, rs).effective;
      if Transitions(policy, start, rs) == 0 then now == start.effective
      else now == Decide(policy, start.effective, identity, spoof)
  {
    if rs != [] {
      var init := rs[..|rs| - 1];
      ConstantEvidenceMovesOnce(policy, start, init, identity, spoof);
      OrderedSettles(policy, start.effective, identity, spoof);
    }
  }

  // ---------------------------------------------------------------- continuing a verdict

  lemma {:induction false} RunAppend(policy: Policy, f: Fold, a: seq<Reading>, b: seq<Reading>)
    ensures Run(policy, f, a + b) == Run(policy, Run(policy, f, a), b)
  {
    if b == [] {
      assert a + b == a;
    } else {
      RunAppend(policy, f, a, b[..|b| - 1]);
      assert (a + b)[..|a + b| - 1] == a + b[..|b| - 1];
    }
  }

  ghost predicate AllBefore(a: seq<Evidence>, b: seq<Evidence>) {
    forall x, y :: x in a && y in b ==> x.windowSequence < y.windowSequence
  }

  lemma {:induction false} UpsertAfter(a: seq<Evidence>, b: seq<Evidence>, e: Evidence)
    requires forall x :: x in a ==> x.windowSequence < e.windowSequence
    ensures Upsert(a + b, e) == a + Upsert(b, e)
  {
    if a == [] {
      assert a + b == b;
    } else {
      assert (a + b)[1..] == a[1..] + b;
      assert a[0] in a;
      UpsertPast(a + b, e);
      UpsertAfter(a[1..], b, e);
      assert a + Upsert(b, e) == [a[0]] + (a[1..] + Upsert(b, e));
    }
  }

  lemma UpsertPast(s: seq<Evidence>, e: Evidence)
    requires s != [] && s[0].windowSequence < e.windowSequence
    ensures Upsert(s, e) == [s[0]] + Upsert(s[1..], e)
  {}

  lemma {:induction false} SelectAppend(old_: seq<Evidence>, new_: seq<Evidence>)
    requires AllBefore(old_, new_)
    ensures Select(old_ + new_) == Select(old_) + Select(new_)
  {
    if new_ == [] {
      assert old_ + new_ == old_;
    } else {
      var init, last := new_[..|new_| - 1], new_[|new_| - 1];
      SelectAppend(old_, init);
      assert (old_ + new_)[..|old_ + new_| - 1] == old_ + init;
      forall x | x in Select(old_) ensures x.windowSequence < last.windowSequence {
        SelectSubset(old_, x);
      }
      UpsertAfter(Select(old_), Select(init), last);
    }
  }

  lemma GroupSnoc(s: seq<Evidence>, e: Evidence)
    ensures Group(s + [e]) == AddToGroups(Group(s), e)
  {
    assert (s + [e])[..|s|] == s;
  }

  lemma {:induction false} GroupAppend(a: seq<Evidence>, b: seq<Evidence>)
    requires a == [] || b == [] || a[|a| - 1].windowSequence != b[0].windowSequence
    ensures Group(a + b) == Group(a) + Group(b)
  {
    if b == [] {
      assert a + b == a;
    } else {
      var init, last := b[..|b| - 1], b[|b| - 1];
      assert b == init + [last];
      assert a + b == (a + init) + [last];
      GroupAppend(a, init);
      GroupLast(a);
      GroupLast(init);
      GroupJoin(Group(a), Group(init), last);
      calc {
        Group(a + b);
        { GroupSnoc(a + init, last); }
        AddToGroups(Group(a) + Group(init), last);
        Group(a) + AddToGroups(Group(init), last);
        { GroupSnoc(init, last); }
        Group(a) + Group(b);
      }
    }
  }

  /** Adding an event to the end of joined groups is adding it to the second. */
  lemma GroupJoin(a: seq<Window>, b: seq<Window>, e: Evidence)
    requires b == [] && a != [] ==> a[|a| - 1].sequence != e.windowSequence
    ensures AddToGroups(a + b, e) == a + AddToGroups(b, e)
  {
    if b != [] {
      assert (a + b)[|a + b| - 1] == b[|b| - 1];
      assert (a + b)[..|a + b| - 1] == a + b[..|b| - 1];
    } else {
      assert a + b == a;
    }
  }

  lemma ReadingsAppend(policy: Policy, a: seq<Evidence>, b: seq<Evidence>)
    requires Sorted(a) && Sorted(b) && AllBefore(a, b)
    ensures Sorted(a + b)
    ensures Readings(policy, a + b) == Readings(policy, a) + Readings(policy, b)
  {
    assert a != [] && b != [] ==> a[|a| - 1] in a && b[0] in b;
    GroupAppend(a, b);
    GroupShape(a);
    GroupShape(b);
    GroupShape(a + b);
    ReadAppend(policy, Group(a), Group(b));
  }

  lemma ReadAppend(policy: Policy, a: seq<Window>, b: seq<Window>)
    requires WellGrouped(a) && WellGrouped(b) && WellGrouped(a + b)
    ensures Read(policy, a + b) == Read(policy, a) + Read(policy, b)
  {}

  /** Evidence that only concerns later windows extends a verdict by continuing the same fold from where the
      verdict over the earlier evidence stopped. */
  lemma IncrementalEqualsBatch(policy: Policy, earlier: seq<Evidence>, later: seq<Evidence>)
    requires earlier != [] && AllBefore(earlier, later)
    ensures Select(earlier) != [] && Sorted(Select(earlier)) && Sorted(Select(later))
    ensures var saved := Run(policy, Initial(Select(earlier)), Readings(policy, Select(earlier)));
      Evaluate(earlier + later, policy)
      == Ok(Conclude(policy, Select(earlier) + Select(later), Run(policy, saved, Readings(policy, Select(later)))))
  {
    SelectAppend(earlier, later);
    SelectEmpty(earlier);
    SelectSorted(earlier);
    SelectSorted(later);
    forall x, y | x in Select(earlier) && y in Select(later) ensures x.windowSequence < y.windowSequence {
      SelectSubset(earlier, x);
      SelectSubset(later, y);
    }
    ReadingsAppend(policy, Select(earlier), Select(later));
    RunAppend(policy, Initial(Select(earlier)), Readings(policy, Select(earlier)), Readings(policy, Select(later)));
  }

  /** A pipeline error in a later window leaves the state of the verdict and hides its outcome. When the error was
      delivered first, the evidence that moves the state therefore arrives with an insufficient outcome. */
  lemma LaterErrorHidesOutcome(policy: Policy, earlier: seq<Evidence>, error: Evidence)
    requires earlier != [] && AllBefore(earlier, [error]) && error.evidenceType == PipelineError
    ensures Evaluate(earlier, policy).Ok? && Evaluate(earlier + [error], policy).Ok?
    ensures Evaluate(earlier + [error], policy).value.outcome == InsufficientOutcome
    ensures Evaluate(earlier + [error], policy).value.effectiveState == Evaluate(earlier, policy).value.effectiveState
  {
    IncrementalEqualsBatch(policy, earlier, [error]);
    ErrorAlone(policy, error);
    var saved := Run(policy, Initial(Select(earlier)), Readings(policy, Select(earlier)));
    OneReading(policy, saved, Readings(policy, Select([error])));
  }

  lemma ErrorAlone(policy: Policy, error: Evidence)
    requires error.evidenceType == PipelineError
    ensures Sorted(Select([error])) && |Readings(policy, Select([error]))| == 1
    ensures Readings(policy, Select([error]))[0].measured.Unusable?
  {
    assert [error][..0] == [];
    assert Select([error]) == [error];
    assert Group([error]) == [Window(error.windowSequence, [error])];
  }

  lemma OneReading(policy: Policy, f: Fold, rs: seq<Reading>)
    requires |rs| == 1 && rs[0].measured.Unusable?
    ensures Run(policy, f, rs).effective == f.effective && Run(policy, f, rs).last.outcome == InsufficientOutcome
  {
    assert rs[..0] == [];
  }
}
