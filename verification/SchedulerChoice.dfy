/** What the scheduler decides, on the fields of the threads alone. */
module SchedulerChoice {
  import opened Wrappers
  import opened Bits
  import opened Scheduler

  // ------------------------------------------------------------ who goes first

  /** A ready RT thread with a frame deadline at most 1 ms away. */
  predicate Due(t: Thread, now: nat) {
    t.policy.Realtime? && t.frameDeadlineNs.Some? && t.frameDeadlineNs.value <= now + 1_000_000
  }

  /** The class of a ready thread: due RT threads, RT, MLFQ, CFS. */
  function Class(t: Thread, now: nat): nat {
    if Due(t, now) then 0 else if t.policy.Realtime? then 1 else if t.policy.Mlfq? then 2 else 3
  }

  /** The priority among MLFQ threads: in gaming mode 20 more for a game thread and 10
      less for any other, within -20..20. */
  function GamePriority(t: Thread, gaming: bool): int {
    if !gaming then t.priority else
    var p := t.priority + if t.isGameRender || t.isGamePhysics || t.isGameAudio then 20 else -10;
    if p > 20 then 20 else if p < -20 then -20 else p
  }

  /** Within a class: the earlier deadline, the higher fixed priority, the lower level
      and on one level the higher priority, the lower virtual run time. */
  predicate Ahead(t: Thread, u: Thread, now: nat, gaming: bool)
    requires Class(t, now) == Class(u, now)
  {
    if Due(t, now) then t.frameDeadlineNs.value < u.frameDeadlineNs.value
    else if t.policy.Realtime? then t.policy.priority > u.policy.priority
    else if t.policy.Mlfq? then
      || t.mlfqLevel < u.mlfqLevel
      || (t.mlfqLevel == u.mlfqLevel && GamePriority(t, gaming) > GamePriority(u, gaming))
    else t.vruntime < u.vruntime
  }

  predicate Outranks(t: Thread, u: Thread, now: nat, gaming: bool) {
    Class(t, now) < Class(u, now) || (Class(t, now) == Class(u, now) && Ahead(t, u, now, gaming))
  }

  /** No ready thread outranks thread number `i`, and it outranks the earlier ones. */
  ghost predicate GoesFirst(s: Scheduler, now: nat, i: nat) {
    && i < |s.threads| && s.threads[i].state.Ready?
    && forall j :: 0 <= j < |s.threads| && s.threads[j].state.Ready? ==>
      && !Outranks(s.threads[j], s.threads[i], now, s.gamingMode)
      && (j < i ==> Outranks(s.threads[i], s.threads[j], now, s.gamingMode))
  }

  lemma GameBoost(t: Thread, gaming: bool)
    ensures EffectivePriority(t, gaming) == GamePriority(t, gaming)
  {
  }

  lemma BeatsAhead(k: Scan, t: Thread, u: Thread, now: nat, gaming: bool)
    requires Candidate(k, t) && Candidate(k, u) && Class(t, now) == Class(u, now)
    requires Class(t, now) == match k case Deadline => 0 case Fixed => 1 case Feedback => 2 case Fair => 3
    ensures Beats(k, gaming, t, u) <==> Ahead(t, u, now, gaming)
  {
    GameBoost(t, gaming);
    GameBoost(u, gaming);
  }

  /** The scan that decides, when the best candidate of scan `k` is picked. */
  lemma FirstOfScan(s: Scheduler, now: nat, k: Scan, i: nat)
    requires FirstBest(s.threads, k, s.gamingMode, |s.threads|, i)
    requires k == Deadline ==> Due(s.threads[i], now)
    requires k != Deadline ==> forall j :: 0 <= j < |s.threads| && s.threads[j].state.Ready? ==> !Due(s.threads[j], now)
    requires k == Feedback || k == Fair ==> forall j :: 0 <= j < |s.threads| ==> !Candidate(Fixed, s.threads[j])
    requires k == Fair ==> forall j :: 0 <= j < |s.threads| ==> !Candidate(Feedback, s.threads[j])
    ensures GoesFirst(s, now, i)
  {
    forall j | 0 <= j < |s.threads| && s.threads[j].state.Ready?
      ensures !Outranks(s.threads[j], s.threads[i], now, s.gamingMode)
      ensures j < i ==> Outranks(s.threads[i], s.threads[j], now, s.gamingMode)
    {
      OnePair(s, now, k, i, j);
    }
  }

  lemma OnePair(s: Scheduler, now: nat, k: Scan, i: nat, j: nat)
    requires FirstBest(s.threads, k, s.gamingMode, |s.threads|, i) && j < |s.threads| && s.threads[j].state.Ready?
    requires k == Deadline ==> Due(s.threads[i], now)
    requires k != Deadline ==> !Due(s.threads[i], now) && !Due(s.threads[j], now)
    requires k == Feedback || k == Fair ==> !Candidate(Fixed, s.threads[j])
    requires k == Fair ==> !Candidate(Feedback, s.threads[j])
    ensures !Outranks(s.threads[j], s.threads[i], now, s.gamingMode)
    ensures j < i ==> Outranks(s.threads[i], s.threads[j], now, s.gamingMode)
  {
    var t, u := s.threads[i], s.threads[j];
    if Class(t, now) == Class(u, now) {
      BeatsAhead(k, t, u, now, s.gamingMode);
      BeatsAhead(k, u, t, now, s.gamingMode);
    }
  }

  lemma NoneDue(s: Scheduler, now: nat)
    requires forall d :: Best(s.threads, Deadline, s.gamingMode) == Some(d) ==>
      d < |s.threads| && s.threads[d].frameDeadlineNs.Some? && s.threads[d].frameDeadlineNs.value > now + 1_000_000
    ensures forall j :: 0 <= j < |s.threads| && s.threads[j].state.Ready? ==> !Due(s.threads[j], now)
  {
    ScanFindsBest(s.threads, Deadline, s.gamingMode, |s.threads|);
    forall j | 0 <= j < |s.threads| && s.threads[j].state.Ready? ensures !Due(s.threads[j], now) {
      assert Due(s.threads[j], now) ==> Candidate(Deadline, s.threads[j]);
    }
  }

  lemma PickedFirst(s: Scheduler, now: nat)
    ensures PickIndex(s, now).Some? ==> GoesFirst(s, now, PickIndex(s, now).value)
  {
    var ts, g, n := s.threads, s.gamingMode, |s.threads|;
    ScanFindsBest(ts, Deadline, g, n);
    ScanFindsBest(ts, Fixed, g, n);
    ScanFindsBest(ts, Feedback, g, n);
    ScanFindsBest(ts, Fair, g, n);
    var d, rt, m, c := Best(ts, Deadline, g), Best(ts, Fixed, g), Best(ts, Feedback, g), Best(ts, Fair, g);
    if d.Some? && Due(ts[d.value], now) {
      FirstOfScan(s, now, Deadline, d.value);
    } else {
      NoneDue(s, now);
      if rt.Some? {
        FirstOfScan(s, now, Fixed, rt.value);
      } else if m.Some? {
        FirstOfScan(s, now, Feedback, m.value);
      } else if c.Some? {
        FirstOfScan(s, now, Fair, c.value);
      }
    }
  }

  /** The thread picked is the one that goes first, and nothing is picked exactly when
      no thread is ready. */
  lemma PickExactly(s: Scheduler, now: nat, i: nat)
    ensures PickIndex(s, now) == Some(i) <==> GoesFirst(s, now, i)
    ensures PickIndex(s, now) == None <==> forall j :: 0 <= j < |s.threads| ==> !s.threads[j].state.Ready?
  {
    PickOrder(s, now);
    PickedFirst(s, now);
    if GoesFirst(s, now, i) && PickIndex(s, now).Some? {
      var k := PickIndex(s, now).value;
      assert s.threads[i].state.Ready? && s.threads[k].state.Ready?;
    }
  }

  // ------------------------------------------------------------- the time slice

  /** Thread number `i` is the first with the id. */
  ghost predicate FirstWith(ts: seq<Thread>, id: nat, i: nat) {
    i < |ts| && ts[i].id == id && forall j :: 0 <= j < i ==> ts[j].id != id
  }

  lemma FindFirst(ts: seq<Thread>, id: nat, i: nat)
    requires FirstWith(ts, id, i)
    ensures Find(ts, id, 0) == Some(i)
  {
    assert ts[i].id == id;
  }

  ghost function ReadyFair(ts: seq<Thread>): set<nat> {
    set i: nat | i < |ts| && ts[i].state.Ready? && ts[i].policy.Cfs?
  }

  lemma {:induction false} ReadyCfsCount(ts: seq<Thread>)
    ensures ReadyCfs(ts) == |ReadyFair(ts)|
    decreases |ts|
  {
    if ts == [] {
      assert ReadyFair(ts) == {};
    } else {
      var n := |ts| - 1;
      ReadyCfsCount(ts[..n]);
      assert ReadyFair(ts) == ReadyFair(ts[..n]) + if ts[n].state.Ready? && ts[n].policy.Cfs? then {n} else {};
    }
  }

  /** The slice of the current thread: unlimited for RT, 1 ms times a power of two for
      MLFQ, and for CFS an equal share of 6 ms among the ready CFS threads, but at
      least 0.75 ms. */
  lemma QuantumExactly(s: Scheduler, id: nat, i: nat)
    requires s.current == Some(id) && FirstWith(s.threads, id, i)
    ensures match s.threads[i].policy
      case Realtime(_) => Quantum(s) == 0xFFFF_FFFF_FFFF_FFFF
      case Mlfq => Quantum(s) == 1_000_000 * Pow2(s.threads[i].mlfqLevel)
      case Cfs =>
        var n := |ReadyFair(s.threads)|;
        if n == 0 then Quantum(s) == 6_000_000
        else if n <= 8 then n * Quantum(s) <= 6_000_000 < n * (Quantum(s) + 1)
        else Quantum(s) == 750_000
  {
    FindFirst(s.threads, id, i);
    ReadyCfsCount(s.threads);
    var n := |ReadyFair(s.threads)|;
    if s.threads[i].policy.Cfs? && n > 0 { Share(n); }
  }

  lemma Share(n: nat)
    requires n > 0
    ensures n * (6_000_000 / n) <= 6_000_000 < n * (6_000_000 / n + 1)
    ensures n <= 8 <==> 6_000_000 / n >= 750_000
  {
    var q := 6_000_000 / n;
    assert 6_000_000 == n * q + 6_000_000 % n;
    if n <= 8 {
      MulMono(n, 8, 750_000);
      Cancel(n, 750_000, q + 1);
    } else {
      MulMono(9, n, 750_000);
      Cancel(n, q, 750_000);
    }
  }

  lemma Cancel(n: nat, a: nat, b: nat)
    requires n * a < n * b
    ensures a < b
  {
    if b <= a { MulMono(b, a, n); }
  }

  /** Exactly no current thread, or one that is gone, has no slice. */
  lemma NoQuantum(s: Scheduler)
    ensures Quantum(s) == 0 <==>
      s.current.None? || forall j :: 0 <= j < |s.threads| ==> s.threads[j].id != s.current.value
  {
    if s.current.Some? {
      var i := Find(s.threads, s.current.value, 0);
      if i.Some? {
        QuantumExactly(s, s.current.value, i.value);
        assert s.threads[i.value].id == s.current.value;
      }
    }
  }

  // ------------------------------------------------------------------- yielding

  /** A yield makes the first thread with the id ready with a fresh quantum, one level
      further down if it is an MLFQ thread above level 3, changes nothing else about
      it and no other thread, and takes the processor from it alone. */
  lemma YieldExactly(s: Scheduler, id: nat, j: nat)
    requires j < |s.threads|
    ensures var t := YieldThread(s, id);
      && |t.threads| == |s.threads| && t.gamingMode == s.gamingMode
      && t.current == (if s.current == Some(id) then None else s.current)
      && var (u, v) := (s.threads[j], t.threads[j]);
      if FirstWith(s.threads, id, j) then
        && v.state == Ready && v.quantumUsed == 0
        && v.mlfqLevel == (if u.policy.Mlfq? && u.mlfqLevel < 3 then u.mlfqLevel + 1 else u.mlfqLevel)
        && v == u.(state := v.state, quantumUsed := v.quantumUsed, mlfqLevel := v.mlfqLevel)
      else v == u
  {
    if FirstWith(s.threads, id, j) { FindFirst(s.threads, id, j); }
  }
}
