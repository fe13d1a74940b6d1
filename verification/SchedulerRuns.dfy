/** MLFQ demotion over whole runs of pick and preempt. */
module SchedulerRuns {
  import opened Wrappers
  import opened Bits
  import opened Scheduler

  /** One scheduling round: pick the next thread, let it use up its quantum. */
  function Round(s: Scheduler, now: nat): Scheduler {
    Preempted(Picked(s, now))
  }

  /** Rounds at the given times. */
  function Rounds(s: Scheduler, times: seq<nat>): Scheduler
    decreases |times|
  {
    if times == [] then s else Rounds(Round(s, times[0]), times[1..])
  }

  ghost predicate Distinct(ts: seq<Thread>, i: nat, j: nat) {
    i < |ts| && j < |ts| && i != j ==> ts[i].id != ts[j].id
  }

  /** The thread takes part in MLFQ scheduling. */
  predicate Feeds(t: Thread) {
    Candidate(Feedback, t)
  }

  /** Unique ids, levels in range, no ready RT thread, some ready MLFQ thread. */
  ghost predicate Setting(s: Scheduler) {
    && (forall i: nat, j: nat :: Distinct(s.threads, i, j))
    && (forall i :: 0 <= i < |s.threads| ==> s.threads[i].mlfqLevel < MLFQ_LEVELS && !Candidate(Fixed, s.threads[i]))
    && exists i :: 0 <= i < |s.threads| && Feeds(s.threads[i])
  }

  /** What a thread still has to fall. */
  function Gap(t: Thread): nat {
    if Feeds(t) && t.mlfqLevel < MLFQ_LEVELS then MLFQ_LEVELS - 1 - t.mlfqLevel else 0
  }

  /** The sum of (3 - level) over the ready MLFQ threads. */
  function GapSum(ts: seq<Thread>): nat {
    if ts == [] then 0 else GapSum(ts[..|ts| - 1]) + Gap(ts[|ts| - 1])
  }

  lemma {:induction false} GapSet(ts: seq<Thread>, i: nat, t: Thread)
    requires i < |ts|
    ensures GapSum(ts[i := t]) == GapSum(ts) - Gap(ts[i]) + Gap(t)
    decreases |ts|
  {
    var n := |ts| - 1;
    if i == n {
      assert ts[i := t][..n] == ts[..n];
    } else {
      GapSet(ts[..n], i, t);
      assert ts[i := t][..n] == ts[..n][i := t];
    }
  }

  lemma {:induction false} GapZero(ts: seq<Thread>)
    ensures GapSum(ts) == 0 <==> forall i :: 0 <= i < |ts| ==> Gap(ts[i]) == 0
    decreases |ts|
  {
    if ts != [] {
      var n := |ts| - 1;
      GapZero(ts[..n]);
      if GapSum(ts) == 0 {
        forall i | 0 <= i < |ts| ensures Gap(ts[i]) == 0 { if i < n { assert ts[..n][i] == ts[i]; } }
      }
      if forall i :: 0 <= i < |ts| ==> Gap(ts[i]) == 0 {
        assert forall i :: 0 <= i < n ==> Gap(ts[..n][i]) == 0;
      }
    }
  }

  lemma FindUnique(ts: seq<Thread>, i: nat)
    requires i < |ts| && forall i: nat, j: nat :: Distinct(ts, i, j)
    ensures Find(ts, ts[i].id, 0) == Some(i)
  {
    var r := Find(ts, ts[i].id, 0);
    if r.Some? { assert Distinct(ts, i, r.value); }
  }

  /** In the setting a ready MLFQ thread of lowest level number is picked. */
  lemma PicksLowest(s: Scheduler, now: nat) returns (i: nat)
    requires Setting(s)
    ensures i < |s.threads| && PickIndex(s, now) == Some(i) && Feeds(s.threads[i])
    ensures forall j :: 0 <= j < |s.threads| && Feeds(s.threads[j]) ==> s.threads[i].mlfqLevel <= s.threads[j].mlfqLevel
    ensures FirstBest(s.threads, Feedback, s.gamingMode, |s.threads|, i)
  {
    var ts, g, n := s.threads, s.gamingMode, |s.threads|;
    ScanFindsBest(ts, Deadline, g, n);
    ScanFindsBest(ts, Fixed, g, n);
    ScanFindsBest(ts, Feedback, g, n);
    NoDeadline(ts, n);
    i := Best(ts, Feedback, g).value;
    assert FirstBest(ts, Feedback, g, n, i);
  }

  lemma NoDeadline(ts: seq<Thread>, n: nat)
    requires n <= |ts| && forall i :: 0 <= i < n ==> !Candidate(Fixed, ts[i])
    ensures forall i :: 0 <= i < n ==> !Candidate(Deadline, ts[i])
  {
    forall i | 0 <= i < n ensures !Candidate(Deadline, ts[i]) { assert !Candidate(Fixed, ts[i]); }
  }

  /** What one round does: it demotes the picked thread by one level unless it is at
      the bottom, grants it the quantum of its level, and touches no other thread. */
  lemma RoundEffect(s: Scheduler, now: nat) returns (i: nat)
    requires Setting(s)
    ensures i < |s.threads| && PickIndex(s, now) == Some(i) && Feeds(s.threads[i])
    ensures Round(s, now) == Scheduler(s.threads[i := Yielded(s.threads[i])], None, s.gamingMode)
    ensures Quantum(Picked(s, now)) == MLFQ_BASE_QUANTUM_NS * Pow2(s.threads[i].mlfqLevel)
    ensures GapSum(s.threads) > 0 ==> s.threads[i].mlfqLevel < MLFQ_LEVELS - 1
    ensures GapSum(Round(s, now).threads) == if GapSum(s.threads) > 0 then GapSum(s.threads) - 1 else 0
  {
    i := PicksLowest(s, now);
    FindUnique(s.threads, i);
    GapSet(s.threads, i, Yielded(s.threads[i]));
    GapZero(s.threads);
    if GapSum(s.threads) > 0 {
      var j :| 0 <= j < |s.threads| && Gap(s.threads[j]) != 0;
      assert s.threads[i].mlfqLevel <= s.threads[j].mlfqLevel;
    }
  }

  lemma RoundSetting(s: Scheduler, now: nat)
    requires Setting(s)
    ensures Setting(Round(s, now))
  {
    var i := RoundEffect(s, now);
    var t := Round(s, now);
    forall a: nat, b: nat ensures Distinct(t.threads, a, b) { assert Distinct(s.threads, a, b); }
    forall a | 0 <= a < |t.threads| ensures t.threads[a].mlfqLevel < MLFQ_LEVELS && !Candidate(Fixed, t.threads[a]) {
      assert !Candidate(Fixed, s.threads[a]);
    }
    assert Feeds(t.threads[i]);
  }

  /** Whether thread number `i` is the one picked. */
  function One(s: Scheduler, now: nat, i: nat): nat {
    if PickIndex(s, now) == Some(i) then 1 else 0
  }

  /** How often thread number `i` is picked in the given rounds. */
  function Picks(s: Scheduler, times: seq<nat>, i: nat): nat
    decreases |times|
  {
    if times == [] then 0 else One(s, times[0], i) + Picks(Round(s, times[0]), times[1..], i)
  }

  /** The quantum it is granted in one round. */
  function Grant(s: Scheduler, now: nat, i: nat): nat {
    if PickIndex(s, now) == Some(i) then Quantum(Picked(s, now)) else 0
  }

  /** The sum of the quanta it is granted. */
  function Granted(s: Scheduler, times: seq<nat>, i: nat): nat
    decreases |times|
  {
    if times == [] then 0 else
    Grant(s, times[0], i) + Granted(Round(s, times[0]), times[1..], i)
  }

  /** Every round lowers the sum by exactly one until it is zero. */
  lemma {:induction false} SumFalls(s: Scheduler, times: seq<nat>)
    requires Setting(s)
    ensures Setting(Rounds(s, times)) && |Rounds(s, times).threads| == |s.threads|
    ensures GapSum(Rounds(s, times).threads) == if GapSum(s.threads) > |times| then GapSum(s.threads) - |times| else 0
    decreases |times|
  {
    if times != [] {
      var i := RoundEffect(s, times[0]);
      RoundSetting(s, times[0]);
      SumFalls(Round(s, times[0]), times[1..]);
    }
  }

  /** One round while the sum lasts: the picked thread pays one level for its quantum. */
  lemma RoundCounts(s: Scheduler, now: nat, i: nat)
    requires Setting(s) && GapSum(s.threads) > 0 && i < |s.threads| && Feeds(s.threads[i])
    ensures var t := Round(s, now);
      && |t.threads| == |s.threads| && Feeds(t.threads[i]) && GapSum(t.threads) == GapSum(s.threads) - 1
      && t.threads[i].mlfqLevel == s.threads[i].mlfqLevel + One(s, now, i)
      && Grant(s, now, i) == MLFQ_BASE_QUANTUM_NS * (Pow2(t.threads[i].mlfqLevel) - Pow2(s.threads[i].mlfqLevel))
  {
    var j := RoundEffect(s, now);
    if i == j { assert Pow2(s.threads[i].mlfqLevel + 1) == 2 * Pow2(s.threads[i].mlfqLevel); }
  }

  /** While the sum lasts, a thread's level counts its picks, and its quanta add up to
      the difference of two powers. */
  lemma {:induction false} LevelCounts(s: Scheduler, times: seq<nat>, i: nat)
    requires Setting(s) && |times| <= GapSum(s.threads) && i < |s.threads| && Feeds(s.threads[i])
    ensures var t := Rounds(s, times);
      && |t.threads| == |s.threads| && Feeds(t.threads[i])
      && t.threads[i].mlfqLevel == s.threads[i].mlfqLevel + Picks(s, times, i)
      && Granted(s, times, i) == MLFQ_BASE_QUANTUM_NS * (Pow2(t.threads[i].mlfqLevel) - Pow2(s.threads[i].mlfqLevel))
    decreases |times|
  {
    if times != [] {
      RoundCounts(s, times[0], i);
      RoundSetting(s, times[0]);
      LevelCounts(Round(s, times[0]), times[1..], i);
    }
  }

  /** After as many rounds as the sum says, every ready MLFQ thread is at the bottom:
      one that started at level l was picked exactly 3 - l times and was granted
      exactly (8 - 2^l) ms. */
  lemma DemotionExact(s: Scheduler, times: seq<nat>, i: nat)
    requires Setting(s) && |times| == GapSum(s.threads) && i < |s.threads| && Feeds(s.threads[i])
    ensures i < |Rounds(s, times).threads|
    ensures Rounds(s, times).threads[i].mlfqLevel == MLFQ_LEVELS - 1
    ensures Picks(s, times, i) == 3 - s.threads[i].mlfqLevel
    ensures Granted(s, times, i) == 1_000_000 * (8 - Pow2(s.threads[i].mlfqLevel))
  {
    SumFalls(s, times);
    LevelCounts(s, times, i);
    GapZero(Rounds(s, times).threads);
    assert Gap(Rounds(s, times).threads[i]) == 0;
    assert Pow2(3) == 8;
  }

  // ------------------------------------------------------------ at the bottom

  lemma BestUnique(ts: seq<Thread>, k: Scan, gaming: bool, n: nat, i: nat, j: nat)
    requires FirstBest(ts, k, gaming, n, i) && FirstBest(ts, k, gaming, n, j)
    ensures i == j
  {
  }

  /** A round at the bottom picks the first of the best and leaves it the first of
      the best. */
  lemma BottomRound(s: Scheduler, now: nat) returns (i: nat)
    requires Setting(s) && GapSum(s.threads) == 0
    ensures Setting(Round(s, now)) && GapSum(Round(s, now).threads) == 0 && |Round(s, now).threads| == |s.threads|
    ensures PickIndex(s, now) == Some(i) && Round(s, now).gamingMode == s.gamingMode
    ensures FirstBest(s.threads, Feedback, s.gamingMode, |s.threads|, i)
    ensures FirstBest(Round(s, now).threads, Feedback, s.gamingMode, |s.threads|, i)
  {
    i := RoundEffect(s, now);
    var j := PicksLowest(s, now);
    RoundSetting(s, now);
    GapZero(s.threads);
    assert Gap(s.threads[i]) == 0;
    SameChoice(s, i);
    ScanFindsBest(s.threads, Feedback, s.gamingMode, |s.threads|);
    ScanFindsBest(Round(s, now).threads, Feedback, s.gamingMode, |s.threads|);
    BestUnique(s.threads, Feedback, s.gamingMode, |s.threads|, i, Best(s.threads, Feedback, s.gamingMode).value);
  }

  /** With everybody at the bottom, the first of the best is picked in every round and
      everybody else in none: equal threads do not take turns. */
  lemma {:induction false} BottomStarves(s: Scheduler, times: seq<nat>, i: nat)
    requires Setting(s) && GapSum(s.threads) == 0
    ensures Picks(s, times, i) ==
      if FirstBest(s.threads, Feedback, s.gamingMode, |s.threads|, i) then |times| else 0
    decreases |times|
  {
    if times != [] {
      var t := Round(s, times[0]);
      var j := BottomRound(s, times[0]);
      BottomStarves(t, times[1..], i);
      if FirstBest(s.threads, Feedback, s.gamingMode, |s.threads|, i) {
        BestUnique(s.threads, Feedback, s.gamingMode, |s.threads|, i, j);
      }
      if FirstBest(t.threads, Feedback, s.gamingMode, |s.threads|, i) {
        BestUnique(t.threads, Feedback, s.gamingMode, |s.threads|, i, j);
      }
    }
  }

  /** Thread number `i` is a ready MLFQ thread. */
  predicate Waits(s: Scheduler, i: nat) {
    i < |s.threads| && Feeds(s.threads[i])
  }

  ghost predicate PickedAgain(s: Scheduler, times: seq<nat>, i: nat) {
    Waits(s, i) ==> Picks(s, times, i) > 0
  }

  ghost predicate Alone(s: Scheduler, i: nat, j: nat) {
    Waits(s, i) && Waits(s, j) ==> i == j
  }

  /** Once everybody is at the bottom, every ready MLFQ thread gets to run again if and
      only if there is just one. */
  lemma TurnsOnlyAlone(s: Scheduler, times: seq<nat>)
    requires Setting(s) && GapSum(s.threads) == 0 && times != []
    ensures (forall i: nat :: PickedAgain(s, times, i)) <==> (forall i: nat, j: nat :: Alone(s, i, j))
  {
    var b := PicksLowest(s, times[0]);
    BottomStarves(s, times, b);
    assert Waits(s, b);
    if forall i: nat :: PickedAgain(s, times, i) {
      forall i: nat, j: nat ensures Alone(s, i, j) {
        OnlyBest(s, times, i, b);
        OnlyBest(s, times, j, b);
      }
    }
    if forall i: nat, j: nat :: Alone(s, i, j) {
      forall i: nat ensures PickedAgain(s, times, i) { assert Alone(s, i, b); }
    }
  }

  lemma OnlyBest(s: Scheduler, times: seq<nat>, i: nat, b: nat)
    requires Setting(s) && GapSum(s.threads) == 0 && PickedAgain(s, times, i)
    requires FirstBest(s.threads, Feedback, s.gamingMode, |s.threads|, b)
    ensures Waits(s, i) ==> i == b
  {
    BottomStarves(s, times, i);
    if Waits(s, i) { BestUnique(s.threads, Feedback, s.gamingMode, |s.threads|, i, b); }
  }

  function Plain(id: nat): Thread {
    Thread(id, Mlfq, 0, Ready, 0, 0, MLFQ_LEVELS - 1, None, false, false, false)
  }

  /** The input: of two equal threads at the bottom the second never runs. */
  lemma SecondStarves(times: seq<nat>)
    ensures Picks(Scheduler([Plain(1), Plain(2)], None, false), times, 0) == |times|
    ensures Picks(Scheduler([Plain(1), Plain(2)], None, false), times, 1) == 0
  {
    var s := Scheduler([Plain(1), Plain(2)], None, false);
    assert Feeds(s.threads[0]);
    forall i: nat, j: nat ensures Distinct(s.threads, i, j) { }
    GapZero(s.threads);
    assert FirstBest(s.threads, Feedback, false, 2, 0);
    if FirstBest(s.threads, Feedback, false, 2, 1) { BestUnique(s.threads, Feedback, false, 2, 0, 1); }
    BottomStarves(s, times, 0);
    BottomStarves(s, times, 1);
  }

  /** Resetting the quantum of a thread does not change the choice among MLFQ threads. */
  lemma SameChoice(s: Scheduler, i: nat)
    requires i < |s.threads| && Feeds(s.threads[i]) && s.threads[i].mlfqLevel == MLFQ_LEVELS - 1
    ensures Best(s.threads[i := Yielded(s.threads[i])], Feedback, s.gamingMode) ==
      Best(s.threads, Feedback, s.gamingMode)
  {
    SameScan(s.threads, s.threads[i := Yielded(s.threads[i])], i, s.gamingMode, |s.threads|);
  }

  lemma {:induction false} SameScan(ts: seq<Thread>, us: seq<Thread>, i: nat, gaming: bool, n: nat)
    requires n <= |ts| == |us| && i < |ts| && us == ts[i := ts[i].(quantumUsed := 0)]
    ensures BestTo(us, Feedback, gaming, n) == BestTo(ts, Feedback, gaming, n)
    decreases n
  {
    if n > 0 { SameScan(ts, us, i, gaming, n - 1); }
  }

  // ---------------------------------------------------------------- yielding

  /** Finding by id does not look at the quantum. */
  lemma {:induction false} FindAfter(ts: seq<Thread>, id: nat, k: nat, i: nat, used: nat)
    requires k <= |ts| && i < |ts|
    ensures Find(ts[i := ts[i].(quantumUsed := used)], id, k) == Find(ts, id, k)
    decreases |ts| - k
  {
    if k < |ts| { FindAfter(ts, id, k + 1, i, used); }
  }

  /** `yield_thread` lowers the level of an MLFQ thread above the bottom and of no
      other, and how much of the quantum was used makes no difference. */
  lemma YieldIgnoresQuantum(s: Scheduler, id: nat, i: nat, used: nat)
    requires Find(s.threads, id, 0) == Some(i)
    ensures var (t, u) := (s.threads[i], YieldThread(s, id).threads[i]);
      && (u.mlfqLevel == t.mlfqLevel + 1 <==> t.policy.Mlfq? && t.mlfqLevel < 3)
      && (u.mlfqLevel == t.mlfqLevel <==> !(t.policy.Mlfq? && t.mlfqLevel < 3))
    ensures YieldThread(s.(threads := s.threads[i := s.threads[i].(quantumUsed := used)]), id) == YieldThread(s, id)
  {
    FindAfter(s.threads, id, 0, i, used);
    var ts := s.threads[i := s.threads[i].(quantumUsed := used)];
    assert ts[i := Yielded(ts[i])] == s.threads[i := Yielded(s.threads[i])];
  }

  predicate UsedUp(t: Thread) {
    t.policy.Mlfq? && t.quantumUsed >= MLFQ_BASE_QUANTUM_NS * Pow2(t.mlfqLevel)
  }

  /** So demotion follows the use of the quantum, above the bottom, exactly for the
      threads that are not MLFQ, are at the bottom, or did use their quantum up. */
  lemma DemotionFollowsUse(s: Scheduler, id: nat, i: nat)
    requires Find(s.threads, id, 0) == Some(i)
    ensures var (t, u) := (s.threads[i], YieldThread(s, id).threads[i]);
      (u.mlfqLevel != t.mlfqLevel <==> UsedUp(t) && t.mlfqLevel < 3) <==>
      !t.policy.Mlfq? || t.mlfqLevel >= 3 || UsedUp(t)
  {
    YieldIgnoresQuantum(s, id, i, 0);
  }

  /** The input: a thread that yields before it has used any time is demoted. */
  lemma UnusedQuantumDemotes()
    ensures var s := Scheduler([Plain(1).(mlfqLevel := 0)], Some(1), false);
      s.threads[0].quantumUsed == 0 && YieldThread(s, 1).threads[0].mlfqLevel == 1
  {
    var s := Scheduler([Plain(1).(mlfqLevel := 0)], Some(1), false);
    assert Find(s.threads, 1, 0) == Some(0);
  }
}
