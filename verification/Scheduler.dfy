/** The scheduler's choice of the next thread, and demotion of MLFQ threads. */
module Scheduler {
  import opened Wrappers
  import opened Bits

  const MLFQ_LEVELS: nat := 4
  const MLFQ_BASE_QUANTUM_NS: nat := 1_000_000
  const CFS_TARGET_LATENCY_NS: nat := 6_000_000
  const CFS_MIN_GRANULARITY_NS: nat := 750_000
  const DEADLINE_WINDOW_NS: nat := 1_000_000
  const U64_MAX: nat := 0xFFFF_FFFF_FFFF_FFFF

  datatype Policy = Mlfq | Cfs | Realtime(priority: nat)

  datatype ThreadState = Ready | Running | Blocked | Sleeping(untilNs: nat) | Exited

  /** The fields that scheduling reads or writes. */
  datatype Thread = Thread(
    id: nat, policy: Policy, priority: int, state: ThreadState, vruntime: nat, quantumUsed: nat, mlfqLevel: nat,
    frameDeadlineNs: Option<nat>, isGameRender: bool, isGamePhysics: bool, isGameAudio: bool)

  datatype Scheduler = Scheduler(threads: seq<Thread>, current: Option<nat>, gamingMode: bool)

  // ---------------------------------------------------------------- priorities

  function Clamp(x: int, lo: int, hi: int): int {
    if x < lo then lo else if x > hi then hi else x
  }

  /** A saturating 8-bit addition, clamped to the range of priorities. */
  function Boost(p: int, delta: int): int {
    Clamp(Clamp(p + delta, -128, 127), -20, 20)
  }

  /** The saturation of the 8-bit addition never shows: the result is the exact sum,
      clamped. */
  lemma BoostExact(p: int, delta: int)
    ensures Boost(p, delta) == Clamp(p + delta, -20, 20)
  {
  }

  function EffectivePriority(t: Thread, gaming: bool): int {
    if gaming then
      if t.isGameRender || t.isGamePhysics || t.isGameAudio then Boost(t.priority, 20) else Boost(t.priority, -10)
    else t.priority
  }

  // ----------------------------------------------------------------- the scans

  /** The four scans of `pick_next`, in order. */
  datatype Scan = Deadline | Fixed | Feedback | Fair

  predicate Candidate(k: Scan, t: Thread) {
    t.state.Ready? &&
    match k
    case Deadline => t.policy.Realtime? && t.frameDeadlineNs.Some?
    case Fixed => t.policy.Realtime?
    case Feedback => t.policy.Mlfq?
    case Fair => t.policy.Cfs?
  }

  /** `t` replaces `u` as the best so far. */
  predicate Beats(k: Scan, gaming: bool, t: Thread, u: Thread)
    requires Candidate(k, t) && Candidate(k, u)
  {
    match k
    case Deadline => t.frameDeadlineNs.value < u.frameDeadlineNs.value
    case Fixed => t.policy.priority > u.policy.priority
    case Feedback =>
      || t.mlfqLevel < u.mlfqLevel
      || (t.mlfqLevel == u.mlfqLevel && EffectivePriority(t, gaming) > EffectivePriority(u, gaming))
    case Fair => t.vruntime < u.vruntime
  }

  /** The best among the first `n` threads, as the scan keeps it. */
  function BestTo(ts: seq<Thread>, k: Scan, gaming: bool, n: nat): (r: Option<nat>)
    requires n <= |ts|
    ensures r.Some? ==> r.value < n && Candidate(k, ts[r.value])
  {
    if n == 0 then None else
    var b := BestTo(ts, k, gaming, n - 1);
    if Candidate(k, ts[n - 1]) && (b.None? || Beats(k, gaming, ts[n - 1], ts[b.value])) then Some(n - 1) else b
  }

  function Best(ts: seq<Thread>, k: Scan, gaming: bool): (r: Option<nat>)
    ensures r.Some? ==> r.value < |ts| && Candidate(k, ts[r.value])
  {
    BestTo(ts, k, gaming, |ts|)
  }

  /** No candidate is better, and every earlier one is worse. */
  ghost predicate FirstBest(ts: seq<Thread>, k: Scan, gaming: bool, n: nat, i: nat) {
    && i < n <= |ts| && Candidate(k, ts[i])
    && (forall j :: 0 <= j < n && Candidate(k, ts[j]) ==> !Beats(k, gaming, ts[j], ts[i]))
    && (forall j :: 0 <= j < i && Candidate(k, ts[j]) ==> Beats(k, gaming, ts[i], ts[j]))
  }

  /** Each scan finds the first of the best candidates, and nothing only when there
      is no candidate. */
  lemma {:induction false} ScanFindsBest(ts: seq<Thread>, k: Scan, gaming: bool, n: nat)
    requires n <= |ts|
    ensures var r := BestTo(ts, k, gaming, n);
      && (r.None? <==> forall j :: 0 <= j < n ==> !Candidate(k, ts[j]))
      && (r.Some? ==> FirstBest(ts, k, gaming, n, r.value))
    decreases n
  {
    if n > 0 { ScanFindsBest(ts, k, gaming, n - 1); }
  }

  // ------------------------------------------------------------------ picking

  /** The position of the thread to run next, RT with imminent deadlines first, then
      RT, MLFQ and CFS threads. */
  function PickIndex(s: Scheduler, now: nat): (r: Option<nat>)
    ensures r.Some? ==> r.value < |s.threads| && s.threads[r.value].state.Ready?
  {
    var d := Best(s.threads, Deadline, s.gamingMode);
    if d.Some? && s.threads[d.value].frameDeadlineNs.value <= now + DEADLINE_WINDOW_NS then d else
    var rt := Best(s.threads, Fixed, s.gamingMode);
    if rt.Some? then rt else
    var m := Best(s.threads, Feedback, s.gamingMode);
    if m.Some? then m else Best(s.threads, Fair, s.gamingMode)
  }

  /** Nothing is picked exactly when no thread is ready, and otherwise the class of
      the picked thread respects the order of the scans. */
  lemma PickOrder(s: Scheduler, now: nat)
    ensures var r, ts := PickIndex(s, now), s.threads;
      && (r.None? <==> forall j :: 0 <= j < |ts| ==> !ts[j].state.Ready?)
      && (r.Some? && !ts[r.value].policy.Realtime? ==> forall j :: 0 <= j < |ts| ==> !Candidate(Fixed, ts[j]))
      && (r.Some? && ts[r.value].policy.Cfs? ==> forall j :: 0 <= j < |ts| ==> !Candidate(Feedback, ts[j]))
  {
    ScanFindsBest(s.threads, Fixed, s.gamingMode, |s.threads|);
    ScanFindsBest(s.threads, Feedback, s.gamingMode, |s.threads|);
    ScanFindsBest(s.threads, Fair, s.gamingMode, |s.threads|);
    forall j | 0 <= j < |s.threads| && s.threads[j].state.Ready?
      ensures Candidate(Fixed, s.threads[j]) || Candidate(Feedback, s.threads[j]) || Candidate(Fair, s.threads[j]) { }
  }

  /** An RT thread whose frame deadline is within the window goes first, and it is one
      with the earliest deadline; otherwise the fixed priorities decide. */
  lemma PickRealtime(s: Scheduler, now: nat)
    ensures var r, ts := PickIndex(s, now), s.threads;
      r.Some? && ts[r.value].policy.Realtime? ==>
        if exists j :: 0 <= j < |ts| && Imminent(ts[j], now) then
          FirstBest(ts, Deadline, s.gamingMode, |ts|, r.value) && Imminent(ts[r.value], now)
        else FirstBest(ts, Fixed, s.gamingMode, |ts|, r.value)
  {
    ScanFindsBest(s.threads, Deadline, s.gamingMode, |s.threads|);
    ScanFindsBest(s.threads, Fixed, s.gamingMode, |s.threads|);
  }

  predicate Imminent(t: Thread, now: nat) {
    Candidate(Deadline, t) && t.frameDeadlineNs.value <= now + DEADLINE_WINDOW_NS
  }

  function Picked(s: Scheduler, now: nat): Scheduler {
    var r := PickIndex(s, now);
    s.(current := if r.Some? then Some(s.threads[r.value].id) else None)
  }

  /** The first thread with the given id. */
  function Find(ts: seq<Thread>, id: nat, i: nat): (r: Option<nat>)
    requires i <= |ts|
    ensures r.Some? ==> i <= r.value < |ts| && ts[r.value].id == id
    ensures r.Some? ==> forall j :: i <= j < r.value ==> ts[j].id != id
    ensures r.None? ==> forall j :: i <= j < |ts| ==> ts[j].id != id
    decreases |ts| - i
  {
    if i == |ts| then None else if ts[i].id == id then Some(i) else Find(ts, id, i + 1)
  }

  function Yielded(t: Thread): Thread {
    t.(state := Ready, quantumUsed := 0,
       mlfqLevel := if t.policy.Mlfq? && t.mlfqLevel < MLFQ_LEVELS - 1 then t.mlfqLevel + 1 else t.mlfqLevel)
  }

  function YieldThread(s: Scheduler, id: nat): Scheduler {
    var i := Find(s.threads, id, 0);
    Scheduler(if i.Some? then s.threads[i.value := Yielded(s.threads[i.value])] else s.threads,
              if s.current == Some(id) then None else s.current, s.gamingMode)
  }

  function Preempted(s: Scheduler): Scheduler {
    if s.current.Some? then YieldThread(s, s.current.value) else s
  }

  // ----------------------------------------------------------------- quantum

  function ReadyCfs(ts: seq<Thread>): nat {
    if ts == [] then 0
    else ReadyCfs(ts[..|ts| - 1]) + if Candidate(Fair, ts[|ts| - 1]) then 1 else 0
  }

  function Max(a: nat, b: nat): nat {
    if a >= b then a else b
  }

  function Quantum(s: Scheduler): nat {
    if s.current.None? then 0 else
    match Find(s.threads, s.current.value, 0)
    case None => 0
    case Some(i) =>
      match s.threads[i].policy
      case Realtime(_) => U64_MAX
      case Mlfq => MLFQ_BASE_QUANTUM_NS * Pow2(s.threads[i].mlfqLevel)
      case Cfs => Max(CFS_TARGET_LATENCY_NS / Max(ReadyCfs(s.threads), 1), CFS_MIN_GRANULARITY_NS)
  }
}
