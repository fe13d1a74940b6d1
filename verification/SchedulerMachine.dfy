/** The scheduler object: its scanning loops compute the functions of Scheduler. */
module SchedulerMachine {
  import opened Wrappers
  import opened Bits
  import opened Scheduler

  class RunQueue {
    var threads: seq<Thread>
    var current: Option<nat>
    var gamingMode: bool

    function State(): Scheduler
      reads this
    {
      Scheduler(threads, current, gamingMode)
    }

    constructor ()
      ensures State() == Scheduler([], None, false)
    {
      threads, current, gamingMode := [], None, false;
    }

    method AddThread(t: Thread)
      modifies this`threads
      ensures threads == old(threads) + [t]
    {
      threads := threads + [t];
    }

    /** One scan: the best candidate so far is replaced by a strictly better one. */
    method ScanFor(k: Scan) returns (best: Option<nat>)
      ensures best == Best(threads, k, gamingMode)
    {
      best := None;
      for n := 0 to |threads|
        invariant best == BestTo(threads, k, gamingMode, n)
      {
        var t := threads[n];
        if Candidate(k, t) {
          if best.None? || Beats(k, gamingMode, t, threads[best.value]) {
            best := Some(n);
          }
        }
      }
    }

    /** Picks the thread to run next; `now` is the timer's reading. */
    method PickNext(now: nat) returns (id: Option<nat>)
      modifies this`current
      ensures State() == Picked(old(State()), now) && id == current
    {
      var d := ScanFor(Deadline);
      if d.Some? && threads[d.value].frameDeadlineNs.value <= now + DEADLINE_WINDOW_NS {
        current := Some(threads[d.value].id);
        return current;
      }
      var rt := ScanFor(Fixed);
      if rt.Some? {
        current := Some(threads[rt.value].id);
        return current;
      }
      var m := ScanFor(Feedback);
      if m.Some? {
        current := Some(threads[m.value].id);
        return current;
      }
      var c := ScanFor(Fair);
      if c.Some? {
        current := Some(threads[c.value].id);
        return current;
      }
      current := None;
      id := None;
    }

    method FindThread(id: nat) returns (r: Option<nat>)
      ensures r == Find(threads, id, 0)
    {
      for i := 0 to |threads|
        invariant Find(threads, id, 0) == Find(threads, id, i)
      {
        if threads[i].id == id {
          return Some(i);
        }
      }
      r := None;
    }

    /** The time slice of the current thread. */
    method CurrentQuantumNs() returns (ns: nat)
      ensures ns == Quantum(State())
    {
      if current.None? {
        return 0;
      }
      var i := FindThread(current.value);
      if i.None? {
        return 0;
      }
      var t := threads[i.value];
      match t.policy {
        case Realtime(_) => ns := U64_MAX;
        case Mlfq => ns := MLFQ_BASE_QUANTUM_NS * Pow2(t.mlfqLevel);
        case Cfs =>
          var n := 0;
          for k := 0 to |threads|
            invariant n == ReadyCfs(threads[..k])
          {
            assert threads[..k + 1][..k] == threads[..k];
            if threads[k].policy.Cfs? && threads[k].state.Ready? {
              n := n + 1;
            }
          }
          assert threads[..|threads|] == threads;
          ns := Max(CFS_TARGET_LATENCY_NS / Max(n, 1), CFS_MIN_GRANULARITY_NS);
      }
    }

    /** The thread gives up the processor: ready again, one level down. */
    method YieldTo(id: nat)
      modifies this`threads, this`current
      ensures State() == YieldThread(old(State()), id)
    {
      var i := FindThread(id);
      if i.Some? {
        var t := threads[i.value].(state := Ready);
        if t.policy.Mlfq? && t.mlfqLevel < MLFQ_LEVELS - 1 {
          t := t.(mlfqLevel := t.mlfqLevel + 1);
        }
        t := t.(quantumUsed := 0);
        threads := threads[i.value := t];
      }
      if current == Some(id) {
        current := None;
      }
    }

    /** The quantum of the current thread has expired. */
    method Preempt()
      modifies this`threads, this`current
      ensures State() == Preempted(old(State()))
    {
      if current.Some? {
        YieldTo(current.value);
      }
    }
  }
}
