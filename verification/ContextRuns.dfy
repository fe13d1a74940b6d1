/** Any number of tasks switching among themselves: each resumes as it left. */
module ContextRuns {
  import opened Context

  /** Where a task keeps its saved context (two words) and its kernel stack. */
  datatype Task = Task(ctx: nat, lo: nat, hi: nat)

  /** The addresses that belong to a task. */
  predicate Owns(t: Task, a: nat) {
    t.lo <= a < t.hi || a == t.ctx || a == t.ctx + 8
  }

  ghost predicate Apart(tasks: seq<Task>, i: nat, j: nat) {
    i < |tasks| && j < |tasks| && i != j ==> forall a: nat :: Owns(tasks[i], a) ==> !Owns(tasks[j], a)
  }

  predicate TaskOk(t: Task) {
    t.hi < ADDRESS_LIMIT && !(t.lo <= t.ctx < t.hi) && !(t.lo <= t.ctx + 8 < t.hi)
  }

  /** Stacks and contexts are disjoint. */
  ghost predicate LayoutOk(tasks: seq<Task>) {
    (forall i: nat, j: nat :: Apart(tasks, i, j)) && (forall t :: t in tasks ==> TaskOk(t))
  }

  /** A saved frame for `r` lies inside the stack of `t`, and its context says where. */
  predicate Suspended(mem: Memory, t: Task, r: Resume) {
    t.lo <= Word(mem, t.ctx) && Word(mem, t.ctx) + 56 <= t.hi && FrameAt(mem, Word(mem, t.ctx), r)
  }

  /** The machine and the number of the running one among the tasks. */
  datatype System = System(cpu: Cpu, cur: nat)

  /** The running task computes, or calls `switch_to` for task `to`. */
  datatype Event = Compute(cpu: Cpu) | Switch(to: nat)

  function Step(s: System, e: Event): System {
    match e
    case Compute(cpu) => s.(cpu := cpu)
    case Switch(to) => System(SwitchTo(s.cpu), to)
  }

  /** Words a running task leaves alone: contexts, and the frames of suspended tasks. */
  ghost predicate Protected(s: System, tasks: seq<Task>, a: nat) {
    exists j :: 0 <= j < |tasks| && ProtectedBy(s, tasks[j], j, a)
  }

  predicate ProtectedBy(s: System, t: Task, j: nat, a: nat) {
    a == t.ctx || a == t.ctx + 8 || (j != s.cur && Word(s.cpu.mem, t.ctx) <= a < Word(s.cpu.mem, t.ctx) + 56)
  }

  ghost predicate Allowed(s: System, tasks: seq<Task>, e: Event) {
    match e
    case Compute(cpu) => forall a: nat :: Protected(s, tasks, a) ==> Word(cpu.mem, a) == Word(s.cpu.mem, a)
    case Switch(to) =>
      && to < |tasks| && s.cur < |tasks|
      && s.cpu.rdi == tasks[s.cur].ctx && s.cpu.rsi == tasks[to].ctx
      && tasks[s.cur].lo + 48 <= s.cpu.rsp && s.cpu.rsp + 8 <= tasks[s.cur].hi
  }

  /** What each task expects to find when it runs again: the state at its last call. */
  function DueAfter(s: System, due: seq<Resume>, e: Event): (r: seq<Resume>)
    ensures |r| == |due|
  {
    if e.Switch? && s.cur < |due| then due[s.cur := AtCall(s.cpu)] else due
  }

  ghost predicate WaitsAs(s: System, tasks: seq<Task>, due: seq<Resume>, j: nat)
    requires |due| == |tasks|
  {
    j < |tasks| && j != s.cur ==> Suspended(s.cpu.mem, tasks[j], due[j])
  }

  /** Every task but the running one is suspended as it expects, and every context
      holds its address space. */
  ghost predicate Inv(s: System, tasks: seq<Task>, due: seq<Resume>, roots: seq<nat>) {
    && LayoutOk(tasks) && s.cur < |tasks| == |due| == |roots|
    && (forall j: nat :: WaitsAs(s, tasks, due, j))
    && (forall j :: 0 <= j < |tasks| ==> Word(s.cpu.mem, tasks[j].ctx + 8) == roots[j])
  }

  // --------------------------------------------------------------- one event

  lemma ComputeWaits(s: System, tasks: seq<Task>, due: seq<Resume>, cpu: Cpu, j: nat)
    requires |due| == |tasks| && WaitsAs(s, tasks, due, j) && Allowed(s, tasks, Compute(cpu))
    ensures WaitsAs(Step(s, Compute(cpu)), tasks, due, j)
  {
    if j < |tasks| && j != s.cur {
      var p := Word(s.cpu.mem, tasks[j].ctx);
      forall a: nat | p <= a < p + 56 || a == tasks[j].ctx ensures Word(cpu.mem, a) == Word(s.cpu.mem, a) {
        assert ProtectedBy(s, tasks[j], j, a);
      }
    }
  }

  lemma ComputeInv(s: System, tasks: seq<Task>, due: seq<Resume>, roots: seq<nat>, cpu: Cpu)
    requires Inv(s, tasks, due, roots) && Allowed(s, tasks, Compute(cpu))
    ensures Inv(Step(s, Compute(cpu)), tasks, due, roots)
  {
    forall j: nat ensures WaitsAs(Step(s, Compute(cpu)), tasks, due, j) {
      assert WaitsAs(s, tasks, due, j);
      ComputeWaits(s, tasks, due, cpu, j);
    }
    forall j | 0 <= j < |tasks| ensures Word(cpu.mem, tasks[j].ctx + 8) == roots[j] {
      assert ProtectedBy(s, tasks[j], j, tasks[j].ctx + 8);
    }
  }

  lemma CallerRoom(s: System, tasks: seq<Task>, to: nat)
    requires LayoutOk(tasks) && Allowed(s, tasks, Switch(to))
    ensures Room(s.cpu)
  {
    assert TaskOk(tasks[s.cur]);
  }

  /** Saving the caller disturbs no other task. */
  lemma SaveWaits(s: System, tasks: seq<Task>, r: Resume, j: nat, to: nat)
    requires LayoutOk(tasks) && Allowed(s, tasks, Switch(to)) && j < |tasks| && j != s.cur
    requires Suspended(s.cpu.mem, tasks[j], r)
    ensures Suspended(SaveRegisters(s.cpu).mem, tasks[j], r)
    ensures Word(SaveRegisters(s.cpu).mem, tasks[j].ctx + 8) == Word(s.cpu.mem, tasks[j].ctx + 8)
  {
    CallerRoom(s, tasks, to);
    SaveOnly(s.cpu);
    SameForOther(s.cpu.mem, SaveRegisters(s.cpu).mem, tasks, s.cur, j, s.cpu.rsp - 48, s.cpu.rsp, r);
  }

  lemma SameForOther(mem: Memory, mem': Memory, tasks: seq<Task>, cur: nat, j: nat, lo: nat, hi: nat, r: Resume)
    requires LayoutOk(tasks) && cur < |tasks| && j < |tasks| && j != cur
    requires WritesOnly(mem, mem', lo, hi, tasks[cur].ctx) && tasks[cur].lo <= lo <= hi <= tasks[cur].hi
    requires Suspended(mem, tasks[j], r)
    ensures Suspended(mem', tasks[j], r) && Word(mem', tasks[j].ctx + 8) == Word(mem, tasks[j].ctx + 8)
  {
    assert Apart(tasks, cur, j);
    forall a: nat | Owns(tasks[j], a) ensures Word(mem', a) == Word(mem, a) {
      assert !Owns(tasks[cur], a);
    }
  }

  /** The caller itself is now suspended where it called. */
  lemma SaveSelf(s: System, tasks: seq<Task>, to: nat)
    requires LayoutOk(tasks) && Allowed(s, tasks, Switch(to))
    ensures Suspended(SaveRegisters(s.cpu).mem, tasks[s.cur], AtCall(s.cpu))
    ensures Word(SaveRegisters(s.cpu).mem, tasks[s.cur].ctx + 8) == Word(s.cpu.mem, tasks[s.cur].ctx + 8)
  {
    CallerRoom(s, tasks, to);
    SaveFrame(s.cpu);
    SaveOnly(s.cpu);
    assert TaskOk(tasks[s.cur]);
  }

  lemma SavedOther(s: System, tasks: seq<Task>, due: seq<Resume>, roots: seq<nat>, to: nat, j: nat)
    requires Inv(s, tasks, due, roots) && Allowed(s, tasks, Switch(to)) && j < |tasks| && j != s.cur
    ensures Suspended(SaveRegisters(s.cpu).mem, tasks[j], due[j])
    ensures Word(SaveRegisters(s.cpu).mem, tasks[j].ctx + 8) == roots[j]
  {
    assert WaitsAs(s, tasks, due, j);
    SaveWaits(s, tasks, due[j], j, to);
  }

  lemma SavedAll(s: System, tasks: seq<Task>, due: seq<Resume>, roots: seq<nat>, to: nat, j: nat)
    requires Inv(s, tasks, due, roots) && Allowed(s, tasks, Switch(to)) && j < |tasks|
    ensures Suspended(SaveRegisters(s.cpu).mem, tasks[j], DueAfter(s, due, Switch(to))[j])
    ensures Word(SaveRegisters(s.cpu).mem, tasks[j].ctx + 8) == roots[j]
  {
    DueAt(s, due, to, j);
    if j == s.cur { SavedSelf(s, tasks, due, roots, to); } else { SavedOther(s, tasks, due, roots, to, j); }
  }

  lemma DueAt(s: System, due: seq<Resume>, to: nat, j: nat)
    requires s.cur < |due| && j < |due|
    ensures DueAfter(s, due, Switch(to))[j] == if j == s.cur then AtCall(s.cpu) else due[j]
  {
  }

  lemma SavedSelf(s: System, tasks: seq<Task>, due: seq<Resume>, roots: seq<nat>, to: nat)
    requires Inv(s, tasks, due, roots) && Allowed(s, tasks, Switch(to))
    ensures Suspended(SaveRegisters(s.cpu).mem, tasks[s.cur], AtCall(s.cpu))
    ensures Word(SaveRegisters(s.cpu).mem, tasks[s.cur].ctx + 8) == roots[s.cur]
  {
    SaveSelf(s, tasks, to);
  }

  /** A task switched to runs exactly as it was left, in its own address space, and
      everybody else, the caller included, waits as expected. */
  lemma SwitchInv(s: System, tasks: seq<Task>, due: seq<Resume>, roots: seq<nat>, to: nat)
    requires Inv(s, tasks, due, roots) && Allowed(s, tasks, Switch(to))
    ensures var t, x := Step(s, Switch(to)), DueAfter(s, due, Switch(to));
      && Running(t.cpu) == x[to] && t.cpu.cr3 == roots[to]
      && Inv(t, tasks, x, roots)
  {
    var x := DueAfter(s, due, Switch(to));
    SavedAll(s, tasks, due, roots, to, to);
    SwitchEffect(s.cpu, x[to]);
    var t := Step(s, Switch(to));
    forall j: nat ensures WaitsAs(t, tasks, x, j) {
      if j < |tasks| { SavedAll(s, tasks, due, roots, to, j); }
    }
    forall j | 0 <= j < |tasks| ensures Word(t.cpu.mem, tasks[j].ctx + 8) == roots[j] {
      SavedAll(s, tasks, due, roots, to, j);
    }
  }

  // --------------------------------------------------------------- whole runs

  ghost predicate Legal(s: System, tasks: seq<Task>, events: seq<Event>)
    decreases |events|
  {
    events == [] || (Allowed(s, tasks, events[0]) && Legal(Step(s, events[0]), tasks, events[1..]))
  }

  function Run(s: System, events: seq<Event>): System
    decreases |events|
  {
    if events == [] then s else Run(Step(s, events[0]), events[1..])
  }

  function DueRun(s: System, due: seq<Resume>, events: seq<Event>): (r: seq<Resume>)
    ensures |r| == |due|
    decreases |events|
  {
    if events == [] then due else DueRun(Step(s, events[0]), DueAfter(s, due, events[0]), events[1..])
  }

  lemma StepInv(s: System, tasks: seq<Task>, due: seq<Resume>, roots: seq<nat>, e: Event)
    requires Inv(s, tasks, due, roots) && Allowed(s, tasks, e)
    ensures Inv(Step(s, e), tasks, DueAfter(s, due, e), roots)
  {
    match e
    case Compute(cpu) => ComputeInv(s, tasks, due, roots, cpu);
    case Switch(to) => SwitchInv(s, tasks, due, roots, to);
  }

  lemma {:induction false} RunInv(s: System, tasks: seq<Task>, due: seq<Resume>, roots: seq<nat>, events: seq<Event>)
    requires Inv(s, tasks, due, roots) && Legal(s, tasks, events)
    ensures Inv(Run(s, events), tasks, DueRun(s, due, events), roots)
    decreases |events|
  {
    if events != [] {
      StepInv(s, tasks, due, roots, events[0]);
      RunInv(Step(s, events[0]), tasks, DueAfter(s, due, events[0]), roots, events[1..]);
    }
  }

  /** Nobody switches to `j` in these events. */
  predicate Avoids(events: seq<Event>, j: nat) {
    forall e :: e in events ==> (e.Switch? ==> e.to != j)
  }

  lemma StepAvoids(s: System, due: seq<Resume>, events: seq<Event>, j: nat)
    requires events != [] && Avoids(events, j) && j != s.cur && j < |due|
    ensures Avoids(events[1..], j) && Step(s, events[0]).cur != j && DueAfter(s, due, events[0])[j] == due[j]
  {
    assert events[0] in events;
  }

  /** A task that is not switched to keeps its expectation, and stays suspended. */
  lemma {:induction false} DueKept(s: System, tasks: seq<Task>, due: seq<Resume>, roots: seq<nat>, events: seq<Event>,
    j: nat)
    requires Inv(s, tasks, due, roots) && Legal(s, tasks, events) && Avoids(events, j)
    requires j < |tasks| && j != s.cur
    ensures DueRun(s, due, events)[j] == due[j] && Run(s, events).cur != j
    decreases |events|
  {
    if events != [] {
      StepInv(s, tasks, due, roots, events[0]);
      StepAvoids(s, due, events, j);
      DueKept(Step(s, events[0]), tasks, DueAfter(s, due, events[0]), roots, events[1..], j);
    }
  }

  /** A suspended task that others pass over for any number of events resumes with
      exactly the state it was suspended with. */
  lemma ResumesAsSuspended(s: System, tasks: seq<Task>, due: seq<Resume>, roots: seq<nat>, events: seq<Event>, j: nat)
    requires Inv(s, tasks, due, roots) && Legal(s, tasks, events) && Avoids(events, j) && j < |tasks| && j != s.cur
    requires Allowed(Run(s, events), tasks, Switch(j))
    ensures var t := Step(Run(s, events), Switch(j)); Running(t.cpu) == due[j] && t.cpu.cr3 == roots[j]
  {
    RunInv(s, tasks, due, roots, events);
    DueKept(s, tasks, due, roots, events, j);
    SwitchInv(Run(s, events), tasks, DueRun(s, due, events), roots, j);
  }

  /** A task that calls `switch_to` gets, when it is next switched to, the six saved
      registers, stack pointer and return address it had at the call. */
  lemma ResumesAsLeft(s: System, tasks: seq<Task>, due: seq<Resume>, roots: seq<nat>, to: nat, events: seq<Event>)
    requires Inv(s, tasks, due, roots) && Allowed(s, tasks, Switch(to)) && to != s.cur
    requires Legal(Step(s, Switch(to)), tasks, events) && Avoids(events, s.cur)
    requires Allowed(Run(Step(s, Switch(to)), events), tasks, Switch(s.cur))
    ensures var t := Step(Run(Step(s, Switch(to)), events), Switch(s.cur));
      Running(t.cpu) == AtCall(s.cpu) && t.cpu.cr3 == roots[s.cur]
  {
    var due' := DueAfter(s, due, Switch(to));
    assert due'[s.cur] == AtCall(s.cpu);
    SwitchInv(s, tasks, due, roots, to);
    ResumesAsSuspended(Step(s, Switch(to)), tasks, due', roots, events, s.cur);
  }

  // -------------------------------------------------------------- fresh tasks

  /** `init_kernel_task`: the frame of a task that has never run. */
  function InitFrame(mem: Memory, top: nat, entry: nat): Memory
    requires top >= 56
  {
    ZeroSlots(mem[top - 8 := entry], top - 56, SAVED_REGS)
  }

  /** Zeroes the `n` words from `p` up, in increasing order. */
  function ZeroSlots(mem: Memory, p: nat, n: nat): Memory {
    if n == 0 then mem else ZeroSlots(mem, p, n - 1)[p + (n - 1) * 8 := 0]
  }

  /** A task as set up for its first run: its frame and its context in memory. */
  function InitTask(mem: Memory, t: Task, entry: nat, root: nat): Memory
    requires t.hi >= 56
  {
    InitFrame(mem, t.hi, entry)[t.ctx := t.hi - 56][t.ctx + 8 := root]
  }

  /** The first run starts at the entry with zeroed registers on an empty stack. */
  function Fresh(t: Task, entry: nat): Resume {
    Resume(0, 0, 0, 0, 0, 0, t.hi, entry)
  }

  lemma {:induction false} ZeroedSlots(mem: Memory, p: nat, n: nat, a: nat)
    ensures Word(ZeroSlots(mem, p, n), a) ==
      if p <= a < p + n * 8 && (a - p) % 8 == 0 then 0 else Word(mem, a)
  {
    if n > 0 { ZeroedSlots(mem, p, n - 1, a); }
  }

  lemma InitWord(mem: Memory, top: nat, entry: nat, a: nat)
    requires top >= 56
    ensures Word(InitFrame(mem, top, entry), a) ==
      if top - 56 <= a < top - 8 && (a - (top - 56)) % 8 == 0 then 0 else if a == top - 8 then entry else Word(mem, a)
  {
    ZeroedSlots(mem[top - 8 := entry], top - 56, SAVED_REGS, a);
  }

  lemma InitFrameAt(mem: Memory, top: nat, entry: nat)
    requires 56 <= top < ADDRESS_LIMIT
    ensures FrameAt(InitFrame(mem, top, entry), top - 56, Resume(0, 0, 0, 0, 0, 0, top, entry))
  {
    var p := top - 56;
    InitWord(mem, top, entry, p);
    InitWord(mem, top, entry, p + 8);
    InitWord(mem, top, entry, p + 16);
    InitWord(mem, top, entry, p + 24);
    InitWord(mem, top, entry, p + 32);
    InitWord(mem, top, entry, p + 40);
    InitWord(mem, top, entry, p + 48);
  }

  /** Words outside the stack do not matter to a frame inside it. */
  lemma FrameFrame(mem: Memory, mem': Memory, p: nat, r: Resume)
    requires FrameAt(mem, p, r) && forall a: nat :: p <= a < p + 56 ==> Word(mem', a) == Word(mem, a)
    ensures FrameAt(mem', p, r)
  {
  }

  /** Setting up a task suspends it with its entry as return address, writing only
      words of its own. */
  lemma InitSuspends(mem: Memory, t: Task, entry: nat, root: nat)
    requires TaskOk(t) && t.lo + 56 <= t.hi
    ensures var m := InitTask(mem, t, entry, root);
      && Suspended(m, t, Fresh(t, entry)) && Word(m, t.ctx + 8) == root
      && forall a: nat :: !Owns(t, a) ==> Word(m, a) == Word(mem, a)
  {
    InitFrameAt(mem, t.hi, entry);
    var m1, m := InitFrame(mem, t.hi, entry), InitTask(mem, t, entry, root);
    FrameFrame(m1, m, t.hi - 56, Fresh(t, entry));
    forall a: nat | !Owns(t, a) ensures Word(m, a) == Word(mem, a) { InitWord(mem, t.hi, entry, a); }
  }

  /** Sets up tasks 1 to n - 1; task 0 is the boot task, which is running. */
  function InitAll(mem: Memory, tasks: seq<Task>, entries: seq<nat>, roots: seq<nat>, n: nat): Memory
    requires n <= |tasks| == |entries| == |roots| && forall t :: t in tasks ==> t.hi >= 56
  {
    if n <= 1 then mem else InitTask(InitAll(mem, tasks, entries, roots, n - 1), tasks[n - 1], entries[n - 1],
      roots[n - 1])
  }

  lemma {:induction false} InitAllWaits(mem: Memory, tasks: seq<Task>, entries: seq<nat>, roots: seq<nat>, n: nat,
    j: nat)
    requires n <= |tasks| == |entries| == |roots| && LayoutOk(tasks) && j < n
    requires forall t :: t in tasks ==> t.lo + 56 <= t.hi
    requires Word(mem, tasks[0].ctx + 8) == roots[0]
    ensures var m := InitAll(mem, tasks, entries, roots, n);
      && Word(m, tasks[j].ctx + 8) == roots[j]
      && (j > 0 ==> Suspended(m, tasks[j], Fresh(tasks[j], entries[j])))
  {
    if n > 1 {
      var m := InitAll(mem, tasks, entries, roots, n - 1);
      InitSuspends(m, tasks[n - 1], entries[n - 1], roots[n - 1]);
      if j < n - 1 {
        InitAllWaits(mem, tasks, entries, roots, n - 1, j);
        InitOther(m, tasks, entries, roots, n - 1, j);
      }
    }
  }

  lemma InitOther(mem: Memory, tasks: seq<Task>, entries: seq<nat>, roots: seq<nat>, i: nat, j: nat)
    requires i < |tasks| == |entries| == |roots| && LayoutOk(tasks) && j < |tasks| && i != j
    requires tasks[i].lo + 56 <= tasks[i].hi
    ensures var m := InitTask(mem, tasks[i], entries[i], roots[i]);
      && Word(m, tasks[j].ctx + 8) == Word(mem, tasks[j].ctx + 8)
      && forall r :: Suspended(mem, tasks[j], r) ==> Suspended(m, tasks[j], r)
  {
    assert Apart(tasks, j, i);
    InitSuspends(mem, tasks[i], entries[i], roots[i]);
  }

  function FreshAll(tasks: seq<Task>, entries: seq<nat>): seq<Resume>
    requires |tasks| == |entries|
  {
    seq(|tasks|, i requires 0 <= i < |tasks| => Fresh(tasks[i], entries[i]))
  }

  /** A freshly booted system satisfies the invariant, every other task expecting to
      start at its entry. */
  lemma BootInv(cpu: Cpu, tasks: seq<Task>, entries: seq<nat>, roots: seq<nat>)
    requires 0 < |tasks| == |entries| == |roots| && LayoutOk(tasks)
    requires forall t :: t in tasks ==> t.lo + 56 <= t.hi
    requires Word(cpu.mem, tasks[0].ctx + 8) == roots[0]
    ensures Inv(System(cpu.(mem := InitAll(cpu.mem, tasks, entries, roots, |tasks|)), 0), tasks,
      FreshAll(tasks, entries), roots)
  {
    var s := System(cpu.(mem := InitAll(cpu.mem, tasks, entries, roots, |tasks|)), 0);
    forall j: nat ensures WaitsAs(s, tasks, FreshAll(tasks, entries), j) {
      if j < |tasks| { InitAllWaits(cpu.mem, tasks, entries, roots, |tasks|, j); }
    }
    forall j | 0 <= j < |tasks| ensures Word(s.cpu.mem, tasks[j].ctx + 8) == roots[j] {
      InitAllWaits(cpu.mem, tasks, entries, roots, |tasks|, j);
    }
  }

  /** A fresh task first runs at its entry, with zeroed registers, at its stack top. */
  lemma FirstRun(cpu: Cpu, tasks: seq<Task>, entries: seq<nat>, roots: seq<nat>, events: seq<Event>, j: nat)
    requires 0 < |tasks| == |entries| == |roots| && LayoutOk(tasks)
    requires forall t :: t in tasks ==> t.lo + 56 <= t.hi
    requires Word(cpu.mem, tasks[0].ctx + 8) == roots[0]
    requires var s := System(cpu.(mem := InitAll(cpu.mem, tasks, entries, roots, |tasks|)), 0);
      Legal(s, tasks, events) && Allowed(Run(s, events), tasks, Switch(j))
    requires Avoids(events, j) && 0 < j < |tasks|
    ensures var s := System(cpu.(mem := InitAll(cpu.mem, tasks, entries, roots, |tasks|)), 0);
      var t := Step(Run(s, events), Switch(j));
      && t.cpu.rip == entries[j] && t.cpu.rsp == tasks[j].hi && t.cpu.cr3 == roots[j]
      && t.cpu.rbx == t.cpu.rbp == t.cpu.r12 == t.cpu.r13 == t.cpu.r14 == t.cpu.r15 == 0
  {
    var s := System(cpu.(mem := InitAll(cpu.mem, tasks, entries, roots, |tasks|)), 0);
    BootInv(cpu, tasks, entries, roots);
    ResumesAsSuspended(s, tasks, FreshAll(tasks, entries), roots, events, j);
  }
}
