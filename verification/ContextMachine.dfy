/** The context-switch routines as statements on the processor's registers. */
module ContextMachine {
  import opened Context
  import opened ContextRuns

  /** The saved state handed to `switch_to`. */
  datatype TaskContext = TaskContext(rsp: nat, cr3: nat)

  class Processor {
    var rax: nat
    var rcx: nat
    var rbx: nat
    var rbp: nat
    var rsi: nat
    var rdi: nat
    var r12: nat
    var r13: nat
    var r14: nat
    var r15: nat
    var rsp: nat
    var rip: nat
    var cr3: nat
    var equal: bool
    var mem: Memory

    function State(): Cpu
      reads this
    {
      Cpu(rax, rcx, rbx, rbp, rsi, rdi, r12, r13, r14, r15, rsp, rip, cr3, equal, mem)
    }

    /** Forges the frame of a task that has never run. */
    method InitKernelTask(stackTop: nat, entry: nat, root: nat) returns (ctx: TaskContext)
      requires stackTop >= 56
      modifies this`mem
      ensures mem == InitFrame(old(mem), stackTop, entry) && ctx == TaskContext(stackTop - 56, root)
    {
      var retSlot := stackTop - 8;
      mem := mem[retSlot := entry];
      var regs := stackTop - 8 * (SAVED_REGS + 1);
      for i := 0 to SAVED_REGS
        invariant mem == ZeroSlots(old(mem)[stackTop - 8 := entry], stackTop - 56, i)
      {
        mem := mem[regs + i * 8 := 0];
      }
      ctx := TaskContext(regs, root);
    }

    method PushWord(v: nat)
      modifies this`rsp, this`mem
      ensures State() == Push(old(State()), v)
    {
      rsp := Down(rsp);
      mem := mem[rsp := v];
    }

    /** Saves the caller on its own stack, changes address space, resumes the next task. */
    method Switch()
      modifies this
      ensures State() == SwitchTo(old(State()))
    {
      Save();
      ChangeSpace();
      Restore();
    }

    method Save()
      modifies this`rsp, this`mem
      ensures State() == SaveRegisters(old(State()))
    {
      PushWord(rbp);
      PushWord(rbx);
      PushWord(r12);
      PushWord(r13);
      PushWord(r14);
      PushWord(r15);
      mem := mem[rdi := rsp];
    }

    method ChangeSpace()
      modifies this`rax, this`rcx, this`equal, this`cr3
      ensures State() == SwitchSpace(old(State()))
    {
      rax := Word(mem, rsi + 8);
      rcx := cr3;
      equal := rax == rcx;
      if !equal {
        cr3 := rax;
      }
    }

    method Restore()
      modifies this`rbx, this`rbp, this`r12, this`r13, this`r14, this`r15, this`rsp, this`rip
      ensures State() == RestoreRegisters(old(State()))
    {
      PopHigh();
      PopLow();
    }

    method PopHigh()
      modifies this`r13, this`r14, this`r15, this`rsp
      ensures State() == PopFirst(old(State()))
    {
      rsp := Word(mem, rsi);
      r15, rsp := Word(mem, rsp), Up(rsp);
      r14, rsp := Word(mem, rsp), Up(rsp);
      r13, rsp := Word(mem, rsp), Up(rsp);
    }

    method PopLow()
      modifies this`rbx, this`rbp, this`r12, this`rsp, this`rip
      ensures State() == PopRest(old(State()))
    {
      r12, rsp := Word(mem, rsp), Up(rsp);
      rbx, rsp := Word(mem, rsp), Up(rsp);
      rbp, rsp := Word(mem, rsp), Up(rsp);
      rip, rsp := Word(mem, rsp), Up(rsp);
    }
  }
}
