/** Cooperative context switches on a small register-and-memory machine. */
module Context {

  const ADDRESS_LIMIT: nat := 0x1_0000_0000_0000_0000
  const SAVED_REGS: nat := 6

  /** 64-bit words by address; every address used is a multiple of 8. */
  type Memory = map<nat, nat>

  function Word(mem: Memory, a: nat): nat {
    if a in mem then mem[a] else 0
  }

  /** The registers that a switch uses, the zero flag (`equal`) and memory. */
  datatype Cpu = Cpu(rax: nat, rcx: nat, rbx: nat, rbp: nat, rsi: nat, rdi: nat,
                     r12: nat, r13: nat, r14: nat, r15: nat, rsp: nat,
                     rip: nat, cr3: nat, equal: bool, mem: Memory)

  function Down(a: nat): nat {
    if a >= 8 then a - 8 else ADDRESS_LIMIT + a - 8
  }

  function Up(a: nat): nat {
    if a + 8 >= ADDRESS_LIMIT then a + 8 - ADDRESS_LIMIT else a + 8
  }

  function Push(c: Cpu, v: nat): Cpu {
    c.(rsp := Down(c.rsp), mem := c.mem[Down(c.rsp) := v])
  }

  // ------------------------------------------------------ the instructions

  /** `push rbp` to `push r15`, then `mov [rdi + 0], rsp`. */
  function SaveRegisters(c: Cpu): Cpu {
    var c := Push(c, c.rbp);
    var c := Push(c, c.rbx);
    var c := Push(c, c.r12);
    var c := Push(c, c.r13);
    var c := Push(c, c.r14);
    var c := Push(c, c.r15);
    c.(mem := c.mem[c.rdi := c.rsp])
  }

  /** Loads cr3 from `[rsi + 8]` unless it already holds that value. */
  function SwitchSpace(c: Cpu): Cpu {
    var c := c.(rax := Word(c.mem, c.rsi + 8));
    var c := c.(rcx := c.cr3);
    var c := c.(equal := c.rax == c.rcx);
    if c.equal then c else c.(cr3 := c.rax)
  }

  /** `mov rsp, [rsi + 0]`, `pop r15` to `pop r13`. */
  function PopFirst(c: Cpu): Cpu {
    var c := c.(rsp := Word(c.mem, c.rsi));
    var c := c.(r15 := Word(c.mem, c.rsp), rsp := Up(c.rsp));
    var c := c.(r14 := Word(c.mem, c.rsp), rsp := Up(c.rsp));
    c.(r13 := Word(c.mem, c.rsp), rsp := Up(c.rsp))
  }

  /** `pop r12` to `pop rbp`, `ret`. */
  function PopRest(c: Cpu): Cpu {
    var c := c.(r12 := Word(c.mem, c.rsp), rsp := Up(c.rsp));
    var c := c.(rbx := Word(c.mem, c.rsp), rsp := Up(c.rsp));
    var c := c.(rbp := Word(c.mem, c.rsp), rsp := Up(c.rsp));
    c.(rip := Word(c.mem, c.rsp), rsp := Up(c.rsp))
  }

  function RestoreRegisters(c: Cpu): Cpu {
    PopRest(PopFirst(c))
  }

  function SwitchTo(c: Cpu): Cpu {
    RestoreRegisters(SwitchSpace(SaveRegisters(c)))
  }

  // ------------------------------------------------ the effect of one switch

  /** The state of a task as it will be when it runs again. */
  datatype Resume = Resume(rbx: nat, rbp: nat, r12: nat, r13: nat, r14: nat, r15: nat, rsp: nat, rip: nat)

  /** The six saved registers and the return address lie from `p` up, below `r.rsp`. */
  predicate FrameAt(mem: Memory, p: nat, r: Resume) {
    && Word(mem, p) == r.r15 && Word(mem, p + 8) == r.r14 && Word(mem, p + 16) == r.r13 && Word(mem, p + 24) == r.r12
    && Word(mem, p + 32) == r.rbx && Word(mem, p + 40) == r.rbp && Word(mem, p + 48) == r.rip
    && r.rsp == p + 56 < ADDRESS_LIMIT
  }

  /** The state a task has when it calls: registers, the stack pointer before the
      call pushed the return address, and that address. */
  function AtCall(c: Cpu): Resume {
    Resume(c.rbx, c.rbp, c.r12, c.r13, c.r14, c.r15, Up(c.rsp), Word(c.mem, c.rsp))
  }

  /** The state a task has when it runs. */
  function Running(c: Cpu): Resume {
    Resume(c.rbx, c.rbp, c.r12, c.r13, c.r14, c.r15, c.rsp, c.rip)
  }

  /** The two memories agree outside `lo..hi` and `*prev`. */
  ghost predicate WritesOnly(mem: Memory, mem': Memory, lo: nat, hi: nat, prev: nat) {
    forall a: nat :: !(lo <= a < hi) && a != prev ==> Word(mem', a) == Word(mem, a)
  }

  /** A caller's stack has room for the frame, away from `*prev`. */
  predicate Room(c: Cpu) {
    48 <= c.rsp < ADDRESS_LIMIT - 8 && !(c.rsp - 48 <= c.rdi <= c.rsp)
  }

  lemma SaveLow(c: Cpu)
    requires Room(c)
    ensures var m, p := SaveRegisters(c).mem, c.rsp - 48;
      Word(m, p) == c.r15 && Word(m, p + 8) == c.r14 && Word(m, p + 16) == c.r13
  {
  }

  lemma SaveHigh(c: Cpu)
    requires Room(c)
    ensures var m, p := SaveRegisters(c).mem, c.rsp - 48;
      Word(m, p + 24) == c.r12 && Word(m, p + 32) == c.rbx && Word(m, p + 40) == c.rbp
        && Word(m, p + 48) == Word(c.mem, c.rsp)
  {
  }

  lemma SaveFrame(c: Cpu)
    requires Room(c)
    ensures FrameAt(SaveRegisters(c).mem, c.rsp - 48, AtCall(c))
  {
    SaveLow(c);
    SaveHigh(c);
    AtCallFrame(c, SaveRegisters(c).mem);
  }

  lemma AtCallFrame(c: Cpu, m: Memory)
    requires Room(c)
    requires var p := c.rsp - 48;
      && Word(m, p) == c.r15 && Word(m, p + 8) == c.r14 && Word(m, p + 16) == c.r13
      && Word(m, p + 24) == c.r12 && Word(m, p + 32) == c.rbx && Word(m, p + 40) == c.rbp
      && Word(m, p + 48) == Word(c.mem, c.rsp)
    ensures FrameAt(m, c.rsp - 48, AtCall(c))
  {
  }

  lemma SaveOnly(c: Cpu)
    requires Room(c)
    ensures var d := SaveRegisters(c);
      Word(d.mem, c.rdi) == c.rsp - 48 && WritesOnly(c.mem, d.mem, c.rsp - 48, c.rsp, c.rdi) && d.rsi == c.rsi
  {
  }

  /** By either path, cr3 ends up as `*next` says and memory is left alone. */
  lemma SpaceEffect(c: Cpu)
    ensures var d := SwitchSpace(c); d.cr3 == Word(c.mem, c.rsi + 8) && d.mem == c.mem && d.rsi == c.rsi
  {
  }

  /** Whatever frame `*next` points to is what runs. */
  lemma RestoreEffect(c: Cpu, r: Resume)
    requires FrameAt(c.mem, Word(c.mem, c.rsi), r)
    ensures var d := RestoreRegisters(c); Running(d) == r && d.cr3 == c.cr3 && d.mem == c.mem
  {
  }

  lemma SaveKeepsNext(c: Cpu)
    ensures SaveRegisters(c).rsi == c.rsi
  {
  }

  lemma SwitchSaved(s: Cpu, r: Resume)
    requires FrameAt(s.mem, Word(s.mem, s.rsi), r)
    ensures var d := RestoreRegisters(SwitchSpace(s));
      Running(d) == r && d.cr3 == Word(s.mem, s.rsi + 8) && d.mem == s.mem
  {
    SpaceEffect(s);
    RestoreEffect(SwitchSpace(s), r);
  }

  /** A whole switch: the caller's frame is saved and recorded in `*prev`, nothing else
      is written, and the frame that `*next` then points to runs in its address space. */
  lemma SwitchEffect(c: Cpu, r: Resume)
    requires FrameAt(SaveRegisters(c).mem, Word(SaveRegisters(c).mem, c.rsi), r)
    ensures Running(SwitchTo(c)) == r && SwitchTo(c).cr3 == Word(SwitchTo(c).mem, c.rsi + 8)
    ensures SwitchTo(c).mem == SaveRegisters(c).mem
  {
    SaveKeepsNext(c);
    SwitchSaved(SaveRegisters(c), r);
  }
}
