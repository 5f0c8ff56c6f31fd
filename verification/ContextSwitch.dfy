/** Kernel stacks and the switch between processes: the words that `initKernelStack` and
    `__proc_switch` push and pop, and what a process finds when it is resumed. */
module ContextSwitch {
  import opened Words

  datatype Reg = RAX | RBX | RCX | RDX | RSI | RDI | RBP | R8 | R9 | R10 | R11 | R12 | R13 | R14 | R15

  const SAVED := 15

  type Registers = r: seq<Word> | |r| == SAVED witness seq(SAVED, _ => 0)

  function Index(r: Reg): (k: nat)
    ensures k < SAVED
  {
    match r
    case RAX => 0 case RBX => 1 case RCX => 2 case RDX => 3 case RSI => 4 case RDI => 5 case RBP => 6 case R8 => 7
    case R9 => 8 case R10 => 9 case R11 => 10 case R12 => 11 case R13 => 12 case R14 => 13 case R15 => 14
  }

  /** The order in which `__proc_switch` pushes. */
  function Pushed(i: nat): Reg
    requires i < SAVED
  {
    match i
    case 0 => RAX case 1 => RBX case 2 => RCX case 3 => RDX case 4 => RSI case 5 => RDI case 6 => RBP case 7 => R8
    case 8 => R9 case 9 => R10 case 10 => R11 case 11 => R12 case 12 => R13 case 13 => R14 case _ => R15
  }

  /** The order in which `__proc_switch` pops. */
  function Popped(i: nat): Reg
    requires i < SAVED
  {
    match i
    case 0 => R15 case 1 => R14 case 2 => R13 case 3 => R12 case 4 => R11 case 5 => R10 case 6 => R9 case 7 => R8
    case 8 => RBP case 9 => RDI case 10 => RSI case 11 => RDX case 12 => RCX case 13 => RBX case _ => RAX
  }

  /** The order in which `initKernelStack` pushes. */
  function LaidOut(i: nat): Reg
    requires i < SAVED
  {
    match i
    case 0 => RAX case 1 => RBX case 2 => RCX case 3 => RDX case 4 => RSI case 5 => RDI case 6 => RBP case 7 => R8
    case 8 => R9 case 9 => R10 case 10 => R11 case 11 => R12 case 12 => R13 case 13 => R14 case _ => R15
  }

  /** Words in the frame that is a kernel stack. */
  const STACK_WORDS := 512

  /** What the first pushes leave, lowest address first. */
  ghost function Stacked(regs: Registers, n: nat): (s: seq<Word>)
    requires n <= SAVED
    ensures |s| == n
  {
    seq(n, k requires 0 <= k < n => regs[Index(Pushed(n - 1 - k))])
  }

  lemma {:induction false} StackedMore(regs: Registers, n: nat)
    requires n < SAVED
    ensures Stacked(regs, n + 1) == [regs[Index(Pushed(n))]] + Stacked(regs, n)
  {}

  /** The pops take the registers in the opposite order of the pushes, each one once. */
  lemma {:induction false} OrdersMatch(k: nat)
    requires k < SAVED
    ensures Popped(k) == Pushed(SAVED - 1 - k) && LaidOut(k) == Pushed(k) && Index(Popped(k)) == SAVED - 1 - k
  {}

  /** What belongs to a process that is not running: its registers, where it goes on, its stack
      pointer and what is on its stack from there. */
  datatype Context = Context(regs: Registers, rip: Word, rsp: nat, above: seq<Word>)

  /** The words that a suspended context is kept in. */
  ghost function Image(c: Context): (s: seq<Word>)
    ensures |s| == SAVED + 1 + |c.above|
  {
    Stacked(c.regs, SAVED) + ([c.rip] + c.above)
  }

  /** The frame a new process starts from. */
  datatype Frame = Frame(regs: Registers, rip: Word, cs: Word, flags: Word, rsp: Word, ss: Word)

  /** What `iretq` takes off the stack. */
  function Return(f: Frame): seq<Word> { [f.rip, f.cs, f.flags, f.rsp, f.ss] }

  /** A kernel stack: its frame and the pointer kept for it, as a word address. */
  datatype KernelStack = KernelStack(frame: nat, pointer: nat) {
    function Base(): nat { STACK_WORDS * frame }
    function Top(): nat { STACK_WORDS * frame + STACK_WORDS }
  }

  /** Whether the memory from the pointer to the top of the stack is the image of the context. */
  ghost predicate Keeps(mem: seq<Word>, s: KernelStack, c: Context) {
    && s.Base() <= s.pointer <= s.Top() <= |mem|
    && mem[s.pointer..s.Top()] == Image(c)
    && c.rsp == s.pointer + SAVED + 1
  }

  ghost predicate AllKeep(mem: seq<Word>, stacks: seq<KernelStack>, suspended: map<nat, Context>) {
    forall p :: p in suspended ==> p < |stacks| && Keeps(mem, stacks[p], suspended[p])
  }

  /** Writing one stack leaves the contexts that are kept in the others. */
  lemma {:induction false} OthersKept(was: seq<Word>, now: seq<Word>,
    stacks: seq<KernelStack>, suspended: map<nat, Context>, mine: KernelStack)
    requires AllKeep(was, stacks, suspended) && |now| == |was|
    requires forall p :: p in suspended ==> stacks[p].frame != mine.frame
    requires forall i :: 0 <= i < |was| && !(mine.Base() <= i < mine.Top()) ==> now[i] == was[i]
    ensures AllKeep(now, stacks, suspended)
  {
    forall p | p in suspended ensures Keeps(now, stacks[p], suspended[p]) {
      KeepsOutside(was, now, stacks[p], suspended[p], mine);
    }
  }

  lemma {:induction false} KeptWith(mem: seq<Word>, stacks: seq<KernelStack>,
    suspended: map<nat, Context>, p: nat, s: KernelStack, c: Context)
    requires AllKeep(mem, stacks, suspended) && p < |stacks| && p !in suspended && Keeps(mem, s, c)
    ensures AllKeep(mem, stacks[p := s], suspended) && AllKeep(mem, stacks[p := s], suspended[p := c])
  {
    hide Keeps;
  }

  lemma {:induction false} KeptWithout(mem: seq<Word>, stacks: seq<KernelStack>, suspended: map<nat, Context>, p: nat)
    requires AllKeep(mem, stacks, suspended)
    ensures AllKeep(mem, stacks, suspended - {p})
  {
    hide Keeps;
  }

  lemma {:induction false} KeptOf(mem: seq<Word>, stacks: seq<KernelStack>, suspended: map<nat, Context>, p: nat)
    requires AllKeep(mem, stacks, suspended) && p in suspended
    ensures p < |stacks| && Keeps(mem, stacks[p], suspended[p])
  {
    hide Keeps;
  }

  /** Stacks in distinct frames do not meet. */
  lemma {:induction false} KeepsOutside(was: seq<Word>, now: seq<Word>, s: KernelStack, c: Context, mine: KernelStack)
    requires Keeps(was, s, c) && |now| == |was| && s.frame != mine.frame
    requires forall i :: 0 <= i < |was| && !(mine.Base() <= i < mine.Top()) ==> now[i] == was[i]
    ensures Keeps(now, s, c)
  {
    assert forall i :: s.pointer <= i < s.Top() ==> now[i] == was[i];
    assert now[s.pointer..s.Top()] == was[s.pointer..s.Top()];
  }

  // ---------- Runs of switches ----------

  /** The processes as contexts: the one that runs and those that can be resumed. */
  datatype System = System(current: nat, running: Context, suspended: map<nat, Context>)

  datatype Event =
    | SwitchTo(other: nat)
    | LeaveDead(other: nat)
    | Compute(context: Context)
    | NewProcess(id: nat, context: Context)

  ghost predicate Possible(s: System, e: Event) {
    match e
    case SwitchTo(p) => p in s.suspended && p != s.current
    case LeaveDead(p) => p in s.suspended && p != s.current
    case Compute(_) => true
    case NewProcess(p, _) => p !in s.suspended && p != s.current
  }

  ghost function Step(s: System, e: Event): System
    requires Possible(s, e)
  {
    match e
    case SwitchTo(p) => System(p, s.suspended[p], s.suspended[s.current := s.running] - {p})
    case LeaveDead(p) => System(p, s.suspended[p], s.suspended - {p})
    case Compute(c) => System(s.current, c, s.suspended)
    case NewProcess(p, c) => System(s.current, s.running, s.suspended[p := c])
  }

  ghost predicate PossibleRun(s: System, es: seq<Event>)
    decreases |es|
  {
    es == [] || (Possible(s, es[0]) && PossibleRun(Step(s, es[0]), es[1..]))
  }

  ghost function Run(s: System, es: seq<Event>): System
    requires PossibleRun(s, es)
    decreases |es|
  {
    if es == [] then s else Run(Step(s, es[0]), es[1..])
  }

  /** No switch of the run is to the process. */
  ghost predicate Leaves(p: nat, es: seq<Event>) {
    forall e :: e in es ==> e != SwitchTo(p) && e != LeaveDead(p)
  }

  /** A suspended process keeps its context until the next switch to it, whatever runs. */
  lemma {:induction false} StaysSuspended(s: System, es: seq<Event>, p: nat)
    requires PossibleRun(s, es) && p in s.suspended && p != s.current && Leaves(p, es)
    ensures var t := Run(s, es); p in t.suspended && t.suspended[p] == s.suspended[p] && p != t.current
    decreases |es|
  {
    if es != [] {
      assert es[0] in es && forall e :: e in es[1..] ==> e in es;
      StaysSuspended(Step(s, es[0]), es[1..], p);
    }
  }

  /** A process that is switched away from and, after any run, switched to again goes on with its
      registers, its stack pointer, the contents of its stack and its return address. */
  lemma {:induction false} ResumesAsSuspended(s: System, other: nat, es: seq<Event>)
    requires Possible(s, SwitchTo(other)) && PossibleRun(Step(s, SwitchTo(other)), es) && Leaves(s.current, es)
    ensures var t := Run(Step(s, SwitchTo(other)), es);
      Possible(t, SwitchTo(s.current)) && Step(t, SwitchTo(s.current)).running == s.running
  {
    StaysSuspended(Step(s, SwitchTo(other)), es, s.current);
  }

  /** The context `initKernelStack` makes: the first switch returns to the trampoline, with what
      `iretq` takes on the stack. */
  ghost function Fresh(f: Frame, trampoline: Word, top: nat): Context
    requires top >= |Return(f)|
  {
    Context(f.regs, trampoline, top - |Return(f)|, Return(f))
  }

  /** The first time a new process is switched to, its registers are those of its frame and the
      trampoline finds the rest of the frame on the stack. */
  lemma {:induction false} FirstDispatch(s: System, p: nat, f: Frame, trampoline: Word, top: nat, es: seq<Event>)
    requires top >= 5 && var e := NewProcess(p, Fresh(f, trampoline, top));
      Possible(s, e) && PossibleRun(Step(s, e), es)
    requires Leaves(p, es)
    ensures var t := Run(Step(s, NewProcess(p, Fresh(f, trampoline, top))), es);
      (Possible(t, SwitchTo(p)) && var c := Step(t, SwitchTo(p)).running;
       c.regs == f.regs && c.rip == trampoline && c.above == [f.rip, f.cs, f.flags, f.rsp, f.ss])
  {
    StaysSuspended(Step(s, NewProcess(p, Fresh(f, trampoline, top))), es, p);
  }

  lemma {:induction false} OneMoreSaved(was: seq<Word>, now: seq<Word>,
    at: nat, top: nat, regs: Registers, n: nat, tail: seq<Word>)
    requires at < top <= |was| && n < SAVED && now == was[at := regs[Index(Pushed(n))]]
    requires was[at + 1..top] == Stacked(regs, n) + tail
    ensures now[at..top] == Stacked(regs, n + 1) + tail
  {
    hide Stacked, Pushed, Index;
    StackedMore(regs, n);
    assert now[at..top] == [regs[Index(Pushed(n))]] + was[at + 1..top];
  }

  /** What `__proc_switch` leaves below the stack of a process is the image of its context. */
  lemma {:induction false} SavedImage(was: seq<Word>, now: seq<Word>, rsp: nat, top: nat, c: Context)
    requires SAVED + 1 <= rsp <= top <= |was| == |now| && c.above == was[rsp..top]
    requires now[rsp - 1 - SAVED..rsp - 1] == Stacked(c.regs, SAVED) && now[rsp - 1] == c.rip
    requires forall i :: rsp <= i < top ==> now[i] == was[i]
    ensures now[rsp - 1 - SAVED..top] == Image(c)
  {
    hide Stacked;
    var low := rsp - 1 - SAVED;
    assert now[rsp..top] == was[rsp..top];
    assert now[low..top] == now[low..rsp - 1] + ([now[rsp - 1]] + now[rsp..top]);
  }

  lemma {:induction false} StackedNone(regs: Registers)
    ensures Stacked(regs, 0) == []
  {}

  /** The stack that `initKernelStack` leaves keeps the context of a new process. */
  lemma {:induction false} FreshKept(mem: seq<Word>, frame: nat, pointer: nat, f: Frame, trampoline: Word)
    requires var top := STACK_WORDS * frame + STACK_WORDS;
      top <= |mem| && pointer == top - 6 - SAVED
        && mem[pointer..top] == Stacked(f.regs, SAVED) + ([trampoline] + Return(f))
    ensures Keeps(mem, KernelStack(frame, pointer), Fresh(f, trampoline, STACK_WORDS * frame + STACK_WORDS))
  {
    hide Stacked;
  }

  // ---------- The machine ----------

  class Machine {
    const mem: array<Word>
    /** The address of `__proc_trampoline`. */
    const trampoline: Word
    var regs: Registers
    var rip: Word
    var rsp: nat
    var stacks: seq<KernelStack>
    var current: nat
    /** The contexts of the processes that can be resumed. */
    ghost var suspended: map<nat, Context>

    /** The stack belongs to a process that runs or can be resumed, not to one that is dead. */
    ghost predicate InUse(p: nat)
      reads this
    {
      p < |stacks| && (p == current || p in suspended)
    }

    /** Those stacks lie in memory, in frames of their own. */
    ghost predicate Distinct()
      reads this
    {
      && (forall p: nat :: InUse(p) ==> stacks[p].Top() <= mem.Length)
      && (forall p: nat, q: nat :: InUse(p) && InUse(q) && p != q ==> stacks[p].frame != stacks[q].frame)
    }

    ghost predicate Valid()
      reads this, mem
    {
      && current < |stacks| && Distinct() && stacks[current].Base() <= rsp <= stacks[current].Top()
      && current !in suspended
      && AllKeep(mem[..], stacks, suspended)
    }

    /** The context the running process has. */
    ghost function Now(): Context
      requires Valid()
      reads this, mem
    {
      Context(regs, rip, rsp, mem[rsp..stacks[current].Top()])
    }

    ghost function AsSystem(): System
      requires Valid()
      reads this, mem
    {
      System(current, Now(), suspended)
    }

    method Push(value: Word)
      requires 0 < rsp <= mem.Length
      modifies mem, `rsp
      ensures rsp == old(rsp) - 1 && mem[..] == old(mem[..])[rsp := value]
    {
      rsp := rsp - 1;
      mem[rsp] := value;
    }

    method Pop() returns (value: Word)
      requires rsp < mem.Length
      modifies `rsp
      ensures rsp == old(rsp) + 1 && value == mem[old(rsp)]
    {
      value := mem[rsp];
      rsp := rsp + 1;
    }

    /** The pushes of `__proc_switch`. */
    method SaveRegisters()
      requires SAVED <= rsp <= mem.Length
      modifies mem, `rsp
      ensures rsp == old(rsp) - SAVED && mem[rsp..old(rsp)] == Stacked(regs, SAVED)
      ensures forall i :: 0 <= i < mem.Length && !(rsp <= i < old(rsp)) ==> mem[i] == old(mem[i])
    {
      for i := 0 to SAVED
        invariant rsp == old(rsp) - i && mem[rsp..old(rsp)] == Stacked(regs, i)
        invariant forall j :: 0 <= j < mem.Length && !(rsp <= j < old(rsp)) ==> mem[j] == old(mem[j])
      {
        StackedMore(regs, i);
        ghost var was := mem[rsp..old(rsp)];
        Push(regs[Index(Pushed(i))]);
        assert mem[rsp..old(rsp)] == [regs[Index(Pushed(i))]] + was;
      }
    }

    /** The pops of `__proc_switch`. */
    method RestoreRegisters(ghost saved: Registers)
      requires rsp + SAVED <= mem.Length && mem[rsp..rsp + SAVED] == Stacked(saved, SAVED)
      modifies `rsp, `regs
      ensures rsp == old(rsp) + SAVED && regs == saved
    {
      for i := 0 to SAVED
        invariant rsp == old(rsp) + i
        invariant forall k :: SAVED - i <= k < SAVED ==> regs[k] == saved[k]
      {
        OrdersMatch(i);
        assert mem[rsp] == mem[old(rsp)..old(rsp) + SAVED][i];
        var value := Pop();
        regs := regs[Index(Popped(i)) := value];
      }
    }

    /** `__proc_switch(&old->pointer, new->pointer)`, called by the running process: the call pushes
        the return address, and the return at the end takes the one of the process switched to. */
    method ProcSwitch(other: nat)
      requires Valid() && other in suspended
      requires stacks[current].Base() + SAVED + 1 <= rsp
      modifies this, mem
      ensures Valid() && AsSystem() == Step(old(AsSystem()), SwitchTo(other))
      ensures |stacks| == |old(stacks)| && forall p :: 0 <= p < |stacks| ==> stacks[p].frame == old(stacks[p].frame)
    {
      hide Keeps, Image, AllKeep;
      ghost var me, now, before := current, Now(), stacks;
      PushContext();
      stacks := stacks[current := KernelStack(stacks[current].frame, rsp)];
      KeptWith(mem[..], before, suspended, me, stacks[me], now);
      KeptOf(mem[..], stacks, suspended, other);
      Resume(other);
      KeptWithout(mem[..], stacks, old(suspended)[me := now], other);
      suspended := suspended[me := now];
      assert suspended == old(suspended)[me := now] - {other};
      assert Context(regs, rip, rsp, mem[rsp..stacks[current].Top()]) == old(suspended[other]);
    }

    /** The call and the first half of `__proc_switch`. */
    method PushContext()
      requires Valid() && stacks[current].Base() + SAVED + 1 <= rsp
      modifies mem, `rsp
      ensures rsp <= mem.Length && AllKeep(mem[..], stacks, suspended)
      ensures Keeps(mem[..], KernelStack(stacks[current].frame, rsp), old(Now()))
    {
      hide Image, Stacked;
      ghost var was, s, now, from := mem[..], stacks[current], Now(), rsp;
      Push(rip);
      SaveRegisters();
      SavedImage(was, mem[..], from, s.Top(), now);
      OthersKept(was, mem[..], stacks, suspended, s);
    }

    /** The second half of `__proc_switch`. */
    method Resume(other: nat)
      requires other in suspended && other < |stacks| && stacks[other].Top() <= mem.Length
      requires Keeps(mem[..], stacks[other], suspended[other])
      modifies `rsp, `regs, `rip, `current, `suspended
      ensures current == other && suspended == old(suspended) - {other}
      ensures stacks[other].Base() <= rsp <= stacks[other].Top()
      ensures Context(regs, rip, rsp, mem[rsp..stacks[other].Top()]) == old(suspended[other])
    {
      ghost var c := suspended[other];
      rsp := stacks[other].pointer;
      assert mem[rsp..stacks[other].Top()] == mem[..][rsp..stacks[other].Top()] == Image(c);
      assert mem[rsp..rsp + SAVED] == mem[rsp..stacks[other].Top()][..SAVED] == Stacked(c.regs, SAVED);
      assert mem[rsp + SAVED] == mem[rsp..stacks[other].Top()][SAVED];
      assert mem[rsp + SAVED + 1..stacks[other].Top()] == mem[rsp..stacks[other].Top()][SAVED + 1..] == c.above;
      RestoreRegisters(c.regs);
      rip := Pop();
      current := other;
      suspended := suspended - {other};
    }

    /** The switch away from a dead process saves its pointer where nobody looks. */
    method SwitchFromDead(other: nat)
      requires Valid() && other in suspended
      requires stacks[current].Base() + SAVED + 1 <= rsp
      modifies this, mem
      ensures Valid() && AsSystem() == Step(old(AsSystem()), LeaveDead(other)) && stacks == old(stacks)
    {
      hide Keeps, Image, AllKeep;
      PushContext();
      KeptOf(mem[..], stacks, suspended, other);
      Resume(other);
      KeptWithout(mem[..], stacks, old(suspended), other);
    }

    /** Whatever the running process does between two switches: its registers, its stack pointer
        and the words of its own stack may change. */
    method Work(newRegs: Registers, newRip: Word, newRsp: nat, at: nat, value: Word)
      requires Valid()
      requires stacks[current].Base() <= newRsp <= stacks[current].Top()
        && stacks[current].Base() <= at < stacks[current].Top()
      modifies this, mem
      ensures Valid() && stacks == old(stacks) && mem[..] == old(mem[..])[at := value]
      ensures AsSystem() == Step(old(AsSystem()), Compute(Now())) && regs == newRegs && rip == newRip && rsp == newRsp
    {
      ghost var was := mem[..];
      regs, rip, rsp := newRegs, newRip, newRsp;
      mem[at] := value;
      OthersKept(was, mem[..], stacks, suspended, stacks[current]);
    }

    /** A new process with `initKernelStack`, on a frame of its own; it may be one that a dead process
        had. */
    method AddProcess(frame: nat, f: Frame) returns (id: nat)
      requires Valid() && STACK_WORDS * frame + STACK_WORDS <= mem.Length
      requires forall p: nat :: InUse(p) ==> stacks[p].frame != frame
      modifies this, mem
      ensures id == |old(stacks)| && Valid()
      ensures AsSystem() == Step(old(AsSystem()),
        NewProcess(id, Fresh(f, trampoline, STACK_WORDS * frame + STACK_WORDS)))
    {
      hide Keeps;
      id := |stacks|;
      ghost var was, mine := mem[..], stacks[current];
      var pointer := InitKernelStack(frame, f);
      OthersKept(was, mem[..], stacks, suspended, KernelStack(frame, pointer));
      assert mem[rsp..mine.Top()] == was[rsp..mine.Top()];
      stacks := stacks + [KernelStack(frame, pointer)];
      suspended := suspended[id := Fresh(f, trampoline, STACK_WORDS * frame + STACK_WORDS)];
    }

    method InitKernelStack(frame: nat, f: Frame) returns (pointer: nat)
      requires STACK_WORDS * frame + STACK_WORDS <= mem.Length
      modifies mem
      ensures Keeps(mem[..], KernelStack(frame, pointer), Fresh(f, trampoline, STACK_WORDS * frame + STACK_WORDS))
      ensures forall i ::
        0 <= i < mem.Length && !(STACK_WORDS * frame <= i < STACK_WORDS * frame + STACK_WORDS) ==> mem[i] == old(mem[i])
    {
      hide Stacked, Keeps, Image, Return;
      var top := STACK_WORDS * frame + STACK_WORDS;
      pointer := StoreReturn(top, f);
      ghost var tail := [trampoline] + Return(f);
      StackedNone(f.regs);
      assert mem[pointer..top] == Stacked(f.regs, 0) + tail;
      for i := 0 to SAVED
        modifies mem
        invariant pointer == top - 6 - i && mem[pointer..top] == Stacked(f.regs, i) + tail
        invariant forall j :: 0 <= j < mem.Length && !(STACK_WORDS * frame <= j < top) ==> mem[j] == old(mem[j])
      {
        OrdersMatch(i);
        ghost var was := mem[..];
        pointer := Store(pointer, f.regs[Index(LaidOut(i))]);
        OneMoreSaved(was, mem[..], pointer, top, f.regs, i, tail);
      }
      FreshKept(mem[..], frame, pointer, f, trampoline);
    }

    /** What `iretq` will take, under the address of the trampoline. */
    method StoreReturn(top: nat, f: Frame) returns (pointer: nat)
      requires STACK_WORDS <= top <= mem.Length
      modifies mem
      ensures pointer == top - 6 && mem[pointer..top] == [trampoline] + Return(f)
      ensures forall i :: 0 <= i < mem.Length && !(top - 6 <= i < top) ==> mem[i] == old(mem[i])
    {
      pointer := top;
      pointer := Store(pointer, f.ss);
      pointer := Store(pointer, f.rsp);
      pointer := Store(pointer, f.flags);
      pointer := Store(pointer, f.cs);
      pointer := Store(pointer, f.rip);
      pointer := Store(pointer, trampoline);
    }

    /** `ProcessKernelStack::push` */
    method Store(pointer: nat, value: Word) returns (next: nat)
      requires 0 < pointer <= mem.Length
      modifies mem
      ensures next == pointer - 1 && mem[..] == old(mem[..])[next := value]
    {
      next := pointer - 1;
      mem[next] := value;
    }

    /** `__proc_trampoline`: `iretq` takes the rest of the frame off the stack. */
    method Trampoline(ghost f: Frame) returns (g: Frame)
      requires Valid() && rip == trampoline && Now().regs == f.regs && Now().above == Return(f)
      modifies `rsp
      ensures g == f && rsp == stacks[current].Top()
    {
      assert mem[rsp..stacks[current].Top()] == Return(f);
      assert forall k :: 0 <= k < 5 ==> mem[rsp + k] == mem[rsp..stacks[current].Top()][k];
      var newRip := Pop();
      var cs := Pop();
      var flags := Pop();
      var newRsp := Pop();
      var ss := Pop();
      g := Frame(regs, newRip, cs, flags, newRsp, ss);
    }
  }
}
