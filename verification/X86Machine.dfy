/** The x86-64 instructions the compiler emits, and the processor that runs them. Memory is a map from the addresses
    of 8-byte cells to their contents; a cell missing from the map holds 0. %rsp and %rbp are plain integers: the
    address space does not wrap around. */
module X86Machine {
  import opened BasicAst

  datatype Reg = Rdi | R10 | Rax | Rdx | Rsp | Rbp

  datatype Label = IfLabel(id: nat) | EndIfLabel(id: nat) | WhileLabel(id: nat) | EndWhileLabel(id: nat)

  /** The condition codes of the jumps je, jne, jl, jge, jg and jle. */
  datatype Condition = E | NE | L | GE | G | LE

  datatype Instr =
    | MovImm(imm: int64, dst: Reg)
    | MovReg(src: Reg, dst: Reg)
    | Load(disp: int, dst: Reg)       // movq disp(%rbp), dst
    | Store(src: Reg, disp: int)      // movq src, disp(%rbp)
    | Push(src: Reg)
    | Pop(dst: Reg)
    | Add(src: Reg, dst: Reg)
    | Sub(src: Reg, dst: Reg)
    | Imul(src: Reg, dst: Reg)
    | Shl(count: nat, dst: Reg)
    | Cqto
    | Idiv(src: Reg)
    | Cmp(src: Reg, dst: Reg)
    | Jcc(condition: Condition, target: Label)
    | Jmp(target: Label)
    | Define(name: Label)
    | CallPrintInt
    | SubRsp(bytes: nat)
    | AddRsp(bytes: nat)
    | Ret

  datatype Regs = Regs(rdi: int, r10: int, rax: int, rdx: int, rsp: int, rbp: int)

  /** The flags a comparison leaves; after an instruction that disturbs them they are Undefined. */
  datatype Flags = Undefined | Flags(zero: bool, sign: bool, overflow: bool)

  datatype Status = Running | Returned | DivideTrap | Fault

  datatype State = State(status: Status, pc: nat, regs: Regs, flags: Flags, mem: map<int, int>, out: seq<int>)

  /** What one call of `print_int` leaves in the registers its callee may change, and below the stack. */
  datatype Clobber = Clobber(rdi: int, r10: int, rax: int, rdx: int, mem: map<int, int>)

  /** A processor with a program, and the garbage left by the n-th call of `print_int`. */
  datatype Machine = Machine(code: seq<Instr>, callee: nat -> Clobber)

  function Get(r: Regs, reg: Reg): int {
    match reg
    case Rdi => r.rdi
    case R10 => r.r10
    case Rax => r.rax
    case Rdx => r.rdx
    case Rsp => r.rsp
    case Rbp => r.rbp
  }

  function Set(r: Regs, reg: Reg, v: int): Regs {
    match reg
    case Rdi => r.(rdi := v)
    case R10 => r.(r10 := v)
    case Rax => r.(rax := v)
    case Rdx => r.(rdx := v)
    case Rsp => r.(rsp := v)
    case Rbp => r.(rbp := v)
  }

  function Cell(mem: map<int, int>, address: int): int {
    if address in mem then mem[address] else 0
  }

  /** Memory after a callee wrote `junk` below the stack pointer. */
  function Trash(mem: map<int, int>, junk: map<int, int>, rsp: int): map<int, int> {
    map a | a in mem.Keys + junk.Keys :: if a >= rsp then Cell(mem, a) else Cell(junk, a)
  }

  /** `shlq $count`: `count` times, every bit moves up and the top one is lost. */
  function ShiftLeft(v: int, count: nat): int
    decreases count
  {
    if count == 0 then v else ShiftLeft(Wrap(v + v), count - 1)
  }

  /** The flags of `dst - src`. */
  function CompareFlags(src: int, dst: int): Flags {
    Flags(Wrap(dst - src) == 0, Wrap(dst - src) < 0, Wrap(dst - src) != dst - src)
  }

  predicate Met(c: Condition, f: Flags)
    requires f.Flags?
  {
    match c
    case E => f.zero
    case NE => !f.zero
    case L => f.sign != f.overflow
    case GE => f.sign == f.overflow
    case G => !f.zero && f.sign == f.overflow
    case LE => f.zero || f.sign != f.overflow
  }

  /** The dividend of `idivq`: the 128-bit number rdx:rax. */
  function Dividend(r: Regs): int {
    r.rdx * 0x1_0000_0000_0000_0000 + r.rax % 0x1_0000_0000_0000_0000
  }

  /** The position of a label's definition, if the program has one. */
  function Target(code: seq<Instr>, name: Label): int
    ensures -1 <= Target(code, name) < |code|
    ensures Target(code, name) >= 0 ==> code[Target(code, name)] == Define(name)
  {
    if code == [] then -1
    else if code[0] == Define(name) then 0
    else
      var t := Target(code[1..], name);
      if t == -1 then -1 else t + 1
  }

  function Jump(code: seq<Instr>, name: Label, s: State): State {
    var t := Target(code, name);
    if t == -1 then s.(status := Fault) else s.(pc := t)
  }

  /** One instruction. The calling convention is part of the machine: `print_int` faults on a
      stack that is not 16-byte aligned, and so does a jump on undefined flags. */
  function Execute(m: Machine, i: Instr, s: State): State {
    var r := s.regs;
    var next := s.(pc := s.pc + 1);
    match i
    case MovImm(imm, dst) => next.(regs := Set(r, dst, imm))
    case MovReg(src, dst) => next.(regs := Set(r, dst, Get(r, src)))
    case Load(disp, dst) => next.(regs := Set(r, dst, Cell(s.mem, r.rbp + disp)))
    case Store(src, disp) => next.(mem := s.mem[r.rbp + disp := Get(r, src)])
    case Push(src) => next.(regs := r.(rsp := r.rsp - 8), mem := s.mem[r.rsp - 8 := Get(r, src)])
    case Pop(dst) => next.(regs := Set(r.(rsp := r.rsp + 8), dst, Cell(s.mem, r.rsp)))
    case Add(src, dst) => next.(regs := Set(r, dst, Wrap(Get(r, dst) + Get(r, src))), flags := Undefined)
    case Sub(src, dst) => next.(regs := Set(r, dst, Wrap(Get(r, dst) - Get(r, src))), flags := Undefined)
    case Imul(src, dst) => next.(regs := Set(r, dst, Wrap(Get(r, dst) * Get(r, src))), flags := Undefined)
    case Shl(count, dst) => next.(regs := Set(r, dst, ShiftLeft(Get(r, dst), count)), flags := Undefined)
    case Cqto => next.(regs := r.(rdx := if r.rax < 0 then -1 else 0))
    case Idiv(src) =>
      if DivisionTraps(Dividend(r), Get(r, src)) then s.(status := DivideTrap)
      else
        var q := Quotient(Dividend(r), Get(r, src));
        next.(regs := r.(rax := q, rdx := Dividend(r) - q * Get(r, src)), flags := Undefined)
    case Cmp(src, dst) => next.(flags := CompareFlags(Get(r, src), Get(r, dst)))
    case Jcc(condition, target) =>
      if s.flags.Undefined? then s.(status := Fault)
      else if Met(condition, s.flags) then Jump(m.code, target, s)
      else next
    case Jmp(target) => Jump(m.code, target, s)
    case Define(_) => next
    case CallPrintInt =>
      if r.rsp % 16 != 0 then s.(status := Fault)
      else
        var c := m.callee(|s.out|);
        next.(regs := Regs(c.rdi, c.r10, c.rax, c.rdx, r.rsp, r.rbp), flags := Undefined,
              mem := Trash(s.mem, c.mem, r.rsp), out := s.out + [r.rdi])
    case SubRsp(bytes) => next.(regs := r.(rsp := r.rsp - bytes), flags := Undefined)
    case AddRsp(bytes) => next.(regs := r.(rsp := r.rsp + bytes), flags := Undefined)
    case Ret => s.(status := Returned, regs := r.(rsp := r.rsp + 8))
  }

  function Step(m: Machine, s: State): State {
    if s.status != Running then s
    else if s.pc >= |m.code| then s.(status := Fault)
    else Execute(m, m.code[s.pc], s)
  }

  function Run(m: Machine, s: State, steps: nat): State
    decreases steps
  {
    if steps == 0 then s else Run(m, Step(m, s), steps - 1)
  }

  lemma {:induction false} RunSplit(m: Machine, s: State, j: nat, k: nat)
    ensures Run(m, s, j + k) == Run(m, Run(m, s, j), k)
    decreases j
  {
    if j > 0 {
      RunSplit(m, Step(m, s), j - 1, k);
    }
  }

  lemma {:induction false} RunStopped(m: Machine, s: State, k: nat)
    requires s.status != Running
    ensures Run(m, s, k) == s
    decreases k
  {
    if k > 0 {
      RunStopped(m, s, k - 1);
    }
  }

  /** Output only grows. */
  lemma {:induction false} RunOutputGrows(m: Machine, s: State, k: nat)
    ensures s.out <= Run(m, s, k).out
    decreases k
  {
    if k > 0 {
      assert s.out <= Step(m, s).out;
      RunOutputGrows(m, Step(m, s), k - 1);
    }
  }

  /** The conditional jumps decide signed order, overflow of the subtraction included. */
  lemma CompareFlagsDecide(src: int64, dst: int64)
    ensures var f := CompareFlags(src, dst);
            && (Met(E, f) <==> dst == src) && (Met(NE, f) <==> dst != src)
            && (Met(L, f) <==> dst < src) && (Met(GE, f) <==> dst >= src)
            && (Met(G, f) <==> dst > src) && (Met(LE, f) <==> dst <= src)
  {
  }

  /** `cqto` makes rdx:rax the signed value of rax. */
  lemma CqtoExtends(r: Regs, v: int64)
    requires r.rax == v && r.rdx == if v < 0 then -1 else 0
    ensures Dividend(r) == v
  {
  }

  /** `idivq` truncates toward zero, leaves the remainder in rdx, and traps when there is no 64-bit quotient. */
  lemma IdivTruncates(m: Machine, s: State, src: Reg)
    requires s.status == Running
    ensures var d, b, t := Dividend(s.regs), Get(s.regs, src), Execute(m, Idiv(src), s);
            && (t.status == DivideTrap <==> forall q: int64 :: !Truncates(d, b, q))
            && (t.status != DivideTrap ==> Truncates(d, b, t.regs.rax) && t.regs.rdx == d - t.regs.rax * b)
  {
    var d, b := Dividend(s.regs), Get(s.regs, src);
    hide Quotient, Truncates, Dividend;
    if b == 0 {
      forall q: int64 ensures !Truncates(d, b, q) { NoQuotient(d, q); }
    } else {
      var q0 := Quotient(d, b);
      QuotientTruncates(d, b, q0);
      forall q: int64 ensures Truncates(d, b, q) <==> q == q0 { QuotientTruncates(d, b, q); }
    }
  }

  lemma NoQuotient(a: int, q: int)
    ensures !Truncates(a, 0, q)
  {
  }

  function Pow2(k: nat): nat {
    if k == 0 then 1 else 2 * Pow2(k - 1)
  }

  lemma WrapDoubles(a: int, b: int)
    ensures Wrap(Wrap(a + a) * b) == Wrap(a * (2 * b))
  {
    WrapStep(a + a, b);
    assert (a + a) * b == a * (2 * b);
  }

  lemma WrapStep(x: int, b: int)
    ensures Wrap(Wrap(x) * b) == Wrap(x * b)
  {
    var m := 0x1_0000_0000_0000_0000;
    var w: int := Wrap(x);
    var q := x / m;
    var d := if x % m < 0x8000_0000_0000_0000 then q else q + 1;
    assert w == x - m * d;
    WrapShifted(x * b, d * b);
    assert (x - m * d) * b == x * b - m * (d * b);
  }

  lemma WrapShifted(y: int, k: int)
    ensures Wrap(y - 0x1_0000_0000_0000_0000 * k) == Wrap(y)
  {
    var m := 0x1_0000_0000_0000_0000;
    var q, r := y / m, y % m;
    assert y - m * k == m * (q - k) + r;
    assert (y - m * k) % m == r;
  }

  /** Shifting left by k is multiplying by 2^k modulo 2^64, for negative values too. */
  lemma {:induction false} ShiftIsMultiply(v: int64, k: nat)
    ensures ShiftLeft(v, k) == Wrap(v * Pow2(k))
    decreases k
  {
    if k == 0 {
    } else {
      ShiftIsMultiply(Wrap(v + v), k - 1);
      WrapDoubles(v, Pow2(k - 1));
    }
  }

  lemma {:induction false} Pow2Even(k: nat)
    requires k >= 1
    ensures Pow2(k) >= 2 && Pow2(k) % 2 == 0
  {
    if k > 1 { Pow2Even(k - 1); }
    assert Pow2(k) == 2 * Pow2(k - 1);
  }
}
