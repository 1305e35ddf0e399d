/** The code of an expression computes its value, wherever it stands in a program. */
module ExprSimulation {
  import opened BasicAst
  import opened X86Machine
  import opened CodeGen

  /** `fragment` stands at position `p` of `code`. */
  ghost predicate At(code: seq<Instr>, p: nat, fragment: seq<Instr>) {
    p + |fragment| <= |code| && forall i {:trigger fragment[i]} :: 0 <= i < |fragment| ==> code[p + i] == fragment[i]
  }

  lemma AtSplit(code: seq<Instr>, p: nat, a: seq<Instr>, b: seq<Instr>)
    requires At(code, p, a + b)
    ensures At(code, p, a) && At(code, p + |a|, b)
  {
    forall i | 0 <= i < |a| ensures code[p + i] == a[i] { assert (a + b)[i] == a[i]; }
    forall i | 0 <= i < |b| ensures code[p + |a| + i] == b[i] { assert (a + b)[|a| + i] == b[i]; }
  }

  /** The address of a variable's slot. */
  function Slot(rbp: int, i: int): int { rbp - 8 * (i + 1) }

  /** The 26 slots below %rbp hold the variables. */
  ghost predicate Slots(mem: map<int, int>, rbp: int, env: Env) {
    forall i :: 0 <= i < 26 ==> Cell(mem, Slot(rbp, i)) == env[i]
  }

  ghost predicate SameFrom(before: map<int, int>, after: map<int, int>, address: int) {
    forall a :: a >= address ==> Cell(before, a) == Cell(after, a)
  }

  /** About to run `fragment` at `p`, with the variables in their slots and every slot above the stack pointer. */
  ghost predicate Ready(m: Machine, s: State, p: nat, fragment: seq<Instr>, env: Env) {
    && s.status == Running && s.pc == p && At(m.code, p, fragment)
    && Slots(s.mem, s.regs.rbp, env) && s.regs.rsp <= s.regs.rbp - FRAME
  }

  /** The stack discipline: the stack pointer is restored and nothing at or above it was written. */
  ghost predicate Balanced(s: State, t: State) {
    && t.status == Running && t.out == s.out
    && t.regs.rsp == s.regs.rsp && t.regs.rbp == s.regs.rbp
    && SameFrom(s.mem, t.mem, s.regs.rsp)
  }

  /** `t` is where an expression's code leaves the machine that was in state `s`. */
  ghost predicate Computed(s: State, t: State, end: nat, result: Result) {
    match result
    case Value(v) => Balanced(s, t) && t.pc == end && t.regs.rdi == v
    case DivideError => t.status == DivideTrap && t.out == s.out
  }

  lemma SlotsKept(before: map<int, int>, after: map<int, int>, rbp: int, env: Env, from: int)
    requires Slots(before, rbp, env) && SameFrom(before, after, from) && from <= rbp - FRAME
    ensures Slots(after, rbp, env)
  {
    forall i | 0 <= i < 26 ensures Cell(after, Slot(rbp, i)) == env[i] {
      assert Cell(before, Slot(rbp, i)) == env[i];
      assert Slot(rbp, i) >= from;
    }
  }

  /** Expressions use no labels. */
  lemma {:induction false} ExprIds(n: Node, ids: Ids)
    requires IsExpr(n) || IsTest(n)
    ensures Code(n, ids).ids == ids
  {
    if n.Bin? {
      ExprIds(n.right, ids);
      ExprIds(n.left, ids);
    }
  }

  /** Running the code of an expression. */
  lemma {:induction false} ExprRuns(m: Machine, n: Node, ids: Ids, p: nat, s: State, env: Env) returns (k: nat)
    requires IsExpr(n) && ExprFoldable(n)
    requires Ready(m, s, p, Code(n, ids).code, env)
    ensures Computed(s, Run(m, s, k), p + |Code(n, ids).code|, Eval(n, env))
    decreases n, 1
  {
    FoldCorrect(n, env);
    var code := Code(n, ids).code;
    if Fold(n).Constant? {
      assert code[0] == MovImm(Fold(n).v, Rdi);
      k := RunOne(m, s);
    } else if n.Var? {
      assert code[0] == Load(Displacement(n.name), Rdi);
      assert s.regs.rbp + Displacement(n.name) == Slot(s.regs.rbp, VarIndex(n.name));
      k := RunOne(m, s);
    } else {
      k := BinRuns(m, n, ids, p, s, env);
    }
  }

  lemma RunOne(m: Machine, s: State) returns (k: nat)
    ensures k == 1 && Run(m, s, k) == Step(m, s)
  {
    k := 1;
    assert Run(m, Step(m, s), 0) == Step(m, s);
  }

  /** The code of a binary node: right operand, push, left operand, pop, combine. */
  lemma BinLayout(code: seq<Instr>, p: nat, n: Node, ids: Ids)
    requires n.Bin? && !Fold(n).Constant? && At(code, p, Code(n, ids).code)
    ensures var r := Code(n.right, ids); var l := Code(n.left, r.ids);
            var q := p + |r.code|; var e := q + 1 + |l.code|;
            && |Code(n, ids).code| == |r.code| + 1 + |l.code| + 1 + |Combine(n.op, n.right)|
            && At(code, p, r.code) && q < |code| && code[q] == Push(Rdi)
            && At(code, q + 1, l.code) && e < |code| && code[e] == Pop(R10)
            && At(code, e + 1, Combine(n.op, n.right))
  {
    var r := Code(n.right, ids);
    var l := Code(n.left, r.ids);
    BinCodeAt(code, p, r.code, l.code, Combine(n.op, n.right));
  }

  lemma BinCodeAt(code: seq<Instr>, p: nat, r: seq<Instr>, l: seq<Instr>, c: seq<Instr>)
    requires At(code, p, BinCode(r, l, c))
    ensures var q := p + |r|; var e := q + 1 + |l|;
            && At(code, p, r) && q < |code| && code[q] == Push(Rdi)
            && At(code, q + 1, l) && e < |code| && code[e] == Pop(R10)
            && At(code, e + 1, c)
  {
    var push, pop := [Push(Rdi)], [Pop(R10)];
    AtSplit(code, p, r, push + (l + (pop + c)));
    AtSplit(code, p + |r|, push, l + (pop + c));
    AtSplit(code, p + |r| + 1, l, pop + c);
    AtSplit(code, p + |r| + 1 + |l|, pop, c);
    assert push[0] == Push(Rdi) && pop[0] == Pop(R10);
  }

  /** Both operands of a binary node: the machine ends with them in %rdi and %r10, or has trapped. */
  ghost predicate Operands(s: State, t: State, at: nat, a: Result, b: Result) {
    if b.Value? && a.Value? then Balanced(s, t) && t.pc == at && t.regs.rdi == a.v && t.regs.r10 == b.v
    else t.status == DivideTrap && t.out == s.out
  }

  lemma {:induction false} OperandsRun(m: Machine, n: Node, ids: Ids, p: nat, s: State, env: Env) returns (k: nat)
    requires n.Bin? && !Fold(n).Constant? && IsExpr(n.left) && IsExpr(n.right)
    requires ExprFoldable(n.left) && ExprFoldable(n.right)
    requires Ready(m, s, p, Code(n, ids).code, env)
    ensures Operands(s, Run(m, s, k), p + |Code(n, ids).code| - |Combine(n.op, n.right)|, Eval(n.left, env),
            Eval(n.right, env))
    decreases n, 0, 0
  {
    hide Step, Code, Eval, Fold;
    BinLayout(m.code, p, n, ids);
    ExprIds(n.right, ids);
    k := ExprRuns(m, n.right, ids, p, s, env);
    var b := Eval(n.right, env);
    if b.Value? {
      var s1 := Run(m, s, k);
      SlotsKept(s.mem, s1.mem, s.regs.rbp, env, s.regs.rsp);
      var j := LeftRuns(m, n.left, ids, s1, env);
      RunSplit(m, s, k, j);
      OperandsJoin(s, s1, Run(m, s1, j), s1.pc + |Code(n.left, ids).code| + 2, Eval(n.left, env), b.v);
      k := k + j;
    }
  }

  lemma OperandsJoin(s: State, s1: State, t: State, at: nat, a: Result, b: int64)
    requires Balanced(s, s1) && Operands(s1, t, at, a, Value(b))
    ensures Operands(s, t, at, a, Value(b))
  {
  }

  /** Push the right operand, compute the left one, pop. */
  lemma {:induction false} LeftRuns(m: Machine, left: Node, ids: Ids, s1: State, env: Env) returns (k: nat)
    requires IsExpr(left) && ExprFoldable(left)
    requires s1.status == Running && s1.pc < |m.code| && m.code[s1.pc] == Push(Rdi)
    requires Slots(s1.mem, s1.regs.rbp, env) && s1.regs.rsp <= s1.regs.rbp - FRAME
    requires At(m.code, s1.pc + 1, Code(left, ids).code)
    requires var e := s1.pc + 1 + |Code(left, ids).code|; e < |m.code| && m.code[e] == Pop(R10)
    requires -0x8000_0000_0000_0000 <= s1.regs.rdi < 0x8000_0000_0000_0000
    ensures Operands(s1, Run(m, s1, k), s1.pc + |Code(left, ids).code| + 2, Eval(left, env), Value(s1.regs.rdi))
    decreases left, 2
  {
    hide Run, Code, Eval, Fold;
    var s2 := Step(m, s1);
    PushKeeps(s1, s2, m);
    SlotsKept(s1.mem, s2.mem, s1.regs.rbp, env, s1.regs.rsp);
    var j := ExprRuns(m, left, ids, s2.pc, s2, env);
    k := PushComputePop(m, s1, s2, j, s2.pc + |Code(left, ids).code|, Eval(left, env));
  }

  lemma PushComputePop(m: Machine, s1: State, s2: State, j: nat, at: nat, a: Result) returns (k: nat)
    requires s1.status == Running && s2 == Step(m, s1)
    requires s2.regs.rsp == s1.regs.rsp - 8 && s2.regs.rbp == s1.regs.rbp && s2.out == s1.out
    requires SameFrom(s1.mem, s2.mem, s1.regs.rsp) && Cell(s2.mem, s2.regs.rsp) == s1.regs.rdi
    requires at < |m.code| && m.code[at] == Pop(R10) && Computed(s2, Run(m, s2, j), at, a)
    requires -0x8000_0000_0000_0000 <= s1.regs.rdi < 0x8000_0000_0000_0000
    ensures Operands(s1, Run(m, s1, k), at + 1, a, Value(s1.regs.rdi))
  {
    var i := PopAfter(m, s1, s2, Run(m, s2, j), at, a);
    RunSplit(m, s2, j, i);
    k := 1 + (j + i);
    hide Step;
    assert Run(m, s1, k) == Run(m, s2, j + i);
  }

  /** After the left operand, popping brings the right one back. */
  lemma PopAfter(m: Machine, s1: State, s2: State, s3: State, at: nat, a: Result) returns (k: nat)
    requires s2.regs.rsp == s1.regs.rsp - 8 && s2.regs.rbp == s1.regs.rbp && s2.out == s1.out
    requires SameFrom(s1.mem, s2.mem, s1.regs.rsp) && Cell(s2.mem, s2.regs.rsp) == s1.regs.rdi
    requires at < |m.code| && m.code[at] == Pop(R10) && Computed(s2, s3, at, a)
    ensures if a.Value? then
              var t := Run(m, s3, k);
              Balanced(s1, t) && t.pc == at + 1 && t.regs.rdi == a.v && t.regs.r10 == s1.regs.rdi
            else k == 0 && Run(m, s3, k) == s3
  {
    if a.Value? {
      k := RunOne(m, s3);
      PopRestores(s1, s2, s3, Step(m, s3), m);
    } else {
      k := 0;
    }
  }

  lemma PushKeeps(s: State, t: State, m: Machine)
    requires s.status == Running && s.pc < |m.code| && m.code[s.pc] == Push(Rdi) && t == Step(m, s)
    ensures t.status == Running && t.pc == s.pc + 1 && t.out == s.out
    ensures t.regs == s.regs.(rsp := s.regs.rsp - 8)
    ensures SameFrom(s.mem, t.mem, s.regs.rsp) && Cell(t.mem, t.regs.rsp) == s.regs.rdi
  {
  }

  lemma PopRestores(s1: State, s2: State, s3: State, s4: State, m: Machine)
    requires s2.regs.rsp == s1.regs.rsp - 8 && s2.regs.rbp == s1.regs.rbp && s2.out == s1.out
    requires SameFrom(s1.mem, s2.mem, s1.regs.rsp) && Cell(s2.mem, s2.regs.rsp) == s1.regs.rdi
    requires Balanced(s2, s3) && s3.pc < |m.code| && m.code[s3.pc] == Pop(R10) && s4 == Step(m, s3)
    ensures Balanced(s1, s4) && s4.pc == s3.pc + 1 && s4.regs.rdi == s3.regs.rdi && s4.regs.r10 == s1.regs.rdi
  {
    assert Cell(s2.mem, s2.regs.rsp) == Cell(s3.mem, s2.regs.rsp);
  }

  lemma {:induction false} BinRuns(m: Machine, n: Node, ids: Ids, p: nat, s: State, env: Env) returns (k: nat)
    requires n.Bin? && !Fold(n).Constant? && IsExpr(n) && ExprFoldable(n)
    requires Ready(m, s, p, Code(n, ids).code, env)
    ensures Computed(s, Run(m, s, k), p + |Code(n, ids).code|, Eval(n, env))
    decreases n, 0, 1
  {
    hide Step, Run, Code, Fold;
    BinLayout(m.code, p, n, ids);
    k := OperandsRun(m, n, ids, p, s, env);
    FoldCorrect(n.right, env);
    var j := CombineAfter(m, n.op, n.right, s, Run(m, s, k),
                          p + |Code(n, ids).code| - |Combine(n.op, n.right)|, Eval(n.left, env), Eval(n.right, env));
    RunSplit(m, s, k, j);
    k := k + j;
  }

  function ArithmeticOf(op: char, a: Result, b: Result): Result
    requires IsArithmetic(op)
  {
    if b.DivideError? || a.DivideError? then DivideError else Arithmetic(op, a.v, b.v)
  }

  lemma CombineAfter(m: Machine, op: char, right: Node, s: State, t: State, at: nat, a: Result,
                     b: Result) returns (k: nat)
    requires IsArithmetic(op) && Operands(s, t, at, a, b) && At(m.code, at, Combine(op, right))
    requires right.Num? ==> b == Value(right.value)
    ensures Computed(s, Run(m, t, k), at + |Combine(op, right)|, ArithmeticOf(op, a, b))
  {
    if a.Value? && b.Value? {
      k := CombineRuns(m, op, right, t, a.v, b.v);
    } else {
      k := 0;
    }
  }

  lemma CombineRuns(m: Machine, op: char, right: Node, s: State, a: int64, b: int64) returns (k: nat)
    requires IsArithmetic(op) && s.status == Running && At(m.code, s.pc, Combine(op, right))
    requires s.regs.rdi == a && s.regs.r10 == b && (right.Num? ==> right.value == b)
    ensures Computed(s, Run(m, s, k), s.pc + |Combine(op, right)|, Arithmetic(op, a, b))
  {
    var c := Combine(op, right);
    assert m.code[s.pc] == c[0];
    if op == '/' {
      k := DivideRuns(m, s, a, b);
    } else {
      if op == '*' { MultiplyRight(right, a, b); }
      k := RunOne(m, s);
    }
  }

  /** Replacing imulq by shlq changes nothing. */
  lemma MultiplyRight(right: Node, a: int64, b: int64)
    requires right.Num? ==> right.value == b
    ensures Multiply(right).Shl? ==> ShiftLeft(a, Multiply(right).count) == Wrap(a * b)
  {
    if Multiply(right).Shl? {
      ShiftAmountCorrect(right.value);
      ShiftIsMultiply(a, ShiftAmount(right.value));
    }
  }

  lemma DivideRuns(m: Machine, s: State, a: int64, b: int64) returns (k: nat)
    requires s.status == Running && At(m.code, s.pc, Combine('/', Num(0)))
    requires s.regs.rdi == a && s.regs.r10 == b
    ensures Computed(s, Run(m, s, k), s.pc + 4, Arithmetic('/', a, b))
  {
    var c := Combine('/', Num(0));
    assert m.code[s.pc] == c[0] && m.code[s.pc + 1] == c[1] && m.code[s.pc + 2] == c[2] && m.code[s.pc + 3] == c[3];
    var s2 := Step(m, Step(m, s));
    ExtendRuns(m, s, s2);
    var s4 := Step(m, Step(m, s2));
    IdivRuns(m, s2, s4, a, b);
    k := 4;
    RunTwo(m, s);
    RunTwo(m, s2);
    RunSplit(m, s, 2, 2);
  }

  lemma RunTwo(m: Machine, s: State)
    ensures Run(m, s, 2) == Step(m, Step(m, s))
  {
    var k := RunOne(m, Step(m, s));
  }

  lemma ExtendRuns(m: Machine, s: State, t: State)
    requires s.status == Running && s.pc + 1 < |m.code| && m.code[s.pc] == MovReg(Rdi, Rax) && m.code[s.pc + 1] == Cqto
    requires t == Step(m, Step(m, s))
    ensures t == s.(pc := s.pc + 2, regs := s.regs.(rax := s.regs.rdi, rdx := if s.regs.rdi < 0 then -1 else 0))
  {
  }

  /** `idivq` followed by the move of the quotient. */
  lemma IdivRuns(m: Machine, s: State, t: State, a: int64, b: int64)
    requires s.status == Running && s.pc + 1 < |m.code| && m.code[s.pc] == Idiv(R10)
    requires m.code[s.pc + 1] == MovReg(Rax, Rdi)
    requires t == Step(m, Step(m, s))
    requires s.regs.rax == a && s.regs.rdx == (if a < 0 then -1 else 0) && s.regs.r10 == b
    ensures Computed(s, t, s.pc + 2, Arithmetic('/', a, b))
  {
    CqtoExtends(s.regs, a);
    if DivisionTraps(a, b) {
      assert Step(m, s) == s.(status := DivideTrap);
    } else {
      assert Step(m, s).regs.rax == Quotient(a, b);
    }
  }
}
