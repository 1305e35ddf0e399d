/** The code of a statement does what the statement does: prints, variables, traps and endless loops. */
module StmtSimulation {
  import opened BasicAst
  import opened X86Machine
  import opened CodeGen
  import opened ExprSimulation
  import opened Labels

  /** Between statements the stack pointer is at the bottom of the frame, 16-byte aligned. */
  ghost predicate Framed(s: State, env: Env) {
    && s.status == Running && s.regs.rsp == s.regs.rbp - FRAME && s.regs.rbp % 16 == 0
    && Slots(s.mem, s.regs.rbp, env)
  }

  /** From `s` the machine got to position `at` of `t`: it printed `out`, the variables are `env`, and
      the stack pointers and everything at or above the saved %rbp are as they were. */
  ghost predicate Reaches(s: State, t: State, at: nat, env: Env, out: seq<int>) {
    && Framed(t, env) && t.pc == at && t.out == s.out + out
    && t.regs.rbp == s.regs.rbp && SameFrom(s.mem, t.mem, s.regs.rbp)
  }

  /** `t`, reached in `k` steps, is what becomes of `s` when the statement has this outcome. */
  ghost predicate Matches(s: State, t: State, k: nat, end: nat, fuel: nat, outcome: Outcome) {
    match outcome
    case Done(env, out) => Reaches(s, t, end, env, out)
    case Trapped(out) => t.status == DivideTrap && t.out == s.out + out
    case OutOfFuel(out) => t.status == Running && t.out == s.out + out && k >= fuel
  }

  lemma ReachesTrans(s: State, t: State, u: State, at: nat, at': nat, env: Env, env': Env, out: seq<int>,
                     out': seq<int>)
    requires Reaches(s, t, at, env, out) && Reaches(t, u, at', env', out')
    ensures Reaches(s, u, at', env', out + out')
  {
    assert s.out + out + out' == s.out + (out + out');
  }

  /** A first part followed by the rest. */
  lemma MatchesAfter(m: Machine, s: State, j: nat, k: nat, at: nat, end: nat, env: Env, out: seq<int>,
                     fuel: nat, fuel': nat, rest: Outcome)
    requires var t := Run(m, s, j); Reaches(s, t, at, env, out) && Matches(t, Run(m, t, k), k, end, fuel', rest)
    requires fuel <= fuel' + j
    ensures Matches(s, Run(m, s, j + k), j + k, end, fuel, After(out, rest))
  {
    hide Run, Step;
    var t := Run(m, s, j);
    var u := Run(m, t, k);
    RunSplit(m, s, j, k);
    match rest
    case Done(env', out') => ReachesTrans(s, t, u, at, end, env, env', out, out');
    case Trapped(out') => assert s.out + out + out' == s.out + (out + out');
    case OutOfFuel(out') => assert s.out + out + out' == s.out + (out + out');
  }

  // ---------- Single instructions at statement level ----------

  lemma ExprKeepsFrame(s: State, t: State, env: Env)
    requires Framed(s, env) && Balanced(s, t)
    ensures Reaches(s, t, t.pc, env, [])
  {
    SlotsKept(s.mem, t.mem, s.regs.rbp, env, s.regs.rsp);
    assert s.out + [] == s.out;
  }

  lemma StoreSlot(m: Machine, s: State, t: State, variable: char, v: int64, env: Env)
    requires Framed(s, env) && Balanced(s, t) && t.regs.rdi == v && IsVariable(variable)
    requires t.pc < |m.code| && m.code[t.pc] == Store(Rdi, Displacement(variable))
    ensures Reaches(s, Step(m, t), t.pc + 1, env[VarIndex(variable) := v], [])
  {
    ExprKeepsFrame(s, t, env);
    var u := Step(m, t);
    var x := VarIndex(variable);
    assert t.regs.rbp + Displacement(variable) == Slot(t.regs.rbp, x);
    forall i | 0 <= i < 26 ensures Cell(u.mem, Slot(u.regs.rbp, i)) == env[x := v][i] {
      assert Cell(t.mem, Slot(t.regs.rbp, i)) == env[i];
    }
  }

  lemma PrintCall(m: Machine, s: State, t: State, v: int64, env: Env)
    requires Framed(s, env) && Balanced(s, t) && t.regs.rdi == v
    requires t.pc < |m.code| && m.code[t.pc] == CallPrintInt
    ensures Reaches(s, Step(m, t), t.pc + 1, env, [v])
  {
    ExprKeepsFrame(s, t, env);
    var u := Step(m, t);
    TrashKeeps(t.mem, m.callee(|t.out|).mem, t.regs.rsp);
    SlotsKept(t.mem, u.mem, t.regs.rbp, env, t.regs.rsp);
  }

  lemma TrashKeeps(mem: map<int, int>, junk: map<int, int>, rsp: int)
    ensures SameFrom(mem, Trash(mem, junk, rsp), rsp)
  {
  }

  lemma PrintRuns(m: Machine, expr: Node, ids: Ids, p: nat, s: State, env: Env) returns (k: nat)
    requires IsExpr(expr) && ExprFoldable(expr) && Framed(s, env) && s.pc == p
    requires At(m.code, p, Code(expr, ids).code + [CallPrintInt])
    ensures var r := Eval(expr, env);
            Matches(s, Run(m, s, k), k, p + |Code(expr, ids).code| + 1, 0,
                if r.Value? then Done(env, [r.v]) else Trapped([]))
  {
    hide Step, Code, Eval, Fold;
    AtSplit(m.code, p, Code(expr, ids).code, [CallPrintInt]);
    assert [CallPrintInt][0] == CallPrintInt;
    k := ExprRuns(m, expr, ids, p, s, env);
    var r := Eval(expr, env);
    if r.Value? {
      PrintCall(m, s, Run(m, s, k), r.v, env);
      var one := RunOne(m, Run(m, s, k));
      RunSplit(m, s, k, 1);
      k := k + 1;
    } else {
      assert s.out + [] == s.out;
    }
  }

  lemma LetRuns(m: Machine, variable: char, rhs: Node, ids: Ids, p: nat, s: State, env: Env) returns (k: nat)
    requires IsVariable(variable) && IsExpr(rhs) && ExprFoldable(rhs) && Framed(s, env) && s.pc == p
    requires At(m.code, p, Code(rhs, ids).code + [Store(Rdi, Displacement(variable))])
    ensures var r := Eval(rhs, env);
            Matches(s, Run(m, s, k), k, p + |Code(rhs, ids).code| + 1, 0,
                    if r.Value? then Done(env[VarIndex(variable) := r.v], []) else Trapped([]))
  {
    hide Step, Code, Eval, Fold;
    var store := [Store(Rdi, Displacement(variable))];
    AtSplit(m.code, p, Code(rhs, ids).code, store);
    assert store[0] == Store(Rdi, Displacement(variable));
    k := ExprRuns(m, rhs, ids, p, s, env);
    var r := Eval(rhs, env);
    if r.Value? {
      StoreSlot(m, s, Run(m, s, k), variable, r.v, env);
      var one := RunOne(m, Run(m, s, k));
      RunSplit(m, s, k, 1);
      k := k + 1;
    } else {
      assert s.out + [] == s.out;
    }
  }

  // ---------- Conditions and jumps ----------

  /** Only a comparison operator has a jump. */
  function JumpSize(op: char): nat { if IsComparison(op) then 1 else 0 }

  /** The jump an IF takes when its condition holds (`sense`), or a WHILE when it does not. */
  function Branch(op: char, sense: bool, target: Label): seq<Instr> {
    if sense then JumpIf(op, target) else JumpUnless(op, target)
  }

  /** Where the machine is after a condition and its jump. */
  ghost predicate Branched(s: State, t: State, condition: Node, env: Env, taken: nat, passed: nat, sense: bool)
    requires IsTest(condition)
  {
    match EvalCondition(condition, env, !sense)
    case TruthError => t.status == DivideTrap && t.out == s.out
    case Truth(holds) => Reaches(s, t, if holds == sense then taken else passed, env, [])
  }

  lemma BranchStep(m: Machine, s: State, op: char, a: int64, b: int64, sense: bool, target: Label, to: nat)
    requires IsComparison(op) && s.status == Running && s.flags == CompareFlags(b, a)
    requires At(m.code, s.pc, Branch(op, sense, target)) && Target(m.code, target) == to
    ensures Step(m, s) == s.(pc := if Compare(op, a, b) == sense then to else s.pc + 1)
  {
    CompareFlagsDecide(b, a);
    var jump := Branch(op, sense, target);
    assert m.code[s.pc] == jump[0];
  }

  lemma CompareStep(m: Machine, s: State, t: State, a: int64, b: int64)
    requires Balanced(s, t) && t.regs.rdi == a && t.regs.r10 == b
    requires t.pc < |m.code| && m.code[t.pc] == Cmp(R10, Rdi)
    ensures Step(m, t) == t.(pc := t.pc + 1, flags := CompareFlags(b, a))
    ensures Balanced(s, Step(m, t))
  {
  }

  lemma BranchRuns(m: Machine, condition: Node, ids: Ids, s: State, env: Env, sense: bool, target: Label,
                   to: nat) returns (k: nat)
    requires IsTest(condition) && ExprFoldable(condition.left) && ExprFoldable(condition.right) && Framed(s, env)
    requires At(m.code, s.pc, Code(condition, ids).code)
    requires At(m.code, s.pc + |Code(condition, ids).code|, Branch(condition.op, sense, target))
    requires Target(m.code, target) == to
    ensures Branched(s, Run(m, s, k), condition, env, to,
                     s.pc + |Code(condition, ids).code| + JumpSize(condition.op), sense)
  {
    hide Run, Step, Code, Eval, EvalCondition, Fold, Slots, SameFrom, Branched, Reaches, Branch, Holds;
    FoldCondition(condition);
    BinLayout(m.code, s.pc, condition, ids);
    k := OperandsRun(m, condition, ids, s.pc, s, env);
    var at := s.pc + |Code(condition, ids).code| - 1;
    assert m.code[at] == Combine(condition.op, condition.right)[0];
    var a, b := Eval(condition.left, env), Eval(condition.right, env);
    var t := Run(m, s, k);
    var j := CompareAndBranch(m, s, t, condition.op, at, a, b, env, sense, target, to);
    RunSplit(m, s, k, j);
    BranchedBy(s, Run(m, t, j), condition, env, to, at + 1 + JumpSize(condition.op), sense, a, b);
    k := k + j;
  }

  lemma BranchedBy(s: State, t: State, condition: Node, env: Env, taken: nat, passed: nat, sense: bool, a: Result,
                   b: Result)
    requires IsTest(condition) && a == Eval(condition.left, env) && b == Eval(condition.right, env)
    requires if a.Value? && b.Value? then
               Reaches(s, t, if Holds(condition.op, a.v, b.v, !sense) == sense then taken else passed, env, [])
             else t.status == DivideTrap && t.out == s.out
    ensures Branched(s, t, condition, env, taken, passed, sense)
  {
  }

  lemma CompareAndBranch(m: Machine, s: State, t: State, op: char, at: nat, a: Result, b: Result, env: Env,
                         sense: bool, target: Label, to: nat) returns (k: nat)
    requires (IsComparison(op) || op == '\0') && Framed(s, env) && Operands(s, t, at, a, b)
    requires at < |m.code| && m.code[at] == Cmp(R10, Rdi)
    requires At(m.code, at + 1, Branch(op, sense, target)) && Target(m.code, target) == to
    ensures if a.Value? && b.Value? then
              Reaches(s, Run(m, t, k),
                      if Holds(op, a.v, b.v, !sense) == sense then to else at + 1 + JumpSize(op), env, [])
            else Run(m, t, k).status == DivideTrap && Run(m, t, k).out == s.out
  {
    if a.Value? && b.Value? {
      CompareStep(m, s, t, a.v, b.v);
      var u := Step(m, t);
      if op == '\0' {
        ExprKeepsFrame(s, u, env);
        k := RunOne(m, t);
      } else {
        BranchStep(m, u, op, a.v, b.v, sense, target, to);
        ExprKeepsFrame(s, Step(m, u), env);
        RunTwo(m, t);
        k := 2;
      }
    } else {
      k := 0;
    }
  }

  /** A label definition or an unconditional jump only moves the program counter. */
  lemma MoveStep(m: Machine, s: State, t: State, at: nat, to: nat, env: Env, out: seq<int>)
    requires Reaches(s, t, at, env, out) && at < |m.code|
    requires (m.code[at].Define? && to == at + 1) || (m.code[at].Jmp? && Target(m.code, m.code[at].target) == to)
    ensures Reaches(s, Step(m, t), to, env, out)
  {
    assert Step(m, t) == t.(pc := to);
  }

  // ---------- Statements ----------

  ghost predicate Legal(m: Machine, n: Node) {
    IsTree(n) && Foldable(n) && UniqueLabels(m.code)
  }

  /** The heart of the correctness proof: the code of a statement, anywhere in a program with unique labels,
      matches the outcome of the statement for every amount of fuel. */
  lemma {:induction false} StmtRuns(m: Machine, n: Node, ids: Ids, p: nat, s: State, env: Env,
                                    fuel: nat) returns (k: nat)
    requires Legal(m, n) && Framed(s, env) && s.pc == p && At(m.code, p, Code(n, ids).code)
    ensures Matches(s, Run(m, s, k), k, p + |Code(n, ids).code|, fuel, Exec(n, env, fuel))
    decreases fuel, n, 2
  {
    hide Run, Step, Eval;
    match n
    case Sequence(statements) => k := AllRun(m, statements, ids, p, s, env, fuel);
    case Print(expr) => k := PrintRuns(m, expr, ids, p, s, env);
    case Let(variable, rhs) => k := LetRuns(m, variable, rhs, ids, p, s, env);
    case If(condition, ifBranch, elseBranch) => k := IfRuns(m, n, ids, p, s, env, fuel);
    case While(condition, body) => k := WhileRuns(m, n, ids, p, s, env, fuel);
  }

  lemma {:induction false} AllRun(m: Machine, statements: seq<Node>, ids: Ids, p: nat, s: State, env: Env,
                                  fuel: nat) returns (k: nat)
    requires forall n :: n in statements ==> IsTree(n) && Foldable(n)
    requires UniqueLabels(m.code) && Framed(s, env) && s.pc == p && At(m.code, p, CodeAll(statements, ids).code)
    ensures Matches(s, Run(m, s, k), k, p + |CodeAll(statements, ids).code|, fuel, ExecAll(statements, env, fuel))
    decreases fuel, statements, 0
  {
    hide Step, Code, Exec, Eval, Fold;
    if statements == [] {
      k := 0;
      assert s.out + [] == s.out;
    } else {
      var first := Code(statements[0], ids);
      AtSplit(m.code, p, first.code, CodeAll(statements[1..], first.ids).code);
      k := StmtRuns(m, statements[0], ids, p, s, env, fuel);
      var done := Exec(statements[0], env, fuel);
      if done.Done? {
        var at := p + |first.code|;
        var j := AllRun(m, statements[1..], first.ids, at, Run(m, s, k), done.env, fuel);
        MatchesAfter(m, s, k, j, at, p + |CodeAll(statements, ids).code|, done.env, done.out, fuel, fuel,
                     ExecAll(statements[1..], done.env, fuel));
        k := k + j;
      }
    }
  }

  lemma IfCodeAt(code: seq<Instr>, p: nat, c: seq<Instr>, op: char, id: nat, e: seq<Instr>, t: seq<Instr>)
    requires At(code, p, IfCode(c, op, id, e, t)) && (IsComparison(op) || op == '\0')
    ensures var q := p + |c|; var x := q + JumpSize(op) + |e|; var y := x + 2 + |t|;
            && At(code, p, c) && At(code, q, JumpIf(op, IfLabel(id))) && At(code, q + JumpSize(op), e)
            && y + 1 < |code| && code[x] == Jmp(EndIfLabel(id)) && code[x + 1] == Define(IfLabel(id))
            && At(code, x + 2, t) && code[y] == Jmp(EndIfLabel(id)) && code[y + 1] == Define(EndIfLabel(id))
            && |IfCode(c, op, id, e, t)| == |c| + |e| + |t| + 4 + JumpSize(op)
  {
    var jump := JumpIf(op, IfLabel(id));
    var middle := [Jmp(EndIfLabel(id)), Define(IfLabel(id))];
    var end := [Jmp(EndIfLabel(id)), Define(EndIfLabel(id))];
    AtSplit(code, p, c, jump + (e + (middle + (t + end))));
    AtSplit(code, p + |c|, jump, e + (middle + (t + end)));
    var q := p + |c| + |jump|;
    AtSplit(code, q, e, middle + (t + end));
    AtSplit(code, q + |e|, middle, t + end);
    AtSplit(code, q + |e| + 2, t, end);
    assert code[q + |e|] == middle[0] && code[q + |e| + 1] == middle[1];
    assert code[q + |e| + 2 + |t|] == end[0] && code[q + |e| + 2 + |t| + 1] == end[1];
  }

  lemma WhileCodeAt(code: seq<Instr>, p: nat, c: seq<Instr>, op: char, id: nat, b: seq<Instr>)
    requires At(code, p, WhileCode(c, op, id, b)) && (IsComparison(op) || op == '\0')
    ensures var q := p + 1 + |c|; var x := q + JumpSize(op) + |b|;
            && p < |code| && code[p] == Define(WhileLabel(id)) && At(code, p + 1, c)
            && At(code, q, JumpUnless(op, EndWhileLabel(id))) && At(code, q + JumpSize(op), b)
            && x + 1 < |code| && code[x] == Jmp(WhileLabel(id)) && code[x + 1] == Define(EndWhileLabel(id))
            && |WhileCode(c, op, id, b)| == |c| + |b| + 3 + JumpSize(op)
  {
    var start := [Define(WhileLabel(id))];
    var jump := JumpUnless(op, EndWhileLabel(id));
    var end := [Jmp(WhileLabel(id)), Define(EndWhileLabel(id))];
    AtSplit(code, p, start, c + (jump + (b + end)));
    AtSplit(code, p + 1, c, jump + (b + end));
    AtSplit(code, p + 1 + |c|, jump, b + end);
    var q := p + 1 + |c| + |jump|;
    AtSplit(code, q, b, end);
    assert code[p] == start[0];
    assert code[q + |b|] == end[0] && code[q + |b| + 1] == end[1];
  }

  /** Two moves at the end of a branch of an IF: over a jump and a label definition. */
  lemma LeaveIf(m: Machine, s: State, j: nat, at: nat, end: nat, name: Label, fuel: nat,
                outcome: Outcome) returns (k: nat)
    requires UniqueLabels(m.code) && Matches(s, Run(m, s, j), j, at, fuel, outcome)
    requires at < |m.code| && m.code[at] == Jmp(name) && end < |m.code| && m.code[end] == Define(name)
    ensures Matches(s, Run(m, s, k), k, end + 1, fuel, outcome)
  {
    k := j;
    if outcome.Done? {
      TargetIs(m.code, end, name);
      var t := Run(m, s, j);
      MoveStep(m, s, t, at, end, outcome.env, outcome.out);
      MoveStep(m, s, Step(m, t), end, end + 1, outcome.env, outcome.out);
      RunTwo(m, t);
      RunSplit(m, s, j, 2);
      k := j + 2;
    }
  }

  lemma LegalIf(m: Machine, n: Node)
    requires n.If? && Legal(m, n)
    ensures IsTree(n) && UniqueLabels(m.code) && IsTest(n.condition)
    ensures ExprFoldable(n.condition.left) && ExprFoldable(n.condition.right)
  {
  }

  lemma LegalWhile(m: Machine, n: Node)
    requires n.While? && Legal(m, n)
    ensures IsTree(n) && UniqueLabels(m.code) && IsTest(n.condition)
    ensures ExprFoldable(n.condition.left) && ExprFoldable(n.condition.right)
  {
  }

  lemma TreeTests(n: Node)
    requires IsTree(n)
    ensures n.If? || n.While? ==> IsTest(n.condition)
  {
  }

  /** The parts of an IF's code and where they stand. */
  lemma IfLayout(m: Machine, n: Node, ids: Ids, p: nat) returns (c: Emitted, e: Emitted, t: Emitted)
    requires n.If? && IsTree(n) && At(m.code, p, Code(n, ids).code)
    ensures c == Code(n.condition, ids) && t == Code(n.ifBranch, e.ids)
    ensures var after := c.ids.(ifs := c.ids.ifs + 1);
            if n.elseBranch.ElseBranch? then e == Code(n.elseBranch.node, after) else e == Emitted([], after)
    ensures var q := p + |c.code|; var x := q + JumpSize(n.condition.op) + |e.code|;
            var y, id := x + 2 + |t.code|, c.ids.ifs;
            && At(m.code, p, c.code) && At(m.code, q, JumpIf(n.condition.op, IfLabel(id)))
            && At(m.code, q + JumpSize(n.condition.op), e.code)
            && y + 1 < |m.code| && m.code[x] == Jmp(EndIfLabel(id)) && m.code[x + 1] == Define(IfLabel(id))
            && At(m.code, x + 2, t.code) && m.code[y] == Jmp(EndIfLabel(id)) && m.code[y + 1] == Define(EndIfLabel(id))
            && p + |Code(n, ids).code| == y + 2
  {
    hide Code, Fold, Exec, Eval, Step, IsTree, IfCode, JumpIf;
    IfUnfold(n, ids);
    TreeTests(n);
    c := Code(n.condition, ids);
    var after := c.ids.(ifs := c.ids.ifs + 1);
    e := if n.elseBranch.ElseBranch? then Code(n.elseBranch.node, after) else Emitted([], after);
    t := Code(n.ifBranch, e.ids);
    IfCodeAt(m.code, p, c.code, n.condition.op, c.ids.ifs, e.code, t.code);
  }

  lemma IfUnfold(n: Node, ids: Ids)
    requires n.If? && IsTree(n)
    ensures var c := Code(n.condition, ids);
            var after := c.ids.(ifs := c.ids.ifs + 1);
            var e := if n.elseBranch.ElseBranch? then Code(n.elseBranch.node, after) else Emitted([], after);
            var t := Code(n.ifBranch, e.ids);
            Code(n, ids) == Emitted(IfCode(c.code, n.condition.op, c.ids.ifs, e.code, t.code), t.ids)
  {
  }

  /** One branch of an IF, after its condition: the branch, then the jump to the end. */
  lemma {:induction false} IfBranchRuns(m: Machine, body: Node, ids: Ids, at: nat, s: State, i: nat, env: Env,
                                        fuel: nat,
                                        end: nat, name: Label) returns (k: nat)
    requires Legal(m, body) && Reaches(s, Run(m, s, i), at, env, []) && At(m.code, at, Code(body, ids).code)
    requires var x := at + |Code(body, ids).code|; x < |m.code| && m.code[x] == Jmp(name)
    requires end < |m.code| && m.code[end] == Define(name)
    ensures Matches(s, Run(m, s, k), k, end + 1, fuel, Exec(body, env, fuel))
    decreases fuel, body, 3
  {
    hide Run, Step, Code, Exec, Eval, Fold;
    var j := StmtRuns(m, body, ids, at, Run(m, s, i), env, fuel);
    k := FinishBranch(m, s, i, j, at, at + |Code(body, ids).code|, env, fuel, Exec(body, env, fuel));
    k := LeaveIf(m, s, k, at + |Code(body, ids).code|, end, name, fuel, Exec(body, env, fuel));
  }

  lemma {:induction false} IfRuns(m: Machine, n: Node, ids: Ids, p: nat, s: State, env: Env, fuel: nat) returns (k: nat)
    requires n.If? && Legal(m, n) && Framed(s, env) && s.pc == p && At(m.code, p, Code(n, ids).code)
    ensures Matches(s, Run(m, s, k), k, p + |Code(n, ids).code|, fuel, Exec(n, env, fuel))
    decreases fuel, n, 1
  {
    hide Run, Step, Code, Exec, Eval, EvalCondition, Fold, Legal, IsTree, Foldable, ExprFoldable;
    LegalIf(m, n);
    var c, e, t := IfLayout(m, n, ids, p);
    var x := p + |c.code| + JumpSize(n.condition.op) + |e.code|;
    TargetIs(m.code, x + 1, IfLabel(c.ids.ifs));
    k := BranchRuns(m, n.condition, ids, s, env, true, IfLabel(c.ids.ifs), x + 1);
    k := IfChoice(m, n, c.ids, e, |t.code|, x, s, k, env, fuel);
  }

  /** After the condition of an IF. */
  lemma {:induction false} IfChoice(m: Machine, n: Node, cids: Ids, e: Emitted, length: nat, x: nat, s: State, i: nat,
                                    env: Env, fuel: nat)
    returns (k: nat)
    requires n.If? && Legal(m, n) && length == |Code(n.ifBranch, e.ids).code|
    requires var after := cids.(ifs := cids.ifs + 1);
             if n.elseBranch.ElseBranch? then e == Code(n.elseBranch.node, after) else e == Emitted([], after)
    requires x >= |e.code| && At(m.code, x - |e.code|, e.code) && At(m.code, x + 2, Code(n.ifBranch, e.ids).code)
    requires var y := x + 2 + length;
             && y + 1 < |m.code| && m.code[x] == Jmp(EndIfLabel(cids.ifs)) && m.code[x + 1].Define?
             && m.code[y] == Jmp(EndIfLabel(cids.ifs)) && m.code[y + 1] == Define(EndIfLabel(cids.ifs))
    requires Branched(s, Run(m, s, i), n.condition, env, x + 1, x - |e.code|, true)
    ensures Matches(s, Run(m, s, k), k, x + 2 + length + 2, fuel, Exec(n, env, fuel))
    decreases fuel, n, 0
  {
    hide Run, Step, Code, Eval, Fold;
    var truth := EvalCondition(n.condition, env, false);
    var end := x + 2 + length + 1;
    if truth.TruthError? {
      k := i;
      assert s.out + [] == s.out;
    } else if truth.holds {
      MoveStep(m, s, Run(m, s, i), x + 1, x + 2, env, []);
      RunJoin(m, s, i);
      k := IfBranchRuns(m, n.ifBranch, e.ids, x + 2, s, i + 1, env, fuel, end, EndIfLabel(cids.ifs));
    } else if n.elseBranch.ElseBranch? {
      k := IfBranchRuns(m, n.elseBranch.node, cids.(ifs := cids.ifs + 1), x - |e.code|, s, i, env, fuel, end,
          EndIfLabel(cids.ifs));
    } else {
      k := LeaveIf(m, s, i, x, end, EndIfLabel(cids.ifs), fuel, Done(env, []));
    }
  }

  lemma RunJoin(m: Machine, s: State, k: nat)
    ensures Run(m, s, k + 1) == Step(m, Run(m, s, k))
  {
    RunSplit(m, s, k, 1);
    var one := RunOne(m, Run(m, s, k));
  }

  lemma FinishBranch(m: Machine, s: State, i: nat, j: nat, at: nat, end: nat, env: Env, fuel: nat,
                     outcome: Outcome) returns (k: nat)
    requires Reaches(s, Run(m, s, i), at, env, [])
    requires Matches(Run(m, s, i), Run(m, Run(m, s, i), j), j, end, fuel, outcome)
    ensures Matches(s, Run(m, s, k), k, end, fuel, outcome)
  {
    MatchesAfter(m, s, i, j, at, end, env, [], fuel, fuel, outcome);
    assert After([], outcome) == outcome by {
      assert [] + outcome.out == outcome.out;
    }
    k := i + j;
  }

  /** The parts of a WHILE's code and where they stand. */
  lemma WhileLayout(m: Machine, n: Node, ids: Ids, p: nat) returns (c: Emitted, b: Emitted)
    requires n.While? && IsTree(n) && At(m.code, p, Code(n, ids).code)
    ensures c == Code(n.condition, ids.(whiles := ids.whiles + 1)) && b == Code(n.body, c.ids)
    ensures var q := p + 1 + |c.code|; var x := q + JumpSize(n.condition.op) + |b.code|; var id := ids.whiles;
            && p < |m.code| && m.code[p] == Define(WhileLabel(id)) && At(m.code, p + 1, c.code)
            && At(m.code, q, JumpUnless(n.condition.op, EndWhileLabel(id)))
            && At(m.code, q + JumpSize(n.condition.op), b.code)
            && x + 1 < |m.code| && m.code[x] == Jmp(WhileLabel(id)) && m.code[x + 1] == Define(EndWhileLabel(id))
            && p + |Code(n, ids).code| == x + 2
  {
    hide Code, Fold, Exec, Eval, Step, IsTree, WhileCode, JumpUnless;
    WhileUnfold(n, ids);
    TreeTests(n);
    c := Code(n.condition, ids.(whiles := ids.whiles + 1));
    b := Code(n.body, c.ids);
    WhileCodeAt(m.code, p, c.code, n.condition.op, ids.whiles, b.code);
  }

  lemma WhileUnfold(n: Node, ids: Ids)
    requires n.While? && IsTree(n)
    ensures var c := Code(n.condition, ids.(whiles := ids.whiles + 1));
            var b := Code(n.body, c.ids);
            Code(n, ids) == Emitted(WhileCode(c.code, n.condition.op, ids.whiles, b.code), b.ids)
  {
  }

  lemma {:induction false} WhileRuns(m: Machine, n: Node, ids: Ids, p: nat, s: State, env: Env,
                                     fuel: nat) returns (k: nat)
    requires n.While? && Legal(m, n) && Framed(s, env) && s.pc == p && At(m.code, p, Code(n, ids).code)
    ensures Matches(s, Run(m, s, k), k, p + |Code(n, ids).code|, fuel, Exec(n, env, fuel))
    decreases fuel, n, 1
  {
    hide Code, At, Step, Eval, EvalCondition, IsTree, Foldable;
    if fuel == 0 {
      k := 0;
      assert s.out + [] == s.out;
    } else {
      k := WhileRound(m, n, ids, p, s, env, fuel);
    }
  }

  lemma {:induction false} WhileRound(m: Machine, n: Node, ids: Ids, p: nat, s: State, env: Env,
                                      fuel: nat) returns (k: nat)
    requires n.While? && Legal(m, n) && Framed(s, env) && s.pc == p && At(m.code, p, Code(n, ids).code) && fuel > 0
    ensures Matches(s, Run(m, s, k), k, p + |Code(n, ids).code|, fuel, Exec(n, env, fuel))
    decreases fuel, n, 1, 0
  {
    hide Run, Step, Code, Exec, Eval, EvalCondition, Fold, Legal, IsTree, Foldable, ExprFoldable;
    LegalWhile(m, n);
    var c, b := WhileLayout(m, n, ids, p);
    var q := p + 1 + |c.code| + JumpSize(n.condition.op);
    var x := q + |b.code|;
    TargetIs(m.code, x + 1, EndWhileLabel(ids.whiles));
    k := WhileTest(m, n.condition, ids.(whiles := ids.whiles + 1), p, s, env, EndWhileLabel(ids.whiles), x + 1);
    k := WhileChoice(m, n, ids, c.ids, q, x, p, s, k, env, fuel);
  }

  /** After the condition of a WHILE. */
  lemma {:induction false} WhileChoice(m: Machine, n: Node, ids: Ids, cids: Ids, q: nat, x: nat, p: nat, s: State,
                                       i: nat,
                                       env: Env, fuel: nat)
    returns (k: nat)
    requires n.While? && Legal(m, n) && fuel > 0 && At(m.code, p, Code(n, ids).code) && p + |Code(n, ids).code| == x + 2
    requires At(m.code, q, Code(n.body, cids).code) && q + |Code(n.body, cids).code| == x
    requires p < |m.code| && m.code[p] == Define(WhileLabel(ids.whiles))
    requires x + 1 < |m.code| && m.code[x] == Jmp(WhileLabel(ids.whiles)) && m.code[x + 1].Define?
    requires Branched(s, Run(m, s, i), n.condition, env, x + 1, q, false)
    ensures Matches(s, Run(m, s, k), k, x + 2, fuel, Exec(n, env, fuel))
    decreases fuel, n, 0
  {
    hide Run, Step, Code, Eval, Fold;
    var truth := EvalCondition(n.condition, env, true);
    k := i;
    if truth.TruthError? {
      assert s.out + [] == s.out;
    } else if !truth.holds {
      MoveStep(m, s, Run(m, s, k), x + 1, x + 2, env, []);
      RunJoin(m, s, k);
      k := k + 1;
    } else {
      var j := StmtRuns(m, n.body, cids, q, Run(m, s, k), env, fuel);
      var round := Exec(n.body, env, fuel);
      k := FinishBranch(m, s, k, j, q, x, env, fuel, round);
      if round.Done? {
        k := WhileAgain(m, n, ids, x, p, s, k, round.env, round.out, fuel);
      }
    }
  }

  /** The jump back, and the rest of the loop. */
  lemma {:induction false} WhileAgain(m: Machine, n: Node, ids: Ids, x: nat, p: nat, s: State, i: nat, env: Env,
                                      out: seq<int>, fuel: nat)
    returns (k: nat)
    requires n.While? && Legal(m, n) && fuel > 0 && At(m.code, p, Code(n, ids).code) && p + |Code(n, ids).code| == x + 2
    requires p < |m.code| && m.code[p] == Define(WhileLabel(ids.whiles))
    requires x < |m.code| && m.code[x] == Jmp(WhileLabel(ids.whiles)) && Reaches(s, Run(m, s, i), x, env, out)
    ensures Matches(s, Run(m, s, k), k, x + 2, fuel, After(out, Exec(n, env, fuel - 1)))
    decreases fuel - 1, n, 2
  {
    hide Run, Step, Code, Exec, Eval, Fold;
    TargetIs(m.code, p, WhileLabel(ids.whiles));
    MoveStep(m, s, Run(m, s, i), x, p, env, out);
    RunJoin(m, s, i);
    var j := WhileRuns(m, n, ids, p, Run(m, s, i + 1), env, fuel - 1);
    MatchesAfter(m, s, i + 1, j, p, x + 2, env, out, fuel, fuel - 1, Exec(n, env, fuel - 1));
    k := i + 1 + j;
  }

  lemma RunNext(m: Machine, s: State, k: nat)
    requires s.status == Running
    ensures Run(m, s, 1 + k) == Run(m, Step(m, s), k)
  {
    hide Step;
  }

  /** A loop's label, condition and exit jump. */
  lemma WhileTest(m: Machine, condition: Node, ids: Ids, p: nat, s: State, env: Env, target: Label,
                  to: nat) returns (k: nat)
    requires IsTest(condition) && ExprFoldable(condition.left) && ExprFoldable(condition.right) && Framed(s, env)
    requires s.pc == p < |m.code| && m.code[p].Define? && At(m.code, p + 1, Code(condition, ids).code)
    requires At(m.code, p + 1 + |Code(condition, ids).code|, JumpUnless(condition.op, target))
    requires Target(m.code, target) == to
    ensures Branched(s, Run(m, s, k), condition, env, to,
                     p + 1 + |Code(condition, ids).code| + JumpSize(condition.op), false)
  {
    hide Code, Eval, Fold, Run, Step, IsTest, ExprFoldable;
    assert s.out + [] == s.out;
    MoveStep(m, s, s, p, p + 1, env, []);
    var t := Step(m, s);
    k := BranchRuns(m, condition, ids, t, env, false, target, to);
    var u := Run(m, t, k);
    RunNext(m, s, k);
    k := 1 + k;
    match EvalCondition(condition, env, true)
    case TruthError =>
    case Truth(holds) => ReachesTrans(s, t, u, p + 1, u.pc, env, env, [], []);
  }
}
