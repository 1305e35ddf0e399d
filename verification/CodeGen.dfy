/** What the compiler emits: constant folding, strength reduction, instructions and labels. */
module CodeGen {
  import opened BasicAst
  import opened X86Machine

  // ---------- Constant folding ----------

  /** `fold`'s answer. Folding a division computes it, so the compiler itself can die of a divide error. */
  datatype Folded = Constant(v: int64) | NotConstant | CompilerDies

  function Fold(n: Node): Folded {
    match n
    case Num(v) => Constant(v)
    case Bin(op, left, right) =>
      var l := Fold(left);
      if l.CompilerDies? then CompilerDies else
      var r := Fold(right);
      if r.CompilerDies? then CompilerDies
      else if l.Constant? && r.Constant? && IsArithmetic(op) then
        var result := Arithmetic(op, l.v, r.v);
        if result.Value? then Constant(result.v) else CompilerDies
      else NotConstant
    case _ => NotConstant
  }

  /** No variable occurs in the expression. */
  predicate IsClosed(n: Node)
    requires IsExpr(n)
  {
    match n
    case Num(_) => true
    case Bin(_, left, right) => IsClosed(left) && IsClosed(right)
    case _ => false
  }

  const SOME_ENV: Env := [0, 0, 0, 0, 0, 0, 0, 0, 0, 0, 0, 0, 0, 0, 0, 0, 0, 0, 0, 0, 0, 0, 0, 0, 0, 0]

  /** No closed subexpression divides by zero or overflows a division. */
  predicate ExprFoldable(n: Node)
    requires IsExpr(n)
  {
    && (n.Bin? ==> ExprFoldable(n.left) && ExprFoldable(n.right))
    && (IsClosed(n) ==> Eval(n, SOME_ENV).Value?)
  }

  predicate Foldable(n: Node)
    requires IsExpr(n) || IsTest(n) || IsTree(n)
  {
    match n
    case Sequence(statements) => forall s :: s in statements ==> Foldable(s)
    case Print(expr) => ExprFoldable(expr)
    case Let(_, rhs) => ExprFoldable(rhs)
    case If(condition, ifBranch, elseBranch) =>
      && ExprFoldable(condition.left) && ExprFoldable(condition.right)
      && Foldable(ifBranch) && (elseBranch.ElseBranch? ==> Foldable(elseBranch.node))
    case While(condition, body) =>
      ExprFoldable(condition.left) && ExprFoldable(condition.right) && Foldable(body)
    case Bin(op, left, right) =>
      if IsArithmetic(op) then ExprFoldable(n) else ExprFoldable(left) && ExprFoldable(right)
    case _ => ExprFoldable(n)
  }

  // ---------- Strength reduction ----------

  /** k >= 1 when `num` is 2^k, otherwise 0; see ShiftAmountCorrect. */
  function ShiftAmount(num: int): nat
    decreases if num < 0 then 0 else num
  {
    if num <= 1 || num % 2 == 1 then 0
    else if num == 2 then 1
    else
      var k := ShiftAmount(num / 2);
      if k == 0 then 0 else k + 1
  }

  function Multiply(right: Node): Instr {
    if right.Num? && ShiftAmount(right.value) != 0 then Shl(ShiftAmount(right.value), Rdi) else Imul(R10, Rdi)
  }

  /** The instructions that combine the left operand in %rdi with the right one in %r10. */
  function Combine(op: char, right: Node): seq<Instr> {
    if op == '+' then [Add(R10, Rdi)]
    else if op == '-' then [Sub(R10, Rdi)]
    else if op == '*' then [Multiply(right)]
    else if op == '/' then [MovReg(Rdi, Rax), Cqto, Idiv(R10), MovReg(Rax, Rdi)]
    else [Cmp(R10, Rdi)]
  }

  // ---------- Code generation ----------

  /** The next unused label numbers, `if_id` and `while_id`. */
  datatype Ids = Ids(ifs: nat, whiles: nat)

  datatype Emitted = Emitted(code: seq<Instr>, ids: Ids)

  function Displacement(name: char): int {
    (name as int - 'A' as int + 1) * -8
  }

  /** The jump taken when a condition with this operator holds; any other operator emits no jump. */
  function JumpIf(op: char, target: Label): seq<Instr> {
    if op == '=' then [Jcc(E, target)]
    else if op == '<' then [Jcc(L, target)]
    else if op == '>' then [Jcc(G, target)]
    else []
  }

  function JumpUnless(op: char, target: Label): seq<Instr> {
    if op == '=' then [Jcc(NE, target)]
    else if op == '<' then [Jcc(GE, target)]
    else if op == '>' then [Jcc(LE, target)]
    else []
  }

  function Operator(condition: Node): char {
    if condition.Bin? then condition.op else '\0'
  }

  /** Right operand, left operand, then the instructions that combine them. */
  function BinCode(right: seq<Instr>, left: seq<Instr>, combine: seq<Instr>): seq<Instr> {
    right + ([Push(Rdi)] + (left + ([Pop(R10)] + combine)))
  }

  /** The else branch comes first, then the one for a condition that holds. */
  function IfCode(condition: seq<Instr>, op: char, id: nat, elseCode: seq<Instr>, thenCode: seq<Instr>): seq<Instr> {
    condition + (JumpIf(op, IfLabel(id)) + (elseCode + ([Jmp(EndIfLabel(id)), Define(IfLabel(id))]
                 + (thenCode + [Jmp(EndIfLabel(id)), Define(EndIfLabel(id))]))))
  }

  function WhileCode(condition: seq<Instr>, op: char, id: nat, body: seq<Instr>): seq<Instr> {
    [Define(WhileLabel(id))] + (condition + (JumpUnless(op, EndWhileLabel(id))
                                + (body + [Jmp(WhileLabel(id)), Define(EndWhileLabel(id))])))
  }

  function Code(n: Node, ids: Ids): Emitted
    decreases n, 1
  {
    var folded := Fold(n);
    if folded.Constant? then Emitted([MovImm(folded.v, Rdi)], ids) else
    match n
    case Num(v) => Emitted([MovImm(v, Rdi)], ids)
    case Print(expr) =>
      var e := Code(expr, ids);
      Emitted(e.code + [CallPrintInt], e.ids)
    case Sequence(statements) => CodeAll(statements, ids)
    case Bin(op, left, right) =>
      var r := Code(right, ids);
      var l := Code(left, r.ids);
      Emitted(BinCode(r.code, l.code, Combine(op, right)), l.ids)
    case Var(name) => Emitted([Load(Displacement(name), Rdi)], ids)
    case Let(variable, rhs) =>
      var e := Code(rhs, ids);
      Emitted(e.code + [Store(Rdi, Displacement(variable))], e.ids)
    case If(condition, ifBranch, elseBranch) =>
      var c := Code(condition, ids);
      var id := c.ids.ifs;
      var after := c.ids.(ifs := id + 1);
      var e := if elseBranch.ElseBranch? then Code(elseBranch.node, after) else Emitted([], after);
      var t := Code(ifBranch, e.ids);
      Emitted(IfCode(c.code, Operator(condition), id, e.code, t.code), t.ids)
    case While(condition, body) =>
      var id := ids.whiles;
      var c := Code(condition, ids.(whiles := id + 1));
      var b := Code(body, c.ids);
      Emitted(WhileCode(c.code, Operator(condition), id, b.code), b.ids)
  }

  function CodeAll(statements: seq<Node>, ids: Ids): Emitted
    decreases statements, 0
  {
    if statements == [] then Emitted([], ids)
    else
      var first := Code(statements[0], ids);
      var rest := CodeAll(statements[1..], first.ids);
      Emitted(first.code + rest.code, rest.ids)
  }

  const FRAME: nat := 26 * 8

  const HEADER: seq<Instr> := [Push(Rbp), MovReg(Rsp, Rbp), SubRsp(FRAME)]

  const FOOTER: seq<Instr> := [AddRsp(FRAME), Pop(Rbp), Ret]

  /** The whole assembly program. */
  function Program(n: Node): seq<Instr> {
    HEADER + Code(n, Ids(0, 0)).code + FOOTER
  }

  // ---------- What folding and strength reduction compute ----------

  lemma {:induction false} ClosedSameValue(n: Node, env: Env, env': Env)
    requires IsExpr(n) && IsClosed(n)
    ensures Eval(n, env) == Eval(n, env')
  {
    match n
    case Bin(_, left, right) =>
      ClosedSameValue(left, env, env');
      ClosedSameValue(right, env, env');
    case _ =>
  }

  /** `fold` finds the closed expressions and their value, and dies exactly when some closed subexpression has none:
      an operation's value is its wrap-around sum, difference or product, or its quotient truncated toward zero; there
      is none for a division by zero, and of the smallest number by -1. */
  lemma {:induction false} FoldCorrect(n: Node, env: Env)
    requires IsExpr(n)
    ensures Fold(n).CompilerDies? <==> !ExprFoldable(n)
    ensures ExprFoldable(n) ==> (Fold(n).Constant? <==> IsClosed(n))
    ensures Fold(n).Constant? ==> Eval(n, env) == Value(Fold(n).v)
    ensures n.Bin? && Fold(n.left).Constant? && Fold(n.right).Constant? ==>
              var a, b := Fold(n.left).v, Fold(n.right).v;
              && (Fold(n).CompilerDies? <==> Stuck(n.op, a, b))
              && (!Stuck(n.op, a, b) ==> Fold(n).Constant? && Yields(n.op, a, b, Fold(n).v))
  {
    match n
    case Bin(op, left, right) =>
      if Fold(left).Constant? && Fold(right).Constant? { FoldOperation(op, Fold(left).v, Fold(right).v); }
      FoldCorrect(left, env);
      FoldCorrect(right, env);
      FoldCorrect(left, SOME_ENV);
      FoldCorrect(right, SOME_ENV);
    case _ =>
  }

  lemma FoldOperation(op: char, a: int64, b: int64)
    requires IsArithmetic(op)
    ensures var r := Arithmetic(op, a, b);
            (r.DivideError? <==> Stuck(op, a, b)) && (r.Value? ==> Yields(op, a, b, r.v))
  {
    var r := Arithmetic(op, a, b);
    ArithmeticExact(op, a, b, if r.Value? then r.v else 0);
  }

  /** On a condition `fold` never answers a constant, and dies exactly when an operand is not foldable. */
  lemma FoldCondition(n: Node)
    requires IsTest(n)
    ensures !Fold(n).Constant?
    ensures Fold(n).CompilerDies? <==> !Foldable(n)
  {
    FoldCorrect(n.left, SOME_ENV);
    FoldCorrect(n.right, SOME_ENV);
  }

  /** `is_power_of_two` returns the exponent exactly for 2, 4, 8, ... and 0 for everything else. */
  lemma {:induction false} ShiftAmountCorrect(num: int)
    ensures ShiftAmount(num) != 0 ==> num == Pow2(ShiftAmount(num))
    ensures forall k: nat :: k >= 1 && num == Pow2(k) ==> ShiftAmount(num) == k
    decreases if num < 0 then 0 else num
  {
    if num <= 1 || num % 2 == 1 {
      forall k: nat | k >= 1 ensures num != Pow2(k) { Pow2Even(k); }
    } else {
      ShiftAmountCorrect(num / 2);
      forall k: nat | k >= 1 && num == Pow2(k) ensures ShiftAmount(num) == k {
        if k > 1 { assert num / 2 == Pow2(k - 1); Pow2Even(k - 1); } else { assert Pow2(1) == 2; }
      }
    }
  }

  /** An expression without variables costs one instruction. */
  lemma ClosedCode(n: Node, ids: Ids, env: Env)
    requires IsExpr(n) && ExprFoldable(n)
    ensures IsClosed(n) ==> Eval(n, env).Value? && Code(n, ids) == Emitted([MovImm(Eval(n, env).v, Rdi)], ids)
  {
    FoldCorrect(n, env);
  }

  /** A shift stands for a multiplication if and only if the right factor is written as a power of two, from 2 up. */
  lemma ShiftChosen(right: Node, k: nat)
    requires k >= 1
    ensures Multiply(right) == Shl(k, Rdi) <==> right.Num? && right.value == Pow2(k)
    ensures Multiply(right).Shl? || Multiply(right) == Imul(R10, Rdi)
  {
    if right.Num? { ShiftAmountCorrect(right.value); }
  }
}
