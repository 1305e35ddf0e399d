/** The TeenyBASIC abstract syntax tree, its 64-bit arithmetic and its meaning. */
module BasicAst {

  /** The type of a TeenyBASIC value. */
  type int64 = x: int | -0x8000_0000_0000_0000 <= x < 0x8000_0000_0000_0000

  const INT64_MIN: int := -0x8000_0000_0000_0000

  /** An AST node. A condition is a `Bin` node; `elseBranch` is `NoElse` for a NULL pointer. */
  datatype Node =
    | Num(value: int64)
    | Bin(op: char, left: Node, right: Node)
    | Var(name: char)
    | Sequence(statements: seq<Node>)
    | Print(expr: Node)
    | Let(variable: char, rhs: Node)
    | If(condition: Node, ifBranch: Node, elseBranch: Else)
    | While(condition: Node, body: Node)

  datatype Else = NoElse | ElseBranch(node: Node)

  predicate IsVariable(c: char) { 'A' <= c <= 'Z' }

  predicate IsArithmetic(op: char) { op in {'+', '-', '*', '/'} }

  predicate IsComparison(op: char) { op in {'<', '=', '>'} }

  predicate IsExpr(n: Node) {
    match n
    case Num(_) => true
    case Var(name) => IsVariable(name)
    case Bin(op, left, right) => IsArithmetic(op) && IsExpr(left) && IsExpr(right)
    case _ => false
  }

  predicate IsCondition(n: Node) {
    n.Bin? && IsComparison(n.op) && IsExpr(n.left) && IsExpr(n.right)
  }

  predicate IsStmt(n: Node) {
    match n
    case Sequence(statements) => forall s :: s in statements ==> IsStmt(s)
    case Print(expr) => IsExpr(expr)
    case Let(variable, rhs) => IsVariable(variable) && IsExpr(rhs)
    case If(condition, ifBranch, elseBranch) =>
      IsCondition(condition) && IsStmt(ifBranch) && (elseBranch.ElseBranch? ==> IsStmt(elseBranch.node))
    case While(condition, body) => IsCondition(condition) && IsStmt(body)
    case _ => false
  }

  /** What the parser makes of a condition: when no operator is written, it is NUL. */
  predicate IsTest(n: Node) {
    n.Bin? && (IsComparison(n.op) || n.op == '\0') && IsExpr(n.left) && IsExpr(n.right)
  }

  /** What the parser makes of statements. */
  predicate IsTree(n: Node) {
    match n
    case Sequence(statements) => forall s :: s in statements ==> IsTree(s)
    case Print(expr) => IsExpr(expr)
    case Let(variable, rhs) => IsVariable(variable) && IsExpr(rhs)
    case If(condition, ifBranch, elseBranch) =>
      IsTest(condition) && IsTree(ifBranch) && (elseBranch.ElseBranch? ==> IsTree(elseBranch.node))
    case While(condition, body) => IsTest(condition) && IsTree(body)
    case _ => false
  }

  /** Does every condition in the tree have its operator? */
  predicate HasOperators(n: Node) {
    match n
    case Sequence(statements) => forall s :: s in statements ==> HasOperators(s)
    case If(condition, ifBranch, elseBranch) =>
      condition.Bin? && condition.op != '\0' && HasOperators(ifBranch)
          && (elseBranch.ElseBranch? ==> HasOperators(elseBranch.node))
    case While(condition, body) => condition.Bin? && condition.op != '\0' && HasOperators(body)
    case _ => true
  }

  lemma {:induction false} StatementsAreTrees(n: Node)
    ensures IsStmt(n) <==> IsTree(n) && HasOperators(n)
  {
    match n
    case Sequence(statements) =>
      forall s | s in statements ensures IsStmt(s) <==> IsTree(s) && HasOperators(s) { StatementsAreTrees(s); }
    case If(_, ifBranch, elseBranch) =>
      StatementsAreTrees(ifBranch);
      if elseBranch.ElseBranch? { StatementsAreTrees(elseBranch.node); }
    case While(_, body) => StatementsAreTrees(body);
    case _ =>
  }

  // ---------- 64-bit arithmetic ----------

  /** The two's complement reading of the low 64 bits of `x`. */
  function Wrap(x: int): int64 {
    var low := x % 0x1_0000_0000_0000_0000;
    if low < 0x8000_0000_0000_0000 then low else low - 0x1_0000_0000_0000_0000
  }

  /** Division that truncates toward zero, as C and `idivq` do. */
  function Quotient(a: int, b: int): int
    requires b != 0
  {
    if a >= 0 then a / b else -((-a) / b)
  }

  /** What an arithmetic operation yields: a value, or the processor's divide error. */
  datatype Result = Value(v: int64) | DivideError

  predicate DivisionTraps(a: int, b: int) {
    b == 0 || !(INT64_MIN <= Quotient(a, b) < -INT64_MIN)
  }

  function Arithmetic(op: char, a: int64, b: int64): Result
    requires IsArithmetic(op)
  {
    if op == '+' then Value(Wrap(a + b))
    else if op == '-' then Value(Wrap(a - b))
    else if op == '*' then Value(Wrap(a * b))
    else if DivisionTraps(a, b) then DivideError
    else Value(Quotient(a, b))
  }

  function Absolute(x: int): nat { if x < 0 then -x else x }

  /** What truncation toward zero means: the remainder is smaller than the divisor, and has the dividend's sign. */
  predicate Truncates(a: int, b: int, q: int) {
    var r := a - q * b;
    Absolute(r) < Absolute(b) && (a >= 0 ==> r >= 0) && (a <= 0 ==> r <= 0)
  }

  /** What an operation on 64-bit numbers yields, by sums and products alone: the low 64 bits, or the quotient. */
  predicate Yields(op: char, a: int, b: int, v: int)
    requires IsArithmetic(op)
  {
    if op == '+' then (v - (a + b)) % 0x1_0000_0000_0000_0000 == 0
    else if op == '-' then (v - (a - b)) % 0x1_0000_0000_0000_0000 == 0
    else if op == '*' then (v - a * b) % 0x1_0000_0000_0000_0000 == 0
    else Truncates(a, b, v)
  }

  /** The operations without a result. */
  predicate Stuck(op: char, a: int, b: int) { op == '/' && (b == 0 || (a == INT64_MIN && b == -1)) }

  /** There is one truncated quotient. */
  lemma QuotientTruncates(a: int, b: int, q: int)
    requires b != 0
    ensures Truncates(a, b, q) <==> q == Quotient(a, b)
  {
    var q' := Quotient(a, b);
    assert Truncates(a, b, q') by { QuotientRemainder(a, b); }
    if Truncates(a, b, q) {
      var r, r' := a - q * b, a - q' * b;
      assert (q - q') * b == r' - r;
      if q != q' { AtLeast(q - q', b); }
    }
  }

  lemma QuotientRemainder(a: int, b: int)
    requires b != 0
    ensures Truncates(a, b, Quotient(a, b))
  {
    if a >= 0 {
      assert a - a / b * b == a % b;
    } else {
      assert (-a) - (-a) / b * b == (-a) % b;
      assert a - -((-a) / b) * b == -((-a) % b);
    }
  }

  lemma AtLeast(k: int, b: int)
    requires k != 0
    ensures Absolute(k * b) >= Absolute(b)
  {
    Products(k, b);
    NotLess(Absolute(k), Absolute(b), 1);
  }

  lemma Products(a: int, b: int)
    ensures Absolute(a * b) == Absolute(a) * Absolute(b)
  {
    if a < 0 { assert a * b == -((-a) * b); }
    if b < 0 { assert a * b == -(a * (-b)) && (-a) * b == a * (-b); }
    if a >= 0 && b >= 0 { assert a * b >= 0; }
    if a < 0 && b < 0 { assert (-a) * (-b) >= 0; }
    if a >= 0 && b < 0 { assert a * (-b) >= 0; }
    if a < 0 && b >= 0 { assert (-a) * b >= 0; }
  }

  lemma NotLess(a: nat, b: nat, k: nat)
    requires a >= k
    ensures a * b >= k * b
  {
    assert a * b == k * b + (a - k) * b;
  }

  /** A division has no 64-bit result just when it divides by zero, or the smallest number by -1. */
  lemma TrapsExactly(a: int64, b: int64)
    ensures DivisionTraps(a, b) <==> Stuck('/', a, b)
  {
    if b != 0 {
      QuotientRemainder(a, b);
      QuotientSize(a, b);
    }
  }

  lemma QuotientSize(a: int, b: int)
    requires b != 0
    ensures b == 1 ==> Quotient(a, b) == a
    ensures b == -1 ==> Quotient(a, b) == -a
    ensures Absolute(b) > 1 ==> 2 * Absolute(Quotient(a, b)) <= Absolute(a)
  {
    if Absolute(b) > 1 {
      hide Quotient;
      QuotientRemainder(a, b);
      AtMostHalf(a, b, Quotient(a, b));
    }
  }

  lemma AtMostHalf(a: int, b: int, q: int)
    requires Truncates(a, b, q) && Absolute(b) > 1
    ensures 2 * Absolute(q) <= Absolute(a)
  {
    if q != 0 {
      AtLeast(q, b);
      Products(b, q);
      NotLess(Absolute(b), Absolute(q), 2);
      assert b * q == q * b;
    }
  }

  /** Arithmetic does what the sums and products say, and nothing else does. */
  lemma ArithmeticExact(op: char, a: int64, b: int64, v: int64)
    requires IsArithmetic(op)
    ensures Arithmetic(op, a, b).DivideError? <==> Stuck(op, a, b)
    ensures Arithmetic(op, a, b) == Value(v) <==> !Stuck(op, a, b) && Yields(op, a, b, v)
  {
    if op == '/' {
      TrapsExactly(a, b);
      if b != 0 { QuotientTruncates(a, b, v); }
    } else if op == '+' {
      WrapExact(a + b, v);
    } else if op == '-' {
      WrapExact(a - b, v);
    } else {
      WrapExact(a * b, v);
    }
  }

  /** One 64-bit number has the same low 64 bits. */
  lemma WrapExact(x: int, v: int64)
    ensures v == Wrap(x) <==> (v - x) % 0x1_0000_0000_0000_0000 == 0
  {
  }

  predicate Compare(op: char, a: int, b: int)
    requires IsComparison(op)
  {
    if op == '<' then a < b else if op == '>' then a > b else a == b
  }

  // ---------- The meaning of a program ----------

  /** The values of the variables A to Z, in order. */
  type Env = s: seq<int64> | |s| == 26 witness seq(26, i => 0)

  function VarIndex(c: char): nat
    requires IsVariable(c)
  {
    c as int - 'A' as int
  }

  function Eval(n: Node, env: Env): Result
    requires IsExpr(n)
  {
    match n
    case Num(v) => Value(v)
    case Var(name) => Value(env[VarIndex(name)])
    case Bin(op, left, right) =>
      var b := Eval(right, env);
      if b.DivideError? then DivideError else
      var a := Eval(left, env);
      if a.DivideError? then DivideError else Arithmetic(op, a.v, b.v)
  }

  /** A condition is true, false, or stops the program with a divide error. */
  datatype Truth = Truth(holds: bool) | TruthError

  /** Without an operator there is no comparison: then the condition counts as `bare` says. */
  predicate Holds(op: char, a: int, b: int, bare: bool)
    requires IsComparison(op) || op == '\0'
  {
    if op == '\0' then bare else Compare(op, a, b)
  }

  /** An IF without an operator takes its ELSE branch (`bare` is false), and a WHILE goes on (`bare` is true). */
  function EvalCondition(n: Node, env: Env, bare: bool): Truth
    requires IsTest(n)
  {
    var b := Eval(n.right, env);
    if b.DivideError? then TruthError else
    var a := Eval(n.left, env);
    if a.DivideError? then TruthError else Truth(Holds(n.op, a.v, b.v, bare))
  }

  /** What running a statement for at most `fuel` nested loop rounds does; `out` is what it printed. */
  datatype Outcome =
    | Done(env: Env, out: seq<int>)
    | Trapped(out: seq<int>)
    | OutOfFuel(out: seq<int>)

  function After(out: seq<int>, rest: Outcome): Outcome {
    match rest
    case Done(env, o) => Done(env, out + o)
    case Trapped(o) => Trapped(out + o)
    case OutOfFuel(o) => OutOfFuel(out + o)
  }

  function Exec(n: Node, env: Env, fuel: nat): Outcome
    requires IsTree(n)
    decreases fuel, n, 1
  {
    match n
    case Sequence(statements) => ExecAll(statements, env, fuel)
    case Print(expr) =>
      var r := Eval(expr, env);
      if r.Value? then Done(env, [r.v]) else Trapped([])
    case Let(variable, rhs) =>
      var r := Eval(rhs, env);
      if r.Value? then Done(env[VarIndex(variable) := r.v], []) else Trapped([])
    case If(condition, ifBranch, elseBranch) =>
      var t := EvalCondition(condition, env, false);
      if t.TruthError? then Trapped([])
      else if t.holds then Exec(ifBranch, env, fuel)
      else if elseBranch.ElseBranch? then Exec(elseBranch.node, env, fuel)
      else Done(env, [])
    case While(condition, body) =>
      if fuel == 0 then OutOfFuel([]) else
      var t := EvalCondition(condition, env, true);
      if t.TruthError? then Trapped([])
      else if !t.holds then Done(env, [])
      else
        var round := Exec(body, env, fuel);
        if round.Done? then After(round.out, Exec(n, round.env, fuel - 1)) else round
  }

  function ExecAll(statements: seq<Node>, env: Env, fuel: nat): Outcome
    requires forall s :: s in statements ==> IsTree(s)
    decreases fuel, statements, 0
  {
    if statements == [] then Done(env, [])
    else
      var first := Exec(statements[0], env, fuel);
      if first.Done? then After(first.out, ExecAll(statements[1..], first.env, fuel)) else first
  }

  /** A WHILE whose condition has no operator never ends normally. */
  lemma {:induction false} BareWhile(n: Node, env: Env, fuel: nat)
    requires n.While? && IsTree(n) && n.condition.op == '\0'
    ensures !Exec(n, env, fuel).Done?
    decreases fuel
  {
    hide Eval;
    if fuel > 0 && EvalCondition(n.condition, env, true).Truth? {
      var round := Exec(n.body, env, fuel);
      if round.Done? { BareWhile(n, round.env, fuel - 1); }
    }
  }

  /** An IF whose condition has no operator never runs its first branch. */
  lemma BareIf(n: Node, yes: Node, env: Env, fuel: nat)
    requires n.If? && IsTree(n) && IsTree(yes) && n.condition.op == '\0'
    ensures Exec(n, env, fuel) == Exec(n.(ifBranch := yes), env, fuel)
  {
    hide Eval;
  }
}
