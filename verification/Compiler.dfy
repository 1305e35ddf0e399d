/** The compiler itself: it prints instructions one after the other and counts labels as it goes. */
module Compiler {
  import opened BasicAst
  import opened X86Machine
  import opened CodeGen
  import opened CompilerCorrectness
  import StmtSimulation

  /** What the scan still has to find: `num` shifted left by `i` is all that is left of the number. */
  function Remaining(num: int, i: nat): nat {
    if num == 1 then i else if ShiftAmount(num) == 0 then 0 else i + ShiftAmount(num)
  }

  /** The exponent of a power of two from 2 up, 0 for every other number. */
  method IsPowerOfTwo(number: int64) returns (power: nat)
    ensures power != 0 ==> number == Pow2(power)
    ensures forall k: nat :: k >= 1 && number == Pow2(k) ==> power == k
    ensures power == ShiftAmount(number)
  {
    ShiftAmountCorrect(number);
    var num: int := number;
    var count := 0;
    power := 0;
    var i := 0;
    while num > 0
      invariant number <= 0 ==> num == number && count == 0
      invariant number > 0 ==> num >= 0 && 0 <= count <= 1 && (num == 0 ==> count == 1)
      invariant count == 0 ==> power == 0 && Remaining(num, i) == ShiftAmount(number)
      invariant count == 1 ==> ShiftAmount(number) == if num == 0 then power else 0
      decreases num
    {
      if num % 2 == 1 {
        power := i;
        count := count + 1;
      }
      num := num / 2;
      i := i + 1;
      if count > 1 {
        return 0;
      }
    }
  }

  /** The compiler's standard output and its two label counters. */
  class Compiler {
    var output: seq<Instr>
    var ifId: nat
    var whileId: nat

    constructor ()
      ensures output == [] && ifId == 0 && whileId == 0
    {
      output, ifId, whileId := [], 0, 0;
    }

    function Ids(): Ids
      reads this
    {
      CodeGen.Ids(ifId, whileId)
    }

    method Emit(code: seq<Instr>)
      modifies `output
      ensures output == old(output) + code
    {
      output := output + code;
    }

    method Header()
      modifies `output
      ensures output == old(output) + CodeGen.HEADER
    {
      Emit([Push(Rbp)]);
      Emit([MovReg(Rsp, Rbp)]);
      Emit([SubRsp(26 * 8)]);
    }

    method Footer()
      modifies `output
      ensures output == old(output) + CodeGen.FOOTER
    {
      Emit([AddRsp(26 * 8)]);
      Emit([Pop(Rbp)]);
      Emit([Ret]);
    }

    /** Prints the code of a node and says whether the compiler survived folding its constants. */
    method CompileAst(node: Node) returns (alive: bool)
      requires IsExpr(node) || IsTest(node) || IsTree(node)
      modifies this
      ensures alive <==> Foldable(node)
      ensures alive ==> output == old(output) + Code(node, old(Ids())).code && Ids() == Code(node, old(Ids())).ids
      ensures old(output) <= output
      decreases node, 1
    {
      var ret := Fold(node);
      if IsExpr(node) { FoldCorrect(node, SOME_ENV); }
      if IsTest(node) { FoldCondition(node); }
      if ret.CompilerDies? {
        return false;
      } else if ret.Constant? {
        Emit([MovImm(ret.v, Rdi)]);
        return true;
      }
      match node
      case Num(value) =>
        assert false;  // a number is a constant: this branch of the source is dead
      case Print(expr) =>
        alive := CompileAst(expr);
        if alive { Emit([CallPrintInt]); }
      case Sequence(statements) => alive := CompileSequence(statements);
      case Bin(op, left, right) => alive := CompileBinary(node);
      case Var(name) =>
        Emit([Load(Displacement(name), Rdi)]);
        alive := true;
      case Let(variable, rhs) =>
        alive := CompileAst(rhs);
        if alive { Emit([Store(Rdi, Displacement(variable))]); }
      case If(condition, ifBranch, elseBranch) => alive := CompileIf(node);
      case While(condition, body) => alive := CompileWhile(node);
    }

    method CompileSequence(statements: seq<Node>) returns (alive: bool)
      requires forall s :: s in statements ==> IsTree(s)
      modifies this
      ensures alive <==> forall s :: s in statements ==> Foldable(s)
      ensures alive ==>
              output == old(output) + CodeAll(statements, old(Ids())).code
              && Ids() == CodeAll(statements, old(Ids())).ids
      ensures old(output) <= output
      decreases statements, 0
    {
      hide Code, Fold, Foldable, IsTree;
      ghost var before := output;
      ghost var ids := Ids();
      ghost var done: seq<Instr> := [];
      var i := 0;
      assert statements[0..] == statements && statements[..0] == [] && before + done == before;
      assert done + CodeAll(statements, ids).code == CodeAll(statements, ids).code;
      alive := true;
      while i < |statements| && alive
        invariant 0 <= i <= |statements|
        invariant before <= output
        invariant alive ==> forall s :: s in statements[..i] ==> Foldable(s)
        invariant alive ==> output == before + done
        invariant alive ==> CodeAll(statements, ids)
                            == Emitted(done + CodeAll(statements[i..], Ids()).code, CodeAll(statements[i..], Ids()).ids)
        invariant !alive ==> exists s :: s in statements && !Foldable(s)
      {
        ghost var first := Code(statements[i], Ids());
        CodeAllStep(statements, i, Ids(), done);
        alive := CompileAst(statements[i]);
        assert statements[i] in statements;
        assert statements[..i + 1] == statements[..i] + [statements[i]];
        assert before + done + first.code == before + (done + first.code);
        done := done + first.code;
        i := i + 1;
      }
      if alive {
        assert statements[..i] == statements && statements[i..] == [] && done + [] == done;
      }
    }

    method CompileBinary(node: Node) returns (alive: bool)
      requires node.Bin? && (IsExpr(node) || IsTest(node)) && Foldable(node) && !Fold(node).Constant?
      modifies this
      ensures alive && output == old(output) + Code(node, old(Ids())).code && Ids() == Code(node, old(Ids())).ids
      decreases node, 0
    {
      BinUnfold(node, Ids());
      hide Code, Fold;
      ghost var before := output;
      ghost var r := Code(node.right, Ids());
      ghost var l := Code(node.left, r.ids);
      alive := CompileAst(node.right);
      Emit([Push(Rdi)]);
      alive := CompileAst(node.left);
      Emit([Pop(R10)]);
      EmitCombine(node.op, node.right);
      alive := true;
      BinCodeFlat(before, r.code, l.code, Combine(node.op, node.right));
    }

    method EmitCombine(op: char, right: Node)
      modifies `output
      ensures output == old(output) + Combine(op, right)
    {
      if op == '+' {
        Emit([Add(R10, Rdi)]);
      } else if op == '-' {
        Emit([Sub(R10, Rdi)]);
      } else if op == '*' {
        if right.Num? {
          var power := IsPowerOfTwo(right.value);
          if power != 0 { Emit([Shl(power, Rdi)]); } else { Emit([Imul(R10, Rdi)]); }
        } else {
          Emit([Imul(R10, Rdi)]);
        }
      } else if op == '/' {
        Emit([MovReg(Rdi, Rax)]);
        Emit([Cqto]);
        Emit([Idiv(R10)]);
        Emit([MovReg(Rax, Rdi)]);
      } else {
        Emit([Cmp(R10, Rdi)]);
      }
    }

    method CompileIf(node: Node) returns (alive: bool)
      requires node.If? && IsTree(node)
      modifies this
      ensures alive <==> Foldable(node)
      ensures alive ==> output == old(output) + Code(node, old(Ids())).code && Ids() == Code(node, old(Ids())).ids
      ensures old(output) <= output
      decreases node, 0
    {
      hide Code, Fold, IfCode, JumpIf, ExprFoldable;
      StmtSimulation.IfUnfold(node, Ids());
      ghost var c := Code(node.condition, Ids());
      ghost var before := output;
      alive := CompileAst(node.condition);
      if !alive { return; }
      var id := ifId;
      ifId := ifId + 1;
      ghost var jump := JumpIf(Operator(node.condition), IfLabel(id));
      Emit(JumpIf(Operator(node.condition), IfLabel(id)));
      ghost var e := Emitted([], Ids());
      if node.elseBranch.ElseBranch? {
        e := Code(node.elseBranch.node, Ids());
        alive := CompileAst(node.elseBranch.node);
        if !alive { return; }
      }
      assert output == before + c.code + jump + e.code;
      Emit([Jmp(EndIfLabel(id))]);
      Emit([Define(IfLabel(id))]);
      ghost var t := Code(node.ifBranch, Ids());
      alive := CompileAst(node.ifBranch);
      if !alive { return; }
      Emit([Jmp(EndIfLabel(id))]);
      Emit([Define(EndIfLabel(id))]);
      IfCodeFlat(before, c.code, Operator(node.condition), id, e.code, t.code);
    }

    method CompileWhile(node: Node) returns (alive: bool)
      requires node.While? && IsTree(node)
      modifies this
      ensures alive <==> Foldable(node)
      ensures alive ==> output == old(output) + Code(node, old(Ids())).code && Ids() == Code(node, old(Ids())).ids
      ensures old(output) <= output
      decreases node, 0
    {
      hide Code, Fold;
      StmtSimulation.WhileUnfold(node, Ids());
      ghost var before := output;
      var id := whileId;
      whileId := whileId + 1;
      Emit([Define(WhileLabel(id))]);
      ghost var c := Code(node.condition, Ids());
      alive := CompileAst(node.condition);
      if !alive { return; }
      Emit(JumpUnless(Operator(node.condition), EndWhileLabel(id)));
      ghost var b := Code(node.body, Ids());
      alive := CompileAst(node.body);
      if !alive { return; }
      Emit([Jmp(WhileLabel(id))]);
      Emit([Define(EndWhileLabel(id))]);
      WhileCodeFlat(before, c.code, Operator(node.condition), id, b.code);
    }
  }

  lemma CodeAllStep(statements: seq<Node>, i: nat, ids: CodeGen.Ids, done: seq<Instr>)
    requires i < |statements|
    ensures var first := Code(statements[i], ids);
            var rest := CodeAll(statements[i + 1..], first.ids);
            && CodeAll(statements[i..], ids).ids == rest.ids
            && done + CodeAll(statements[i..], ids).code == (done + first.code) + rest.code
  {
    hide Code;
    assert statements[i..][0] == statements[i] && statements[i..][1..] == statements[i + 1..];
    var first := Code(statements[i], ids);
    var rest := CodeAll(statements[i + 1..], first.ids);
    assert done + (first.code + rest.code) == (done + first.code) + rest.code;
  }

  lemma BinUnfold(n: Node, ids: CodeGen.Ids)
    requires n.Bin? && !Fold(n).Constant?
    ensures var r := Code(n.right, ids);
            var l := Code(n.left, r.ids);
            Code(n, ids) == Emitted(BinCode(r.code, l.code, Combine(n.op, n.right)), l.ids)
  {
  }

  lemma BinCodeFlat(before: seq<Instr>, r: seq<Instr>, l: seq<Instr>, c: seq<Instr>)
    ensures before + r + [Push(Rdi)] + l + [Pop(R10)] + c == before + BinCode(r, l, c)
  {
  }

  lemma IfCodeFlat(before: seq<Instr>, c: seq<Instr>, op: char, id: nat, e: seq<Instr>, t: seq<Instr>)
    ensures before + c + JumpIf(op, IfLabel(id)) + e + [Jmp(EndIfLabel(id))] + [Define(IfLabel(id))] + t
              + [Jmp(EndIfLabel(id))] + [Define(EndIfLabel(id))]
         == before + IfCode(c, op, id, e, t)
  {
  }

  lemma WhileCodeFlat(before: seq<Instr>, c: seq<Instr>, op: char, id: nat, b: seq<Instr>)
    ensures before + [Define(WhileLabel(id))] + c + JumpUnless(op, EndWhileLabel(id)) + b
            + [Jmp(WhileLabel(id))] + [Define(EndWhileLabel(id))]
         == before + WhileCode(c, op, id, b)
  {
  }

  /** The compiler's main program, after parsing: header, code, footer. When it survives, running what it
      printed has every property of CompilerCorrectness. */
  method CompileProgram(ast: Node) returns (alive: bool, program: seq<Instr>)
    requires IsTree(ast)
    ensures alive <==> Foldable(ast)
    ensures alive ==> program == Program(ast)
    ensures forall callee: nat -> Clobber :: alive ==> Compiled(Machine(program, callee), ast)
  {
    var compiler := new Compiler();
    compiler.Header();
    alive := compiler.CompileAst(ast);
    if alive {
      compiler.Footer();
    }
    program := compiler.output;
  }
}
