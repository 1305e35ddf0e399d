/** Every label is defined exactly once, inside the code of the statement that jumps to it. */
module Labels {
  import opened BasicAst
  import opened X86Machine
  import opened CodeGen

  /** How often a label is defined. */
  function Definitions(code: seq<Instr>, name: Label): nat {
    if code == [] then 0
    else (if code[0] == Define(name) then 1 else 0) + Definitions(code[1..], name)
  }

  lemma {:induction false} DefinitionsConcat(a: seq<Instr>, b: seq<Instr>, name: Label)
    ensures Definitions(a + b, name) == Definitions(a, name) + Definitions(b, name)
    decreases a
  {
    if a == [] {
      assert a + b == b;
    } else {
      assert (a + b)[1..] == a[1..] + b;
      DefinitionsConcat(a[1..], b, name);
    }
  }

  /** The labels whose numbers were taken between two counter values. */
  predicate Between(name: Label, from: Ids, to: Ids) {
    match name
    case IfLabel(id) => from.ifs <= id < to.ifs
    case EndIfLabel(id) => from.ifs <= id < to.ifs
    case WhileLabel(id) => from.whiles <= id < to.whiles
    case EndWhileLabel(id) => from.whiles <= id < to.whiles
  }

  function One(b: bool): nat { if b then 1 else 0 }

  /** The counters grew, and the code defines exactly the labels numbered meanwhile, each once. */
  ghost predicate DefinesBetween(e: Emitted, from: Ids, name: Label) {
    && from.ifs <= e.ids.ifs && from.whiles <= e.ids.whiles
    && Definitions(e.code, name) == One(Between(name, from, e.ids))
  }

  lemma JumpIfDefines(op: char, target: Label, name: Label)
    ensures Definitions(JumpIf(op, target), name) == 0 && Definitions(JumpUnless(op, target), name) == 0
  {
  }

  lemma JumpThenDefine(target: Label, defined: Label, name: Label)
    ensures Definitions([Jmp(target), Define(defined)], name) == One(name == defined)
  {
    var pair, single := [Jmp(target), Define(defined)], [Define(defined)];
    assert pair[1..] == single && single[1..] == [];
    assert Definitions(pair, name) == Definitions(single, name) && Definitions(single[1..], name) == 0;
  }

  lemma CombineDefines(op: char, right: Node, name: Label)
    ensures Definitions(Combine(op, right), name) == 0
  {
    var c := Combine(op, right);
    assert |c| <= 4 && forall i :: 0 <= i < |c| ==> !c[i].Define?;
    NoDefinitions(c, name);
  }

  lemma {:induction false} NoDefinitions(code: seq<Instr>, name: Label)
    requires forall i :: 0 <= i < |code| ==> !code[i].Define?
    ensures Definitions(code, name) == 0
  {
    if code != [] { NoDefinitions(code[1..], name); }
  }

  /** The counters only grow, and a node's code defines exactly the labels numbered while it was compiled,
      each exactly once: for every AST, well formed or not. */
  lemma {:induction false} DefinedOnce(n: Node, ids: Ids, name: Label)
    ensures DefinesBetween(Code(n, ids), ids, name)
    decreases n, 1
  {
    if Fold(n).Constant? {
    } else {
      match n
      case Num(_) =>
      case Var(_) =>
      case Print(expr) =>
        DefinedOnce(expr, ids, name);
        DefinitionsConcat(Code(expr, ids).code, [CallPrintInt], name);
      case Let(variable, rhs) =>
        DefinedOnce(rhs, ids, name);
        DefinitionsConcat(Code(rhs, ids).code, [Store(Rdi, Displacement(variable))], name);
      case Sequence(statements) => AllDefinedOnce(statements, ids, name);
      case Bin(op, left, right) => BinDefinedOnce(n, ids, name);
      case If(condition, ifBranch, elseBranch) => IfDefinedOnce(n, ids, name);
      case While(condition, body) => WhileDefinedOnce(n, ids, name);
    }
  }

  lemma {:induction false} AllDefinedOnce(statements: seq<Node>, ids: Ids, name: Label)
    ensures DefinesBetween(CodeAll(statements, ids), ids, name)
    decreases statements, 0
  {
    if statements != [] {
      var first := Code(statements[0], ids);
      DefinedOnce(statements[0], ids, name);
      AllDefinedOnce(statements[1..], first.ids, name);
      DefinitionsConcat(first.code, CodeAll(statements[1..], first.ids).code, name);
    }
  }

  lemma {:induction false} BinDefinedOnce(n: Node, ids: Ids, name: Label)
    requires n.Bin? && !Fold(n).Constant?
    ensures DefinesBetween(Code(n, ids), ids, name)
    decreases n, 0
  {
    var r := Code(n.right, ids);
    var l := Code(n.left, r.ids);
    DefinedOnce(n.right, ids, name);
    DefinedOnce(n.left, r.ids, name);
    CombineDefines(n.op, n.right, name);
    BinCodeDefines(r.code, l.code, Combine(n.op, n.right), name);
  }

  lemma BinCodeDefines(r: seq<Instr>, l: seq<Instr>, c: seq<Instr>, name: Label)
    ensures Definitions(BinCode(r, l, c), name) == Definitions(r, name) + Definitions(l, name) + Definitions(c, name)
  {
    var push, pop := [Push(Rdi)], [Pop(R10)];
    NoDefinitions(push, name);
    NoDefinitions(pop, name);
    DefinitionsConcat(r, push + (l + (pop + c)), name);
    DefinitionsConcat(push, l + (pop + c), name);
    DefinitionsConcat(l, pop + c, name);
    DefinitionsConcat(pop, c, name);
  }

  lemma IfCodeDefines(c: seq<Instr>, op: char, id: nat, e: seq<Instr>, t: seq<Instr>, name: Label)
    ensures Definitions(IfCode(c, op, id, e, t), name)
         == Definitions(c, name) + Definitions(e, name) + Definitions(t,
             name) + One(name in {IfLabel(id), EndIfLabel(id)})
  {
    var jump := JumpIf(op, IfLabel(id));
    var middle := [Jmp(EndIfLabel(id)), Define(IfLabel(id))];
    var end := [Jmp(EndIfLabel(id)), Define(EndIfLabel(id))];
    JumpIfDefines(op, IfLabel(id), name);
    JumpThenDefine(EndIfLabel(id), IfLabel(id), name);
    JumpThenDefine(EndIfLabel(id), EndIfLabel(id), name);
    DefinitionsConcat(c, jump + (e + (middle + (t + end))), name);
    DefinitionsConcat(jump, e + (middle + (t + end)), name);
    DefinitionsConcat(e, middle + (t + end), name);
    DefinitionsConcat(middle, t + end, name);
    DefinitionsConcat(t, end, name);
  }

  lemma WhileCodeDefines(c: seq<Instr>, op: char, id: nat, b: seq<Instr>, name: Label)
    ensures Definitions(WhileCode(c, op, id, b), name)
         == Definitions(c, name) + Definitions(b, name) + One(name in {WhileLabel(id), EndWhileLabel(id)})
  {
    var start := [Define(WhileLabel(id))];
    var jump := JumpUnless(op, EndWhileLabel(id));
    var end := [Jmp(WhileLabel(id)), Define(EndWhileLabel(id))];
    JumpIfDefines(op, EndWhileLabel(id), name);
    JumpThenDefine(WhileLabel(id), EndWhileLabel(id), name);
    DefinitionsConcat(start, c + (jump + (b + end)), name);
    DefinitionsConcat(c, jump + (b + end), name);
    DefinitionsConcat(jump, b + end, name);
    DefinitionsConcat(b, end, name);
    assert start[1..] == [] && Definitions(start[1..], name) == 0;
  }

  lemma {:induction false} IfDefinedOnce(n: Node, ids: Ids, name: Label)
    requires n.If? && !Fold(n).Constant?
    ensures DefinesBetween(Code(n, ids), ids, name)
    decreases n, 0
  {
    var c := Code(n.condition, ids);
    DefinedOnce(n.condition, ids, name);
    var after := c.ids.(ifs := c.ids.ifs + 1);
    if n.elseBranch.ElseBranch? { DefinedOnce(n.elseBranch.node, after, name); }
    var e := if n.elseBranch.ElseBranch? then Code(n.elseBranch.node, after) else Emitted([], after);
    DefinedOnce(n.ifBranch, e.ids, name);
    IfDefinesJoin(c, Operator(n.condition), e, Code(n.ifBranch, e.ids), ids, name);
  }

  lemma IfDefinesJoin(c: Emitted, op: char, e: Emitted, t: Emitted, ids: Ids, name: Label)
    requires DefinesBetween(c, ids, name) && DefinesBetween(e, c.ids.(ifs := c.ids.ifs + 1), name)
    requires DefinesBetween(t, e.ids, name)
    ensures DefinesBetween(Emitted(IfCode(c.code, op, c.ids.ifs, e.code, t.code), t.ids), ids, name)
  {
    IfCodeDefines(c.code, op, c.ids.ifs, e.code, t.code, name);
  }

  lemma WhileDefinesJoin(c: Emitted, op: char, b: Emitted, ids: Ids, name: Label)
    requires DefinesBetween(c, ids.(whiles := ids.whiles + 1), name) && DefinesBetween(b, c.ids, name)
    ensures DefinesBetween(Emitted(WhileCode(c.code, op, ids.whiles, b.code), b.ids), ids, name)
  {
    WhileCodeDefines(c.code, op, ids.whiles, b.code, name);
  }

  lemma {:induction false} WhileDefinedOnce(n: Node, ids: Ids, name: Label)
    requires n.While? && !Fold(n).Constant?
    ensures DefinesBetween(Code(n, ids), ids, name)
    decreases n, 0
  {
    var inner := ids.(whiles := ids.whiles + 1);
    var c := Code(n.condition, inner);
    DefinedOnce(n.condition, inner, name);
    DefinedOnce(n.body, c.ids, name);
    WhileDefinesJoin(c, Operator(n.condition), Code(n.body, c.ids), ids, name);
  }

  // ---------- Jump targets ----------

  ghost predicate JumpsTo(i: Instr, name: Label) { i == Jmp(name) || (i.Jcc? && i.target == name) }

  /** Every label jumped to satisfies the bounds. */
  ghost predicate JumpsBetween(code: seq<Instr>, from: Ids, to: Ids) {
    forall i, name :: 0 <= i < |code| && JumpsTo(code[i], name) ==> Between(name, from, to)
  }

  lemma JumpsWiden(code: seq<Instr>, from: Ids, to: Ids, from': Ids, to': Ids)
    requires JumpsBetween(code, from, to)
    requires from'.ifs <= from.ifs && from'.whiles <= from.whiles && to.ifs <= to'.ifs && to.whiles <= to'.whiles
    ensures JumpsBetween(code, from', to')
  {
    forall i, name | 0 <= i < |code| && JumpsTo(code[i], name) ensures Between(name, from', to') {
      assert Between(name, from, to);
    }
  }

  lemma JumpPieces(op: char, target: Label, defined: Label, from: Ids, to: Ids)
    requires Between(target, from, to)
    ensures JumpsBetween(JumpIf(op, target), from, to) && JumpsBetween(JumpUnless(op, target), from, to)
    ensures JumpsBetween([Jmp(target), Define(defined)], from, to)
  {
  }

  lemma JumpsConcat(a: seq<Instr>, b: seq<Instr>, from: Ids, to: Ids)
    requires JumpsBetween(a, from, to) && JumpsBetween(b, from, to)
    ensures JumpsBetween(a + b, from, to)
  {
    forall i, name | 0 <= i < |a + b| && JumpsTo((a + b)[i], name) ensures Between(name, from, to) {
      if i < |a| { assert JumpsTo(a[i], name); } else { assert JumpsTo(b[i - |a|], name); }
    }
  }

  /** Every jump in a node's code goes to a label which that same code defines. */
  lemma JumpTargetDefined(n: Node, ids: Ids, i: nat, name: Label)
    requires i < |Code(n, ids).code| && JumpsTo(Code(n, ids).code[i], name)
    ensures Definitions(Code(n, ids).code, name) == 1
  {
    JumpsStayInside(n, ids);
    DefinedOnce(n, ids, name);
  }

  lemma {:induction false} JumpsStayInside(n: Node, ids: Ids)
    ensures JumpsBetween(Code(n, ids).code, ids, Code(n, ids).ids)
    decreases n, 1
  {
    var e := Code(n, ids);
    if Fold(n).Constant? {
    } else {
      match n
      case Num(_) =>
      case Var(_) =>
      case Print(expr) =>
        JumpsStayInside(expr, ids);
        JumpsConcat(Code(expr, ids).code, [CallPrintInt], ids, e.ids);
      case Let(variable, rhs) =>
        JumpsStayInside(rhs, ids);
        JumpsConcat(Code(rhs, ids).code, [Store(Rdi, Displacement(variable))], ids, e.ids);
      case Sequence(statements) => AllJumpsStayInside(statements, ids);
      case Bin(op, left, right) =>
        var r := Code(right, ids);
        var l := Code(left, r.ids);
        JumpsStayInside(right, ids);
        JumpsStayInside(left, r.ids);
        DefinedOnce(right, ids, IfLabel(0));
        DefinedOnce(left, r.ids, IfLabel(0));
        JumpsWiden(r.code, ids, r.ids, ids, e.ids);
        JumpsWiden(l.code, r.ids, l.ids, ids, e.ids);
        BinCodeJumps(r.code, l.code, op, right, ids, e.ids);
      case If(condition, ifBranch, elseBranch) => IfJumpsStayInside(n, ids);
      case While(condition, body) => WhileJumpsStayInside(n, ids);
    }
  }

  lemma {:induction false} AllJumpsStayInside(statements: seq<Node>, ids: Ids)
    ensures JumpsBetween(CodeAll(statements, ids).code, ids, CodeAll(statements, ids).ids)
    decreases statements, 0
  {
    if statements != [] {
      var first := Code(statements[0], ids);
      var rest := CodeAll(statements[1..], first.ids);
      JumpsStayInside(statements[0], ids);
      AllJumpsStayInside(statements[1..], first.ids);
      DefinedOnce(statements[0], ids, IfLabel(0));
      AllDefinedOnce(statements[1..], first.ids, IfLabel(0));
      JumpsWiden(first.code, ids, first.ids, ids, rest.ids);
      JumpsWiden(rest.code, first.ids, rest.ids, ids, rest.ids);
      JumpsConcat(first.code, rest.code, ids, rest.ids);
    }
  }

  lemma {:induction false} IfJumpsStayInside(n: Node, ids: Ids)
    requires n.If? && !Fold(n).Constant?
    ensures JumpsBetween(Code(n, ids).code, ids, Code(n, ids).ids)
    decreases n, 0
  {
    hide Definitions;
    var c := Code(n.condition, ids);
    JumpsStayInside(n.condition, ids);
    DefinedOnce(n.condition, ids, IfLabel(0));
    var after := c.ids.(ifs := c.ids.ifs + 1);
    if n.elseBranch.ElseBranch? {
      JumpsStayInside(n.elseBranch.node, after);
      DefinedOnce(n.elseBranch.node, after, IfLabel(0));
    }
    var e := if n.elseBranch.ElseBranch? then Code(n.elseBranch.node, after) else Emitted([], after);
    JumpsStayInside(n.ifBranch, e.ids);
    DefinedOnce(n.ifBranch, e.ids, IfLabel(0));
    IfJumpsJoin(c, Operator(n.condition), e, Code(n.ifBranch, e.ids), ids);
  }

  ghost predicate Grows(from: Ids, to: Ids) { from.ifs <= to.ifs && from.whiles <= to.whiles }

  lemma IfJumpsJoin(c: Emitted, op: char, e: Emitted, t: Emitted, ids: Ids)
    requires JumpsBetween(c.code, ids, c.ids) && Grows(ids, c.ids)
    requires var after := c.ids.(ifs := c.ids.ifs + 1); JumpsBetween(e.code, after, e.ids) && Grows(after, e.ids)
    requires JumpsBetween(t.code, e.ids, t.ids) && Grows(e.ids, t.ids)
    ensures JumpsBetween(IfCode(c.code, op, c.ids.ifs, e.code, t.code), ids, t.ids)
  {
    JumpsWiden(c.code, ids, c.ids, ids, t.ids);
    JumpsWiden(e.code, c.ids.(ifs := c.ids.ifs + 1), e.ids, ids, t.ids);
    JumpsWiden(t.code, e.ids, t.ids, ids, t.ids);
    IfCodeJumps(c.code, op, c.ids.ifs, e.code, t.code, ids, t.ids);
  }

  lemma BinCodeJumps(r: seq<Instr>, l: seq<Instr>, op: char, right: Node, from: Ids, to: Ids)
    requires JumpsBetween(r, from, to) && JumpsBetween(l, from, to)
    ensures JumpsBetween(BinCode(r, l, Combine(op, right)), from, to)
  {
    var push, pop, c := [Push(Rdi)], [Pop(R10)], Combine(op, right);
    assert |c| <= 4 && forall i :: 0 <= i < |c| ==> !c[i].Jcc? && !c[i].Jmp?;
    JumpsConcat(pop, c, from, to);
    JumpsConcat(l, pop + c, from, to);
    JumpsConcat(push, l + (pop + c), from, to);
    JumpsConcat(r, push + (l + (pop + c)), from, to);
  }

  lemma IfCodeJumps(c: seq<Instr>, op: char, id: nat, e: seq<Instr>, t: seq<Instr>, from: Ids, to: Ids)
    requires JumpsBetween(c, from, to) && JumpsBetween(e, from, to) && JumpsBetween(t, from, to)
    requires from.ifs <= id < to.ifs
    ensures JumpsBetween(IfCode(c, op, id, e, t), from, to)
  {
    var jump := JumpIf(op, IfLabel(id));
    var middle := [Jmp(EndIfLabel(id)), Define(IfLabel(id))];
    var end := [Jmp(EndIfLabel(id)), Define(EndIfLabel(id))];
    JumpPieces(op, IfLabel(id), IfLabel(id), from, to);
    JumpPieces(op, EndIfLabel(id), IfLabel(id), from, to);
    JumpPieces(op, EndIfLabel(id), EndIfLabel(id), from, to);
    JumpsConcat(t, end, from, to);
    JumpsConcat(middle, t + end, from, to);
    JumpsConcat(e, middle + (t + end), from, to);
    JumpsConcat(jump, e + (middle + (t + end)), from, to);
    JumpsConcat(c, jump + (e + (middle + (t + end))), from, to);
  }

  lemma WhileCodeJumps(c: seq<Instr>, op: char, id: nat, b: seq<Instr>, from: Ids, to: Ids)
    requires JumpsBetween(c, from, to) && JumpsBetween(b, from, to) && from.whiles <= id < to.whiles
    ensures JumpsBetween(WhileCode(c, op, id, b), from, to)
  {
    var start := [Define(WhileLabel(id))];
    var jump := JumpUnless(op, EndWhileLabel(id));
    var end := [Jmp(WhileLabel(id)), Define(EndWhileLabel(id))];
    JumpPieces(op, EndWhileLabel(id), EndWhileLabel(id), from, to);
    JumpPieces(op, WhileLabel(id), EndWhileLabel(id), from, to);
    JumpsConcat(b, end, from, to);
    JumpsConcat(jump, b + end, from, to);
    JumpsConcat(c, jump + (b + end), from, to);
    JumpsConcat(start, c + (jump + (b + end)), from, to);
  }

  lemma {:induction false} WhileJumpsStayInside(n: Node, ids: Ids)
    requires n.While? && !Fold(n).Constant?
    ensures JumpsBetween(Code(n, ids).code, ids, Code(n, ids).ids)
    decreases n, 0
  {
    var inner := ids.(whiles := ids.whiles + 1);
    var c := Code(n.condition, inner);
    JumpsStayInside(n.condition, inner);
    DefinedOnce(n.condition, inner, IfLabel(0));
    JumpsStayInside(n.body, c.ids);
    DefinedOnce(n.body, c.ids, IfLabel(0));
    WhileJumpsJoin(c, Operator(n.condition), Code(n.body, c.ids), ids);
  }

  lemma WhileJumpsJoin(c: Emitted, op: char, b: Emitted, ids: Ids)
    requires var inner := ids.(whiles := ids.whiles + 1); JumpsBetween(c.code, inner, c.ids) && Grows(inner, c.ids)
    requires JumpsBetween(b.code, c.ids, b.ids) && Grows(c.ids, b.ids)
    ensures JumpsBetween(WhileCode(c.code, op, ids.whiles, b.code), ids, b.ids)
  {
    JumpsWiden(c.code, ids.(whiles := ids.whiles + 1), c.ids, ids, b.ids);
    JumpsWiden(b.code, c.ids, b.ids, ids, b.ids);
    WhileCodeJumps(c.code, op, ids.whiles, b.code, ids, b.ids);
  }

  // ---------- Unique labels make every jump land on its definition ----------

  ghost predicate UniqueLabels(code: seq<Instr>) {
    forall i, j :: 0 <= i < |code| && 0 <= j < |code| && code[i].Define? && code[j] == code[i] ==> i == j
  }

  lemma {:induction false} DefinitionsAt(code: seq<Instr>, i: nat, j: nat, name: Label)
    requires i <= j < |code| && code[i] == code[j] == Define(name)
    ensures Definitions(code, name) >= 1
    ensures i < j ==> Definitions(code, name) >= 2
    decreases code
  {
    if i > 0 {
      DefinitionsAt(code[1..], i - 1, j - 1, name);
    } else if j > 0 {
      DefinitionsAt(code[1..], j - 1, j - 1, name);
    }
  }

  /** A whole program defines no label twice. */
  lemma ProgramLabelsUnique(n: Node)
    ensures UniqueLabels(Program(n))
  {
    var code := Program(n);
    forall i, j | 0 <= i < |code| && 0 <= j < |code| && code[i].Define? && code[j] == code[i]
      ensures i == j
    {
      var name := code[i].name;
      DefinedOnce(n, Ids(0, 0), name);
      NoDefinitions(HEADER, name);
      NoDefinitions(FOOTER, name);
      DefinitionsConcat(HEADER, Code(n, Ids(0, 0)).code, name);
      DefinitionsConcat(HEADER + Code(n, Ids(0, 0)).code, FOOTER, name);
      DefinitionsAt(code, if i < j then i else j, if i < j then j else i, name);
    }
  }

  lemma TargetIs(code: seq<Instr>, i: nat, name: Label)
    requires UniqueLabels(code) && i < |code| && code[i] == Define(name)
    ensures Target(code, name) == i
  {
    TargetFound(code, i, name);
  }

  lemma {:induction false} TargetFound(code: seq<Instr>, i: nat, name: Label)
    requires i < |code| && code[i] == Define(name)
    ensures Target(code, name) >= 0
  {
    if i > 0 { TargetFound(code[1..], i - 1, name); }
  }
}
