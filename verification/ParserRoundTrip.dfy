/** Written out with only the parentheses it needs, but with white space and comment lines wherever they may stand, a
    program is parsed back to the same tree. */
module ParserRoundTrip {
  import opened BasicAst
  import opened Common
  import opened Grammar
  import opened Numerals
  import opened ExpressionExact
  import opened ParserExact
  import opened ProgramText
  import opened Tokens

  // ---------- Numbers ----------

  function ShowNumber(v: int64): string { (if v < 0 then "-" else "") + Written(Absolute(v), 10) }

  function Power10(k: nat): nat { if k == 0 then 1 else 10 * Power10(k - 1) }

  lemma {:induction false} PowerSum(a: nat, b: nat)
    ensures Power10(a + b) == Power10(a) * Power10(b)
  {
    if a > 0 { PowerSum(a - 1, b); }
  }

  lemma {:induction false} WrittenLength(n: nat, k: nat)
    requires k >= 1 && n < Power10(k)
    ensures |Written(n, 10)| <= k
  {
    if n >= 10 {
      WrittenLength(n / 10, k - 1);
    }
  }

  lemma {:induction false} WrittenPlain(n: nat)
    ensures forall i :: 0 <= i < |Written(n, 10)| ==> '0' <= Written(n, 10)[i] <= '9'
  {
    if n >= 10 { WrittenPlain(n / 10); }
  }

  lemma StrtolReads(v: int64)
    ensures Strtol(ShowNumber(v)) == Some(v)
  {
    hide Strtol, Written;
    WrittenReads(if v < 0 then "-" else "", Absolute(v), 10);
    assert Prefix(10) + Written(Absolute(v), 10) == Written(Absolute(v), 10);
  }

  lemma NumberWord(v: int64)
    ensures IsWord(ShowNumber(v)) && !IsOpenParen(ShowNumber(v)[0]) && !IsVariable(ShowNumber(v)[0])
  {
    var n := Absolute(v);
    assert Power10(5) == 100_000;
    PowerSum(5, 5);
    PowerSum(10, 10);
    WrittenLength(n, 20);
    WrittenPlain(n);
  }

  // ---------- White space ----------

  /** How a program is laid out: for each rest of its text the white space before it, and the comment lines where a
      statement or the end of a block comes next. */
  datatype Layout = Layout(gap: string -> string, remarks: string -> seq<string>)

  predicate AllSpaces(t: string) { forall i :: 0 <= i < |t| ==> IsSpace(t[i]) }

  /** White space, or none. */
  function Spaced(lay: Layout, s: string): (r: string)
    ensures |s| <= |r|
  {
    if AllSpaces(lay.gap(s)) then lay.gap(s) + s else s
  }

  /** At least one space, unless a word ends here in any case. */
  function Broken(lay: Layout, s: string): (r: string)
    ensures |s| <= |r|
  {
    if Separated(Spaced(lay, s)) then Spaced(lay, s) else " " + Spaced(lay, s)
  }

  lemma {:induction false} TrimSpaces(g: string, s: string)
    requires AllSpaces(g)
    ensures Trim(g + s) == Trim(s)
  {
    if g == "" {
      assert g + s == s;
    } else {
      assert (g + s)[1..] == g[1..] + s;
      TrimSpaces(g[1..], s);
    }
  }

  lemma SpacedTrim(lay: Layout, s: string)
    ensures Trim(Spaced(lay, s)) == Trim(s) && (Separated(s) ==> Separated(Spaced(lay, s)))
  {
    if AllSpaces(lay.gap(s)) { TrimSpaces(lay.gap(s), s); }
  }

  lemma BrokenTrim(lay: Layout, s: string)
    ensures Trim(Broken(lay, s)) == Trim(s) && Separated(Broken(lay, s))
  {
    SpacedTrim(lay, s);
    TrimSpaces(" ", Spaced(lay, s));
  }

  /** An operator, with white space around it. */
  function OpThen(lay: Layout, op: char, s: string): (r: string)
    ensures |s| < |r|
  {
    Spaced(lay, [op] + Spaced(lay, s))
  }

  lemma OpStarts(lay: Layout, op: char, s: string)
    requires IsOperator(op)
    ensures Trim(OpThen(lay, op, s)) == [op] + Spaced(lay, s) && Separated(OpThen(lay, op, s))
  {
    CharacterKinds(op);
    SpacedTrim(lay, [op] + Spaced(lay, s));
  }

  // ---------- Expressions ----------

  /** Orders the three levels by what each shows first. */
  function Turn(e: Node, level: nat): nat {
    if IsTermNode(e) then (if level == 2 then 0 else if level == 0 then 1 else 2)
    else if IsFactorNode(e) then (if level == 1 then 0 else if level == 2 then 1 else 2)
    else level
  }

  /** A factor, and what follows it. */
  function ShowFactor(lay: Layout, e: Node, tail: string): (s: string)
    requires IsExpr(e)
    ensures |tail| < |s|
    decreases e, Turn(e, 0)
  {
    if e.Num? then ShowNumber(e.value) + tail
    else if e.Var? then [e.name] + tail
    else "(" + Spaced(lay, ShowExpression(lay, e, Spaced(lay, ")" + tail)))
  }

  function ShowTerm(lay: Layout, e: Node, tail: string): (s: string)
    requires IsExpr(e)
    ensures |tail| < |s|
    decreases e, Turn(e, 1)
  {
    if IsFactorNode(e) then ShowTerm(lay, e.left, OpThen(lay, e.op, ShowFactor(lay, e.right, tail)))
    else ShowFactor(lay, e, tail)
  }

  function ShowExpression(lay: Layout, e: Node, tail: string): (s: string)
    requires IsExpr(e)
    ensures |tail| < |s|
    decreases e, Turn(e, 2)
  {
    if IsTermNode(e) then ShowExpression(lay, e.left, OpThen(lay, e.op, ShowTerm(lay, e.right, tail)))
    else ShowTerm(lay, e, tail)
  }

  /** Longer by spaces in front, a text is still a text. */
  lemma FactorLead(e: Node, s: string, s': string, tail: string)
    requires FactorText(e, s, tail) && Leaves(s', s)
    ensures FactorText(e, s', tail)
  {
    hide Numeral;
  }

  lemma {:induction false} TermLead(e: Node, s: string, s': string, tail: string)
    requires TermText(e, s, tail) && Leaves(s', s) && |s'| >= |s|
    ensures TermText(e, s', tail)
    decreases |s|, e
  {
    hide FactorText;
    if FactorText(e, s, tail) {
      FactorLead(e, s, s', tail);
    } else {
      var x :| |x| <= |s| && TermText(e.left, s, x) && Starts(x, e.op) && FactorText(e.right, Rest(x), tail);
      TermLead(e.left, s, s', x);
    }
  }

  lemma {:induction false} ExprLead(e: Node, s: string, s': string, tail: string)
    requires ExprText(e, s, tail) && Leaves(s', s) && |s'| >= |s|
    ensures ExprText(e, s', tail)
    decreases |s|, e
  {
    hide TermText;
    if TermText(e, s, tail) {
      TermLead(e, s, s', tail);
    } else {
      var x :| |x| <= |s| && ExprText(e.left, s, x) && Starts(x, e.op) && TermText(e.right, Rest(x), tail);
      ExprLead(e.left, s, s', x);
    }
  }

  lemma NumberShown(v: int64, tail: string)
    requires Separated(tail)
    ensures FactorText(Num(v), ShowNumber(v) + tail, tail)
  {
    var w := ShowNumber(v);
    var s := w + tail;
    NumberWord(v);
    assert s[0] == w[0] && Trim(s) == s && s[..|w|] == w && s[|w|..] == tail;
    StrtolReads(v);
    hide Numeral, Strtol, ShowNumber;
    StrtolExact(w, v);
    assert WordAt(w, s) && Numeral(w, v) && Leaves(tail, AfterWord(s, w));
  }

  lemma {:induction false} FactorShown(lay: Layout, e: Node, tail: string)
    requires IsExpr(e) && Separated(tail)
    ensures FactorText(e, ShowFactor(lay, e, tail), tail)
    decreases e, Turn(e, 0)
  {
    var s := ShowFactor(lay, e, tail);
    if e.Num? {
      NumberShown(e.value, tail);
    } else if e.Var? {
      assert Trim(s) == s && s[1..] == tail;
    } else {
      var x := Spaced(lay, ")" + tail);
      SpacedTrim(lay, ")" + tail);
      ExpressionShown(lay, e, x);
      var inner := ShowExpression(lay, e, x);
      SpacedTrim(lay, inner);
      ExprLead(e, inner, Spaced(lay, inner), x);
      assert Trim(s) == s && Rest(s) == Spaced(lay, inner) && Rest(x) == tail;
    }
  }

  lemma {:induction false} TermShown(lay: Layout, e: Node, tail: string)
    requires IsExpr(e) && Separated(tail)
    ensures TermText(e, ShowTerm(lay, e, tail), tail)
    decreases e, Turn(e, 1)
  {
    hide FactorText;
    if IsFactorNode(e) {
      var right := ShowFactor(lay, e.right, tail);
      var x := OpThen(lay, e.op, right);
      OpStarts(lay, e.op, right);
      TermShown(lay, e.left, x);
      FactorShown(lay, e.right, tail);
      SpacedTrim(lay, right);
      FactorLead(e.right, right, Spaced(lay, right), tail);
      RestIs(x, e.op, Spaced(lay, right));
    } else {
      FactorShown(lay, e, tail);
    }
  }

  lemma RestIs(s: string, c: char, more: string)
    requires Trim(s) == [c] + more
    ensures Starts(s, c) && Rest(s) == more
  {
  }

  lemma {:induction false} ExpressionShown(lay: Layout, e: Node, tail: string)
    requires IsExpr(e) && Separated(tail)
    ensures ExprText(e, ShowExpression(lay, e, tail), tail)
    decreases e, Turn(e, 2)
  {
    hide TermText;
    if IsTermNode(e) {
      var right := ShowTerm(lay, e.right, tail);
      var x := OpThen(lay, e.op, right);
      OpStarts(lay, e.op, right);
      ExpressionShown(lay, e.left, x);
      TermShown(lay, e.right, tail);
      SpacedTrim(lay, right);
      TermLead(e.right, right, Spaced(lay, right), tail);
      RestIs(x, e.op, Spaced(lay, right));
    } else {
      TermShown(lay, e, tail);
    }
  }

  /** An expression, written out, is read back, whatever follows that does not carry it on. */
  lemma ExpressionRoundTrip(lay: Layout, e: Node, tail: string)
    requires IsExpr(e) && Separated(tail) && Stops(tail, Carries)
    ensures var r := Expression(ShowExpression(lay, e, tail)); r.0 == Good(e) && Leaves(r.1, tail)
  {
    hide Expression, ExprText;
    ExpressionShown(lay, e, tail);
    ExpressionReads(e, ShowExpression(lay, e, tail), tail);
  }

  // ---------- Comments ----------

  /** Comment lines, each a `#` and anything up to the end of the line. */
  function Lines(lay: Layout, lines: seq<string>, s: string): (r: string)
    ensures |s| <= |r|
  {
    if lines == [] then Spaced(lay, s) else Spaced(lay, "#" + (lines[0] + ("\n" + Lines(lay, lines[1..], s))))
  }

  predicate OneLiners(lines: seq<string>) { forall i :: 0 <= i < |lines| ==> '\n' !in lines[i] }

  /** Where comments may stand, any number of them. */
  function Remarked(lay: Layout, s: string): (r: string)
    ensures |s| <= |r|
  {
    if OneLiners(lay.remarks(s)) then Lines(lay, lay.remarks(s), s) else s
  }

  lemma {:induction false} LinesShown(lay: Layout, lines: seq<string>, s: string)
    requires OneLiners(lines) && Stops(s, IsCommentStart)
    ensures CommentsThen(Lines(lay, lines, s), s)
    ensures Stops(s, Carries) ==> Stops(Lines(lay, lines, s), Carries)
  {
    if lines == [] {
      SpacedTrim(lay, s);
    } else {
      var more := Lines(lay, lines[1..], s);
      var t := "#" + (lines[0] + ("\n" + more));
      SpacedTrim(lay, t);
      assert Trim(t) == t && t[1..] == lines[0] + ("\n" + more);
      LinesShown(lay, lines[1..], s);
    }
  }

  lemma RemarksShown(lay: Layout, s: string)
    requires Stops(s, IsCommentStart)
    ensures CommentsThen(Remarked(lay, s), s)
    ensures Stops(s, Carries) ==> Stops(Remarked(lay, s), Carries)
  {
    hide Lines;
    if OneLiners(lay.remarks(s)) {
      LinesShown(lay, lay.remarks(s), s);
    }
  }

  // ---------- Statements ----------

  /** The trees that the parser makes: a sequence stands only where a block is wanted, and never holds just one
      statement. */
  predicate IsStatement(n: Node)
    decreases n, 0
  {
    match n
    case Print(e) => IsExpr(e)
    case Let(name, e) => IsVariable(name) && IsExpr(e)
    case If(condition, yes, no) => IsCondition(condition) && IsBlock(yes) && (no.ElseBranch? ==> IsBlock(no.node))
    case While(condition, body) => IsCondition(condition) && IsBlock(body)
    case _ => false
  }

  predicate IsBlock(n: Node)
    decreases n, 1
  {
    if n.Sequence? then |n.statements| != 1 && forall i :: 0 <= i < |n.statements| ==> IsStatement(n.statements[i])
    else IsStatement(n)
  }

  function ShowCondition(lay: Layout, c: Node, tail: string): (s: string)
    requires IsCondition(c)
    ensures |tail| < |s|
  {
    ShowExpression(lay, c.left, OpThen(lay, c.op, ShowExpression(lay, c.right, tail)))
  }

  /** A statement, and what follows it. */
  function ShowStatement(lay: Layout, n: Node, tail: string): (s: string)
    requires IsStatement(n)
    ensures |tail| < |s|
    decreases n, 0
  {
    hide Spaced, Broken, OpThen, End, Otherwise;
    match n
    case Print(e) => "PRINT" + Broken(lay, ShowExpression(lay, e, Broken(lay, tail)))
    case Let(name, e) =>
      "LET" + Broken(lay, [name] + OpThen(lay, '=', ShowExpression(lay, e, Broken(lay, tail))))
    case If(condition, yes, no) =>
      var end := End(lay, "IF", tail);
      var after := if no.NoElse? then end else Otherwise(lay, ShowBlock(lay, no.node, end));
      "IF" + Broken(lay, ShowCondition(lay, condition, Broken(lay, ShowBlock(lay, yes, after))))
    case While(condition, body) =>
      "WHILE" + Broken(lay, ShowCondition(lay, condition, Broken(lay, ShowBlock(lay, body, End(lay, "WHILE", tail)))))
  }

  function End(lay: Layout, keyword: string, tail: string): (r: string)
    ensures |tail| < |r|
  {
    "END" + Broken(lay, keyword + Broken(lay, tail))
  }

  function Otherwise(lay: Layout, s: string): (r: string)
    ensures |s| < |r|
  {
    "ELSE" + Broken(lay, s)
  }

  function ShowBlock(lay: Layout, n: Node, tail: string): (s: string)
    requires IsBlock(n)
    ensures |tail| <= |s|
    decreases n, 2
  {
    if n.Sequence? then ShowFrom(lay, n, 0, tail) else Remarked(lay, ShowStatement(lay, n, Remarked(lay, tail)))
  }

  function ShowFrom(lay: Layout, n: Node, k: nat, tail: string): (s: string)
    requires n.Sequence? && IsBlock(n) && k <= |n.statements|
    ensures |tail| <= |s|
    decreases n, 1, |n.statements| - k
  {
    Remarked(lay,
      if k == |n.statements| then tail else ShowStatement(lay, n.statements[k], ShowFrom(lay, n, k + 1, tail)))
  }

  /** After a statement: the end, or something that carries no expression on. */
  predicate Follows(tail: string) { Stops(tail, Carries) }

  lemma WordShown(lay: Layout, w: string, s: string)
    requires IsWord(w)
    ensures WordAt(w, w + Broken(lay, s)) && AfterWord(w + Broken(lay, s), w) == Broken(lay, s)
    ensures Trim(w + Broken(lay, s)) == w + Broken(lay, s)
  {
    BrokenTrim(lay, s);
    var t := w + Broken(lay, s);
    assert t[0] == w[0] && Trim(t) == t && t[..|w|] == w && t[|w|..] == Broken(lay, s);
  }

  /** A statement begins with a letter, and so does what ends a block. */
  lemma LetterFirst(s: string)
    requires s != "" && 'A' <= s[0] <= 'Z'
    ensures Follows(s) && Stops(s, IsCommentStart) && Trim(s) == s
  {
  }

  // ---------- What is written is a text of the program ----------

  /** What may stand after a block. */
  predicate Ends(tail: string) { EndMark(tail, tail) && Follows(tail) && Stops(tail, IsCommentStart) }

  lemma ConditionShown(lay: Layout, c: Node, tail: string)
    requires IsCondition(c) && Separated(tail) && Stops(tail, Carries)
    ensures ConditionText(c, Broken(lay, ShowCondition(lay, c, tail)), tail)
  {
    hide ExprText, ShowExpression;
    var right := ShowExpression(lay, c.right, tail);
    var x := OpThen(lay, c.op, right);
    OpStarts(lay, c.op, right);
    RestIs(x, c.op, Spaced(lay, right));
    ExpressionShown(lay, c.right, tail);
    SpacedTrim(lay, right);
    ExprLead(c.right, right, Spaced(lay, right), tail);
    var s := ShowCondition(lay, c, tail);
    ExpressionShown(lay, c.left, x);
    BrokenTrim(lay, s);
    ExprLead(c.left, s, Broken(lay, s), x);
  }

  /** The last expression of a statement, after `more` spaces. */
  lemma LastShown(lay: Layout, e: Node, tail: string, s: string)
    requires IsExpr(e) && Follows(tail)
    requires var text := ShowExpression(lay, e, Broken(lay, tail)); Leaves(s, text) && |s| >= |text|
    ensures ExprText(e, s, tail)
  {
    hide ExprText, ShowExpression;
    BrokenTrim(lay, tail);
    var text := ShowExpression(lay, e, Broken(lay, tail));
    ExpressionShown(lay, e, Broken(lay, tail));
    ExprTail(e, text, Broken(lay, tail), tail);
    ExprLead(e, text, s, tail);
  }

  lemma PrintShown(lay: Layout, e: Node, tail: string)
    requires IsExpr(e) && Follows(tail)
    ensures BareText(Print(e), ShowStatement(lay, Print(e), tail), tail)
  {
    hide ExprText, ShowExpression, WordAt, AfterWord;
    var text := ShowExpression(lay, e, Broken(lay, tail));
    BrokenTrim(lay, text);
    WordShown(lay, "PRINT", text);
    LastShown(lay, e, tail, Broken(lay, text));
  }

  lemma LetShown(lay: Layout, name: char, e: Node, tail: string)
    requires IsVariable(name) && IsExpr(e) && Follows(tail)
    ensures BareText(Let(name, e), ShowStatement(lay, Let(name, e), tail), tail)
  {
    hide ExprText, ShowExpression, WordAt, AfterWord, Spaced, Broken, OpThen;
    var text := ShowExpression(lay, e, Broken(lay, tail));
    var assign := OpThen(lay, '=', text);
    BrokenTrim(lay, [name] + assign);
    WordShown(lay, "LET", [name] + assign);
    NameFirst(name, assign);
    RestIs(Broken(lay, [name] + assign), name, assign);
    OpStarts(lay, '=', text);
    RestIs(assign, '=', Spaced(lay, text));
    SpacedTrim(lay, text);
    LastShown(lay, e, tail, Spaced(lay, text));
  }

  lemma NameFirst(name: char, more: string)
    requires IsVariable(name)
    ensures Trim([name] + more) == [name] + more
  {
  }

  lemma EndShown(lay: Layout, keyword: string, tail: string)
    requires keyword == "IF" || keyword == "WHILE"
    ensures var s := End(lay, keyword, tail); EndText(keyword, s, tail) && Ends(s) && |tail| < |s|
  {
    hide WordAt, AfterWord, Broken, Overlong;
    var inner := keyword + Broken(lay, tail);
    WordShown(lay, "END", inner);
    WordShown(lay, keyword, tail);
    BrokenTrim(lay, inner);
    BrokenTrim(lay, tail);
    WordLead(keyword, inner, Broken(lay, inner));
    LetterFirst(End(lay, keyword, tail));
  }

  lemma WordLead(w: string, s: string, s': string)
    requires WordAt(w, s) && Leaves(s', s)
    ensures WordAt(w, s') && AfterWord(s', w) == AfterWord(s, w)
  {
  }

  lemma ElseShown(lay: Layout, block: string)
    ensures var s := Otherwise(lay, block);
            WordAt("ELSE", s) && AfterWord(s, "ELSE") == Broken(lay, block) && Ends(s) && |block| < |s|
  {
    hide WordAt, AfterWord, Broken, Overlong;
    WordShown(lay, "ELSE", block);
    LetterFirst(Otherwise(lay, block));
  }

  lemma {:induction false} BareShown(lay: Layout, n: Node, tail: string)
    requires IsStatement(n) && Follows(tail)
    ensures BareText(n, ShowStatement(lay, n, tail), tail)
    decreases n, 0
  {
    hide BareText, ShowStatement, End, Otherwise, Follows, Ends;
    match n
    case Print(e) => PrintShown(lay, e, tail);
    case Let(name, e) => LetShown(lay, name, e, tail);
    case If(_, yes, no) =>
      var end := End(lay, "IF", tail);
      EndShown(lay, "IF", tail);
      if no.NoElse? {
        BlockShown(lay, yes, end);
      } else {
        BlockShown(lay, no.node, end);
        ElseShown(lay, ShowBlock(lay, no.node, end));
        BlockShown(lay, yes, Otherwise(lay, ShowBlock(lay, no.node, end)));
      }
      IfShown(lay, n, tail);
    case While(_, body) =>
      EndShown(lay, "WHILE", tail);
      BlockShown(lay, body, End(lay, "WHILE", tail));
      WhileShown(lay, n, tail);
  }

  /** A condition after its keyword, and the block after that. */
  lemma ConditionThenBlock(lay: Layout, keyword: string, c: Node, body: Node, end: string)
    requires IsCondition(c) && IsBlock(body) && IsWord(keyword) && BlockText(body, ShowBlock(lay, body, end), end)
    requires Follows(ShowBlock(lay, body, end))
    ensures var x := Broken(lay, ShowBlock(lay, body, end));
            var s := keyword + Broken(lay, ShowCondition(lay, c, x));
            && WordAt(keyword, s) && ConditionText(c, AfterWord(s, keyword), x) && BlockText(body, x, end)
            && |x| < |s| && |end| < |s|
  {
    hide ConditionText, BlockText, ShowBlock, ShowCondition, WordAt, AfterWord, Broken;
    var block := ShowBlock(lay, body, end);
    var x := Broken(lay, block);
    BrokenTrim(lay, block);
    BlockLead(body, block, x, end);
    ConditionShown(lay, c, x);
    WordShown(lay, keyword, ShowCondition(lay, c, x));
  }

  lemma IfShown(lay: Layout, n: Node, tail: string)
    requires n.If? && IsStatement(n)
    requires var end := End(lay, "IF", tail);
             EndText("IF", end, tail)
             && if n.elseBranch.NoElse? then BlockText(n.ifBranch, ShowBlock(lay, n.ifBranch, end), end) && Ends(end)
                else
                  var block := ShowBlock(lay, n.elseBranch.node, end);
                  var other := Otherwise(lay, block);
                  && BlockText(n.elseBranch.node, block, end)
                  && BlockText(n.ifBranch, ShowBlock(lay, n.ifBranch, other), other)
                  && WordAt("ELSE", other) && AfterWord(other, "ELSE") == Broken(lay, block) && Ends(other)
    ensures BareText(n, ShowStatement(lay, n, tail), tail)
  {
    hide BlockText, ConditionText, EndText, ShowBlock, ShowCondition, WordAt, AfterWord, Broken, End, Otherwise,
         Follows;
    var end := End(lay, "IF", tail);
    var after := if n.elseBranch.NoElse? then end else Otherwise(lay, ShowBlock(lay, n.elseBranch.node, end));
    BlockFollows(lay, n.ifBranch, after);
    ConditionThenBlock(lay, "IF", n.condition, n.ifBranch, after);
    if n.elseBranch.ElseBranch? {
      var block := ShowBlock(lay, n.elseBranch.node, end);
      BrokenTrim(lay, block);
      BlockLead(n.elseBranch.node, block, Broken(lay, block), end);
    }
    assert ElseText(n.elseBranch, after, tail);
  }

  lemma WhileShown(lay: Layout, n: Node, tail: string)
    requires n.While? && IsStatement(n)
    requires var end := End(lay, "WHILE", tail);
             EndText("WHILE", end, tail) && BlockText(n.body, ShowBlock(lay, n.body, end), end) && Ends(end)
    ensures BareText(n, ShowStatement(lay, n, tail), tail)
  {
    hide BlockText, ConditionText, EndText, ShowBlock, ShowCondition, WordAt, AfterWord, Broken, End, Follows;
    var end := End(lay, "WHILE", tail);
    BlockFollows(lay, n.body, end);
    ConditionThenBlock(lay, "WHILE", n.condition, n.body, end);
  }

  lemma StatementStarts(lay: Layout, n: Node, tail: string)
    requires IsStatement(n)
    ensures var s := ShowStatement(lay, n, tail); Follows(s) && Stops(s, IsCommentStart)
  {
    hide Broken, ShowCondition, ShowBlock, ShowExpression, OpThen, End, Otherwise, Follows;
    LetterFirst(ShowStatement(lay, n, tail));
  }

  lemma BlockFollows(lay: Layout, n: Node, tail: string)
    requires IsBlock(n) && Ends(tail)
    ensures Follows(ShowBlock(lay, n, tail))
  {
    hide ShowStatement, Remarked, EndMark;
    if n.Sequence? {
      FromFollows(lay, n, 0, tail);
    } else {
      StatementStarts(lay, n, Remarked(lay, tail));
      RemarksShown(lay, ShowStatement(lay, n, Remarked(lay, tail)));
    }
  }

  lemma FromFollows(lay: Layout, n: Node, k: nat, tail: string)
    requires n.Sequence? && IsBlock(n) && k <= |n.statements| && Ends(tail)
    ensures Follows(ShowFrom(lay, n, k, tail))
  {
    hide ShowStatement, Remarked, EndMark;
    if k == |n.statements| {
      RemarksShown(lay, tail);
    } else {
      StatementStarts(lay, n.statements[k], ShowFrom(lay, n, k + 1, tail));
      RemarksShown(lay, ShowStatement(lay, n.statements[k], ShowFrom(lay, n, k + 1, tail)));
    }
  }

  /** Longer by spaces in front, a block is still one. */
  lemma BlockLead(n: Node, s: string, s': string, tail: string)
    requires BlockText(n, s, tail) && Leaves(s', s) && |s'| >= |s|
    ensures BlockText(n, s', tail)
  {
    hide ListText;
    ListLead(if n.Sequence? then n.statements else [n], s, s', tail);
  }

  lemma CommentsLead(s: string, s': string, x: string)
    requires CommentsThen(s, x) && Leaves(s', s)
    ensures CommentsThen(s', x)
  {
  }

  lemma StatementLead(n: Node, s: string, s': string, tail: string)
    requires StatementText(n, s, tail) && Leaves(s', s) && |s'| >= |s|
    ensures StatementText(n, s', tail)
  {
    hide CommentsThen, BareText;
    var x :| |x| <= |s| && CommentsThen(s, x) && BareText(n, x, tail);
    CommentsLead(s, s', x);
  }

  lemma EndsLead(s: string, s': string, tail: string)
    requires EndsHere(s, tail) && Leaves(s', s)
    ensures EndsHere(s', tail)
  {
    hide CommentsThen, EndMark;
    var x :| CommentsThen(s, x) && EndMark(x, tail);
    CommentsLead(s, s', x);
  }

  lemma ListLead(list: seq<Node>, s: string, s': string, tail: string)
    requires ListText(list, s, tail) && Leaves(s', s) && |s'| >= |s|
    ensures ListText(list, s', tail)
  {
    hide StatementText, EndsHere, Leaves;
    if list == [] {
      EndsLead(s, s', tail);
    } else {
      var x :| |x| < |s| && StatementText(list[0], s, x) && ListText(list[1..], x, tail);
      StatementLead(list[0], s, s', x);
    }
  }

  /** A statement after comments, before the rest of its block. */
  lemma StatementShown(lay: Layout, n: Node, tail: string)
    requires IsStatement(n) && BareText(n, ShowStatement(lay, n, tail), tail)
    ensures StatementText(n, Remarked(lay, ShowStatement(lay, n, tail)), tail)
  {
    hide BareText, ShowStatement, Remarked, Follows;
    StatementStarts(lay, n, tail);
    RemarksShown(lay, ShowStatement(lay, n, tail));
  }

  lemma EndHereShown(lay: Layout, tail: string)
    requires Ends(tail)
    ensures EndsHere(Remarked(lay, tail), tail) && Follows(Remarked(lay, tail))
  {
    hide EndMark, Remarked;
    RemarksShown(lay, tail);
  }

  lemma {:induction false} BlockShown(lay: Layout, n: Node, tail: string)
    requires IsBlock(n) && Ends(tail)
    ensures BlockText(n, ShowBlock(lay, n, tail), tail)
    decreases n, 2
  {
    hide StatementText, BareText, EndsHere, ShowStatement, Remarked, Ends, Follows;
    if n.Sequence? {
      ListShown(lay, n, 0, tail);
      assert n.statements[0..] == n.statements;
    } else {
      EndHereShown(lay, tail);
      BareShown(lay, n, Remarked(lay, tail));
      StatementShown(lay, n, Remarked(lay, tail));
      OneListed(n, ShowBlock(lay, n, tail), Remarked(lay, tail), tail);
    }
  }

  lemma OneListed(n: Node, s: string, x: string, tail: string)
    requires |x| < |s| && StatementText(n, s, x) && EndsHere(x, tail)
    ensures ListText([n], s, tail)
  {
    hide StatementText, EndsHere;
    assert [n][1..] == [];
    assert ListText([], x, tail);
  }

  lemma {:induction false} ListShown(lay: Layout, n: Node, k: nat, tail: string)
    requires n.Sequence? && IsBlock(n) && k <= |n.statements| && Ends(tail)
    ensures ListText(n.statements[k..], ShowFrom(lay, n, k, tail), tail)
    decreases n, 1, |n.statements| - k
  {
    hide StatementText, BareText, EndsHere, ShowStatement, Remarked, Ends, Follows;
    if k == |n.statements| {
      EndHereShown(lay, tail);
      assert n.statements[k..] == [];
    } else {
      var x := ShowFrom(lay, n, k + 1, tail);
      FromFollows(lay, n, k + 1, tail);
      BareShown(lay, n.statements[k], x);
      StatementShown(lay, n.statements[k], x);
      ListShown(lay, n, k + 1, tail);
      assert n.statements[k..][0] == n.statements[k] && n.statements[k..][1..] == n.statements[k + 1..];
    }
  }

  // ---------- Reading it back ----------

  lemma NothingEnds()
    ensures Ends("")
  {
  }

  /** A program, written out with any white space and any comment lines, is read back as the same program. */
  lemma ProgramRoundTrip(lay: Layout, n: Node)
    requires IsBlock(n)
    ensures TextOf(n, ShowBlock(lay, n, "")) && Parse(ShowBlock(lay, n, "")) == Good(n)
  {
    hide SequenceFrom, ShowBlock, BlockText;
    var s := ShowBlock(lay, n, "");
    NothingEnds();
    BlockShown(lay, n, "");
    BlockExact(n, s, "");
    AdvanceTrim(SequenceFrom([], s).1);
  }
}
