/** What the parser can make of any text at all. */
module ParserSoundness {
  import opened BasicAst
  import opened Common
  import opened Grammar
  import opened ExpressionExact
  import opened ParserExact
  import opened ParserRoundTrip
  import opened ProgramText
  import opened Tokens

  // ---------- Expressions ----------

  predicate Sound(r: Parsed) { r.Good? ==> IsExpr(r.node) }

  lemma {:induction false} FactorSound(s: string)
    ensures Sound(Factor(s).0)
    decreases |s|, 0
  {
    hide Number, Expression;
    var (open, inner) := TryAdvance(s, IsOpenParen);
    if open != NUL { ExpressionSound(inner); } else { NumberSound(TryAdvance(inner, IsVariable).1); }
  }

  lemma NumberSound(s: string)
    ensures Sound(Number(s).0)
  {
    hide Token, Strtol;
  }

  lemma {:induction false} TermLoopSound(left: Parsed, s: string)
    requires Sound(left)
    ensures Sound(TermLoop(left, s).0)
    decreases |s|, 1
  {
    hide Factor;
    var (op, rest) := TryAdvance(s, IsFactorOp);
    if op != NUL {
      FactorSound(rest);
      var (right, after) := Factor(rest);
      TermLoopSound(MakeBinary(op, left, right), after);
    }
  }

  lemma {:induction false} TermSound(s: string)
    ensures Sound(Term(s).0)
    decreases |s|, 2
  {
    hide Factor, TermLoop;
    FactorSound(s);
    TermLoopSound(Factor(s).0, Factor(s).1);
  }

  lemma {:induction false} ExpressionLoopSound(left: Parsed, s: string)
    requires Sound(left)
    ensures Sound(ExpressionLoop(left, s).0)
    decreases |s|, 3
  {
    hide Term;
    var (op, rest) := TryAdvance(s, IsTermOp);
    if op != NUL {
      TermSound(rest);
      var (right, after) := Term(rest);
      ExpressionLoopSound(MakeBinary(op, left, right), after);
    }
  }

  /** Whatever the text, an expression that is read is one: arithmetic over 64-bit literals and variables. */
  lemma {:induction false} ExpressionSound(s: string)
    ensures Sound(Expression(s).0)
    decreases |s|, 4
  {
    hide Term, ExpressionLoop;
    TermSound(s);
    ExpressionLoopSound(Term(s).0, Term(s).1);
  }

  // ---------- Conditions ----------

  /** Is there a comparison operator after the first expression? */
  predicate OperatorWritten(s: string) { TryAdvance(Expression(s).1, IsComparison).0 != NUL }

  /** Whatever the text, a condition that is read compares two expressions if and only if an operator was written. */
  lemma ComparisonSound(s: string)
    ensures var r := Comparison(s).0;
            r.Good? ==>
              && IsTest(r.node)
              && (IsCondition(r.node) <==> OperatorWritten(s))
              && (r.node.op != NUL <==> OperatorWritten(s))
  {
    hide Expression;
    ExpressionSound(s);
    ExpressionSound(TryAdvance(Expression(s).1, IsComparison).1);
  }

  // ---------- Statements ----------

  /** In the text of a statement: does every condition that goes into the tree have its operator written? */
  predicate StatementWritten(s: string)
    decreases |s|, 0
  {
    var (word, rest) := Token(SkipComments(s), "");
    if word == Some("IF") then IfWritten(rest) else if word == Some("WHILE") then WhileWritten(rest) else true
  }

  predicate IfWritten(s: string)
    decreases |s|, 2
  {
    var rest1 := Comparison(s).1;
    var (word, rest3) := Token(SequenceFrom([], rest1).1, "");
    OperatorWritten(s) && SequenceWritten(rest1) && (word == Some("ELSE") && !ElseLost(s) ==> SequenceWritten(rest3))
  }

  predicate WhileWritten(s: string)
    decreases |s|, 2
  {
    OperatorWritten(s) && SequenceWritten(Comparison(s).1)
  }

  predicate SequenceWritten(s: string)
    decreases |s|, 1
  {
    var read := Statement(s);
    read.end || read.node.Null? || (StatementWritten(s) && SequenceWritten(read.rest))
  }

  /** After IF: an ELSE is read, and a statement after it fails to parse. */
  predicate ElseLost(s: string) {
    var (word, rest3) := Token(SequenceFrom([], Comparison(s).1).1, "");
    word == Some("ELSE") && SequenceFrom([], rest3).0.Null?
  }

  /** Trees as the parser makes them: sequences stand only where blocks do, and never hold just one statement. */
  predicate IsRead(n: Node)
    decreases n, 0
  {
    match n
    case Print(e) => IsExpr(e)
    case Let(name, e) => IsVariable(name) && IsExpr(e)
    case If(condition, yes, no) => IsTest(condition) && IsReadBlock(yes) && (no.ElseBranch? ==> IsReadBlock(no.node))
    case While(condition, body) => IsTest(condition) && IsReadBlock(body)
    case _ => false
  }

  predicate IsReadBlock(n: Node)
    decreases n, 1
  {
    if n.Sequence? then |n.statements| != 1 && forall i :: 0 <= i < |n.statements| ==> IsRead(n.statements[i])
    else IsRead(n)
  }

  predicate StatementIs(r: Read, written: bool) {
    && (r.end ==> r.node.Null?)
    && (r.node.Good? ==> IsRead(r.node.node) && (HasOperators(r.node.node) <==> written))
  }

  predicate BlockIs(r: Parsed, written: bool) { r.Good? ==> IsReadBlock(r.node) && (HasOperators(r.node) <==> written) }

  lemma {:induction false} StatementSound(s: string)
    ensures StatementIs(Statement(s), StatementWritten(s))
    decreases |s|, 0
  {
    hide SkipComments, Token, Expression, IfRest, WhileRest, IfWritten, WhileWritten;
    var (word, rest) := Token(SkipComments(s), "");
    if word == Some("PRINT") {
      ExpressionSound(rest);
    } else if word == Some("LET") {
      ExpressionSound(Advance(Advance(rest).1).1);
    } else if word == Some("IF") {
      IfSound(rest);
    } else if word == Some("WHILE") {
      WhileSound(rest);
    }
  }

  lemma {:induction false} IfSound(s: string)
    ensures StatementIs(IfRest(s), IfWritten(s)) && !IfRest(s).end
    decreases |s|, 2
  {
    hide Comparison, Token, SequenceFrom, SequenceWritten, OperatorWritten;
    ComparisonSound(s);
    var rest1 := Comparison(s).1;
    SequenceSound([], rest1);
    var (word, rest3) := Token(SequenceFrom([], rest1).1, "");
    if word == Some("ELSE") { SequenceSound([], rest3); }
  }

  lemma {:induction false} WhileSound(s: string)
    ensures StatementIs(WhileRest(s), WhileWritten(s)) && !WhileRest(s).end
    decreases |s|, 2
  {
    hide Comparison, Token, SequenceFrom, SequenceWritten, OperatorWritten;
    ComparisonSound(s);
    SequenceSound([], Comparison(s).1);
  }

  predicate AllRead(list: seq<Node>) { forall i :: 0 <= i < |list| ==> IsRead(list[i]) }

  predicate AllHaveOperators(list: seq<Node>) { forall i :: 0 <= i < |list| ==> HasOperators(list[i]) }

  lemma {:induction false} SequenceSound(list: seq<Node>, s: string)
    requires AllRead(list)
    ensures BlockIs(SequenceFrom(list, s).0, AllHaveOperators(list) && SequenceWritten(s))
    decreases |s|, 1
  {
    hide Statement, StatementWritten;
    StatementSound(s);
    var read := Statement(s);
    if read.end {
      SequenceMade(list);
    } else if read.node.Good? {
      var list' := list + [read.node.node];
      assert AllRead(list')
          && (AllHaveOperators(list') <==> AllHaveOperators(list) && HasOperators(read.node.node)) by {
        Appended(list, read.node.node);
      }
      SequenceSound(list', read.rest);
    }
  }

  lemma SequenceMade(list: seq<Node>)
    requires AllRead(list)
    ensures IsReadBlock(MakeSequence(list)) && (HasOperators(MakeSequence(list)) <==> AllHaveOperators(list))
  {
    if |list| != 1 && AllHaveOperators(list) {
      forall n | n in list ensures HasOperators(n) {}
    } else if |list| != 1 {
      var i :| 0 <= i < |list| && !HasOperators(list[i]);
      assert list[i] in list;
    }
  }

  lemma Appended(list: seq<Node>, n: Node)
    requires AllRead(list) && IsRead(n)
    ensures AllRead(list + [n]) && (AllHaveOperators(list + [n]) <==> AllHaveOperators(list) && HasOperators(n))
  {
    var list' := list + [n];
    assert list'[|list|] == n && forall i :: 0 <= i < |list| ==> list'[i] == list[i];
  }

  // ---------- Whole programs ----------

  lemma {:induction false} ReadIsTree(n: Node)
    requires IsReadBlock(n)
    ensures IsTree(n) && (IsBlock(n) <==> HasOperators(n)) && (IsRead(n) ==> (IsStatement(n) <==> HasOperators(n)))
  {
    match n
    case Sequence(statements) =>
      forall i | 0 <= i < |statements| ensures IsTree(statements[i])
          && (IsStatement(statements[i]) <==> HasOperators(statements[i])) {
        ReadIsTree(statements[i]);
      }
    case If(_, yes, no) =>
      ReadIsTree(yes);
      if no.ElseBranch? { ReadIsTree(no.node); }
    case While(_, body) => ReadIsTree(body);
    case Print(_) =>
    case Let(_, _) =>
  }

  /** Whatever the text, a program that is read is a proper one if and only if every condition that went into it had its
      operator written; and then writing it out, in any layout, and reading it again gives the same program. */
  lemma ParseSound(s: string, n: Node)
    requires Parse(s) == Good(n)
    ensures IsTree(n) && (IsStmt(n) <==> SequenceWritten(s)) && (IsBlock(n) <==> SequenceWritten(s))
    ensures IsBlock(n) ==> forall lay: Layout :: Parse(ShowBlock(lay, n, "")) == Good(n)
  {
    hide SequenceFrom, SequenceWritten;
    SequenceSound([], s);
    ReadIsTree(n);
    StatementsAreTrees(n);
    if IsBlock(n) {
      forall lay: Layout ensures Parse(ShowBlock(lay, n, "")) == Good(n) { ProgramRoundTrip(lay, n); }
    }
  }

  /** An IF that is read has no ELSE branch if and only if no ELSE was read, or what followed it was lost. */
  lemma ElseDropped(s: string)
    requires IfRest(s).node.Good?
    ensures var n := IfRest(s).node.node;
            n.If? && (n.elseBranch.NoElse? <==>
                Token(SequenceFrom([], Comparison(s).1).1, "").0 != Some("ELSE") || ElseLost(s))
  {
    hide Comparison, Token, SequenceFrom;
  }

  // ---------- Texts that lose something ----------

  /** For any condition, any block and any text after ELSE: if no block can be read there, the branch is lost, and if
      END IF comes where the parser gave up, the IF is read as if it had no ELSE. */
  lemma LostElse(condition: Node, yes: Node, s: string, x: string, y: string, z: string, tail: string)
    requires ConditionText(condition, s, x) && BlockText(yes, x, y)
    requires WordAt("ELSE", y) && LostText(AfterWord(y, "ELSE"), z) && EndText("IF", z, tail)
    ensures var r := IfRest(s); r.node == Good(If(condition, yes, NoElse)) && Leaves(r.rest, tail) && ElseLost(s)
  {
    hide ConditionText, BlockText, EndText, LostText, WordAt, AfterWord, SequenceFrom, IfRest, Comparison, Token;
    BlockExact(yes, x, y);
    ConditionReads(condition, s, x);
    SequenceSame([], Comparison(s).1, x);
    IfExact(condition, yes, NoElse, s, s, x, y, tail);
    WordsSame(SequenceFrom([], x).1, y);
    WordReads("ELSE", y);
    SequenceSame([], Token(y, "").1, AfterWord(y, "ELSE"));
    LostExact([], AfterWord(y, "ELSE"), z);
  }

  /** No expression begins with a word that is neither a name nor a number. */
  lemma NoExpression(w: string, s: string)
    requires WordAt(w, s) && !IsOpenParen(w[0]) && !IsVariable(w[0]) && Strtol(w) == None
    requires Stops(AfterWord(s, w), Carries)
    ensures Expression(s).0 == Null && Leaves(Expression(s).1, AfterWord(s, w))
  {
    hide Strtol, Factor;
    var tail := AfterWord(s, w);
    NoFactor(w, s);
    TryTrim(Factor(s).1, IsFactorOp);
    assert Term(s) == (Null, Trim(tail));
    TrimTwice(tail);
    TryTrim(Trim(tail), IsTermOp);
  }

  lemma NoFactor(w: string, s: string)
    requires WordAt(w, s) && !IsOpenParen(w[0]) && !IsVariable(w[0]) && Strtol(w) == None
    ensures Factor(s).0 == Null && Leaves(Factor(s).1, AfterWord(s, w))
  {
    hide Strtol, Token;
    assert Trim(s)[0] == w[0];
    TryTrim(s, IsOpenParen);
    TrimTwice(s);
    TryTrim(Trim(s), IsVariable);
    WordReads(w, s);
    TokenTrim(s);
  }

  /** A block that begins with a PRINT of no expression is lost. */
  lemma LostPrint(w: string, s: string)
    requires NUL !in s && WordAt("PRINT", s) && WordAt(w, AfterWord(s, "PRINT"))
    requires !IsOpenParen(w[0]) && !IsVariable(w[0]) && Strtol(w) == None
    requires Stops(AfterWord(AfterWord(s, "PRINT"), w), Carries)
    ensures LostText(s, AfterWord(AfterWord(s, "PRINT"), w))
  {
    hide Statement, BareStatement, AfterWord, Token, Strtol, Expression, SequenceFrom, LostText;
    var after := AfterWord(s, "PRINT");
    WordReads("PRINT", s);
    LetterStarts("PRINT", s);
    NoComments(s);
    StatementFrom(s);
    WordsSame(Trim(s), s) by { TrimTwice(s); }
    Dispatch(Trim(s));
    ExpressionSame(Token(s, "").1, after);
    NoExpression(w, after);
    assert Statement(s) == PrintRest(Token(s, "").1);
    NullStep([], s);
    LostFound([], s);
    LostTail(s, Statement(s).rest, AfterWord(after, w));
  }

  lemma LetterStarts(w: string, s: string)
    requires WordAt(w, s) && 'A' <= w[0] <= 'Z'
    ensures Stops(s, IsCommentStart)
  {
    assert Trim(s)[0] == w[0];
  }

  // ---------- Two texts of that kind ----------

  lemma SpaceThen(s: string)
    requires s != "" && !IsSpace(s[0])
    ensures Trim(" " + s) == s && Trim(s) == s && Separated(" " + s)
  {
    assert (" " + s)[1..] == s;
  }

  /** A word and a space. */
  lemma WordThen(w: string, s: string)
    requires IsWord(w) && s != "" && !IsSpace(s[0])
    ensures WordAt(w, w + (" " + s)) && AfterWord(w + (" " + s), w) == " " + s && Trim(w + (" " + s)) == w + (" " + s)
  {
    var t := w + (" " + s);
    SpaceThen(s);
    assert t[0] == w[0] && t[..|w|] == w && t[|w|..] == " " + s;
  }

  lemma VariableThen(name: char, tail: string, s: string)
    requires IsVariable(name) && Trim(s) == [name] + tail
    ensures ExprText(Var(name), s, tail)
  {
    assert Starts(s, name) && Rest(s) == tail;
  }

  const END_IF: string := "END" + (" " + "IF")

  lemma EndIfEnds()
    ensures END_IF != "" && END_IF[0] == 'E' && Trim(END_IF) == END_IF
    ensures EndText("IF", END_IF, "") && EndMark(END_IF, END_IF)
  {
    hide Overlong;
    WordThen("END", "IF");
    SpaceThen("IF");
    var s := " " + "IF";
    assert Trim(s)[..2] == "IF" && Trim(s)[2..] == "";
    assert WordAt("IF", s) && AfterWord(s, "IF") == "";
  }

  /** A text with one statement and nothing else. */
  lemma OneStatementText(n: Node, s: string)
    requires s != "" && 'A' <= s[0] <= 'Z' && !n.Sequence?
    requires var r := BareStatement(s); r.node == Good(n) && !r.end && Leaves(r.rest, "")
    ensures Parse(s) == Good(n)
  {
    hide Statement, BareStatement, SequenceFrom;
    LetterFirst(s);
    NoComments(s);
    StatementFrom(s);
    SequenceStep([], s);
    assert [] + [n] == [n];
    SequenceSame([n], Statement(s).rest, "");
    NothingEnds();
    assert EndsHere("", "") by { assert CommentsThen("", ""); }
    EndsRead("", "");
    SequenceStep([n], "");
    AdvanceTrim(Statement("").rest);
  }

  /** An IF of a condition and so on, and nothing else. */
  lemma IfText(n: Node, more: string)
    requires more != "" && !IsSpace(more[0]) && n.If?
    requires var r := IfRest(" " + more); r.node == Good(n) && Leaves(r.rest, "")
    ensures Parse("IF" + (" " + more)) == Good(n)
  {
    hide IfRest, BareStatement, Parse, Token;
    var s := "IF" + (" " + more);
    WordThen("IF", more);
    WordReads("IF", s);
    Dispatch(s);
    IfSame(Token(s, "").1, " " + more);
    OneStatementText(n, s);
  }

  const UNWRITTEN: string := "IF A B END IF"

  /** The text of a program whose condition has no operator: it is read, and is no proper program. */
  lemma UnwrittenOperator()
    ensures var n := If(Bin(NUL, Var('A'), Var('B')), Sequence([]), NoElse); Parse(UNWRITTEN) == Good(n) && !IsStmt(n)
  {
    hide IfRest, BlockText, EndText, EndMark, Parse, END_IF, ExprText, SequenceFrom;
    var b := ['B'] + (" " + END_IF);
    var a := ['A'] + (" " + b);
    EndIfEnds();
    SpaceThen(END_IF);
    SpaceThen(b);
    SpaceThen(a);
    VariableThen('A', " " + b, " " + a);
    VariableThen('B', " " + END_IF, b);
    var condition := Bin(NUL, Var('A'), Var('B'));
    assert ConditionText(condition, " " + a, " " + END_IF);
    EmptyBlock(" " + END_IF, END_IF);
    BlockExact(Sequence([]), " " + END_IF, END_IF);
    assert ElseText(NoElse, END_IF, "");
    IfExact(condition, Sequence([]), NoElse, " " + a, " " + a, " " + END_IF, END_IF, "");
    IfText(If(condition, Sequence([]), NoElse), a);
    UnwrittenJoined();
  }

  lemma EmptyBlock(s: string, tail: string)
    requires EndMark(tail, tail) && Stops(s, IsCommentStart) && Leaves(tail, s)
    ensures BlockText(Sequence([]), s, tail)
  {
    hide EndMark;
    assert CommentsThen(s, tail);
  }

  lemma UnwrittenJoined()
    ensures "IF" + (" " + (['A'] + (" " + (['B'] + (" " + END_IF))))) == UNWRITTEN
  {
  }

  const LOST: string := "IF A=A PRINT A ELSE PRINT @ END IF"

  /** The ELSE branch of this text is lost; the rest of it is read as if there were none. */
  lemma LostElseText()
    ensures Parse(LOST) == Good(If(Bin('=', Var('A'), Var('A')), Print(Var('A')), NoElse))
  {
    hide IfRest, BlockText, EndText, EndMark, Parse, END_IF, ExprText, SequenceFrom, LostText, WordAt, AfterWord;
    var bad := "PRINT" + (" " + ("@" + (" " + END_IF)));
    var other := "ELSE" + (" " + bad);
    var line := "PRINT" + (" " + (['A'] + (" " + other)));
    var right := ['A'] + (" " + line);
    var condition := Bin('=', Var('A'), Var('A'));
    EndIfEnds();
    LostBranch(bad);
    WordThen("ELSE", bad);
    PrintBlock(line, other);
    EqualsThen(line);
    LostElse(condition, Print(Var('A')), " " + (['A'] + (['='] + right)), " " + line, other, END_IF, "");
    IfText(If(condition, Print(Var('A')), NoElse), ['A'] + (['='] + right));
    LostJoined();
  }

  lemma EqualsThen(line: string)
    requires line != "" && 'A' <= line[0] <= 'Z'
    ensures var right := ['A'] + (" " + line);
            ConditionText(Bin('=', Var('A'), Var('A')), " " + (['A'] + (['='] + right)), " " + line)
  {
    hide ExprText;
    var right := ['A'] + (" " + line);
    var equals := ['='] + right;
    SpaceThen(['A'] + equals);
    SpaceThen(line);
    VariableThen('A', equals, " " + (['A'] + equals));
    VariableThen('A', " " + line, right);
    assert Trim(equals) == equals && Rest(equals) == right;
  }

  /** `PRINT @`, and then END IF. */
  lemma LostBranch(bad: string)
    requires bad == "PRINT" + (" " + ("@" + (" " + END_IF)))
    ensures LostText(" " + bad, END_IF)
  {
    hide WordAt, AfterWord, LostText, END_IF, Strtol, EndText, EndMark;
    var at := "@" + (" " + END_IF);
    EndIfEnds();
    NulApart();
    SpaceThen(END_IF);
    WordThen("@", END_IF);
    SpaceThen(at);
    WordThen("PRINT", at);
    SpaceThen(bad);
    WordLead("PRINT", bad, " " + bad);
    WordLead("@", at, " " + at);
    NoNumber();
    LostPrint("@", " " + bad);
    LostTail(" " + bad, " " + END_IF, END_IF);
  }

  lemma NulApart()
    ensures NUL !in "PRINT" && NUL !in "@" && NUL !in " " && NUL !in END_IF
  {
  }

  lemma NoNumber()
    ensures Strtol("@") == None
  {
    assert DigitValue("@"[0]) == 36;
  }

  /** A block of one PRINT, and then `tail`. */
  lemma PrintBlock(line: string, tail: string)
    requires line == "PRINT" + (" " + (['A'] + (" " + tail))) && tail != "" && 'A' <= tail[0] <= 'Z'
    requires WordAt("ELSE", tail)
    ensures BlockText(Print(Var('A')), " " + line, tail)
  {
    hide ExprText, WordAt, AfterWord, Overlong;
    var a := ['A'] + (" " + tail);
    SpaceThen(tail);
    LetterFirst(tail);
    WordThen("PRINT", a);
    SpaceThen(a);
    SpaceThen(line);
    VariableThen('A', " " + tail, " " + a);
    ExprTail(Var('A'), " " + a, " " + tail, tail);
    assert BareText(Print(Var('A')), line, tail);
    assert CommentsThen(" " + line, line);
    assert StatementText(Print(Var('A')), " " + line, tail);
    assert CommentsThen(tail, tail) && EndMark(tail, tail);
    assert EndsHere(tail, tail);
    OneListed(Print(Var('A')), " " + line, tail, tail);
  }

  lemma LostJoined()
    ensures "IF" + (" " + (['A'] + (['='] + (['A'] + (" " + ("PRINT" + (" " + (['A'] + (" " + ("ELSE" + (" "
              + ("PRINT" + (" " + ("@" + (" " + END_IF))))))))))))))) == LOST
  {
  }
}
