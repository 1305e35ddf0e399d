/** The parser reads exactly the texts of programs, each as the program it is of. */
module ParserExact {
  import opened BasicAst
  import opened Common
  import opened ExpressionExact
  import opened Grammar
  import opened ProgramText
  import opened Tokens

  // ---------- Leading spaces do not matter ----------

  lemma StatementSkips(s: string, s': string)
    requires SkipComments(s) == SkipComments(s')
    ensures Statement(s) == Statement(s')
  {
    hide BareStatement, SkipComments;
  }

  lemma StatementSame(s: string, s': string)
    requires Trim(s) == Trim(s')
    ensures Statement(s) == Statement(s')
  {
    hide Statement;
    TrySame(s, s', IsCommentStart);
    StatementSkips(s, s');
  }

  lemma SequenceSame(list: seq<Node>, s: string, s': string)
    requires Trim(s) == Trim(s')
    ensures SequenceFrom(list, s) == SequenceFrom(list, s')
  {
    hide Statement;
    StatementSame(s, s');
  }

  // ---------- Statements are read ----------

  lemma EndReads(keyword: string, node: Parsed, s: string, tail: string)
    requires EndText(keyword, s, tail)
    ensures Token(s, "").0 == Some("END")
    ensures var (word, rest) := Token(s, ""); var r := EndOf(keyword, node, word, rest);
            r.node == node && !r.end && Leaves(r.rest, tail)
  {
    hide Token;
    WordReads("END", s);
    var after := AfterWord(s, "END");
    TokenTrim(Token(s, "").1);
    TokenTrim(after);
    WordReads(keyword, after);
  }

  lemma {:induction false} StatementExact(n: Node, s: string, tail: string)
    requires StatementText(n, s, tail)
    ensures var r := Statement(s); r.node == Good(n) && !r.end && Leaves(r.rest, tail)
    decreases |s|, 1
  {
    hide Statement, BareText;
    var x :| |x| <= |s| && CommentsThen(s, x) && BareText(n, x, tail);
    CommentsRead(s, x);
    BareExact(n, x, tail, SkipComments(s));
    StatementFrom(s);
  }

  lemma StatementFrom(s: string)
    ensures Statement(s) == BareStatement(SkipComments(s))
  {
    hide BareStatement, SkipComments;
  }

  lemma {:induction false} BareExact(n: Node, s: string, tail: string, start: string)
    requires BareText(n, s, tail) && Leaves(start, s)
    ensures var r := BareStatement(start); r.node == Good(n) && !r.end && Leaves(r.rest, tail)
    decreases |s|, 0
  {
    hide Token, BareStatement, IfRest, WhileRest, ExprText, ConditionText, BlockText, ElseText;
    WordsSame(start, s);
    Dispatch(start);
    match n
    case Print(e) => PrintExact(e, s, tail, start);
    case Let(name, e) => LetExact(name, e, s, tail, start);
    case If(condition, yes, no) =>
      var x, y :| |x| < |s| && |y| < |s| && ConditionText(condition, AfterWord(s, "IF"), x)
                  && BlockText(yes, x, y) && ElseText(no, y, tail);
      WordReads("IF", s);
      BlockExact(yes, x, y);
      IfExact(condition, yes, no, Token(s, "").1, AfterWord(s, "IF"), x, y, tail);
    case While(condition, body) =>
      var x, y :| |x| < |s| && ConditionText(condition, AfterWord(s, "WHILE"), x) && BlockText(body, x, y)
                  && EndText("WHILE", y, tail);
      WordReads("WHILE", s);
      BlockExact(body, x, y);
      WhileExact(condition, body, Token(s, "").1, AfterWord(s, "WHILE"), x, y, tail);
  }

  lemma Dispatch(start: string)
    ensures var (word, rest) := Token(start, ""); var r := BareStatement(start);
            && (word == Some("PRINT") ==> r == PrintRest(rest)) && (word == Some("LET") ==> r == LetRest(rest))
            && (word == Some("IF") ==> r == IfRest(rest)) && (word == Some("WHILE") ==> r == WhileRest(rest))
  {
    hide Token, Expression, IfRest, WhileRest, Advance;
  }

  lemma PrintExact(e: Node, s: string, tail: string, start: string)
    requires WordAt("PRINT", s) && ExprText(e, AfterWord(s, "PRINT"), tail) && Stops(tail, Carries)
    requires Token(start, "") == Token(s, "")
    ensures var r := BareStatement(start); r.node == Good(Print(e)) && !r.end && Leaves(r.rest, tail)
  {
    hide Token, Expression, ExprText, BareStatement;
    Dispatch(start);
    WordReads("PRINT", s);
    ExpressionReads(e, AfterWord(s, "PRINT"), tail);
    ExpressionSame(Token(s, "").1, AfterWord(s, "PRINT"));
  }

  lemma LetExact(name: char, e: Node, s: string, tail: string, start: string)
    requires BareText(Let(name, e), s, tail) && Token(start, "") == Token(s, "")
    ensures var r := BareStatement(start); r.node == Good(Let(name, e)) && !r.end && Leaves(r.rest, tail)
  {
    hide Token, Expression, ExprText, BareStatement;
    Dispatch(start);
    WordReads("LET", s);
    var after := AfterWord(s, "LET");
    AdvanceTrim(Token(s, "").1);
    AdvanceTrim(Rest(after));
    ExpressionReads(e, Rest(Rest(after)), tail);
  }

  /** After IF: `rest` is what the parser has left, `s` the same up to spaces. */
  lemma {:induction false} IfExact(condition: Node, yes: Node, no: Else, rest: string, s: string, x: string, y: string,
                                   tail: string)
    requires Leaves(rest, s) && ConditionText(condition, s, x) && ElseText(no, y, tail)
    requires SequenceFrom([], x).0 == Good(yes) && Leaves(SequenceFrom([], x).1, y)
    ensures var r := IfRest(rest); r.node == Good(If(condition, yes, no)) && !r.end && Leaves(r.rest, tail)
    decreases |y|, 5
  {
    hide Token, Comparison, SequenceFrom, ConditionText, EndOf, EndText, BlockText, LostText;
    ComparisonSame(rest, s);
    ConditionReads(condition, s, x);
    SequenceSame([], Comparison(rest).1, x);
    var z := SequenceFrom([], x).1;
    WordsSame(z, y);
    if no.NoElse? && EndText("IF", y, tail) {
      EndReads("IF", MakeIf(Good(condition), Good(yes), Null), y, tail);
    } else {
      var after := AfterWord(y, "ELSE");
      var w :| (if no.ElseBranch? then BlockText(no.node, after, w) else LostText(after, w)) && EndText("IF", w, tail);
      WordReads("ELSE", y);
      SequenceSame([], Token(y, "").1, after);
      if no.ElseBranch? { BlockExact(no.node, after, w); } else { LostExact([], after, w); }
      WordsSame(SequenceFrom([], after).1, w);
      EndReads("IF", MakeIf(Good(condition), Good(yes), SequenceFrom([], after).0), w, tail);
    }
  }

  lemma WhileExact(condition: Node, body: Node, rest: string, s: string, x: string, y: string, tail: string)
    requires Leaves(rest, s) && ConditionText(condition, s, x) && EndText("WHILE", y, tail)
    requires SequenceFrom([], x).0 == Good(body) && Leaves(SequenceFrom([], x).1, y)
    ensures var r := WhileRest(rest); r.node == Good(While(condition, body)) && !r.end && Leaves(r.rest, tail)
  {
    hide Token, Comparison, SequenceFrom, ConditionText, EndOf, EndText;
    ComparisonSame(rest, s);
    ConditionReads(condition, s, x);
    SequenceSame([], Comparison(rest).1, x);
    WordsSame(SequenceFrom([], x).1, y);
    EndReads("WHILE", Good(While(condition, body)), y, tail);
  }

  /** What ends a block is found to do so. */
  lemma EndMarkReads(s: string, tail: string, start: string)
    requires EndMark(s, tail) && Leaves(start, s)
    ensures var r := BareStatement(start); r.end && Leaves(r.rest, tail)
  {
    hide Token, Expression, IfRest, WhileRest, Plain;
    WordsSame(start, s);
    if Trim(s) == "" && Trim(tail) == "" {
      TokenTrim(s);
      TokenAtEnd();
    } else if Overlong(s) && Leaves(tail, Trim(s)[MAX_KEYWORD_LENGTH + 1..]) {
      OverlongReads(s);
    } else if WordAt("ELSE", s) {
      WordReads("ELSE", s);
    } else {
      WordReads("END", s);
      var after := AfterWord(s, "END");
      WordsSame(Token(s, "").1, after);
      if WordAt("IF", after) { WordReads("IF", after); } else { WordReads("WHILE", after); }
    }
  }

  lemma EndsRead(s: string, tail: string)
    requires EndsHere(s, tail)
    ensures Statement(s).end && Leaves(Statement(s).rest, tail)
  {
    hide Statement, EndMark;
    var x :| CommentsThen(s, x) && EndMark(x, tail);
    CommentsRead(s, x);
    EndMarkReads(x, tail, SkipComments(s));
    StatementFrom(s);
  }

  lemma SequenceStep(list: seq<Node>, s: string)
    ensures var read := Statement(s);
            && (read.end ==> SequenceFrom(list, s) == (Good(MakeSequence(list)), read.rest))
            && (!read.end && read.node.Good? ==>
                  SequenceFrom(list, s) == SequenceFrom(list + [read.node.node], read.rest))
  {
    hide Statement;
  }

  lemma SameTrim(r: string, s: string)
    requires Leaves(r, s)
    ensures Trim(r) == Trim(s)
  {
  }

  lemma {:induction false} ListExact(before: seq<Node>, list: seq<Node>, s: string, tail: string)
    requires ListText(list, s, tail)
    ensures var r := SequenceFrom(before, s); r.0 == Good(MakeSequence(before + list)) && Leaves(r.1, tail)
    decreases |s|, 2
  {
    hide Statement, StatementText, EndsHere, SequenceFrom, MakeSequence, Leaves;
    SequenceStep(before, s);
    if list == [] {
      EndsRead(s, tail);
      assert before + list == before;
    } else {
      var x :| |x| < |s| && StatementText(list[0], s, x) && ListText(list[1..], x, tail);
      StatementExact(list[0], s, x);
      ListExact(before + [list[0]], list[1..], x, tail);
      SequenceSame(before + [list[0]], Statement(s).rest, x) by { SameTrim(Statement(s).rest, x); }
      assert before + [list[0]] + list[1..] == before + list;
    }
  }

  lemma {:induction false} BlockExact(n: Node, s: string, tail: string)
    requires BlockText(n, s, tail)
    ensures var r := SequenceFrom([], s); r.0 == Good(n) && Leaves(r.1, tail)
    decreases |s|, 3
  {
    hide SequenceFrom, ListText;
    if n.Sequence? {
      ListExact([], n.statements, s, tail);
      assert [] + n.statements == n.statements;
    } else {
      ListExact([], [n], s, tail);
      assert [] + [n] == [n];
    }
  }

  // ---------- Only statements are read ----------

  lemma EndIs(keyword: string, node: Parsed, word: Option<string>, s: string)
    requires EndOf(keyword, node, word, s).node.Good?
    ensures word == Some("END") && Token(s, "").0 == Some(keyword)
    ensures EndOf(keyword, node, word, s) == Read(node, false, Token(s, "").1)
  {
    hide Token;
  }

  lemma EndFound(keyword: string, node: Parsed, s: string)
    requires NUL !in s && EndOf(keyword, node, Token(s, "").0, Token(s, "").1).node.Good?
    ensures EndText(keyword, s, EndOf(keyword, node, Token(s, "").0, Token(s, "").1).rest)
    ensures EndOf(keyword, node, Token(s, "").0, Token(s, "").1).node == node
  {
    hide Token, EndOf, WordAt, AfterWord, Trim;
    EndIs(keyword, node, Token(s, "").0, Token(s, "").1);
    WordIs(s, "END");
    var after := AfterWord(s, "END");
    WordsSame(Token(s, "").1, after);
    WordIs(after, keyword);
  }

  lemma {:induction false} StatementFound(s: string)
    requires NUL !in s
    ensures var r := Statement(s);
            (r.end ==> EndsHere(s, r.rest)) && (!r.end && r.node.Good? ==> StatementText(r.node.node, s, r.rest))
    decreases |s|, 1
  {
    hide Statement, BareText, EndMark;
    var x := SkipComments(s);
    CommentsFound(s);
    StatementFrom(s);
    BareFound(x);
  }

  lemma {:induction false} BareFound(s: string)
    requires NUL !in s
    ensures var r := BareStatement(s);
            (r.end ==> EndMark(s, r.rest)) && (!r.end && r.node.Good? ==> BareText(r.node.node, s, r.rest))
    decreases |s|, 0
  {
    hide Token, BareStatement, IfRest, WhileRest, PrintRest, LetRest, BareText, EndMark, WordAt;
    var (word, rest) := Token(s, "");
    Dispatch(s);
    WordFound(s);
    EndsFound(s);
    if word == Some("PRINT") {
      PrintFound(s);
    } else if word == Some("LET") {
      LetFound(s);
    } else if word == Some("IF") {
      IfSame(rest, AfterWord(s, "IF"));
      if IfRest(rest).node.Good? { IfFound(s); }
    } else if word == Some("WHILE") {
      IfSame(rest, AfterWord(s, "WHILE"));
      if WhileRest(rest).node.Good? { WhileFound(s); }
    }
  }

  /** When a block is found to end, it does; and only words that begin a statement do so. */
  lemma EndsFound(s: string)
    requires NUL !in s
    ensures var r := BareStatement(s);
            && (r.end ==> EndMark(s, r.rest))
            && (!r.end && r.node.Good? ==>
                  Token(s, "").0 in {Some("PRINT"), Some("LET"), Some("IF"), Some("WHILE")})
  {
    hide Token, PrintRest, LetRest, IfRest, WhileRest, Overlong, WordAt, AfterWord;
    WordFound(s);
    var (word, rest) := Token(s, "");
    if word == Some("END") {
      var after := AfterWord(s, "END");
      AfterNoNul(s, "END");
      WordsSame(rest, after);
      WordFound(after);
    }
  }

  lemma PrintFound(s: string)
    requires NUL !in s && Token(s, "").0 == Some("PRINT") && WordAt("PRINT", s)
    requires Leaves(Token(s, "").1, AfterWord(s, "PRINT"))
    ensures var r := PrintRest(Token(s, "").1); r.node.Good? ==> BareText(r.node.node, s, r.rest)
  {
    hide Token, PrintRest, WordAt, AfterWord, Trim;
    AfterNoNul(s, "PRINT");
    PrintParts(Token(s, "").1, AfterWord(s, "PRINT"));
  }

  lemma PrintParts(s: string, after: string)
    requires Leaves(s, after) && NUL !in after
    ensures var r := PrintRest(s); r.node.Good? ==>
              var n := r.node.node; n.Print? && ExprText(n.expr, after, r.rest) && Stops(r.rest, Carries)
  {
    hide Expression, ExprText;
    ExpressionSame(s, after);
    if Expression(after).0.Good? { ExpressionFound(after); }
  }

  lemma IfSame(s: string, s': string)
    requires Leaves(s, s')
    ensures IfRest(s) == IfRest(s') && WhileRest(s) == WhileRest(s')
  {
    hide Comparison, SequenceFrom, Token;
    ComparisonSame(s, s');
  }

  lemma LetFound(s: string)
    requires NUL !in s && Token(s, "").0 == Some("LET") && WordAt("LET", s)
    requires Leaves(Token(s, "").1, AfterWord(s, "LET"))
    ensures var r := LetRest(Token(s, "").1); r.node.Good? ==> BareText(r.node.node, s, r.rest)
  {
    hide Token, LetRest, WordAt, AfterWord, Trim;
    var after := AfterWord(s, "LET");
    AfterNoNul(s, "LET");
    LetParts(Token(s, "").1, after);
  }

  /** A name, an equals sign and an expression. */
  lemma LetParts(s: string, after: string)
    requires Leaves(s, after) && NUL !in after
    ensures var r := LetRest(s); r.node.Good? ==>
              var n := r.node.node;
              && n.Let? && IsVariable(n.variable) && Starts(after, n.variable) && Starts(Rest(after), '=')
              && ExprText(n.rhs, Rest(Rest(after)), r.rest) && Stops(r.rest, Carries)
  {
    hide Expression, ExprText;
    AdvanceTrim(s);
    if LetRest(s).node.Good? {
      TrimNoNul(after);
      AdvanceTrim(Rest(after));
      TrimNoNul(Rest(after));
      ExpressionFound(Rest(Rest(after)));
    }
  }

  lemma {:induction false} IfFound(s: string)
    requires NUL !in s && WordAt("IF", s) && IfRest(AfterWord(s, "IF")).node.Good?
    ensures var r := IfRest(AfterWord(s, "IF")); BareText(r.node.node, s, r.rest)
    decreases |AfterWord(s, "IF")|, 5
  {
    hide Token, Comparison, SequenceFrom, ConditionText, EndOf, EndText, BlockText, LostText;
    var after := AfterWord(s, "IF");
    AfterNoNul(s, "IF");
    var (condition, x) := Comparison(after);
    var (yes, y) := SequenceFrom([], x);
    var r := IfRest(after);
    IfIsMade(after);
    ConditionFound(after);
    BlockFound(x);
    var (word, rest3) := Token(y, "");
    WordFound(y);
    if word == Some("ELSE") {
      var z := AfterWord(y, "ELSE");
      AfterNoNul(y, "ELSE");
      SequenceSame([], rest3, z);
      var (no, w) := SequenceFrom([], z);
      EndFound("IF", MakeIf(condition, yes, no), w);
      if no.Good? { BlockFound(z); } else { LostFound([], z); }
      assert EndText("IF", w, r.rest);
      assert (if no.Good? then BlockText(no.node, z, w) else LostText(z, w));
      assert ElseText(r.node.node.elseBranch, y, r.rest);
    } else {
      EndFound("IF", MakeIf(condition, yes, Null), y);
      assert ElseText(NoElse, y, r.rest);
    }
    assert ConditionText(condition.node, AfterWord(s, "IF"), x) && BlockText(yes.node, x, y);
  }

  lemma IfIsMade(s: string)
    requires IfRest(s).node.Good?
    ensures Comparison(s).0.Good? && SequenceFrom([], Comparison(s).1).0.Good?
  {
    hide Token, Comparison, SequenceFrom;
  }

  lemma {:induction false} WhileFound(s: string)
    requires NUL !in s && WordAt("WHILE", s) && WhileRest(AfterWord(s, "WHILE")).node.Good?
    ensures var r := WhileRest(AfterWord(s, "WHILE")); BareText(r.node.node, s, r.rest)
    decreases |AfterWord(s, "WHILE")|, 5
  {
    hide Token, Comparison, SequenceFrom, ConditionText, EndOf, EndText, BlockText, LostText;
    var after := AfterWord(s, "WHILE");
    AfterNoNul(s, "WHILE");
    var (condition, x) := Comparison(after);
    var (body, y) := SequenceFrom([], x);
    WhileIsMade(after);
    ConditionFound(after);
    BlockFound(x);
    EndFound("WHILE", MakeWhile(condition, body), y);
    assert ConditionText(condition.node, AfterWord(s, "WHILE"), x) && BlockText(body.node, x, y);
  }

  lemma WhileIsMade(s: string)
    requires WhileRest(s).node.Good?
    ensures Comparison(s).0.Good? && SequenceFrom([], Comparison(s).1).0.Good?
  {
    hide Token, Comparison, SequenceFrom;
  }

  lemma {:induction false} ListFound(before: seq<Node>, s: string) returns (list: seq<Node>)
    requires NUL !in s && SequenceFrom(before, s).0.Good?
    ensures var r := SequenceFrom(before, s); r.0.node == MakeSequence(before + list) && ListText(list, s, r.1)
    decreases |s|, 2
  {
    hide Statement, StatementText, EndsHere;
    StatementFound(s);
    var read := Statement(s);
    if read.end {
      list := [];
      assert before + [] == before;
    } else {
      var first := read.node.node;
      var more := ListFound(before + [first], read.rest);
      list := [first] + more;
      assert before + [first] + more == before + list && list[1..] == more;
    }
  }

  lemma {:induction false} BlockFound(s: string)
    requires NUL !in s && SequenceFrom([], s).0.Good?
    ensures BlockText(SequenceFrom([], s).0.node, s, SequenceFrom([], s).1)
    decreases |s|, 3
  {
    hide SequenceFrom, ListText;
    var list := ListFound([], s);
    assert [] + list == list;
    if |list| == 1 {
      NotASequence(list, s, SequenceFrom([], s).1);
      assert list == [list[0]];
    }
  }

  lemma NotASequence(list: seq<Node>, s: string, tail: string)
    requires |list| == 1 && ListText(list, s, tail)
    ensures !list[0].Sequence?
  {
    hide EndsHere;
    var x :| |x| < |s| && StatementText(list[0], s, x) && ListText(list[1..], x, tail);
    var y :| |y| <= |s| && CommentsThen(s, y) && BareText(list[0], y, x);
  }

  // ---------- Blocks that cannot be read ----------

  lemma {:induction false} LostExact(before: seq<Node>, s: string, tail: string)
    requires LostText(s, tail)
    ensures SequenceFrom(before, s).0 == Null && Leaves(SequenceFrom(before, s).1, tail)
    decreases |s|, 4
  {
    hide Statement, StatementText, StatementSpan, EndsHere, SequenceFrom;
    var read := Statement(s);
    StatementFound(s);
    SequenceStep(before, s);
    var x :| |x| < |s| && StatementSpan(s, x) && if Readable(s) then LostText(x, tail) else Leaves(tail, x);
    StatementSpans(s, x);
    ReadableExact(s);
    if Readable(s) {
      LostExact(before + [read.node.node], x, tail);
      SequenceSame(before + [read.node.node], read.rest, x);
    } else {
      NullStep(before, s);
    }
  }

  lemma {:induction false} ReadableExact(s: string)
    requires NUL !in s && !Statement(s).end
    ensures Readable(s) <==> Statement(s).node.Good?
    decreases |s|, 2
  {
    hide Statement, StatementText;
    StatementFound(s);
    if n, tail :| StatementText(n, s, tail) { StatementExact(n, s, tail); }
  }

  lemma {:induction false} LostFound(before: seq<Node>, s: string)
    requires NUL !in s && SequenceFrom(before, s).0 == Null
    ensures LostText(s, SequenceFrom(before, s).1)
    decreases |s|, 4
  {
    hide Statement, StatementText, StatementSpan, EndsHere, SequenceFrom, Readable;
    var read := Statement(s);
    SequenceStep(before, s);
    forall x ensures !EndsHere(s, x) { if EndsHere(s, x) { EndsRead(s, x); } }
    StatementSpans(s, read.rest);
    ReadableExact(s);
    if read.node.Good? {
      LostFound(before + [read.node.node], read.rest);
    } else {
      NullStep(before, s);
    }
  }

  lemma NullStep(list: seq<Node>, s: string)
    requires !Statement(s).end && Statement(s).node.Null?
    ensures SequenceFrom(list, s) == (Null, Statement(s).rest)
  {
    hide Statement;
  }

  lemma {:induction false} BlockSpans(s: string, tail: string)
    requires NUL !in s
    ensures BlockSpan(s, tail) <==> Leaves(SequenceFrom([], s).1, tail)
    decreases |s|, 6
  {
    hide SequenceFrom, BlockText, LostText;
    var (node, rest) := SequenceFrom([], s);
    if n :| BlockText(n, s, tail) { BlockExact(n, s, tail); }
    if LostText(s, tail) { LostExact([], s, tail); }
    if Leaves(rest, tail) {
      if node.Good? {
        BlockFound(s);
        BlockTail(node.node, s, rest, tail);
      } else {
        LostFound([], s);
        LostTail(s, rest, tail);
      }
    }
  }

  /** What is left may begin with other spaces. */
  lemma BlockTail(n: Node, s: string, tail: string, tail': string)
    requires BlockText(n, s, tail) && Leaves(tail', tail)
    ensures BlockText(n, s, tail')
  {
    hide ListText;
    ListTail(if n.Sequence? then n.statements else [n], s, tail, tail');
  }

  lemma {:induction false} ListTail(list: seq<Node>, s: string, tail: string, tail': string)
    requires ListText(list, s, tail) && Leaves(tail', tail)
    ensures ListText(list, s, tail')
    decreases |s|
  {
    hide StatementText, CommentsThen, Overlong, WordAt, AfterWord;
    if list == [] {
      var x :| CommentsThen(s, x) && EndMark(x, tail);
      assert EndMark(x, tail');
    } else {
      var x :| |x| < |s| && StatementText(list[0], s, x) && ListText(list[1..], x, tail);
      ListTail(list[1..], x, tail, tail');
    }
  }

  lemma {:induction false} LostTail(s: string, tail: string, tail': string)
    requires LostText(s, tail) && Leaves(tail', tail)
    ensures LostText(s, tail')
    decreases |s|
  {
    hide StatementSpan, EndsHere, Readable;
    var x :| |x| < |s| && StatementSpan(s, x) && if Readable(s) then LostText(x, tail) else Leaves(tail, x);
    if Readable(s) { LostTail(x, tail, tail'); }
  }

  /** Unless a block ends here, what is read of a statement, good or not, goes as far as it should. */
  lemma {:induction false} StatementSpans(s: string, tail: string)
    requires NUL !in s && !Statement(s).end
    ensures StatementSpan(s, tail) <==> Leaves(Statement(s).rest, tail)
    decreases |s|, 3
  {
    hide Statement, BareStatement, BareSpan, CommentsThen;
    var start := SkipComments(s);
    CommentsFound(s);
    StatementFrom(s);
    BareSpans(start, start, tail);
    if x :| |x| <= |s| && CommentsThen(s, x) && BareSpan(x, tail) {
      CommentsRead(s, x);
      LeavesNoNul(start, x);
      BareSpans(x, start, tail);
    }
  }

  lemma {:induction false} BareSpans(s: string, start: string, tail: string)
    requires NUL !in s && Leaves(start, s) && !BareStatement(start).end
    ensures BareSpan(s, tail) <==> Leaves(BareStatement(start).rest, tail)
    decreases |s|, 2
  {
    hide BareStatement, IfRest, WhileRest, PrintRest, LetRest, Token, WordAt, AfterWord, ExprSpan, LetSpan,
         ConditionSpan, BlockSpan, EndSpan, ElseSpan;
    WordsSame(start, s);
    Dispatch(start);
    OtherEnd(start, s, tail);
    FirstWord(s);
    if WordAt("PRINT", s) {
      PrintSpans(Token(s, "").1, AfterWord(s, "PRINT"), tail);
    } else if WordAt("LET", s) {
      LetSpans(Token(s, "").1, AfterWord(s, "LET"), tail);
    } else if WordAt("IF", s) {
      IfSame(Token(s, "").1, AfterWord(s, "IF"));
      IfSpans(s, tail);
    } else if WordAt("WHILE", s) {
      IfSame(Token(s, "").1, AfterWord(s, "WHILE"));
      WhileSpans(s, tail);
    }
  }

  predicate Wording(w: string, s: string) {
    && (WordAt(w, s) <==> Token(s, "").0 == Some(w))
    && (WordAt(w, s) ==> Leaves(Token(s, "").1, AfterWord(s, w)) && NUL !in AfterWord(s, w) && |AfterWord(s, w)| < |s|)
  }

  /** The first word, if it is one of these. */
  lemma FirstWord(s: string)
    requires NUL !in s
    ensures Wording("PRINT", s) && Wording("LET", s) && Wording("IF", s) && Wording("WHILE", s)
    ensures Wording("ELSE", s) && Wording("END", s)
  {
    hide Wording;
    Worded("PRINT", s);
    Worded("LET", s);
    Worded("IF", s);
    Worded("WHILE", s);
    Worded("ELSE", s);
    Worded("END", s);
  }

  lemma Worded(w: string, s: string)
    requires NUL !in s
    ensures Wording(w, s)
  {
    hide Token, WordAt, AfterWord;
    if WordAt(w, s) { WordReads(w, s); }
    if Token(s, "").0 == Some(w) { WordIs(s, w); }
    AfterNoNul(s, w);
  }

  /** Where no statement begins, a word is read, and one more after END. */
  lemma OtherEnd(start: string, s: string, tail: string)
    requires NUL !in s && Leaves(start, s) && !BareStatement(start).end
    ensures Token(s, "").0 in {Some("PRINT"), Some("LET"), Some("IF"), Some("WHILE")}
            || (EndSpan(s, tail) <==> Leaves(BareStatement(start).rest, tail))
  {
    hide Token, Expression, IfRest, WhileRest, EndSpan;
    WordsSame(start, s);
    EndSpans(s, tail);
  }

  /** Where END and a keyword are looked for, what is left after them, right or wrong. */
  function AfterEnd(s: string): string {
    var (word, rest) := Token(s, "");
    if word == Some("END") then Token(rest, "").1 else rest
  }

  function AfterElse(s: string): string {
    var (word, rest) := Token(s, "");
    if word == Some("ELSE") then AfterEnd(SequenceFrom([], rest).1) else AfterEnd(s)
  }

  lemma BlockEnds(s: string)
    ensures IfRest(s).rest == AfterElse(SequenceFrom([], Comparison(s).1).1)
    ensures WhileRest(s).rest == AfterEnd(SequenceFrom([], Comparison(s).1).1)
  {
    hide Token, Comparison, SequenceFrom;
  }

  lemma EndSpans(s: string, tail: string)
    requires NUL !in s
    ensures EndSpan(s, tail) <==> Leaves(AfterEnd(s), tail)
  {
    hide Token, WordSpan, WordAt;
    var (word, rest) := Token(s, "");
    Worded("END", s);
    WordSpans(s, rest);
    WordSpans(rest, tail);
    if x :| WordSpan(s, x) && if WordAt("END", s) then WordSpan(x, tail) else Leaves(tail, x) {
      WordSpans(s, x);
      LeavesNoNul(rest, x);
      WordSpans(x, tail);
      WordsSame(rest, x);
    }
  }

  lemma PrintSpans(s: string, s': string, tail: string)
    requires NUL !in s' && Leaves(s, s')
    ensures ExprSpan(s', tail) <==> Leaves(PrintRest(s).rest, tail)
  {
    hide ExprSpan, Expression;
    ExpressionSame(s, s');
    ExprSpans(s', tail);
  }

  lemma LetSpans(s: string, s': string, tail: string)
    requires NUL !in s' && Leaves(s, s')
    ensures LetSpan(s', tail) <==> Leaves(LetRest(s).rest, tail)
  {
    hide ExprSpan, Expression;
    AdvanceTrim(s);
    TrimNoNul(s');
    AdvanceTrim(Rest(s'));
    TrimNoNul(Rest(s'));
    ExprSpans(Rest(Rest(s')), tail);
  }

  lemma {:induction false} IfSpans(s: string, tail: string)
    requires NUL !in s && WordAt("IF", s)
    ensures BareSpan(s, tail) <==> Leaves(IfRest(AfterWord(s, "IF")).rest, tail)
    decreases |s|, 1
  {
    hide Token, Comparison, SequenceFrom, WordAt, AfterWord, ExprSpan, ConditionSpan, BlockSpan, ElseSpan, EndSpan,
         IfRest, AfterElse;
    FirstWord(s);
    var after := AfterWord(s, "IF");
    var x0 := Comparison(after).1;
    var y0 := SequenceFrom([], x0).1;
    BlockEnds(after);
    ConditionSpans(after, x0);
    BlockSpans(x0, y0);
    ElseSpans(y0, tail);
    if x, y :| |x| < |s| && |y| < |s| && ConditionSpan(after, x) && BlockSpan(x, y) && ElseSpan(y, tail) {
      AfterCondition(after, x);
      BlockSpans(x, y);
      LeavesNoNul(y0, y);
      ElseSpans(y, tail);
      EndsSame(y0, y);
    }
  }

  lemma AfterCondition(s: string, x: string)
    requires NUL !in s && ConditionSpan(s, x)
    ensures NUL !in x && SequenceFrom([], Comparison(s).1) == SequenceFrom([], x)
  {
    hide Comparison, SequenceFrom;
    ConditionSpans(s, x);
    LeavesNoNul(Comparison(s).1, x);
    SequenceSame([], Comparison(s).1, x);
  }

  lemma EndsSame(s: string, s': string)
    requires Leaves(s, s')
    ensures AfterEnd(s) == AfterEnd(s') && AfterElse(s) == AfterElse(s')
  {
    hide Token, SequenceFrom;
    WordsSame(s, s');
  }

  lemma {:induction false} WhileSpans(s: string, tail: string)
    requires NUL !in s && WordAt("WHILE", s)
    ensures BareSpan(s, tail) <==> Leaves(WhileRest(AfterWord(s, "WHILE")).rest, tail)
    decreases |s|, 1
  {
    hide Token, Comparison, SequenceFrom, WordAt, AfterWord, ExprSpan, ConditionSpan, BlockSpan, ElseSpan, EndSpan,
         WhileRest, AfterEnd;
    FirstWord(s);
    var after := AfterWord(s, "WHILE");
    var x0 := Comparison(after).1;
    var y0 := SequenceFrom([], x0).1;
    BlockEnds(after);
    ConditionSpans(after, x0);
    BlockSpans(x0, y0);
    EndSpans(y0, tail);
    if x, y :| |x| < |s| && ConditionSpan(after, x) && BlockSpan(x, y) && EndSpan(y, tail) {
      AfterCondition(after, x);
      BlockSpans(x, y);
      LeavesNoNul(y0, y);
      EndSpans(y, tail);
      EndsSame(y0, y);
    }
  }

  lemma {:induction false} ElseSpans(s: string, tail: string)
    requires NUL !in s
    ensures ElseSpan(s, tail) <==> Leaves(AfterElse(s), tail)
    decreases |s|, 7
  {
    hide Token, SequenceFrom, WordAt, AfterWord, BlockSpan, EndSpan, AfterEnd;
    Worded("ELSE", s);
    if WordAt("ELSE", s) {
      var after := AfterWord(s, "ELSE");
      SequenceSame([], Token(s, "").1, after);
      var x0 := SequenceFrom([], after).1;
      BlockSpans(after, x0);
      EndSpans(x0, tail);
      if x :| BlockSpan(after, x) && EndSpan(x, tail) {
        BlockSpans(after, x);
        LeavesNoNul(x0, x);
        EndSpans(x, tail);
        EndsSame(x0, x);
      }
    } else {
      EndSpans(s, tail);
    }
  }


  // ---------- Whole programs ----------

  /** A text is read as a program if and only if it is a text of that program. */
  lemma ParseExact(s: string, n: Node)
    requires NUL !in s
    ensures Parse(s) == Good(n) <==> TextOf(n, s)
  {
    hide SequenceFrom, BlockText;
    var (node, rest) := SequenceFrom([], s);
    AdvanceTrim(rest);
    TrimNoNul(rest);
    if node.Good? { BlockFound(s); }
    if TextOf(n, s) {
      var tail :| BlockText(n, s, tail) && Trim(tail) == "";
      BlockExact(n, s, tail);
    }
  }
}
