/** Texts that are not programs: where the parser answers NULL. */
module ParserRefusals {
  import opened BasicAst
  import opened Common
  import opened Grammar
  import opened ExpressionExact
  import opened ParserExact
  import opened ParserRoundTrip
  import opened ProgramText
  import opened Tokens

  /** A text is refused if and only if it is no text of any program. */
  lemma ParseRefuses(s: string)
    requires NUL !in s
    ensures Parse(s) == Null <==> forall n :: !TextOf(n, s)
  {
    hide Parse, TextOf;
    forall n ensures Parse(s) == Good(n) <==> TextOf(n, s) { ParseExact(s, n); }
    if Parse(s) != Null { assert TextOf(Parse(s).node, s); }
  }

  // ---------- What comes too late ----------

  /** Nothing may be left after the block of a program. */
  lemma TrailingRefused(n: Node, s: string, tail: string)
    requires BlockText(n, s, tail) && Trim(tail) != "" && Trim(tail)[0] != NUL
    ensures Parse(s) == Null
  {
    hide SequenceFrom, BlockText;
    BlockExact(n, s, tail);
    AdvanceTrim(SequenceFrom([], s).1);
  }

  /** An END IF, an END WHILE or an ELSE without a statement it belongs to, after any program, before any text. */
  lemma StrayEndRefused(lay: Layout, n: Node, keyword: string, more: string)
    requires IsBlock(n) && (keyword == "IF" || keyword == "WHILE")
    ensures Parse(ShowBlock(lay, n, End(lay, keyword, more))) == Null
    ensures Parse(ShowBlock(lay, n, Otherwise(lay, more))) == Null
  {
    hide Parse, ShowBlock, BlockText, WordAt, EndText, Follows, EndMark, Broken;
    EndShown(lay, keyword, more);
    ElseShown(lay, more);
    BlockShown(lay, n, End(lay, keyword, more));
    BlockShown(lay, n, Otherwise(lay, more));
    LetterFirst(End(lay, keyword, more));
    LetterFirst(Otherwise(lay, more));
    TrailingRefused(n, ShowBlock(lay, n, End(lay, keyword, more)), End(lay, keyword, more));
    TrailingRefused(n, ShowBlock(lay, n, Otherwise(lay, more)), Otherwise(lay, more));
  }

  // ---------- A statement that cannot be read ----------

  /** Statements, and what comes after them. */
  ghost predicate StatementsThen(list: seq<Node>, s: string, x: string) {
    if list == [] then Leaves(x, s)
    else exists y :: StatementText(list[0], s, y) && StatementsThen(list[1..], y, x)
  }

  lemma {:induction false} StatementsRead(before: seq<Node>, list: seq<Node>, s: string, x: string)
    requires StatementsThen(list, s, x)
    ensures SequenceFrom(before, s) == SequenceFrom(before + list, x)
    decreases |list|
  {
    hide StatementText, Statement, SequenceFrom;
    if list == [] {
      assert before + list == before;
      SequenceSame(before, s, x);
    } else {
      var y :| StatementText(list[0], s, y) && StatementsThen(list[1..], y, x);
      StatementExact(list[0], s, y);
      SequenceStep(before, s);
      SequenceSame(before + [list[0]], Statement(s).rest, y);
      StatementsRead(before + [list[0]], list[1..], y, x);
      assert before + [list[0]] + list[1..] == before + list;
    }
  }

  /** What cannot be read as a statement and is no end of a block. */
  predicate Unreadable(s: string) { Statement(s).node.Null? && !Statement(s).end }

  /** Wherever it stands among the statements of a program, such a text is refused. */
  lemma UnreadableRefused(list: seq<Node>, s: string, x: string)
    requires StatementsThen(list, s, x) && Unreadable(x)
    ensures SequenceFrom([], s).0 == Null && Parse(s) == Null
  {
    hide Statement, StatementsThen;
    StatementsRead([], list, s, x);
    assert SequenceFrom([] + list, x).0 == Null;
  }

  /** Nor can an IF or a WHILE be read with such a text in its block; only after ELSE it can. */
  lemma UnreadableInside(list: seq<Node>, condition: Node, s: string, x: string, y: string)
    requires ConditionText(condition, s, x) && StatementsThen(list, x, y) && Unreadable(y)
    ensures IfRest(s).node == Null && WhileRest(s).node == Null
  {
    hide Comparison, ConditionText, SequenceFrom, StatementsThen, Unreadable, Token;
    ConditionReads(condition, s, x);
    SequenceSame([], Comparison(s).1, x);
    UnreadableRefused(list, x, y);
  }

  /** After comments, the keyword decides. */
  lemma AfterComments(s: string, x: string)
    requires CommentsThen(s, x)
    ensures Statement(s).node == BareStatement(x).node && Statement(s).end == BareStatement(x).end
  {
    hide Statement, CommentsThen, Token, IfRest, WhileRest, Expression;
    CommentsRead(s, x);
    StatementFrom(s);
    WordsSame(SkipComments(s), x);
  }

  /** A parenthesis that is not closed. */
  lemma Unclosed(e: Node, s: string, x: string)
    requires Starts(s, '(') && ExprText(e, Rest(s), x) && Stops(x, Carries) && !Starts(x, ')')
    ensures Factor(s).0 == Null && Term(s).0 == Null && Expression(s).0 == Null
  {
    hide Expression, TermLoop, ExprText;
    TryTrim(s, IsOpenParen);
    ExpressionReads(e, Rest(s), x);
    TryTrim(Expression(Rest(s)).1, IsCloseParen);
    NullTerm(Factor(s).1);
    ExpressionOfNull(s);
  }

  lemma ExpressionOfNull(s: string)
    requires Term(s).0 == Null
    ensures Expression(s).0 == Null
  {
    hide Term;
    NullExpression(Term(s).1);
  }

  /** A PRINT or the condition of an IF or a WHILE with a parenthesis that is not closed. */
  lemma UnclosedUnreadable(e: Node, keyword: string, s: string, x: string, y: string)
    requires keyword in {"PRINT", "IF", "WHILE"} && CommentsThen(s, x) && WordAt(keyword, x)
    requires var after := AfterWord(x, keyword);
             Starts(after, '(') && ExprText(e, Rest(after), y) && Stops(y, Carries) && !Starts(y, ')')
    ensures Unreadable(s)
  {
    hide Statement, BareStatement, CommentsThen, WordAt, AfterWord, ExprText, Expression, Token, IfRest, WhileRest;
    AfterComments(s, x);
    WordReads(keyword, x);
    Dispatch(x);
    var after := AfterWord(x, keyword);
    ExpressionSame(Token(x, "").1, after);
    Unclosed(e, after, y);
    NoCondition(Token(x, "").1);
  }

  lemma NoCondition(s: string)
    requires Expression(s).0 == Null
    ensures IfRest(s).node == Null && WhileRest(s).node == Null && PrintRest(s).node == Null
  {
    hide Expression, SequenceFrom, Token;
  }

  predicate IsKeyword(w: string) { w in {"PRINT", "LET", "IF", "WHILE", "ELSE", "END"} }

  /** A first word that begins no statement. */
  lemma UnknownUnreadable(w: string, s: string, x: string)
    requires CommentsThen(s, x) && WordAt(w, x) && !IsKeyword(w)
    ensures Unreadable(s)
  {
    hide Statement, CommentsThen, WordAt, Token, Expression, IfRest, WhileRest;
    AfterComments(s, x);
    WordReads(w, x);
  }

  lemma {:induction false} OverlongEnds(list: seq<Node>, s: string, x: string)
    requires CommentsThen(s, x) && Overlong(x)
    ensures var r := SequenceFrom(list, s);
            r.0 == Good(MakeSequence(list)) && Leaves(r.1, Trim(x)[101..])
  {
    hide Statement, CommentsThen, SequenceFrom;
    EndsRead(s, Trim(x)[101..]);
    SequenceStep(list, s);
  }

  /** Something first that is neither a keyword nor the end, after any statements: the text is refused, unless it is
      just a word of more than 100 characters, of which the parser drops the first 101, and nothing comes after these.
      */
  lemma UnknownRefused(list: seq<Node>, s: string, x: string, y: string)
    requires NUL !in y && StatementsThen(list, s, x) && CommentsThen(x, y) && Trim(y) != ""
    requires forall w :: IsKeyword(w) ==> !WordAt(w, y)
    ensures Parse(s) == if Overlong(y) && Trim(Trim(y)[101..]) == "" then Good(MakeSequence(list))
                        else Null
  {
    hide StatementsThen, CommentsThen, WordAt, Statement, Token, SequenceFrom, Plain;
    WordFound(y);
    if Overlong(y) {
      StatementsRead([], list, s, x);
      assert [] + list == list;
      OverlongEnds(list, x, y);
      OverlongReads(y);
      TrimNoNul(y);
      TrimNoNul(Trim(y)[101..]);
      AdvanceTrim(SequenceFrom([], s).1);
    } else {
      UnknownUnreadable(Token(y, "").0.value, x, y);
      UnreadableRefused(list, s, x);
    }
  }

  // ---------- The wrong END ----------

  /** END with anything but IF or WHILE after it. */
  lemma UnknownEndUnreadable(s: string, x: string)
    requires NUL !in x && CommentsThen(s, x) && WordAt("END", x) && !EndsWith("IF", x) && !EndsWith("WHILE", x)
    ensures Unreadable(s)
  {
    hide Statement, CommentsThen, WordAt, AfterWord, Token, Expression, IfRest, WhileRest, Overlong;
    AfterComments(s, x);
    WordReads("END", x);
    var after := AfterWord(x, "END");
    AfterNoNul(x, "END");
    WordsSame(Token(x, "").1, after);
    WordFound(after);
  }

  /** An IF and a WHILE are read if and only if what follows the keyword is. */
  lemma KeywordUnreadable(s: string, x: string)
    requires CommentsThen(s, x)
    ensures WordAt("IF", x) ==> (Unreadable(s) <==> IfRest(AfterWord(x, "IF")).node == Null)
    ensures WordAt("WHILE", x) ==> (Unreadable(s) <==> WhileRest(AfterWord(x, "WHILE")).node == Null)
  {
    hide Statement, BareStatement, CommentsThen, WordAt, AfterWord, Token, IfRest, WhileRest;
    AfterComments(s, x);
    Dispatch(x);
    if WordAt("IF", x) {
      WordReads("IF", x);
      IfSame(Token(x, "").1, AfterWord(x, "IF"));
    }
    if WordAt("WHILE", x) {
      WordReads("WHILE", x);
      IfSame(Token(x, "").1, AfterWord(x, "WHILE"));
    }
  }

  lemma EndExact(keyword: string, node: Parsed, s: string)
    requires NUL !in s && node.Good?
    ensures EndOf(keyword, node, Token(s, "").0, Token(s, "").1).node.Good? <==> EndsWith(keyword, s)
  {
    hide EndOf, Token, WordAt, AfterWord;
    if EndsWith(keyword, s) {
      EndReads(keyword, node, s, AfterWord(AfterWord(s, "END"), keyword));
    } else if EndOf(keyword, node, Token(s, "").0, Token(s, "").1).node.Good? {
      EndFound(keyword, node, s);
    }
  }

  /** After its condition and its block, a WHILE is read if and only if END WHILE comes next, and an IF if and only if
      END IF does, or an ELSE and a block, readable or not, and then END IF. */
  lemma WrongEnd(condition: Node, block: Node, s: string, x: string, y: string)
    requires NUL !in y && ConditionText(condition, s, x) && BlockText(block, x, y)
    ensures WhileRest(s).node.Good? <==> EndsWith("WHILE", y)
    ensures IfRest(s).node.Good? <==>
            if WordAt("ELSE", y) then EndsWith("IF", SequenceFrom([], AfterWord(y, "ELSE")).1) else EndsWith("IF", y)
  {
    hide Comparison, ConditionText, BlockText, SequenceFrom, EndOf, EndsWith, Token, WordAt, AfterWord;
    ConditionReads(condition, s, x);
    SequenceSame([], Comparison(s).1, x);
    BlockExact(block, x, y);
    WordsSame(SequenceFrom([], x).1, y);
    EndExact("WHILE", Good(While(condition, block)), y);
    ElseOrNot(y);
    if WordAt("ELSE", y) {
      var after := AfterWord(y, "ELSE");
      AfterNoNul(y, "ELSE");
      SequenceSame([], Token(y, "").1, after);
      EndExact("IF", MakeIf(Good(condition), Good(block), SequenceFrom([], after).0), SequenceFrom([], after).1);
    } else {
      EndExact("IF", MakeIf(Good(condition), Good(block), Null), y);
    }
  }

  lemma ElseOrNot(s: string)
    requires NUL !in s
    ensures WordAt("ELSE", s) <==> Token(s, "").0 == Some("ELSE")
    ensures WordAt("ELSE", s) ==> Leaves(Token(s, "").1, AfterWord(s, "ELSE"))
  {
    hide Token, WordAt, AfterWord;
    if WordAt("ELSE", s) { WordReads("ELSE", s); } else if Token(s, "").0 == Some("ELSE") { WordIs(s, "ELSE"); }
  }
}
