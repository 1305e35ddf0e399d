/** Words, expressions, conditions and comments are read if and only if they are what they should be, and reading them
    goes just as far as it should. */
module ExpressionExact {
  import opened BasicAst
  import opened Common
  import opened Grammar
  import opened Numerals
  import opened ProgramText
  import opened Tokens

  // ---------- Leading spaces do not matter ----------

  lemma FactorSame(s: string, s': string)
    requires Trim(s) == Trim(s')
    ensures Factor(s) == Factor(s')
  {
    hide Expression, Number;
    TrySame(s, s', IsOpenParen);
  }

  lemma TermSame(s: string, s': string)
    requires Trim(s) == Trim(s')
    ensures Term(s) == Term(s')
  {
    hide Factor;
    FactorSame(s, s');
  }

  lemma ExpressionSame(s: string, s': string)
    requires Trim(s) == Trim(s')
    ensures Expression(s) == Expression(s')
  {
    hide Term;
    TermSame(s, s');
  }

  lemma ComparisonSame(s: string, s': string)
    requires Trim(s) == Trim(s')
    ensures Comparison(s) == Comparison(s')
  {
    hide Expression;
    ExpressionSame(s, s');
  }

  /** No comment comes first: the statement begins at the next character. */
  lemma NoComments(s: string)
    requires Stops(s, IsCommentStart)
    ensures SkipComments(s) == Trim(s)
  {
    TryTrim(s, IsCommentStart);
  }

  // ---------- Words ----------

  /** A word that stands first is read. */
  lemma WordReads(w: string, s: string)
    requires WordAt(w, s)
    ensures Token(s, "").0 == Some(w) && Leaves(Token(s, "").1, AfterWord(s, w))
  {
    TokenTrim(s);
    assert Trim(s) == w + AfterWord(s, w);
    TokenReads(w, AfterWord(s, w));
    AfterTokenTrim(AfterWord(s, w));
  }

  predicate AllPlain(u: string) { forall i :: 0 <= i < |u| ==> Plain(u[i]) }

  /** A word was read, or too many characters. */
  predicate Found(s: string, sofar: string, u: string, word: Option<string>, rest: string) {
    && |u| <= |s| && s[..|u|] == u && AllPlain(u)
    && (if word.Some? then
          word.value == sofar + u && |sofar| + |u| <= MAX_KEYWORD_LENGTH && Separated(s[|u|..])
          && rest == AfterToken(s[|u|..])
        else |sofar| + |u| == MAX_KEYWORD_LENGTH + 1 && rest == s[|u|..])
  }

  lemma {:induction false} TokenFound(s: string, sofar: string) returns (u: string)
    requires NUL !in s && sofar != "" && |sofar| <= MAX_KEYWORD_LENGTH + 1 && NUL !in sofar
    ensures Found(s, sofar, u, Token(s, sofar).0, Token(s, sofar).1)
    decreases |s|
  {
    hide Found, AllPlain;
    if |sofar| > MAX_KEYWORD_LENGTH || s == "" || IsOperator(s[0]) || IsSpace(s[0]) {
      u := "";
      FoundHere(s, sofar);
    } else {
      assert Plain(s[0]);
      var more := TokenFound(s[1..], sofar + [s[0]]);
      u := [s[0]] + more;
      FoundOn(s, sofar, more, Token(s, sofar).0, Token(s, sofar).1);
    }
  }

  lemma FoundHere(s: string, sofar: string)
    requires NUL !in sofar && sofar != "" && |sofar| <= MAX_KEYWORD_LENGTH + 1
    requires |sofar| > MAX_KEYWORD_LENGTH || s == "" || IsOperator(s[0]) || IsSpace(s[0])
    ensures Found(s, sofar, "", Token(s, sofar).0, Token(s, sofar).1)
  {
    CStringPlain(sofar);
    assert s[..0] == "" && s[0..] == s && sofar + "" == sofar;
    if s != "" { CharacterKinds(s[0]); }
  }

  lemma FoundOn(s: string, sofar: string, u: string, word: Option<string>, rest: string)
    requires s != "" && Plain(s[0]) && Found(s[1..], sofar + [s[0]], u, word, rest)
    ensures Found(s, sofar, [s[0]] + u, word, rest)
  {
    var u' := [s[0]] + u;
    assert s[..|u'|] == [s[0]] + s[1..][..|u|] && s[1..][|u|..] == s[|u'|..];
    assert (sofar + [s[0]]) + u == sofar + u';
  }

  /** What is read as a word stands first; when nothing is read, the text is at its end, or its first word too long. */
  lemma WordFound(s: string)
    requires NUL !in s
    ensures var (word, rest) := Token(s, "");
            if word.Some? then WordAt(word.value, s) && Leaves(rest, AfterWord(s, word.value))
            else (Trim(s) == "" && rest == "") || (Overlong(s) && rest == Trim(s)[MAX_KEYWORD_LENGTH + 1..])
  {
    TokenTrim(s);
    TrimNoNul(s);
    var t := Trim(s);
    if t == "" {
      TokenAtEnd();
    } else {
      FirstOfToken(t);
      var u := TokenFound(t[1..], [t[0]]);
      hide Token;
      FoundWord(s, u, Token(t, "").0, Token(t, "").1);
    }
  }

  lemma TokenAtEnd()
    ensures Token("", "") == (None, "")
  {
  }

  lemma FirstOfToken(t: string)
    requires t != "" && !IsSpace(t[0])
    ensures Token(t, "") == Token(t[1..], [t[0]])
  {
    assert "" + [t[0]] == [t[0]];
  }

  lemma FoundWord(s: string, u: string, word: Option<string>, rest: string)
    requires Trim(s) != "" && NUL !in Trim(s) && Found(Trim(s)[1..], [Trim(s)[0]], u, word, rest)
    ensures if word.Some? then WordAt(word.value, s) && Leaves(rest, AfterWord(s, word.value))
            else Overlong(s) && rest == Trim(s)[MAX_KEYWORD_LENGTH + 1..]
  {
    var t, w := Trim(s), [Trim(s)[0]] + u;
    assert t[..|w|] == [t[0]] + t[1..][..|u|] && t[|w|..] == t[1..][|u|..];
    forall i | 1 <= i < |w| ensures Plain(t[i]) { assert t[i] == u[i - 1]; }
    AfterTokenTrim(t[|w|..]);
  }

  lemma {:induction false} TrimNoNul(s: string)
    requires NUL !in s
    ensures NUL !in Trim(s) && NUL !in Rest(s)
  {
    if s != "" && IsSpace(s[0]) { TrimNoNul(s[1..]); }
  }

  /** Of a word that is too long, 101 characters are dropped, and nothing is read. */
  lemma OverlongReads(s: string)
    requires Overlong(s)
    ensures |Trim(s)| > MAX_KEYWORD_LENGTH && Token(s, "") == (None, Trim(s)[MAX_KEYWORD_LENGTH + 1..])
  {
    TokenTrim(s);
    var t := Trim(s);
    FirstOfToken(t);
    TokenTooLong(t[1..], [t[0]]);
    assert t[1..][MAX_KEYWORD_LENGTH..] == t[MAX_KEYWORD_LENGTH + 1..];
  }

  lemma {:induction false} TokenTooLong(s: string, sofar: string)
    requires sofar != "" && |sofar| <= MAX_KEYWORD_LENGTH + 1 <= |sofar| + |s|
    requires AllPlain(s[..MAX_KEYWORD_LENGTH + 1 - |sofar|])
    ensures Token(s, sofar) == (None, s[MAX_KEYWORD_LENGTH + 1 - |sofar|..])
    decreases |s|
  {
    var k := MAX_KEYWORD_LENGTH + 1 - |sofar|;
    if k > 0 {
      assert s[..k][0] == s[0] && Plain(s[0]);
      assert s[1..][..k - 1] == s[..k][1..] && s[1..][k - 1..] == s[k..];
      TokenTooLong(s[1..], sofar + [s[0]]);
    }
  }

  lemma WordIs(s: string, w: string)
    requires NUL !in s && Token(s, "").0 == Some(w)
    ensures WordAt(w, s) && Leaves(Token(s, "").1, AfterWord(s, w)) && NUL !in AfterWord(s, w)
  {
    hide Token;
    WordFound(s);
    AfterNoNul(s, w);
  }

  /** Something that is left comes to the same, wherever spaces before it were dropped. */
  lemma WordsSame(s: string, s': string)
    requires Leaves(s, s')
    ensures Token(s, "") == Token(s', "")
  {
    TokenTrim(s);
    TokenTrim(s');
  }

  lemma AfterNoNul(s: string, w: string)
    requires NUL !in s
    ensures NUL !in AfterWord(s, w)
  {
    TrimNoNul(s);
  }

  // ---------- Expressions are read ----------

  /** A numeral begins with a digit or a sign. */
  lemma NumeralStarts(w: string, v: int)
    requires Numeral(w, v)
    ensures w != "" && !IsOpenParen(w[0]) && !IsVariable(w[0]) && w[0] != NUL
  {
    hide Literal;
    NotEmpty(v);
    if w[0] != '+' && w[0] != '-' {
      LiteralIs(w, v);
      assert DigitValue(w[0]) < 10;
    }
  }

  lemma NumberReads(w: string, v: int64, s: string)
    requires WordAt(w, s) && Numeral(w, v)
    ensures Factor(s).0 == Good(Num(v)) && Leaves(Factor(s).1, AfterWord(s, w))
  {
    hide Numeral, Strtol;
    NumeralStarts(w, v);
    assert Trim(s)[0] == w[0];
    TryTrim(s, IsOpenParen);
    TrimTwice(s);
    TryTrim(Trim(s), IsVariable);
    WordReads(w, s);
    TokenTrim(s);
    StrtolExact(w, v);
  }

  lemma {:induction false} FactorExact(e: Node, s: string, tail: string)
    requires FactorText(e, s, tail)
    ensures Factor(s).0 == Good(e) && Leaves(Factor(s).1, tail)
    decreases |s|, e, 0
  {
    hide Numeral;
    if e.Var? && IsVariable(e.name) && Starts(s, e.name) && Leaves(tail, Rest(s)) {
      TryTrim(s, IsOpenParen);
      TrimTwice(s);
      TryTrim(Trim(s), IsVariable);
    } else if e.Num? && exists w :: WordAt(w, s) && Numeral(w, e.value) && Leaves(tail, AfterWord(s, w)) {
      var w :| WordAt(w, s) && Numeral(w, e.value) && Leaves(tail, AfterWord(s, w));
      NumberReads(w, e.value, s);
    } else {
      var x :| ExprText(e, Rest(s), x) && Starts(x, ')') && Leaves(tail, Rest(x));
      ExprExact(e, Rest(s), x);
      ParenReads(e, s, x);
    }
  }

  lemma ParenReads(e: Node, s: string, x: string)
    requires Starts(s, '(') && Starts(x, ')')
    requires exists rest :: Leaves(rest, x) && Expression(Rest(s)) == ExpressionLoop(Good(e), rest)
    ensures Factor(s) == (Good(e), Rest(x))
  {
    hide Expression, ExpressionLoop, Number;
    var rest :| Leaves(rest, x) && Expression(Rest(s)) == ExpressionLoop(Good(e), rest);
    TryTrim(s, IsOpenParen);
    LoopStops(Good(e), rest, x);
    TrimTwice(x);
    TryTrim(Trim(x), IsCloseParen);
  }

  lemma StartsWith(s: string, c: char)
    requires Starts(s, c)
    ensures Trim(s) == [c] + Rest(s)
  {
  }

  lemma StopsAt(s: string, carries: char -> bool)
    requires Trim(s) != "" && Trim(s)[0] != NUL && !carries(Trim(s)[0])
    ensures Stops(s, carries)
  {
  }

  /** Reading a term goes on, after it, as the loop does with it on the left. */
  lemma {:induction false} TermExact(e: Node, s: string, tail: string)
    requires TermText(e, s, tail)
    ensures exists rest :: Leaves(rest, tail) && Term(s) == TermLoop(Good(e), rest)
    decreases |s|, e, 1
  {
    hide FactorText, Factor, Trim;
    if FactorText(e, s, tail) {
      FactorExact(e, s, tail);
      assert Term(s) == TermLoop(Good(e), Factor(s).1);
    } else {
      var x :| |x| <= |s| && TermText(e.left, s, x) && Starts(x, e.op) && FactorText(e.right, Rest(x), tail);
      TermExact(e.left, s, x);
      FactorExact(e.right, Rest(x), tail);
      StartsWith(x, e.op);
      TermStep(e, s, x, Rest(x), tail);
    }
  }

  lemma TermStep(e: Node, left: string, tail': string, after: string, tail: string)
    requires IsFactorNode(e) && Trim(tail') == [e.op] + after
    requires exists rest :: Leaves(rest, tail') && Term(left) == TermLoop(Good(e.left), rest)
    requires var r := Factor(after); r.0 == Good(e.right) && Leaves(r.1, tail)
    ensures exists rest :: Leaves(rest, tail) && Term(left) == TermLoop(Good(e), rest)
  {
    hide Term, Factor;
    var rest :| Leaves(rest, tail') && Term(left) == TermLoop(Good(e.left), rest);
    assert ([e.op] + after)[1..] == after;
    TryTrim(rest, IsFactorOp);
    var r := Factor(after);
    assert TermLoop(Good(e.left), rest) == TermLoop(Good(e), r.1);
  }

  lemma {:induction false} ExprExact(e: Node, s: string, tail: string)
    requires ExprText(e, s, tail) && Stops(tail, IsFactorOp)
    ensures exists rest :: Leaves(rest, tail) && Expression(s) == ExpressionLoop(Good(e), rest)
    decreases |s|, e, 2
  {
    hide TermText, Term, Trim;
    if TermText(e, s, tail) {
      TermExact(e, s, tail);
      TermEnds(e, s, tail);
    } else {
      var x :| |x| <= |s| && ExprText(e.left, s, x) && Starts(x, e.op) && TermText(e.right, Rest(x), tail);
      StopsAt(x, IsFactorOp);
      ExprExact(e.left, s, x);
      TermExact(e.right, Rest(x), tail);
      StartsWith(x, e.op);
      ExpressionStep(e, s, x, Rest(x), tail);
    }
  }

  lemma TermEnds(e: Node, shown: string, tail: string)
    requires Stops(tail, IsFactorOp)
    requires exists rest :: Leaves(rest, tail) && Term(shown) == TermLoop(Good(e), rest)
    ensures Term(shown).0 == Good(e) && Leaves(Term(shown).1, tail)
    ensures exists rest :: Leaves(rest, tail) && Expression(shown) == ExpressionLoop(Good(e), rest)
  {
    hide Term, Factor;
    var rest :| Leaves(rest, tail) && Term(shown) == TermLoop(Good(e), rest);
    TryTrim(rest, IsFactorOp);
    assert TermLoop(Good(e), rest) == (Good(e), Trim(tail));
    TrimTwice(tail);
    assert Expression(shown) == ExpressionLoop(Good(e), Trim(tail));
  }

  lemma {:induction false} TrimTwice(s: string)
    ensures Trim(Trim(s)) == Trim(s)
  {
    if s != "" && IsSpace(s[0]) { TrimTwice(s[1..]); }
  }

  lemma LoopStops(left: Parsed, rest: string, tail: string)
    requires Leaves(rest, tail) && Stops(tail, IsTermOp)
    ensures ExpressionLoop(left, rest) == (left, Trim(tail)) && Leaves(Trim(tail), tail)
  {
    hide Term;
    TryTrim(rest, IsTermOp);
    TrimTwice(tail);
  }

  lemma LoopGoesOn(left: Node, op: char, rest: string, after: string)
    requires IsTermOp(op) && Trim(rest) == [op] + after && Term(after).0.Good?
    ensures ExpressionLoop(Good(left), rest) == ExpressionLoop(Good(Bin(op, left, Term(after).0.node)), Term(after).1)
  {
    hide Term;
    TryTrim(rest, IsTermOp);
    assert Trim(rest)[1..] == after;
  }

  lemma ExpressionStep(e: Node, left: string, tail': string, after: string, tail: string)
    requires IsTermNode(e) && Stops(tail, IsFactorOp) && Trim(tail') == [e.op] + after
    requires exists rest :: Leaves(rest, tail') && Expression(left) == ExpressionLoop(Good(e.left), rest)
    requires exists rest :: Leaves(rest, tail) && Term(after) == TermLoop(Good(e.right), rest)
    ensures exists rest :: Leaves(rest, tail) && Expression(left) == ExpressionLoop(Good(e), rest)
  {
    hide Expression, Term, ExpressionLoop, TermLoop, Stops;
    TermEnds(e.right, after, tail);
    var rest :| Leaves(rest, tail') && Expression(left) == ExpressionLoop(Good(e.left), rest);
    LoopGoesOn(e.left, e.op, rest, after);
  }

  /** An expression is read, whatever follows that does not carry it on. */
  lemma ExpressionReads(e: Node, s: string, tail: string)
    requires ExprText(e, s, tail) && Stops(tail, Carries)
    ensures Expression(s).0 == Good(e) && Leaves(Expression(s).1, tail)
  {
    ExprExact(e, s, tail);
    hide Expression, ExpressionLoop;
    var rest :| Leaves(rest, tail) && Expression(s) == ExpressionLoop(Good(e), rest);
    LoopStops(Good(e), rest, tail);
  }

  lemma ConditionReads(c: Node, s: string, tail: string)
    requires ConditionText(c, s, tail)
    ensures Comparison(s).0 == Good(c) && Leaves(Comparison(s).1, tail)
  {
    hide Expression, ExprText;
    var x :| ExprText(c.left, s, x) && Stops(x, Carries)
             && (if IsComparison(c.op) then Starts(x, c.op) else c.op == NUL && Stops(x, IsComparison))
             && ExprText(c.right, if c.op == NUL then Trim(x) else Rest(x), tail) && Stops(tail, Carries);
    ExpressionReads(c.left, s, x);
    TryTrim(Expression(s).1, IsComparison);
    ExpressionReads(c.right, if c.op == NUL then Trim(x) else Rest(x), tail);
  }

  // ---------- Only expressions are read ----------

  lemma TermTail(e: Node, s: string, tail: string, tail': string)
    requires TermText(e, s, tail) && Leaves(tail', tail)
    ensures TermText(e, s, tail')
  {
    hide Numeral;
  }

  lemma ExprTail(e: Node, s: string, tail: string, tail': string)
    requires ExprText(e, s, tail) && Leaves(tail', tail)
    ensures ExprText(e, s, tail')
  {
    hide TermText;
    if TermText(e, s, tail) {
      TermTail(e, s, tail, tail');
    } else {
      var x :| |x| <= |s| && ExprText(e.left, s, x) && Starts(x, e.op) && TermText(e.right, Rest(x), tail);
      TermTail(e.right, Rest(x), tail, tail');
    }
  }

  lemma {:induction false} FactorFound(s: string)
    requires NUL !in s && Factor(s).0.Good?
    ensures FactorText(Factor(s).0.node, s, Factor(s).1)
    decreases |s|, 0
  {
    hide Strtol, Numeral;
    TrimNoNul(s);
    TryTrim(s, IsOpenParen);
    TrimTwice(s);
    TryTrim(Trim(s), IsVariable);
    if Starts(s, '(') {
      var (node, after) := Expression(Rest(s));
      var (close, rest) := TryAdvance(after, IsCloseParen);
      TrimNoNul(after);
      TryTrim(after, IsCloseParen);
      ExpressionFound(Rest(s));
      assert ExprText(node.node, Rest(s), after) && Starts(after, ')') && rest == Rest(after);
    } else if Trim(s) != "" && IsVariable(Trim(s)[0]) {
    } else {
      TokenTrim(s);
      WordFound(s);
      var (word, rest) := Token(s, "");
      assert word.Some?;
      StrtolExact(word.value, Factor(s).0.node.value);
      assert WordAt(word.value, s) && Numeral(word.value, Factor(s).0.node.value);
    }
  }

  lemma {:induction false} NullTerm(s: string)
    ensures TermLoop(Null, s).0 == Null
    decreases |s|
  {
    hide Factor;
    var (op, rest) := TryAdvance(s, IsFactorOp);
    if op != NUL { NullTerm(Factor(rest).1); }
  }

  lemma {:induction false} NullExpression(s: string)
    ensures ExpressionLoop(Null, s).0 == Null
    decreases |s|
  {
    hide Term;
    var (op, rest) := TryAdvance(s, IsTermOp);
    if op != NUL { NullExpression(Term(rest).1); }
  }

  lemma {:induction false} TermLoopFound(left: Node, s0: string, s: string)
    requires NUL !in s && TermText(left, s0, s) && |s| <= |s0| && TermLoop(Good(left), s).0.Good?
    ensures var r := TermLoop(Good(left), s); TermText(r.0.node, s0, r.1) && Stops(r.1, IsFactorOp)
    decreases |s|, 1
  {
    hide TermText, FactorText;
    TrimNoNul(s);
    TryTrim(s, IsFactorOp);
    var (op, rest) := TryAdvance(s, IsFactorOp);
    if op == NUL {
      TrimTwice(s);
      TermTail(left, s0, s, rest);
    } else {
      var (right, after) := Factor(rest);
      if right.Null? { NullTerm(after); }
      FactorFound(rest);
      TermGrows(Bin(op, left, right.node), s0, s, after);
      TermLoopFound(Bin(op, left, right.node), s0, after);
    }
  }

  lemma TermGrows(e: Node, s0: string, s: string, tail: string)
    requires IsFactorNode(e) && |s| <= |s0| && TermText(e.left, s0, s) && Starts(s, e.op)
    requires FactorText(e.right, Rest(s), tail)
    ensures TermText(e, s0, tail)
  {
    hide FactorText;
  }

  lemma {:induction false} TermFound(s: string)
    requires NUL !in s && Term(s).0.Good?
    ensures TermText(Term(s).0.node, s, Term(s).1) && Stops(Term(s).1, IsFactorOp)
    decreases |s|, 2
  {
    hide FactorText;
    var (first, rest) := Factor(s);
    if first.Null? { NullTerm(rest); }
    FactorFound(s);
    TermLoopFound(first.node, s, rest);
  }

  lemma {:induction false} ExpressionLoopFound(left: Node, s0: string, s: string)
    requires NUL !in s && ExprText(left, s0, s) && Stops(s, IsFactorOp) && |s| <= |s0|
    requires ExpressionLoop(Good(left), s).0.Good?
    ensures var r := ExpressionLoop(Good(left), s); ExprText(r.0.node, s0, r.1) && Stops(r.1, Carries)
    decreases |s|, 3
  {
    hide ExprText, TermText;
    TrimNoNul(s);
    TryTrim(s, IsTermOp);
    var (op, rest) := TryAdvance(s, IsTermOp);
    if op == NUL {
      TrimTwice(s);
      ExprTail(left, s0, s, rest);
    } else {
      var (right, after) := Term(rest);
      if right.Null? { NullExpression(after); }
      TermFound(rest);
      ExpressionGrows(Bin(op, left, right.node), s0, s, after);
      ExpressionLoopFound(Bin(op, left, right.node), s0, after);
    }
  }

  lemma ExpressionGrows(e: Node, s0: string, s: string, tail: string)
    requires IsTermNode(e) && |s| <= |s0| && ExprText(e.left, s0, s) && Starts(s, e.op)
    requires TermText(e.right, Rest(s), tail)
    ensures ExprText(e, s0, tail)
  {
    hide TermText;
  }

  /** Whatever is read as an expression is one, and nothing follows that would carry it on. */
  lemma {:induction false} ExpressionFound(s: string)
    requires NUL !in s && Expression(s).0.Good?
    ensures ExprText(Expression(s).0.node, s, Expression(s).1) && Stops(Expression(s).1, Carries)
    decreases |s|, 4
  {
    hide TermText;
    var (first, rest) := Term(s);
    if first.Null? { NullExpression(rest); }
    TermFound(s);
    ExpressionLoopFound(first.node, s, rest);
  }

  lemma ConditionFound(s: string)
    requires NUL !in s && Comparison(s).0.Good?
    ensures ConditionText(Comparison(s).0.node, s, Comparison(s).1)
  {
    hide Expression, ExprText;
    var (left, rest) := Expression(s);
    ExpressionFound(s);
    TrimNoNul(rest);
    TryTrim(rest, IsComparison);
    var (op, after) := TryAdvance(rest, IsComparison);
    ExpressionFound(after);
  }

  // ---------- Comments ----------

  lemma {:induction false} CommentsRead(s: string, x: string)
    requires CommentsThen(s, x)
    ensures Leaves(SkipComments(s), x)
    decreases |s|
  {
    TryTrim(s, IsCommentStart);
    if Stops(s, IsCommentStart) && Leaves(x, s) {
      TrimTwice(s);
    } else if Starts(s, '#') && '\n' !in Rest(s) && Trim(x) == "" {
      LastLine(Rest(s));
      assert SkipComments("") == "";
    } else {
      var line, more :| '\n' !in line && Rest(s) == line + ("\n" + more) && CommentsThen(more, x);
      LineSkipped(line, more);
      CommentsRead(more, x);
    }
  }

  lemma {:induction false} LastLine(s: string)
    requires '\n' !in s
    ensures SkipLine(s) == ""
  {
    if s != "" { LastLine(s[1..]); }
  }

  lemma {:induction false} LineSkipped(line: string, more: string)
    requires '\n' !in line
    ensures SkipLine(line + ("\n" + more)) == more
  {
    var s := line + ("\n" + more);
    if line == "" {
      assert s == "\n" + more && ("\n" + more)[1..] == more;
    } else {
      assert s[0] == line[0] && s[1..] == line[1..] + ("\n" + more);
      LineSkipped(line[1..], more);
    }
  }

  lemma {:induction false} CommentsFound(s: string)
    requires NUL !in s
    ensures CommentsThen(s, SkipComments(s))
    decreases |s|
  {
    TrimNoNul(s);
    TryTrim(s, IsCommentStart);
    if Starts(s, '#') {
      var rest := Rest(s);
      var after := SkipLine(rest);
      CommentsFound(after);
      if '\n' !in rest {
        LastLine(rest);
      } else {
        var line := LineFound(rest);
      }
    } else {
      TrimTwice(s);
    }
  }

  lemma {:induction false} LineFound(s: string) returns (line: string)
    requires '\n' in s
    ensures '\n' !in line && s == line + ("\n" + SkipLine(s))
  {
    if s[0] == '\n' {
      line := "";
      assert s == "" + ("\n" + s[1..]);
    } else {
      var more := LineFound(s[1..]);
      line := [s[0]] + more;
      OneMore(s, more, "\n" + SkipLine(s));
    }
  }

  lemma OneMore(s: string, a: string, b: string)
    requires s != "" && s[1..] == a + b
    ensures s == ([s[0]] + a) + b
  {
  }

  // ---------- How far reading goes ----------

  lemma {:induction false} LeavesNoNul(r: string, s: string)
    requires Leaves(r, s) && NUL !in r
    ensures NUL !in s
  {
    TrimNoNul(r);
    UntrimNoNul(s);
  }

  lemma {:induction false} UntrimNoNul(s: string)
    requires NUL !in Trim(s)
    ensures NUL !in s
  {
    if s != "" && IsSpace(s[0]) {
      UntrimNoNul(s[1..]);
      assert s == [s[0]] + s[1..];
    }
  }

  lemma WordSpans(s: string, tail: string)
    requires NUL !in s
    ensures WordSpan(s, tail) <==> Leaves(Token(s, "").1, tail)
  {
    hide Token, WordAt, Overlong;
    WordFound(s);
    TokenTrim(s);
    TokenAtEnd();
    if Overlong(s) { OverlongReads(s); }
    if w :| WordAt(w, s) && Leaves(tail, AfterWord(s, w)) { WordReads(w, s); }
    TrimTwice(s);
  }

  lemma {:induction false} FactorSpans(s: string, tail: string)
    requires NUL !in s
    ensures FactorSpan(s, tail) <==> Leaves(Factor(s).1, tail)
    decreases |s|, 0
  {
    hide WordSpan, Token, Strtol;
    TrimNoNul(s);
    TryTrim(s, IsOpenParen);
    TrimTwice(s);
    TryTrim(Trim(s), IsVariable);
    if Starts(s, '(') {
      var after := Expression(Rest(s)).1;
      ExprSpans(Rest(s), after);
      CloseSpan(after, after);
      if x :| ExprSpan(Rest(s), x) && Leaves(tail, if Starts(x, ')') then Rest(x) else x) {
        ExprSpans(Rest(s), x);
        CloseSpan(after, x);
      }
    } else if !Begins(s, IsVariable) {
      WordSpans(s, tail);
      TokenTrim(s);
    }
  }

  lemma CloseSpan(s: string, s': string)
    requires NUL !in s && Leaves(s, s')
    ensures Leaves(TryAdvance(s, IsCloseParen).1, if Starts(s', ')') then Rest(s') else s')
  {
    TrimNoNul(s);
    TryTrim(s, IsCloseParen);
    TrimTwice(s);
  }

  lemma LoopSame(left: Parsed, s: string, s': string)
    requires Leaves(s, s')
    ensures TermLoop(left, s) == TermLoop(left, s') && ExpressionLoop(left, s) == ExpressionLoop(left, s')
  {
    hide Term, Factor;
    TrySame(s, s', IsFactorOp);
    TrySame(s, s', IsTermOp);
  }

  lemma {:induction false} FactorsSpans(left: Parsed, s: string, tail: string)
    requires NUL !in s
    ensures FactorsSpan(s, tail) <==> Leaves(TermLoop(left, s).1, tail)
    decreases |s|, 1
  {
    hide FactorSpan, Factor;
    TrimNoNul(s);
    TryTrim(s, IsFactorOp);
    TrimTwice(s);
    if Begins(s, IsFactorOp) {
      var (right, after) := Factor(Rest(s));
      var left' := MakeBinary(Trim(s)[0], left, right);
      FactorSpans(Rest(s), after);
      FactorsSpans(left', after, tail);
      if x :| |x| < |s| && FactorSpan(Rest(s), x) && FactorsSpan(x, tail) {
        FactorSpans(Rest(s), x);
        LeavesNoNul(after, x);
        FactorsSpans(left', x, tail);
        LoopSame(left', after, x);
      }
    }
  }

  lemma {:induction false} TermSpans(s: string, tail: string)
    requires NUL !in s
    ensures TermSpan(s, tail) <==> Leaves(Term(s).1, tail)
    decreases |s|, 2
  {
    hide FactorSpan, FactorsSpan, Factor, TermLoop;
    var (first, rest) := Factor(s);
    FactorSpans(s, rest);
    FactorsSpans(first, rest, tail);
    if x :| |x| <= |s| && FactorSpan(s, x) && FactorsSpan(x, tail) {
      FactorSpans(s, x);
      LeavesNoNul(rest, x);
      FactorsSpans(first, x, tail);
      LoopSame(first, rest, x);
    }
  }

  lemma {:induction false} TermsSpans(left: Parsed, s: string, tail: string)
    requires NUL !in s
    ensures TermsSpan(s, tail) <==> Leaves(ExpressionLoop(left, s).1, tail)
    decreases |s|, 3
  {
    hide TermSpan, Term;
    TrimNoNul(s);
    TryTrim(s, IsTermOp);
    TrimTwice(s);
    if Begins(s, IsTermOp) {
      var (right, after) := Term(Rest(s));
      var left' := MakeBinary(Trim(s)[0], left, right);
      TermSpans(Rest(s), after);
      TermsSpans(left', after, tail);
      if x :| |x| < |s| && TermSpan(Rest(s), x) && TermsSpan(x, tail) {
        TermSpans(Rest(s), x);
        LeavesNoNul(after, x);
        TermsSpans(left', x, tail);
        LoopSame(left', after, x);
      }
    }
  }

  /** Whether or not an expression is read, reading goes as far as the operators do. */
  lemma {:induction false} ExprSpans(s: string, tail: string)
    requires NUL !in s
    ensures ExprSpan(s, tail) <==> Leaves(Expression(s).1, tail)
    decreases |s|, 4
  {
    hide TermSpan, TermsSpan, Term, ExpressionLoop;
    var (first, rest) := Term(s);
    TermSpans(s, rest);
    TermsSpans(first, rest, tail);
    if x :| |x| <= |s| && TermSpan(s, x) && TermsSpan(x, tail) {
      TermSpans(s, x);
      LeavesNoNul(rest, x);
      TermsSpans(first, x, tail);
      LoopSame(first, rest, x);
    }
  }

  lemma ConditionSpans(s: string, tail: string)
    requires NUL !in s
    ensures ConditionSpan(s, tail) <==> Leaves(Comparison(s).1, tail)
  {
    hide ExprSpan, Expression;
    var rest := Expression(s).1;
    ExprSpans(s, rest);
    OperatorSpan(rest, rest, tail);
    if x :| ExprSpan(s, x) && ExprSpan(if Begins(x, IsComparison) then Rest(x) else x, tail) {
      ExprSpans(s, x);
      OperatorSpan(rest, x, tail);
    }
  }

  lemma OperatorSpan(s: string, s': string, tail: string)
    requires NUL !in s && Leaves(s, s')
    ensures ExprSpan(if Begins(s', IsComparison) then Rest(s') else s', tail)
            <==> Leaves(Expression(TryAdvance(s, IsComparison).1).1, tail)
  {
    hide ExprSpan, Expression;
    TrimNoNul(s);
    TryTrim(s, IsComparison);
    TrimTwice(s);
    LeavesNoNul(s, s');
    TrimNoNul(s');
    var x := if Begins(s', IsComparison) then Rest(s') else s';
    ExpressionSame(TryAdvance(s, IsComparison).1, x);
    ExprSpans(x, tail);
  }
}
