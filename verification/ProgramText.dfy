/** Which texts are programs, and of which trees: said without the parser, and then proved to be what the parser reads.
    Spaces before a word never matter, so a text is looked at from its first other character on. */
module ProgramText {
  import opened BasicAst
  import opened Grammar
  import opened Numerals
  import opened Tokens

  // ---------- Characters and words ----------

  predicate Starts(s: string, c: char) { Trim(s) != "" && Trim(s)[0] == c }

  /** What follows the first character. */
  function Rest(s: string): (r: string)
    ensures |r| <= |s| && (Trim(s) != "" ==> |r| < |s|)
  {
    if Trim(s) == "" then "" else Trim(s)[1..]
  }

  /** A word stands first: a space or an operator follows, or the end. */
  predicate WordAt(w: string, s: string) {
    IsWord(w) && |w| <= |Trim(s)| && Trim(s)[..|w|] == w && Separated(Trim(s)[|w|..])
  }

  function AfterWord(s: string, w: string): (r: string)
    ensures |r| <= |s| && (WordAt(w, s) ==> |r| < |s|)
  {
    if |w| <= |Trim(s)| then Trim(s)[|w|..] else ""
  }

  /** After an expression: nothing that would carry it on. */
  predicate Stops(tail: string, carries: char -> bool) {
    Trim(tail) == "" || (Trim(tail)[0] != NUL && !carries(Trim(tail)[0]))
  }

  /** `r` is what is left when `tail` follows: the same, but for leading spaces. */
  predicate Leaves(r: string, tail: string) { Trim(r) == Trim(tail) }

  predicate Carries(c: char) { IsFactorOp(c) || IsTermOp(c) }

  // ---------- Expressions ----------

  predicate IsFactorNode(e: Node) { e.Bin? && IsFactorOp(e.op) }

  predicate IsTermNode(e: Node) { e.Bin? && IsTermOp(e.op) }

  /** A number, a variable, or anything in parentheses, and what is left after it. */
  ghost predicate FactorText(e: Node, s: string, tail: string)
    decreases |s|, e, 0
  {
    || (e.Var? && IsVariable(e.name) && Starts(s, e.name) && Leaves(tail, Rest(s)))
    || (e.Num? && exists w :: WordAt(w, s) && Numeral(w, e.value) && Leaves(tail, AfterWord(s, w)))
    || (Starts(s, '(') && exists x :: ExprText(e, Rest(s), x) && Starts(x, ')') && Leaves(tail, Rest(x)))
  }

  /** Products and quotients associate to the left. */
  ghost predicate TermText(e: Node, s: string, tail: string)
    decreases |s|, e, 1
  {
    || FactorText(e, s, tail)
    || (IsFactorNode(e) && exists x ::
          |x| <= |s| && TermText(e.left, s, x) && Starts(x, e.op) && FactorText(e.right, Rest(x), tail))
  }

  ghost predicate ExprText(e: Node, s: string, tail: string)
    decreases |s|, e, 2
  {
    || TermText(e, s, tail)
    || (IsTermNode(e) && exists x ::
          |x| <= |s| && ExprText(e.left, s, x) && Starts(x, e.op) && TermText(e.right, Rest(x), tail))
  }

  /** Two expressions and an operator between them, which may be missing. */
  ghost predicate ConditionText(c: Node, s: string, tail: string) {
    c.Bin? && exists x ::
      && ExprText(c.left, s, x) && Stops(x, Carries)
      && (if IsComparison(c.op) then Starts(x, c.op) else c.op == NUL && Stops(x, IsComparison))
      && ExprText(c.right, if c.op == NUL then Trim(x) else Rest(x), tail) && Stops(tail, Carries)
  }

  // ---------- How far reading goes, with or without success ----------

  predicate Begins(s: string, suits: char -> bool) { Trim(s) != "" && suits(Trim(s)[0]) }

  /** Too long for a word. */
  predicate Overlong(s: string) {
    |Trim(s)| >= 101 && forall i :: 1 <= i <= 100 ==> Plain(Trim(s)[i])
  }

  /** A word; at the end of the text nothing; of too long a word the first 101 characters. */
  ghost predicate WordSpan(s: string, tail: string) {
    || (Trim(s) == "" && Trim(tail) == "")
    || (Overlong(s) && Leaves(tail, Trim(s)[101..]))
    || exists w :: WordAt(w, s) && Leaves(tail, AfterWord(s, w))
  }

  ghost predicate FactorSpan(s: string, tail: string)
    decreases |s|, 0
  {
    if Starts(s, '(') then exists x :: ExprSpan(Rest(s), x) && Leaves(tail, if Starts(x, ')') then Rest(x) else x)
    else if Begins(s, IsVariable) then Leaves(tail, Rest(s))
    else WordSpan(s, tail)
  }

  ghost predicate FactorsSpan(s: string, tail: string)
    decreases |s|, 1
  {
    if Begins(s, IsFactorOp) then exists x :: |x| < |s| && FactorSpan(Rest(s), x) && FactorsSpan(x, tail)
    else Leaves(tail, s)
  }

  ghost predicate TermSpan(s: string, tail: string)
    decreases |s|, 2
  {
    exists x :: |x| <= |s| && FactorSpan(s, x) && FactorsSpan(x, tail)
  }

  ghost predicate TermsSpan(s: string, tail: string)
    decreases |s|, 3
  {
    if Begins(s, IsTermOp) then exists x :: |x| < |s| && TermSpan(Rest(s), x) && TermsSpan(x, tail)
    else Leaves(tail, s)
  }

  ghost predicate ExprSpan(s: string, tail: string)
    decreases |s|, 4
  {
    exists x :: |x| <= |s| && TermSpan(s, x) && TermsSpan(x, tail)
  }

  ghost predicate ConditionSpan(s: string, tail: string) {
    exists x :: ExprSpan(s, x) && ExprSpan(if Begins(x, IsComparison) then Rest(x) else x, tail)
  }

  /** A name, an equals sign and an expression, up to the first that is missing. */
  ghost predicate LetSpan(s: string, tail: string) {
    if !Begins(s, IsVariable) then Leaves(tail, Rest(s))
    else if !Starts(Rest(s), '=') then Leaves(tail, Rest(Rest(s)))
    else ExprSpan(Rest(Rest(s)), tail)
  }

  /** A word, and one more after END. */
  ghost predicate EndSpan(s: string, tail: string) {
    exists x :: WordSpan(s, x) && if WordAt("END", s) then WordSpan(x, tail) else Leaves(tail, x)
  }

  // ---------- Statements ----------

  /** Comment lines come first, any number of them. */
  ghost predicate CommentsThen(s: string, x: string)
    decreases |s|
  {
    || (Stops(s, IsCommentStart) && Leaves(x, s))
    || (Starts(s, '#') && '\n' !in Rest(s) && Trim(x) == "")
    || (Starts(s, '#') && exists line, more ::
          '\n' !in line && Rest(s) == line + ("\n" + more) && CommentsThen(more, x))
  }

  /** END and the keyword of the statement it ends. */
  predicate EndsWith(keyword: string, s: string) { WordAt("END", s) && WordAt(keyword, AfterWord(s, "END")) }

  predicate EndText(keyword: string, s: string, tail: string) {
    EndsWith(keyword, s) && Leaves(tail, AfterWord(AfterWord(s, "END"), keyword))
  }

  /** What ends a block: the end of the text, ELSE or END, which are still to be read; or too long a word, of which the
      first 101 characters are dropped. */
  predicate EndMark(s: string, tail: string) {
    || (Trim(s) == "" && Trim(tail) == "")
    || (Overlong(s) && Leaves(tail, Trim(s)[101..]))
    || (Leaves(tail, s) && (WordAt("ELSE", s) || EndsWith("IF", s) || EndsWith("WHILE", s)))
  }

  ghost predicate EndsHere(s: string, tail: string) {
    exists x :: CommentsThen(s, x) && EndMark(x, tail)
  }

  ghost predicate StatementText(n: Node, s: string, tail: string)
    decreases |s|, 1
  {
    exists x :: |x| <= |s| && CommentsThen(s, x) && BareText(n, x, tail)
  }

  /** A statement without comments before it. */
  ghost predicate BareText(n: Node, s: string, tail: string)
    decreases |s|, 0
  {
    match n
    case Print(e) => WordAt("PRINT", s) && ExprText(e, AfterWord(s, "PRINT"), tail) && Stops(tail, Carries)
    case Let(name, e) =>
      && WordAt("LET", s) && IsVariable(name) && Starts(AfterWord(s, "LET"), name)
      && Starts(Rest(AfterWord(s, "LET")), '=') && ExprText(e, Rest(Rest(AfterWord(s, "LET"))), tail)
      && Stops(tail, Carries)
    case If(condition, yes, no) =>
      WordAt("IF", s) && exists x, y ::
        && |x| < |s| && |y| < |s| && ConditionText(condition, AfterWord(s, "IF"), x)
        && BlockText(yes, x, y) && ElseText(no, y, tail)
    case While(condition, body) =>
      WordAt("WHILE", s) && exists x, y ::
        && |x| < |s| && ConditionText(condition, AfterWord(s, "WHILE"), x)
        && BlockText(body, x, y) && EndText("WHILE", y, tail)
    case _ => false
  }

  /** The rest of an IF. An ELSE branch that cannot be read counts as none. */
  ghost predicate ElseText(no: Else, s: string, tail: string)
    decreases |s|, 4
  {
    || (no.NoElse? && EndText("IF", s, tail))
    || (WordAt("ELSE", s) && exists y ::
          && (if no.ElseBranch? then BlockText(no.node, AfterWord(s, "ELSE"), y) else LostText(AfterWord(s, "ELSE"), y))
          && EndText("IF", y, tail))
  }

  ghost predicate ListText(list: seq<Node>, s: string, tail: string)
    decreases |s|, 2
  {
    if list == [] then EndsHere(s, tail)
    else exists x :: |x| < |s| && StatementText(list[0], s, x) && ListText(list[1..], x, tail)
  }

  ghost predicate BlockText(n: Node, s: string, tail: string)
    decreases |s|, 3
  {
    if n.Sequence? then |n.statements| != 1 && ListText(n.statements, s, tail) else ListText([n], s, tail)
  }

  ghost predicate Readable(s: string)
    decreases |s|, 2
  {
    exists n, tail :: StatementText(n, s, tail)
  }

  /** A block that cannot be read: statements, and then something that is no statement and no end. */
  ghost predicate LostText(s: string, tail: string)
    decreases |s|, 5
  {
    && NUL !in s && (forall x :: !EndsHere(s, x))
    && exists x :: |x| < |s| && StatementSpan(s, x) && if Readable(s) then LostText(x, tail) else Leaves(tail, x)
  }

  ghost predicate BlockSpan(s: string, tail: string)
    decreases |s|, 6
  {
    (exists n :: BlockText(n, s, tail)) || LostText(s, tail)
  }

  ghost predicate StatementSpan(s: string, tail: string)
    decreases |s|, 1
  {
    exists x :: |x| <= |s| && CommentsThen(s, x) && BareSpan(x, tail)
  }

  ghost predicate BareSpan(s: string, tail: string)
    decreases |s|, 0
  {
    if WordAt("PRINT", s) then ExprSpan(AfterWord(s, "PRINT"), tail)
    else if WordAt("LET", s) then LetSpan(AfterWord(s, "LET"), tail)
    else if WordAt("IF", s) then
      exists x, y ::
        |x| < |s| && |y| < |s| && ConditionSpan(AfterWord(s, "IF"), x) && BlockSpan(x, y) && ElseSpan(y, tail)
    else if WordAt("WHILE", s) then
      exists x, y :: |x| < |s| && ConditionSpan(AfterWord(s, "WHILE"), x) && BlockSpan(x, y) && EndSpan(y, tail)
    else EndSpan(s, tail)
  }

  ghost predicate ElseSpan(s: string, tail: string)
    decreases |s|, 7
  {
    if WordAt("ELSE", s) then exists x :: BlockSpan(AfterWord(s, "ELSE"), x) && EndSpan(x, tail) else EndSpan(s, tail)
  }

  /** A text of a program. */
  ghost predicate TextOf(n: Node, s: string) { exists tail :: BlockText(n, s, tail) && Trim(tail) == "" }
}
