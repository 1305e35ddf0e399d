/** What the recursive-descent parser reads from the rest of its stream: each function gives the result and what is
    left. */
module Grammar {
  import opened BasicAst
  import opened Common

  /** A tree, or NULL. No tree has a NULL in it: the constructors of nodes (ast.c) answer NULL for a NULL child. */
  datatype Parsed = Null | Good(node: Node)

  const NUL: char := '\0'
  const MAX_KEYWORD_LENGTH: nat := 100

  // ---------- Characters ----------

  predicate IsSpace(c: char) { c == ' ' || '\t' <= c <= '\r' }

  predicate IsOpenParen(c: char) { c == '(' }

  predicate IsCloseParen(c: char) { c == ')' }

  predicate IsFactorOp(c: char) { c == '*' || c == '/' }

  predicate IsTermOp(c: char) { c == '+' || c == '-' }

  predicate IsCommentStart(c: char) { c == '#' }

  predicate IsOperator(c: char) { IsOpenParen(c) || IsCloseParen(c) || IsFactorOp(c) || IsTermOp(c) || IsComparison(c) }

  // ---------- Tokens ----------

  /** The next character that is not a space; NUL at the end. */
  function Advance(s: string): (r: (char, string))
    ensures |r.1| <= |s| && (r.0 != NUL ==> |r.1| < |s| && !IsSpace(r.0))
    ensures NUL !in s ==> NUL !in r.1
  {
    if s == "" then (NUL, "")
    else if IsSpace(s[0]) then Advance(s[1..])
    else (s[0], s[1..])
  }

  /** The next character if it suits; otherwise it stays, and the result is NUL. */
  function TryAdvance(s: string, suits: char -> bool): (r: (char, string))
    ensures |r.1| <= |s| && (r.0 != NUL ==> |r.1| < |s| && suits(r.0))
    ensures NUL !in s ==> NUL !in r.1
  {
    var (c, rest) := Advance(s);
    if c != NUL && !suits(c) then (NUL, [c] + rest) else (c, rest)
  }

  /** Characters up to a space, which is skipped, or to an operator, which may come first. */
  function Token(s: string, sofar: string): (r: (Option<string>, string))
    ensures |r.1| <= |s| && (r.0.Some? && sofar == "" ==> |r.1| < |s|)
    ensures NUL !in s ==> NUL !in r.1
    decreases |s|
  {
    if |sofar| > MAX_KEYWORD_LENGTH then (None, s)
    else if s == "" then (if sofar != "" then Some(CString(sofar)) else None, "")
    else if IsOperator(s[0]) && sofar != "" then (Some(CString(sofar)), s)
    else if IsSpace(s[0]) then
      if sofar != "" then (Some(CString(sofar)), s[1..]) else Token(s[1..], "")
    else Token(s[1..], sofar + [s[0]])
  }

  /** A C string ends at its first NUL. */
  function CString(t: string): string {
    if t == "" || t[0] == NUL then "" else [t[0]] + CString(t[1..])
  }

  function SkipLine(s: string): (r: string)
    ensures |r| <= |s| && (NUL !in s ==> NUL !in r)
  {
    if s == "" then "" else if s[0] == '\n' then s[1..] else SkipLine(s[1..])
  }

  function SkipComments(s: string): (r: string)
    ensures |r| <= |s| && (NUL !in s ==> NUL !in r)
    decreases |s|
  {
    var (c, rest) := TryAdvance(s, IsCommentStart);
    if c == NUL then rest else SkipComments(SkipLine(rest))
  }

  // ---------- Numbers: strtol with base 0 ----------

  function DigitValue(c: char): nat {
    if '0' <= c <= '9' then (c as int) - ('0' as int)
    else if 'a' <= c <= 'f' then (c as int) - ('a' as int) + 10
    else if 'A' <= c <= 'F' then (c as int) - ('A' as int) + 10
    else 36
  }

  predicate AllDigits(t: string, base: nat) { forall i :: 0 <= i < |t| ==> DigitValue(t[i]) < base }

  function Magnitude(t: string, base: nat): nat {
    if t == "" then 0 else Magnitude(t[..|t| - 1], base) * base + DigitValue(t[|t| - 1])
  }

  function Strtol(t: string): Option<int64> {
    var negative := t != "" && t[0] == '-';
    var digits := if t != "" && (t[0] == '-' || t[0] == '+') then t[1..] else t;
    var hex := |digits| >= 3 && digits[0] == '0' && (digits[1] == 'x' || digits[1] == 'X');
    var base := if hex then 16 else if digits != "" && digits[0] == '0' then 8 else 10;
    var body := if hex then digits[2..] else digits;
    if t == "" then Some(0)
    else if body == "" || !AllDigits(body, base) then None
    else
      var value := if negative then -(Magnitude(body, base) as int) else Magnitude(body, base);
      if INT64_MIN <= value < -INT64_MIN then Some(value) else None
  }

  function Number(s: string): (r: (Parsed, string))
    ensures |r.1| <= |s| && (NUL !in s ==> NUL !in r.1)
  {
    var (token, rest) := Token(s, "");
    if token.None? then (Null, rest)
    else
      var value := Strtol(token.value);
      (if value.Some? then Good(Num(value.value)) else Null, rest)
  }

  // ---------- Expressions ----------

  function MakeBinary(op: char, left: Parsed, right: Parsed): Parsed {
    if left.Good? && right.Good? then Good(Bin(op, left.node, right.node)) else Null
  }

  function Factor(s: string): (r: (Parsed, string))
    ensures |r.1| <= |s| && (NUL !in s ==> NUL !in r.1)
    decreases |s|, 0
  {
    var (open, inner) := TryAdvance(s, IsOpenParen);
    if open != NUL then
      var (node, after) := Expression(inner);
      var (close, rest) := TryAdvance(after, IsCloseParen);
      (if close == NUL then Null else node, rest)
    else
      var (name, after) := TryAdvance(inner, IsVariable);
      if name != NUL then (Good(Var(name)), after) else Number(after)
  }

  function TermLoop(left: Parsed, s: string): (r: (Parsed, string))
    ensures |r.1| <= |s| && (NUL !in s ==> NUL !in r.1)
    decreases |s|, 1
  {
    var (op, rest) := TryAdvance(s, IsFactorOp);
    if op == NUL then (left, rest)
    else
      var (right, after) := Factor(rest);
      TermLoop(MakeBinary(op, left, right), after)
  }

  function Term(s: string): (r: (Parsed, string))
    ensures |r.1| <= |s| && (NUL !in s ==> NUL !in r.1)
    decreases |s|, 2
  {
    var (first, rest) := Factor(s);
    TermLoop(first, rest)
  }

  function ExpressionLoop(left: Parsed, s: string): (r: (Parsed, string))
    ensures |r.1| <= |s| && (NUL !in s ==> NUL !in r.1)
    decreases |s|, 3
  {
    var (op, rest) := TryAdvance(s, IsTermOp);
    if op == NUL then (left, rest)
    else
      var (right, after) := Term(rest);
      ExpressionLoop(MakeBinary(op, left, right), after)
  }

  function Expression(s: string): (r: (Parsed, string))
    ensures |r.1| <= |s| && (NUL !in s ==> NUL !in r.1)
    decreases |s|, 4
  {
    var (first, rest) := Term(s);
    ExpressionLoop(first, rest)
  }

  function Comparison(s: string): (r: (Parsed, string))
    ensures |r.1| <= |s| && (NUL !in s ==> NUL !in r.1)
  {
    var (left, rest) := Expression(s);
    var (op, after) := TryAdvance(rest, IsComparison);
    var (right, end) := Expression(after);
    (MakeBinary(op, left, right), end)
  }

  // ---------- Statements ----------

  function MakePrint(e: Parsed): Parsed { if e.Good? then Good(Print(e.node)) else Null }

  function MakeLet(name: char, e: Parsed): Parsed { if e.Good? then Good(Let(name, e.node)) else Null }

  /** An ELSE branch that could not be parsed is a NULL pointer, like one that is not there. */
  function MakeIf(condition: Parsed, yes: Parsed, no: Parsed): Parsed {
    if condition.Good? && yes.Good? then
      Good(If(condition.node, yes.node, if no.Good? then ElseBranch(no.node) else NoElse))
    else Null
  }

  function MakeWhile(condition: Parsed, body: Parsed): Parsed {
    if condition.Good? && body.Good? then Good(While(condition.node, body.node)) else Null
  }

  function MakeSequence(list: seq<Node>): Node { if |list| == 1 then list[0] else Sequence(list) }

  datatype Read = Read(node: Parsed, end: bool, rest: string)

  /** One statement, or the end of a sequence of them. */
  function Statement(s: string): (r: Read)
    ensures |r.rest| <= |s| && (!r.end ==> |r.rest| < |s|) && (NUL !in s ==> NUL !in r.rest)
    decreases |s|, 1
  {
    BareStatement(SkipComments(s))
  }

  /** The first word tells what it is. */
  function BareStatement(s: string): (r: Read)
    ensures |r.rest| <= |s| && (!r.end ==> |r.rest| < |s|) && (NUL !in s ==> NUL !in r.rest)
    decreases |s|, 0
  {
    var (word, rest) := Token(s, "");
    if word.None? then Read(Null, true, rest)
    else if word.value == "ELSE" then Read(Null, true, s)
    else if word.value == "END" then
      var (what, after) := Token(rest, "");
      if what == Some("IF") || what == Some("WHILE") then Read(Null, true, s) else Read(Null, false, after)
    else if word.value == "PRINT" then PrintRest(rest)
    else if word.value == "LET" then LetRest(rest)
    else if word.value == "IF" then IfRest(rest)
    else if word.value == "WHILE" then WhileRest(rest)
    else Read(Null, false, rest)
  }

  /** After PRINT. */
  function PrintRest(s: string): (r: Read)
    ensures |r.rest| <= |s| && !r.end && (NUL !in s ==> NUL !in r.rest)
  {
    var (e, after) := Expression(s);
    Read(MakePrint(e), false, after)
  }

  /** After LET. */
  function LetRest(s: string): (r: Read)
    ensures |r.rest| <= |s| && !r.end && (NUL !in s ==> NUL !in r.rest)
  {
    var (name, rest1) := Advance(s);
    if !IsVariable(name) then Read(Null, false, rest1)
    else
      var (equals, rest2) := Advance(rest1);
      if equals != '=' then Read(Null, false, rest2)
      else
        var (e, after) := Expression(rest2);
        Read(MakeLet(name, e), false, after)
  }

  /** After IF. */
  function IfRest(s: string): (r: Read)
    ensures |r.rest| <= |s| && !r.end && (NUL !in s ==> NUL !in r.rest)
    decreases |s|, 3
  {
    var (condition, rest1) := Comparison(s);
    var (yes, rest2) := SequenceFrom([], rest1);
    var (word, rest3) := Token(rest2, "");
    if word == Some("ELSE") then
      var (no, rest4) := SequenceFrom([], rest3);
      var (word', rest5) := Token(rest4, "");
      EndOf("IF", MakeIf(condition, yes, no), word', rest5)
    else EndOf("IF", MakeIf(condition, yes, Null), word, rest3)
  }

  /** After WHILE. */
  function WhileRest(s: string): (r: Read)
    ensures |r.rest| <= |s| && !r.end && (NUL !in s ==> NUL !in r.rest)
    decreases |s|, 3
  {
    var (condition, rest1) := Comparison(s);
    var (body, rest2) := SequenceFrom([], rest1);
    var (word, rest3) := Token(rest2, "");
    EndOf("WHILE", MakeWhile(condition, body), word, rest3)
  }

  /** END and the keyword of the statement it ends. */
  function EndOf(keyword: string, node: Parsed, word: Option<string>, s: string): (r: Read)
    ensures |r.rest| <= |s| && !r.end && (NUL !in s ==> NUL !in r.rest)
  {
    if word != Some("END") then Read(Null, false, s)
    else
      var (what, rest) := Token(s, "");
      Read(if what == Some(keyword) then node else Null, false, rest)
  }

  /** The statements of a sequence after those in `list`. */
  function SequenceFrom(list: seq<Node>, s: string): (r: (Parsed, string))
    ensures |r.1| <= |s| && (NUL !in s ==> NUL !in r.1)
    decreases |s|, 2
  {
    var read := Statement(s);
    if read.end then (Good(MakeSequence(list)), read.rest)
    else if read.node.Null? then (Null, read.rest)
    else SequenceFrom(list + [read.node.node], read.rest)
  }

  /** The whole stream. */
  function Parse(s: string): Parsed {
    var (node, rest) := SequenceFrom([], s);
    if Advance(rest).0 != NUL then Null else node
  }
}
