/** The parser, which moves the position of its stream. */
module Parser {
  import opened BasicAst
  import opened Common
  import opened Grammar

  class Parser {
    const text: string
    var pos: nat

    predicate Valid()
      reads this
    {
      pos <= |text|
    }

    /** What is left of the stream. */
    ghost function Rest(): string
      requires Valid()
      reads this
    {
      text[pos..]
    }

    constructor (text: string)
      ensures Valid() && Rest() == text
    {
      this.text := text;
      pos := 0;
    }

    /** `fgetc`. */
    method ReadChar() returns (end: bool, c: char)
      requires Valid()
      modifies this
      ensures Valid() && (end <==> old(Rest()) == "") && pos == old(pos) + if end then 0 else 1
      ensures !end ==> old(Rest()) == [c] + Rest() && text[pos - 1] == c
    {
      end, c := pos == |text|, NUL;
      if !end {
        c := text[pos];
        pos := pos + 1;
      }
    }

    method RewindOne()
      requires Valid() && pos > 0
      modifies this
      ensures Valid() && pos == old(pos) - 1 && Rest() == [text[pos]] + old(Rest())
    {
      pos := pos - 1;
    }

    method Advance() returns (c: char)
      requires Valid()
      modifies this
      ensures Valid() && (c, Rest()) == Grammar.Advance(old(Rest()))
      ensures pos >= old(pos) && (c != NUL ==> pos > old(pos) && text[pos - 1] == c)
    {
      while true
        invariant Valid() && pos >= old(pos) && Grammar.Advance(Rest()) == Grammar.Advance(old(Rest()))
        decreases |text| - pos
      {
        var end, result := ReadChar();
        if end { return NUL; }
        if !IsSpace(result) { return result; }
      }
    }

    method TryAdvance(suits: char -> bool) returns (c: char)
      requires Valid()
      modifies this
      ensures Valid() && (c, Rest()) == Grammar.TryAdvance(old(Rest()), suits)
      ensures pos >= old(pos) && (c != NUL ==> pos > old(pos))
    {
      var next := Advance();
      if next != NUL && !suits(next) {
        RewindOne();
        return NUL;
      }
      return next;
    }

    method AdvanceUntilSeparator() returns (token: Option<string>)
      requires Valid()
      modifies this
      ensures Valid() && (token, Rest()) == Token(old(Rest()), "")
    {
      var result := "";
      while true
        invariant Valid() && Token(Rest(), result) == Token(old(Rest()), "")
        decreases |text| - pos
      {
        if |result| > MAX_KEYWORD_LENGTH { return None; }
        var end, c := ReadChar();
        if end {
          return if result != "" then Some(CString(result)) else None;
        }
        if IsOperator(c) && result != "" {
          RewindOne();
          break;
        }
        if IsSpace(c) {
          if result != "" { break; }
          continue;
        }
        result := result + [c];
      }
      return Some(CString(result));
    }

    method AtEnd() returns (end: bool)
      requires Valid()
      modifies this
      ensures Valid() && end == (Grammar.Advance(old(Rest())).0 == NUL)
    {
      var c := Advance();
      if c != NUL { RewindOne(); }
      return c == NUL;
    }

    method SkipLine()
      requires Valid()
      modifies this
      ensures Valid() && Rest() == Grammar.SkipLine(old(Rest())) && pos >= old(pos)
    {
      while true
        invariant Valid() && pos >= old(pos) && Grammar.SkipLine(Rest()) == Grammar.SkipLine(old(Rest()))
        decreases |text| - pos
      {
        var end, c := ReadChar();
        if end || c == '\n' { return; }
      }
    }

    method Num() returns (node: Parsed)
      requires Valid()
      modifies this
      ensures Valid() && (node, Rest()) == Number(old(Rest()))
    {
      var token := AdvanceUntilSeparator();
      if token.None? { return Null; }
      var value := Strtol(token.value);
      return if value.Some? then Good(BasicAst.Num(value.value)) else Null;
    }

    method Factor() returns (node: Parsed)
      requires Valid()
      modifies this
      ensures Valid() && (node, Rest()) == Grammar.Factor(old(Rest()))
      decreases |Rest()|, 0
    {
      var open := TryAdvance(IsOpenParen);
      if open != NUL {
        node := Expression();
        var close := TryAdvance(IsCloseParen);
        if close == NUL { return Null; }
        return node;
      }
      var name := TryAdvance(IsVariable);
      if name != NUL { return Good(Var(name)); }
      node := Num();
    }

    method Term() returns (result: Parsed)
      requires Valid()
      modifies this
      ensures Valid() && (result, Rest()) == Grammar.Term(old(Rest()))
      decreases |Rest()|, 2
    {
      hide Grammar.Factor;
      result := Factor();
      while true
        invariant Valid() && |Rest()| <= |old(Rest())| && TermLoop(result, Rest()) == Grammar.Term(old(Rest()))
        decreases |Rest()|
      {
        var next := TryAdvance(IsFactorOp);
        if next == NUL { break; }
        var right := Factor();
        result := MakeBinary(next, result, right);
      }
    }

    method Expression() returns (result: Parsed)
      requires Valid()
      modifies this
      ensures Valid() && (result, Rest()) == Grammar.Expression(old(Rest()))
      decreases |Rest()|, 4
    {
      hide Grammar.Term;
      result := Term();
      while true
        invariant Valid() && |Rest()| <= |old(Rest())|
        invariant ExpressionLoop(result, Rest()) == Grammar.Expression(old(Rest()))
        decreases |Rest()|
      {
        var next := TryAdvance(IsTermOp);
        if next == NUL { break; }
        var right := Term();
        result := MakeBinary(next, result, right);
      }
    }

    method Comparison() returns (node: Parsed)
      requires Valid()
      modifies this
      ensures Valid() && (node, Rest()) == Grammar.Comparison(old(Rest()))
    {
      hide Grammar.Expression;
      var left := Expression();
      var op := TryAdvance(IsComparison);
      var right := Expression();
      return MakeBinary(op, left, right);
    }

    method SkipComments()
      requires Valid()
      modifies this
      ensures Valid() && Rest() == Grammar.SkipComments(old(Rest()))
    {
      while true
        invariant Valid() && Grammar.SkipComments(Rest()) == Grammar.SkipComments(old(Rest()))
        decreases |text| - pos
      {
        var c := TryAdvance(IsCommentStart);
        if c == NUL { break; }
        SkipLine();
      }
    }

    method Statement() returns (node: Parsed, end: bool)
      requires Valid()
      modifies this
      ensures Valid() && Read(node, end, Rest()) == Grammar.Statement(old(Rest()))
      decreases |Rest()|, 0
    {
      hide Token, Grammar.Expression, Grammar.IfRest, Grammar.WhileRest, Grammar.SkipComments;
      SkipComments();
      var start := pos;
      var next := AdvanceUntilSeparator();
      if next.None? { return Null, true; }
      if next.value == "ELSE" {
        pos := start;
        return Null, true;
      }
      if next.value == "END" {
        var what := AdvanceUntilSeparator();
        if what.None? || !(what.value == "IF" || what.value == "WHILE") { return Null, false; }
        pos := start;
        return Null, true;
      }
      end := false;
      if next.value == "PRINT" {
        var e := Expression();
        return MakePrint(e), end;
      }
      if next.value == "LET" {
        var name := Advance();
        if !IsVariable(name) { return Null, end; }
        var equals := Advance();
        if equals != '=' { return Null, end; }
        var e := Expression();
        return MakeLet(name, e), end;
      }
      if next.value == "IF" {
        node := IfRest();
        return;
      }
      if next.value == "WHILE" {
        node := WhileRest();
        return;
      }
      return Null, end;
    }

    method IfRest() returns (node: Parsed)
      requires Valid()
      modifies this
      ensures Valid() && Read(node, false, Rest()) == Grammar.IfRest(old(Rest()))
      decreases |Rest()|, 2
    {
      hide Token, Grammar.Comparison, SequenceFrom;
      var condition := Comparison();
      var yes := Sequence();
      var next := AdvanceUntilSeparator();
      var no := Null;
      if next == Some("ELSE") {
        no := Sequence();
        next := AdvanceUntilSeparator();
      }
      if next != Some("END") { return Null; }
      next := AdvanceUntilSeparator();
      if next != Some("IF") { return Null; }
      return MakeIf(condition, yes, no);
    }

    method WhileRest() returns (node: Parsed)
      requires Valid()
      modifies this
      ensures Valid() && Read(node, false, Rest()) == Grammar.WhileRest(old(Rest()))
      decreases |Rest()|, 2
    {
      hide Token, Grammar.Comparison, SequenceFrom;
      var condition := Comparison();
      var body := Sequence();
      var next := AdvanceUntilSeparator();
      if next != Some("END") { return Null; }
      next := AdvanceUntilSeparator();
      if next != Some("WHILE") { return Null; }
      return MakeWhile(condition, body);
    }

    method Sequence() returns (node: Parsed)
      requires Valid()
      modifies this
      ensures Valid() && (node, Rest()) == SequenceFrom([], old(Rest()))
      decreases |Rest()|, 1
    {
      hide Grammar.Statement;
      var statements: seq<Node> := [];
      while true
        invariant Valid() && |Rest()| <= |old(Rest())|
        invariant SequenceFrom(statements, Rest()) == SequenceFrom([], old(Rest()))
        decreases |Rest()|
      {
        var next, end := Statement();
        if end { break; }
        if next == Null { return Null; }
        statements := statements + [next.node];
      }
      return Good(MakeSequence(statements));
    }

    /** `parse`, on a stream that has not been read from. */
    method Parse() returns (ast: Parsed)
      requires Valid()
      modifies this
      ensures Valid() && ast == Grammar.Parse(old(Rest()))
    {
      hide SequenceFrom;
      ast := Sequence();
      var end := AtEnd();
      if !end { return Null; }
    }
  }
}
