/** Words and the spaces between them. */
module Tokens {
  import opened BasicAst
  import opened Common
  import opened Grammar

  // ---------- Characters ----------

  /** Which characters are which; none is of two kinds. */
  lemma CharacterKinds(c: char)
    ensures IsSpace(c) <==> c as int in {9, 10, 11, 12, 13, 32}
    ensures IsOperator(c) <==> c in {'(', ')', '+', '-', '*', '/', '<', '=', '>'}
    ensures IsFactorOp(c) <==> c in {'*', '/'}
    ensures IsTermOp(c) <==> c in {'+', '-'}
    ensures IsVariable(c) <==> 65 <= c as int <= 90
    ensures !(IsSpace(c) && IsOperator(c)) && !(IsVariable(c) && (IsSpace(c) || IsOperator(c)))
  {
  }

  // ---------- Leading spaces do not matter ----------

  function Trim(s: string): (r: string)
    ensures |r| <= |s| && (r != "" ==> !IsSpace(r[0]))
  {
    if s != "" && IsSpace(s[0]) then Trim(s[1..]) else s
  }

  lemma {:induction false} AdvanceTrim(s: string)
    ensures Advance(s) == if Trim(s) == "" then (NUL, "") else (Trim(s)[0], Trim(s)[1..])
    decreases |s|
  {
    if s != "" && IsSpace(s[0]) { AdvanceTrim(s[1..]); }
  }

  /** The next character suits, or stays where it is. */
  lemma TryTrim(s: string, suits: char -> bool)
    ensures Trim(s) == "" ==> TryAdvance(s, suits) == (NUL, "")
    ensures Trim(s) != "" && Trim(s)[0] != NUL ==>
              TryAdvance(s, suits) == if suits(Trim(s)[0]) then (Trim(s)[0], Trim(s)[1..]) else (NUL, Trim(s))
  {
    AdvanceTrim(s);
    if Trim(s) != "" { assert [Trim(s)[0]] + Trim(s)[1..] == Trim(s); }
  }

  lemma TrySame(s: string, s': string, suits: char -> bool)
    requires Trim(s) == Trim(s')
    ensures TryAdvance(s, suits) == TryAdvance(s', suits) && Advance(s) == Advance(s')
  {
    AdvanceTrim(s);
    AdvanceTrim(s');
  }

  lemma {:induction false} TokenTrim(s: string)
    ensures Token(s, "") == Token(Trim(s), "")
    decreases |s|
  {
    if s != "" && IsSpace(s[0]) { TokenTrim(s[1..]); }
  }

  // ---------- Tokens ----------

  predicate Plain(c: char) { !IsSpace(c) && c != NUL && !IsOperator(c) }

  /** A token can end here. */
  predicate Separated(tail: string) { tail == "" || IsSpace(tail[0]) || IsOperator(tail[0]) }

  function AfterToken(tail: string): string { if tail != "" && IsSpace(tail[0]) then tail[1..] else tail }

  lemma AfterTokenTrim(tail: string)
    ensures Trim(AfterToken(tail)) == Trim(tail)
  {
  }

  lemma {:induction false} CStringPlain(w: string)
    requires forall i :: 0 <= i < |w| ==> w[i] != NUL
    ensures CString(w) == w
  {
    if w != "" {
      assert w[0] != NUL;
      CStringPlain(w[1..]);
      assert [w[0]] + w[1..] == w;
    }
  }

  lemma {:induction false} TokenOn(sofar: string, w: string, tail: string)
    requires sofar != "" && |sofar| + |w| <= MAX_KEYWORD_LENGTH && Separated(tail)
    requires (forall i :: 0 <= i < |w| ==> Plain(w[i])) && forall i :: 0 <= i < |sofar| ==> sofar[i] != NUL
    ensures Token(w + tail, sofar) == (Some(sofar + w), AfterToken(tail))
    decreases |w|
  {
    if w == "" {
      assert w + tail == tail && sofar + w == sofar;
      CStringPlain(sofar);
      if tail != "" { CharacterKinds(tail[0]); }
    } else {
      assert Plain(w[0]);
      TokenOn(sofar + [w[0]], w[1..], tail);
      assert (w + tail)[0] == w[0] && (w + tail)[1..] == w[1..] + tail;
      assert (sofar + [w[0]]) + w[1..] == sofar + w;
    }
  }

  /** A word of at most 100 characters begins with anything but a space, and goes on with plain characters. */
  predicate IsWord(w: string) {
    && 0 < |w| <= 100 && !IsSpace(w[0]) && w[0] != NUL && forall i :: 1 <= i < |w| ==> Plain(w[i])
  }

  lemma TokenReads(w: string, tail: string)
    requires IsWord(w) && Separated(tail)
    ensures Token(w + tail, "") == (Some(w), AfterToken(tail))
  {
    TokenOn([w[0]], w[1..], tail);
    assert (w + tail)[1..] == w[1..] + tail && [w[0]] + w[1..] == w;
    assert "" + [w[0]] == [w[0]];
  }
}
