/** From program text to machine behaviour. */
module TeenyBasic {
  import opened BasicAst
  import CodeGen
  import CompilerCorrectness
  import Grammar
  import ParserExact
  import ParserRoundTrip
  import ParserSoundness
  import ProgramText
  import X86Machine

  /** Any text that the parser accepts is compiled to a program that behaves as the tree means, for any initial
      variables. Only conditions whose operator is missing mean what the text does not say. */
  lemma TextToMachine(text: string, n: Node, m: X86Machine.Machine, s: X86Machine.State, env: Env,
                      fuel: nat) returns (k: nat)
    requires Grammar.Parse(text) == Grammar.Good(n) && CompilerCorrectness.Entered(s, env)
    requires m.code == CodeGen.Program(n) && (IsTree(n) ==> CodeGen.Foldable(n))
    ensures IsTree(n) && (IsStmt(n) <==> ParserSoundness.SequenceWritten(text))
    ensures Grammar.NUL !in text ==> ProgramText.TextOf(n, text)
    ensures CompilerCorrectness.ProgramMatches(s, X86Machine.Run(m, s, k), k, fuel, Exec(n, env, fuel))
  {
    ParserSoundness.ParseSound(text, n);
    if Grammar.NUL !in text { ParserExact.ParseExact(text, n); }
    k := CompilerCorrectness.SemanticPreservation(m, n, s, env, fuel);
  }

  /** In particular, every program that is written out, however it is laid out. */
  lemma WrittenToMachine(lay: ParserRoundTrip.Layout, n: Node, m: X86Machine.Machine, s: X86Machine.State, env: Env,
                         fuel: nat) returns (k: nat)
    requires ParserRoundTrip.IsBlock(n) && CompilerCorrectness.Entered(s, env)
    requires m.code == CodeGen.Program(n) && (IsTree(n) ==> CodeGen.Foldable(n))
    ensures Grammar.Parse(ParserRoundTrip.ShowBlock(lay, n, "")) == Grammar.Good(n) && IsStmt(n) && IsTree(n)
    ensures CompilerCorrectness.ProgramMatches(s, X86Machine.Run(m, s, k), k, fuel, Exec(n, env, fuel))
  {
    var text := ParserRoundTrip.ShowBlock(lay, n, "");
    ParserRoundTrip.ProgramRoundTrip(lay, n);
    ParserSoundness.ParseSound(text, n);
    k := TextToMachine(text, n, m, s, env, fuel);
  }
}
