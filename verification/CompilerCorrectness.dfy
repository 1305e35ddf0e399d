/** Whole programs: what the emitted assembly does is exactly what the TeenyBASIC program does. */
module CompilerCorrectness {
  import opened BasicAst
  import opened X86Machine
  import opened CodeGen
  import opened ExprSimulation
  import opened Labels
  import opened StmtSimulation

  /** `basic_main` was just called: the return address is on the stack, which is aligned as the System V
      AMD64 calling convention (section 3.2.2) demands, and the future variable slots hold `env`. */
  ghost predicate Entered(s: State, env: Env) {
    && s.status == Running && s.pc == 0 && s.regs.rsp % 16 == 8
    && Slots(s.mem, s.regs.rsp - 8, env)
  }

  /** `basic_main` returned: the output, the variables, both stack registers and the caller's memory. */
  ghost predicate Left(s: State, t: State, env: Env, out: seq<int>) {
    && t.status == Returned && t.out == s.out + out
    && t.regs.rsp == s.regs.rsp + 8 && t.regs.rbp == s.regs.rbp
    && Slots(t.mem, s.regs.rsp - 8, env) && SameFrom(s.mem, t.mem, s.regs.rsp)
  }

  ghost predicate ProgramMatches(s: State, t: State, k: nat, fuel: nat, outcome: Outcome) {
    match outcome
    case Done(env, out) => Left(s, t, env, out)
    case Trapped(out) => t.status == DivideTrap && t.out == s.out + out
    case OutOfFuel(out) => t.status == Running && t.out == s.out + out && k >= fuel
  }

  /** A machine loaded with the compiled program. */
  ghost predicate Compiled(m: Machine, n: Node) {
    IsTree(n) && Foldable(n) && m.code == Program(n)
  }

  lemma ProgramParts(n: Node)
    ensures var code := Program(n); var body := Code(n, Ids(0, 0)).code; var q := 3 + |body|;
            && |code| == q + 3 && At(code, 3, body)
            && code[0] == Push(Rbp) && code[1] == MovReg(Rsp, Rbp) && code[2] == SubRsp(FRAME)
            && code[q] == AddRsp(FRAME) && code[q + 1] == Pop(Rbp) && code[q + 2] == Ret
  {
    hide Code;
    InMiddle(HEADER, Code(n, Ids(0, 0)).code, FOOTER);
  }

  /** Where a fragment stands between two of three instructions each. */
  lemma InMiddle(a: seq<Instr>, body: seq<Instr>, b: seq<Instr>)
    requires |a| == 3 && |b| == 3
    ensures var code := a + body + b; var q := 3 + |body|;
            && |code| == q + 3 && At(code, 3, body)
            && code[0] == a[0] && code[1] == a[1] && code[2] == a[2]
            && code[q] == b[0] && code[q + 1] == b[1] && code[q + 2] == b[2]
  {
    var code := a + body + b;
    assert code[3..3 + |body|] == body;
  }

  /** The header builds the frame. */
  lemma HeaderRuns(m: Machine, s: State, env: Env) returns (t: State)
    requires Entered(s, env) && |m.code| >= 3
    requires m.code[0] == Push(Rbp) && m.code[1] == MovReg(Rsp, Rbp) && m.code[2] == SubRsp(FRAME)
    ensures t == Run(m, s, 3) && Framed(t, env) && t.pc == 3 && t.out == s.out
    ensures t.regs.rbp == s.regs.rsp - 8 && Cell(t.mem, t.regs.rbp) == s.regs.rbp && SameFrom(s.mem, t.mem, s.regs.rsp)
  {
    var s1 := Step(m, s);
    var s2 := Step(m, s1);
    t := Step(m, s2);
    RunTwo(m, s);
    RunJoin(m, s, 2);
    forall i | 0 <= i < 26 ensures Cell(t.mem, Slot(t.regs.rbp, i)) == env[i] {
      assert Cell(s.mem, Slot(s.regs.rsp - 8, i)) == env[i];
    }
  }

  /** What three instructions of the footer do. */
  lemma FooterSteps(m: Machine, u: State, q: nat)
    requires u.status == Running && u.pc == q && q + 2 < |m.code|
    requires m.code[q] == AddRsp(FRAME) && m.code[q + 1] == Pop(Rbp) && m.code[q + 2] == Ret
    ensures var v := Run(m, u, 3);
            && v.status == Returned && v.out == u.out && v.mem == u.mem
            && v.regs.rsp == u.regs.rsp + FRAME + 16 && v.regs.rbp == Cell(u.mem, u.regs.rsp + FRAME)
  {
    hide Run;
    RunTwo(m, u);
    RunJoin(m, u, 2);
  }

  /** The footer takes the frame down and returns. */
  lemma FooterRuns(m: Machine, s: State, t: State, u: State, q: nat, env: Env, out: seq<int>)
    requires t.regs.rbp == s.regs.rsp - 8 && Cell(t.mem, t.regs.rbp) == s.regs.rbp && SameFrom(s.mem, t.mem, s.regs.rsp)
    requires t.out == s.out && Reaches(t, u, q, env, out)
    requires q + 2 < |m.code| && m.code[q] == AddRsp(FRAME) && m.code[q + 1] == Pop(Rbp) && m.code[q + 2] == Ret
    ensures Left(s, Run(m, u, 3), env, out)
  {
    hide Run, Step, Slots;
    FooterSteps(m, u, q);
    assert Cell(t.mem, t.regs.rbp) == Cell(u.mem, t.regs.rbp);
  }

  /** Semantic preservation: for any contents of the variables, any garbage left by `print_int`, and any amount
      of fuel, the compiled program gets to a state that matches the source program's outcome: it returns with
      the same output, variables and stack; or takes the same divide trap; or is still running after at least
      as many steps as the source program had fuel, with the same output so far. */
  lemma SemanticPreservation(m: Machine, n: Node, s: State, env: Env, fuel: nat) returns (k: nat)
    requires Compiled(m, n) && Entered(s, env)
    ensures ProgramMatches(s, Run(m, s, k), k, fuel, Exec(n, env, fuel))
  {
    ProgramParts(n);
    ProgramLabelsUnique(n);
    var t := HeaderRuns(m, s, env);
    var j := StmtRuns(m, n, Ids(0, 0), 3, t, env, fuel);
    k := LeaveProgram(m, s, t, j, 3 + |Code(n, Ids(0, 0)).code|, fuel, Exec(n, env, fuel));
  }

  lemma LeaveProgram(m: Machine, s: State, t: State, j: nat, q: nat, fuel: nat, outcome: Outcome) returns (k: nat)
    requires t == Run(m, s, 3) && t.regs.rbp == s.regs.rsp - 8 && Cell(t.mem, t.regs.rbp) == s.regs.rbp
    requires SameFrom(s.mem, t.mem, s.regs.rsp) && t.out == s.out && Matches(t, Run(m, t, j), j, q, fuel, outcome)
    requires q + 2 < |m.code| && m.code[q] == AddRsp(FRAME) && m.code[q + 1] == Pop(Rbp) && m.code[q + 2] == Ret
    ensures ProgramMatches(s, Run(m, s, k), k, fuel, outcome)
  {
    hide Run, Step;
    RunSplit(m, s, 3, j);
    k := 3 + j;
    if outcome.Done? {
      var u := Run(m, t, j);
      FooterRuns(m, s, t, u, q, outcome.env, outcome.out);
      RunSplit(m, s, 3 + j, 3);
      k := 3 + j + 3;
    }
  }

  /** Once the machine has stopped, a longer run is in the same state; before that, it had printed less. */
  lemma RunLater(m: Machine, s: State, j: nat, k: nat)
    requires j <= k
    ensures Run(m, s, j).out <= Run(m, s, k).out
    ensures Run(m, s, j).status != Running ==> Run(m, s, k) == Run(m, s, j)
  {
    RunSplit(m, s, j, k - j);
    RunOutputGrows(m, Run(m, s, j), k - j);
    if Run(m, s, j).status != Running { RunStopped(m, Run(m, s, j), k - j); }
  }

  lemma ReflectAt(m: Machine, s: State, j: nat, k: nat, outcome: Outcome)
    requires ProgramMatches(s, Run(m, s, j), j, k + 1, outcome)
    ensures var t := Run(m, s, k);
            && t.out <= s.out + outcome.out
            && t.status != Fault
            && (t.status == Returned ==> outcome.Done? && Left(s, t, outcome.env, outcome.out))
            && (t.status == DivideTrap ==> outcome.Trapped? && t.out == s.out + outcome.out)
  {
    hide Run, Step;
    if k <= j { RunLater(m, s, k, j); } else { RunLater(m, s, j, k); }
    var t, u := Run(m, s, k), Run(m, s, j);
    assert t == u || (k <= j && t.status == Running);
    assert u.out == s.out + outcome.out;
  }

  /** Behaviour reflection: after any number of steps the machine has not faulted, what it printed is a prefix
      of what the source program prints, and if it has returned or trapped then the source program, given
      enough fuel, ends in just that way. */
  lemma BehaviourReflection(m: Machine, n: Node, s: State, env: Env, k: nat)
    requires Compiled(m, n) && Entered(s, env)
    ensures var t := Run(m, s, k); var outcome := Exec(n, env, k + 1);
            && t.out <= s.out + outcome.out
            && t.status != Fault
            && (t.status == Returned ==> outcome.Done? && Left(s, t, outcome.env, outcome.out))
            && (t.status == DivideTrap ==> outcome.Trapped? && t.out == s.out + outcome.out)
  {
    var j := SemanticPreservation(m, n, s, env, k + 1);
    ReflectAt(m, s, j, k, Exec(n, env, k + 1));
  }

  ghost predicate RunsForEver(m: Machine, s: State) {
    forall k: nat :: Run(m, s, k).status == Running
  }

  ghost predicate Diverges(n: Node, env: Env)
    requires IsTree(n)
  {
    forall fuel: nat :: Exec(n, env, fuel).OutOfFuel?
  }

  /** The compiled program runs for ever exactly when the source program does. */
  lemma DivergenceExactly(m: Machine, n: Node, s: State, env: Env)
    requires Compiled(m, n) && Entered(s, env)
    ensures RunsForEver(m, s) <==> Diverges(n, env)
  {
    hide Run, Exec;
    if RunsForEver(m, s) {
      forall fuel: nat ensures Exec(n, env, fuel).OutOfFuel? {
        var k := SemanticPreservation(m, n, s, env, fuel);
        assert Run(m, s, k).status == Running;
      }
      assert Diverges(n, env);
    } else {
      var k: nat :| Run(m, s, k).status != Running;
      BehaviourReflection(m, n, s, env, k);
      assert !Exec(n, env, k + 1).OutOfFuel?;
    }
  }

  /** Folding is not quite invisible: a division by zero that is never reached kills the compiler, though
      the program itself would end normally. */
  const UNREACHED: Node :=
    If(Bin('<', Var('A'), Var('A')), Print(Bin('/', Num(1), Num(0))), NoElse)

  lemma UnreachedDivision(env: Env, fuel: nat)
    ensures IsStmt(UNREACHED) && !Foldable(UNREACHED)
    ensures Exec(UNREACHED, env, fuel) == Done(env, [])
  {
    var division := Bin('/', Num(1), Num(0));
    assert Eval(division, SOME_ENV) == DivideError;
    assert !ExprFoldable(division);
  }
}
