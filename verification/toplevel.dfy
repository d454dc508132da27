/** The top level of src/jlox/visitors/interpreter.ts: `interpret`, which
    runs a program's statements one after the other and catches the error
    that ends it, and the page (src/pages/jlox.tsx) that keeps one
    interpreter for every run, so each run starts where the previous one
    left the interpreter's state. */
module TopLevel {
  import opened Basics
  import opened Ast
  import Environment
  import opened Interpreter

  /** The state of a new interpreter: one empty global frame. */
  const Global := State([Environment.Frame(map[], None)], 0, [], [])

  /** The loop of `interpret`: each statement in turn, ignoring a `Broke`
      result; the first error ends the run. */
  function RunAll(ss: seq<Stmt>, st: State, host: Host, fuel: nat): (r: Executed)
    requires Good(st)
    ensures Good(r.st) && StmtFrame(st, r.st) && !r.Broke?
    decreases |ss|
  {
    if |ss| == 0 then Normal(st)
    else match Exec(ss[0], st, host, fuel)
      case Threw(f, st1) => Threw(f, st1)
      case Normal(st1) => RunAll(ss[1..], st1, host, fuel)
      case Broke(st1) => RunAll(ss[1..], st1, host, fuel)
  }

  /** A top-level `break` does not stop the program: `interpret` ignores
      statement results. */
  lemma BreakIsIgnored(ss: seq<Stmt>, st: State, host: Host, fuel: nat)
    requires Good(st)
    ensures RunAll([Break] + ss, st, host, fuel) == RunAll(ss, st, host, fuel)
  {
    assert ([Break] + ss)[1..] == ss;
  }

  /** The result of one `interpret` call: the state the interpreter is
      left in, the lines this run printed and the error that ended it. */
  datatype Outcome = Outcome(st: State, printed: seq<string>, error: Option<Failure>)

  /** `interpret` on an interpreter in state `st`: `Global` for a new one,
      and the previous run's final state when the same interpreter runs
      again, since its environment field is never reset. The error that
      ends the run is caught and handed to `Logger.runtimeError`; the model
      assumes that report returns normally, so the error is the run's
      outcome rather than an escaping exception. */
  function Interpret(ss: seq<Stmt>, st: State, host: Host, fuel: nat): (r: Outcome)
    requires Good(st)
    ensures Good(r.st) && r.st.env == st.env && |r.st.store| >= |st.store| && |r.st.heap| >= |st.heap|
    ensures r.st.out == st.out + r.printed
    ensures var run := RunAll(ss, st, host, fuel);
      r.st == run.st && (r.error.Some? <==> run.Threw?) && (run.Threw? ==> r.error == Some(run.failure))
  {
    var run := RunAll(ss, st, host, fuel);
    (Outcome(run.st, run.st.out[|st.out|..], if run.Threw? then Some(run.failure) else None))
  }

  /** Running a program is running its statements one top-level statement
      list after the other: the second list starts where the first left
      the state, unless the first ended in an error. */
  lemma {:induction false} RunAllAppend(ss1: seq<Stmt>, ss2: seq<Stmt>, st: State, host: Host, fuel: nat)
    requires Good(st)
    ensures RunAll(ss1 + ss2, st, host, fuel) ==
      match RunAll(ss1, st, host, fuel)
      case Threw(f, st1) => Threw(f, st1)
      case other => RunAll(ss2, other.st, host, fuel)
    decreases |ss1|
  {
    if |ss1| == 0 {
      assert ss1 + ss2 == ss2;
    } else {
      assert (ss1 + ss2)[0] == ss1[0];
      assert (ss1 + ss2)[1..] == ss1[1..] + ss2;
      match Exec(ss1[0], st, host, fuel)
      case Normal(st1) => RunAllAppend(ss1[1..], ss2, st1, host, fuel);
      case Broke(st1) => RunAllAppend(ss1[1..], ss2, st1, host, fuel);
      case Threw(_, _) =>
    }
  }

  /** Two runs on the same interpreter behave as one run of the two
      programs joined, when the first ends without an error: the state
      carries over, the printed lines are the two runs' lines in order and
      the error is the second run's. An error in the first run is that of
      the joined program too, which then prints nothing further. */
  lemma InterpretInSequence(ss1: seq<Stmt>, ss2: seq<Stmt>, st: State, host: Host, fuel: nat)
    requires Good(st)
    ensures var a := Interpret(ss1, st, host, fuel);
      var ab := Interpret(ss1 + ss2, st, host, fuel);
      && (a.error.None? ==>
            var b := Interpret(ss2, a.st, host, fuel);
            ab.st == b.st && ab.printed == a.printed + b.printed && ab.error == b.error)
      && (a.error.Some? ==> ab == a)
  {
    RunAllAppend(ss1, ss2, st, host, fuel);
    var a := Interpret(ss1, st, host, fuel);
    if a.error.None? {
      var b := Interpret(ss2, a.st, host, fuel);
      assert st.out + (a.printed + b.printed) == b.st.out;
    }
  }
}
