/** From a procedure's source to its runs: the one-pass generator, the machine
    and the meaning of the source put together. */
module EndToEnd {
  import opened Bytes
  import opened Wrappers
  import opened Syntax
  import opened Instructions
  import opened Code
  import opened Compiler
  import opened ByteCounts
  import opened Rendering
  import opened Data
  import opened Machine
  import opened Semantics
  import opened Limits
  import opened Correctness
  import opened CodeGenerator
  import ConstantPool
  import Returns
  import ReturnSafety

  /** A compiled procedure: its bytes, the constant area it was compiled with,
      and the number of locals of its frame. */
  datatype Compiled = Compiled(code: seq<Byte>, pool: seq<Byte>, locals: nat)

  function Start(params: seq<Var>, pool: seq<Byte>, procs: seq<Proc>, ret: Ty): Env {
    Env(params, [], pool, procs, ret, false)
  }

  /** The unit runs this code with at least its constants. */
  predicate Runs(u: Unit, c: Compiled, procs: seq<Proc>) {
    u.code == c.code && c.pool <= u.consts && u.procs == procs
  }

  /** The sizes the file format has room for. */
  predicate Sizable(c: Compiled, procs: seq<Proc>) {
    |c.code| < 0x8000_0000 && |c.pool| <= MAX32 && c.locals < 0x8000_0000 && |procs| <= MAX32
  }

  /** RETURN 5 in a procedure that returns an INT32: the literal is unsigned, the
      body is accepted all the same, and these are its bytes. */
  lemma ReturnFive(pool: seq<Byte>, procs: seq<Proc>)
    ensures var c := GenStmt(Return(IntC(5, false)), Start([], pool, procs, Scalar(Int(true, B4))));
            c.Some? && Render(c.value.code, 0) == [3, 5, 44]
  {
    hide Render;
    FiveBytes();
  }

  lemma FiveBytes()
    ensures Render([With(W_LDI8, 5)] + [Op(W_RET)], 0) == [3, 5, 44]
  {
    RenderCat([With(W_LDI8, 5)], [Op(W_RET)], 0);
    RenderOne(With(W_LDI8, 5), 0);
    RenderOne(Op(W_RET), 0);
    OneByte(5);
    NoBytes();
  }

  lemma OneByte(n: Byte)
    ensures Le(n, 1) == [n]
  {
    assert Le(n / 256, 0) == [];
  }

  lemma NoBytes()
    ensures Le(0, 0) == []
  {
  }

  ghost predicate Reaches(u: Unit, locals: seq<Val>, w: World, s: State) {
    exists n: nat :: Steps(u, Entry(locals, w), n) == s
  }

  /** If the machine stops within m steps, it stops as the source says; if the
      source ends within m rounds of its loops, the machine stops so. */
  ghost predicate Agrees(body: Stmt, env: Env, u: Unit, locals: seq<Val>, w: World, m: nat)
    requires GenStmt(body, env).Some?
  {
    var s := Steps(u, Entry(locals, w), m);
    var r := Exec(body, env, u.calls, Semantics.Store(locals, [], w), m);
    && (!s.Running? || !r.OutOfFuel? ==> (r.Normal? || r.Returned? || r.Failed?) && Reaches(u, locals, w, Ending(r)))
    && (!s.Running? ==> s == Ending(r))
  }

  /** Compiles a procedure body. It succeeds exactly for bodies the language
      accepts in which a RETURN was seen on every branch, and every run of the
      bytes it produces does what the source means. */
  method CompileBody(params: seq<Var>, body: Stmt, pool: seq<Byte>, procs: seq<Proc>, ret: Ty) returns (r: Option<Compiled>)
    requires ConstantPool.Terminated(pool)
    ensures var env := Start(params, pool, procs, ret);
            && (r.Some? <==> GenStmt(body, env).Some? && Returns.Detects(body))
            && (r.Some? && Narrow(body, env) && Sizable(r.value, procs) ==>
                  forall u: Unit, locals: seq<Val>, w: World, m: nat ::
                    Runs(u, r.value, procs) && |locals| == r.value.locals ==>
                      Agrees(body, env, u, locals, w, m) && !Steps(u, Entry(locals, w), m).Corrupt?)
            && (r.Some? && Narrow(body, env) && Sizable(r.value, procs) && Returns.LoopFree(body) ==>
                  forall u: Unit, locals: seq<Val>, w: World, m: nat ::
                    Runs(u, r.value, procs) && |locals| == r.value.locals ==>
                      !Steps(u, Entry(locals, w), m).FellOff?)
  {
    hide GenStmt, Exec, Steps, Narrow, Runnable, Entry;
    ghost var env := Start(params, pool, procs, ret);
    var g := new Generator(params, pool, procs, ret);
    var ok := g.CompileProc(body);
    if !ok {
      return None;
    }
    r := Some(Compiled(g.code, g.pool, |g.decls|));
    if Narrow(body, env) && Sizable(r.value, procs) {
      forall u: Unit, locals: seq<Val>, w: World, m: nat | Runs(u, r.value, procs) && |locals| == r.value.locals
        ensures Agrees(body, env, u, locals, w, m) && !Steps(u, Entry(locals, w), m).Corrupt?
        ensures Returns.LoopFree(body) ==> !Steps(u, Entry(locals, w), m).FellOff?
      {
        IsRunnable(body, env, u, r.value, procs);
        RunAgrees(body, env, u, locals, w, m);
        if Returns.LoopFree(body) {
          ReturnSafety.CheckedNeverFalls(body, env, u, locals, w, m);
        }
      }
    }
  }

  lemma IsRunnable(body: Stmt, env: Env, u: Unit, c: Compiled, procs: seq<Proc>)
    requires GenStmt(body, env).Some? && env.iters == [] && !env.inLoop && env.procs == procs
    requires c.code == Render(GenStmt(body, env).value.code, |GenStmt(body, env).value.env.locals|)
    requires c.pool == GenStmt(body, env).value.env.pool && c.locals == |GenStmt(body, env).value.env.locals|
    requires Narrow(body, env) && Sizable(c, procs) && Runs(u, c, procs)
    ensures Runnable(body, env, u)
  {
    hide GenStmt, Narrow;
  }

  lemma RunAgrees(body: Stmt, env: Env, u: Unit, locals: seq<Val>, w: World, m: nat)
    requires Runnable(body, env, u) && |locals| == |GenStmt(body, env).value.env.locals|
    ensures GenStmt(body, env).Some? && Agrees(body, env, u, locals, w, m) && !Steps(u, Entry(locals, w), m).Corrupt?
  {
    hide GenStmt, Exec, Steps, Entry;
    var n := ProcedureCorrect(body, env, u, locals, w, m);
    if !Steps(u, Entry(locals, w), m).Running? {
      MachineStops(body, env, u, locals, w, m);
    }
  }
}
