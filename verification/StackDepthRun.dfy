/** On every run of a compiled procedure the depth of the value stack depends on
    the program counter only, which is always at the start of an instruction. */
module StackDepthRun {
  import opened Bytes
  import opened Wrappers
  import opened Syntax
  import opened Instructions
  import opened Code
  import opened Compiler
  import opened ByteCounts
  import opened CompilerLemmas
  import opened OpenCode
  import opened Data
  import opened ValueOps
  import opened Machine
  import opened Semantics
  import opened StackLemmas
  import opened SimulateExp
  import opened StackDepth
  import opened StackDepthStmt
  import opened Correctness
  import ConstantPool

  /** What an instruction that moves on does to the height of the stack. */
  lemma DataMoves(u: Unit, i: Instr, stack: seq<Cell>, w: World)
    requires |stack| >= Needs(KindOf(i.op)) && DataStep(u, i, stack, w).Ok?
    ensures var m := MoveOf(i, u.procs);
            m.falls && !m.jumps && |DataStep(u, i, stack, w).stack| == |stack| - m.pops + m.pushes
  {
    hide KindOf, Load, Convert, Update, BinLoaded, ElementOf, TableField, StartIter, NextIter, NullTest, NotVal, RawAt,
      Follow, ConstantPool.CString;
    match KindOf(i.op)
    case CallsProc => CallMoves(u, i.arg, stack, w);
    case _ =>
  }

  lemma CallMoves(u: Unit, p: nat, stack: seq<Cell>, w: World)
    requires CallTop(u, p, stack, w).Ok?
    ensures p < |u.procs| && |u.procs[p].params| <= |stack|
    ensures |CallTop(u, p, stack, w).stack| == |stack| - |u.procs[p].params| + 1
  {
  }

  lemma ExecuteMoves(u: Unit, i: Instr, c: Config)
    requires Execute(u, i, c).Running?
    ensures var m := MoveOf(i, u.procs);
            var r := Execute(u, i, c).c;
            && |r.stack| == |c.stack| - m.pops + m.pushes
            && ((m.falls && r.pc == c.pc + Size(i)) || (m.jumps && r.pc == c.pc + i.arg))
  {
    hide KindOf, DataStep, Condition, RawAt, MoveOf;
    var k := KindOf(i.op);
    if k.CondJump? {
      JumpMoves(u, i, c);
    } else if k.Jump? {
      JumpMove(u, i);
    } else if k.Returns? {
    } else {
      DataMoves(u, i, c.stack, c.w);
    }
  }

  lemma JumpMove(u: Unit, i: Instr)
    requires KindOf(i.op).Jump?
    ensures MoveOf(i, u.procs) == Move(0, 0, false, true)
  {
  }

  lemma JumpMoves(u: Unit, i: Instr, c: Config)
    requires KindOf(i.op).CondJump? && |c.stack| >= 1 && JumpStep(i, c).Running?
    ensures var m := MoveOf(i, u.procs);
            var r := JumpStep(i, c).c;
            && m.falls && m.jumps && |r.stack| == |c.stack| - m.pops + m.pushes
            && (r.pc == c.pc + Size(i) || r.pc == c.pc + i.arg)
  {
    hide Condition, RawAt;
  }

  /** The item of the code at a boundary. */
  lemma {:induction false} ItemAt(code: seq<Byte>, c: seq<Item>, p: int, t: Targets, ds: Depths, s: Setting, q: int)
    returns (x: Item)
    requires At(code, p, c, t) && Flows(c, p, ds, s) && Boundary(c, p, q) && q != p + Len(c)
    ensures x in c && DecodeAt(code, q) == Some(Concrete(x, q, t)) && Sound(x, q, ds, s)
    decreases |c|
  {
    hide DecodeAt, Sound, ItemSize;
    if q == p {
      x := c[0];
    } else {
      x := ItemAt(code, c[1..], p + ItemSize(c[0]), t, ds, s, q);
      assert x in c[1..] && forall y :: y in c[1..] ==> y in c;
    }
  }

  /** The height of the stack fits the depth at the program counter. */
  predicate Fits(st: State, ds: Depths, n: nat) {
    st.Running? ==> st.c.pc in ds && |st.c.stack| == n + ds[st.c.pc]
  }

  lemma SoundStep(u: Unit, x: Item, t: Targets, c: Config, ds: Depths, s: Setting)
    requires x.I? || x.Iter?
    requires Sound(x, c.pc, ds, s) && s.exact && s.procs == u.procs && |c.stack| == t.base + ds[c.pc]
    ensures Fits(Execute(u, Concrete(x, c.pc, t), c), ds, t.base)
  {
    hide KindOf, Execute;
    var i := Concrete(x, c.pc, t);
    SlotMove(i.arg, u.procs);
    if Execute(u, i, c).Running? {
      ExecuteMoves(u, i, c);
    }
  }

  lemma SlotMove(arg: int, procs: seq<Proc>)
    ensures MoveOf(Instr(W_LDLO32, arg), procs) == Move(0, 1, true, false) && OperandSize(W_LDLO32) == 4
  {
    assert KindOf(W_LDLO32) == LoadSlot;
  }

  lemma StepFits(u: Unit, c: seq<Item>, t: Targets, st: State, ds: Depths, s: Setting)
    requires At(u.code, 0, c, t) && Flows(c, 0, ds, s) && AtBoundaries(c, 0, ds) && Closed(c) && Len(c) == |u.code|
    requires s.exact && s.procs == u.procs && Fits(st, ds, t.base)
    ensures Fits(Step(u, st), ds, t.base)
  {
    hide At, Flows, Boundary, Sound, Execute, DecodeAt, Len;
    if st.Running? && st.c.pc != |u.code| {
      var x := ItemAt(u.code, c, 0, t, ds, s, st.c.pc);
      SoundStep(u, x, t, st.c, ds, s);
    }
  }

  lemma {:induction false} StepsFit(u: Unit, c: seq<Item>, t: Targets, st: State, ds: Depths, s: Setting, n: nat)
    requires At(u.code, 0, c, t) && Flows(c, 0, ds, s) && AtBoundaries(c, 0, ds) && Closed(c) && Len(c) == |u.code|
    requires s.exact && s.procs == u.procs && Fits(st, ds, t.base)
    ensures Fits(Steps(u, st, n), ds, t.base)
    decreases n
  {
    hide At, Flows, AtBoundaries, Step, Len;
    if n > 0 {
      StepFits(u, c, t, st, ds, s);
      StepsFit(u, c, t, Step(u, st), ds, s, n - 1);
    }
  }

  /** One table of depths fits every run: whatever the arguments and however
      many steps, the machine is at the start of an instruction (or at the end)
      and its stack is exactly as high as the table says for that place. */
  lemma DepthOfPosition(body: Stmt, env: Env, u: Unit) returns (ds: Depths)
    requires Runnable(body, env, u)
    ensures AtBoundaries(GenStmt(body, env).value.code, 0, ds) && Has(ds, 0, 0) && Has(ds, |u.code|, 0)
    ensures forall locals: seq<Val>, w: World, n: nat :: |locals| == |GenStmt(body, env).value.env.locals| ==>
              Fits(Steps(u, Entry(locals, w), n), ds, |locals|)
  {
    hide GenStmt, Narrow, At, Flows, Len, Steps, AtBoundaries, Entry;
    var c, base := GenStmt(body, env).value.code, |GenStmt(body, env).value.env.locals|;
    var s := Setting(u.procs, base, 0, 0, true);
    var t := Targets(0, 0, base);
    StmtGrows(body, env);
    ds := StmtDepth(body, env, 0, s);
    FinishedAt(body, env, u, t);
    StmtClosed(body, env);
    forall locals: seq<Val>, w: World, n: nat | |locals| == base
      ensures Fits(Steps(u, Entry(locals, w), n), ds, |locals|)
    {
      EntryFits(locals, w, ds);
      StepsFit(u, c, t, Entry(locals, w), ds, s, n);
    }
  }

  lemma EntryFits(locals: seq<Val>, w: World, ds: Depths)
    requires Has(ds, 0, 0)
    ensures Fits(Entry(locals, w), ds, |locals|)
  {
  }
}
