/** The two numbers the compiler writes in one byte: the missing arguments of a
    call and the values a row copy leaves behind. */
module ByteCounts {
  import opened Syntax
  import opened Compiler

  /** No call leaves out more than 255 arguments. */
  predicate FewMissing(e: Exp, procs: seq<Proc>) {
    match e
    case Not(x) => FewMissing(x, procs)
    case IsNull(x, _) => FewMissing(x, procs)
    case Bin(_, l, r) => FewMissing(l, procs) && FewMissing(r, procs)
    case Sel(c, l, r) => FewMissing(c, procs) && FewMissing(l, procs) && FewMissing(r, procs)
    case Store(l, r) => FewMissing(l, procs) && FewMissing(r, procs)
    case Index(l, r) => FewMissing(l, procs) && FewMissing(r, procs)
    case Call(p, args) =>
      ArgsFewMissing(args, procs) && (p < |procs| ==> |procs[p].params| - ArgCount(args) <= 255)
    case _ => true
  }

  predicate ArgsFewMissing(args: Args, procs: seq<Proc>) {
    args.NoArgs? || (FewMissing(args.head, procs) && ArgsFewMissing(args.tail, procs))
  }

  /** So it is everywhere in a statement, and no row copy moves more than 251
      fields: its four operands and one result for each field are dropped. */
  predicate Narrow(s: Stmt, env: Env)
    requires GenStmt(s, env).Some?
  {
    match s
    case Seq(s1, s2) => Narrow(s1, env) && Narrow(s2, GenStmt(s1, env).value.env)
    case ExpStmt(e) => FewMissing(e, env.procs)
    case Assign(_, e) => FewMissing(e, env.procs)
    case Return(e) => FewMissing(e, env.procs)
    case If(chain) => NarrowChain(chain, env)
    case While(c, body) => FewMissing(c, env.procs) && Narrow(body, InLoop(env))
    case Until(body, c) => FewMissing(c, env.procs) && Narrow(body, InLoop(env))
    case For(i, c, t, body) =>
      && FewMissing(i, env.procs) && FewMissing(c, env.procs) && FewMissing(t, env.procs)
      && Narrow(body, InLoop(env))
    case Foreach(it, e, reverse, body) =>
      FewMissing(e, env.procs) && Narrow(body, Enter(it, GenExp(e, env).value.ty, env))
    case RowCopy(lt, lsel, li, rt, rsel, ri) =>
      var h := GenCopyHead(lt, li, rt, ri, env).value;
      FourFewMissing(lt, li, rt, ri, env.procs) && |SelectPairs(h.left, lsel, h.right, rsel).value| <= 251
    case RowCopyFree(lt, li, rt, ri) =>
      var h := GenCopyHead(lt, li, rt, ri, env).value;
      FourFewMissing(lt, li, rt, ri, env.procs) && |SharedPairs(h.left, h.right)| <= 251
    case _ => true
  }

  predicate FourFewMissing(lt: Exp, li: Exp, rt: Exp, ri: Exp, procs: seq<Proc>) {
    FewMissing(lt, procs) && FewMissing(li, procs) && FewMissing(rt, procs) && FewMissing(ri, procs)
  }

  predicate NarrowChain(chain: Chain, env: Env)
    requires GenChain(chain, env).Some?
  {
    FewMissing(chain.c, env.procs) && Narrow(chain.body, env) &&
    match chain.tail
    case NoElse => true
    case Else(body) => Narrow(body, GenStmt(chain.body, env).value.env)
    case ElseIf(next) => NarrowChain(next, GenStmt(chain.body, env).value.env)
  }
}
