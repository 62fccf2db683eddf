/** What compilation does to the environment, and its equations case by case. */
module CompilerLemmas {
  import opened Bytes
  import opened Wrappers
  import opened Syntax
  import opened Instructions
  import opened Operators
  import opened Code
  import opened Compiler
  import ConstantPool

  predicate Grows(a: Env, b: Env) {
    && a.locals <= b.locals && a.pool <= b.pool
    && a.iters == b.iters && a.procs == b.procs && a.ret == b.ret && a.inLoop == b.inLoop
  }

  lemma {:induction false} StmtGrows(s: Stmt, env: Env)
    requires GenStmt(s, env).Some?
    ensures Grows(env, GenStmt(s, env).value.env)
    decreases s
  {
    hide GenExp, GenBool, GenCopyHead, SelectPairs, SharedPairs, StoreOpcode, Lookup, Returnable, WhileCode, UntilCode,
      ForCode, ForeachCode, AutoCode, GenFields;
    match s
    case Seq(s1, s2) =>
      StmtGrows(s1, env);
      StmtGrows(s2, GenStmt(s1, env).value.env);
    case If(chain) => ChainGrows(chain, env);
    case While(c, body) => StmtGrows(body, InLoop(env));
    case Until(body, c) => StmtGrows(body, InLoop(env));
    case For(i, c, t, body) => StmtGrows(body, InLoop(env));
    case Foreach(it, e, reverse, body) => StmtGrows(body, Enter(it, GenExp(e, env).value.ty, env));
    case RowCopy(lt, lsel, li, rt, rsel, ri) =>
      var h := GenCopyHead(lt, li, rt, ri, env).value;
      FieldsGrow(SelectPairs(h.left, lsel, h.right, rsel).value, |env.iters|, env.pool);
    case RowCopyFree(lt, li, rt, ri) =>
      var h := GenCopyHead(lt, li, rt, ri, env).value;
      FieldsGrow(SharedPairs(h.left, h.right), |env.iters|, env.pool);
    case _ =>
  }

  lemma {:induction false} ChainGrows(chain: Chain, env: Env)
    requires GenChain(chain, env).Some?
    ensures Grows(env, GenChain(chain, env).value.env)
    decreases chain
  {
    hide GenBool, IfCode, IfElseCode;
    StmtGrows(chain.body, env);
    var env1 := GenStmt(chain.body, env).value.env;
    match chain.tail
    case NoElse =>
    case Else(body) => StmtGrows(body, env1);
    case ElseIf(next) => ChainGrows(next, env1);
  }

  lemma {:induction false} FieldsGrow(pairs: seq<Pair>, k: nat, pool: seq<Byte>)
    requires GenFields(pairs, k, pool).Some?
    ensures pool <= GenFields(pairs, k, pool).value.pool
  {
    if pairs != [] {
      var a := ConstantPool.Add(pool, pairs[0].l.name);
      var b := ConstantPool.Add(a.1, pairs[0].r.name);
      FieldsGrow(pairs[1..], k, b.1);
    }
  }

  /** The equations of an IF. */
  lemma ChainParts(c: Chain, env: Env)
    requires GenChain(c, env).Some?
    ensures GenExp(c.c, env).Some? && GenExp(c.c, env).value.ty == TBool
    ensures GenBool(c.c, env) == Some(GenExp(c.c, env).value.code) && GenStmt(c.body, env).Some?
    ensures var x, b := GenExp(c.c, env).value.code, GenStmt(c.body, env).value;
            match c.tail {
              case NoElse => GenChain(c, env).value == StmtCode(IfCode(x, b.code), b.env)
              case Else(s) =>
                && GenStmt(s, b.env).Some?
                && var e := GenStmt(s, b.env).value;
                   GenChain(c, env).value == StmtCode(IfElseCode(x, b.code, e.code), e.env)
              case ElseIf(next) =>
                && GenChain(next, b.env).Some?
                && var e := GenChain(next, b.env).value;
                   GenChain(c, env).value == StmtCode(IfElseCode(x, b.code, e.code), e.env)
            }
  {
    hide GenExp, IfCode, IfElseCode;
  }

  lemma ForHeadLen(i: seq<Item>, s: seq<Item>, c: seq<Item>)
    ensures Len(ForHead(i, s, c)) == Len(i) + 7 + Len(s) + 2 + Len(c)
  {
    var x, y := Drop(1), With(W_JMP, Len(s) + 7);
    LenCat(i + [x, y] + s + [x], c);
    LenCat(i + [x, y] + s, [x]);
    LenCat(i + [x, y], s);
    LenCat(i, [x, y]);
    assert Len([x]) == 2 && Len([x, y]) == 7 by {
      assert [x][1..] == [] && [x, y][1..] == [y] && [y][1..] == [];
    }
  }
}
