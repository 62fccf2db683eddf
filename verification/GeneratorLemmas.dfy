/** What one step of the generator contributes to the code, stated on items. */
module GeneratorLemmas {
  import opened Bytes
  import opened Wrappers
  import opened Syntax
  import opened Instructions
  import opened Operators
  import opened Code
  import opened Compiler
  import opened Rendering
  import opened Backpatch
  import opened OpenCode
  import opened Returns
  import opened CompilerLemmas
  import ConstantPool

  /** The static type of an expression and whether it can be assigned to. */
  datatype ExpType = ExpType(ty: Ty, lval: bool)

  function TypeOf(c: Option<ExpCode>): Option<ExpType> {
    if c.None? then None else Some(ExpType(c.value.ty, c.value.lval))
  }

  /** What a list of emitted items contributes, item by item. */
  lemma Appends(items: seq<Item>, x: Item)
    ensures Render(items + [x], 0) == Render(items, 0) + Encode(Emitted(x, 0))
    ensures Uses(items + [x], 0) == Uses(items, 0) + if x.Iter? then [Len(items) + 1] else []
    ensures Len(items + [x]) == Len(items) + ItemSize(x)
  {
    hide Encode, Emitted, OperandSize, ItemSize, Render;
    RenderCat(items, [x], 0);
    RenderOne(x, 0);
    UsesOne(x, Len(items));
    UsesCat(items, [x], 0);
    LenCat(items, [x]);
  }

  lemma UsesOne(x: Item, pos: int)
    ensures Uses([x], pos) == if x.Iter? then [pos + 1] else []
  {
    assert [x][1..] == [];
  }

  /** The instruction of a two-operand expression; W_NA when the types do not fit. */
  function OperatorOf(e: Exp, a: Ty, b: Ty): Byte
    requires e.Bin? || e.Store? || e.Index?
  {
    if e.Store? then StoreOpcode(a, b)
    else if e.Index? then if a.Array? && !a.base.Undet? && IsIndex(b) then W_INDA else W_NA
    else if a.Scalar? && b.Scalar? then BinOpcode(e.op, a.base, b.base)
    else W_NA
  }

  predicate Accepted(e: Exp, a: ExpType, b: Ty)
    requires e.Bin? || e.Store? || e.Index?
  {
    OperatorOf(e, a.ty, b) != W_NA && (e.Store? ==> a.lval)
  }

  function OperatorType(e: Exp, a: ExpType, b: Ty): ExpType
    requires (e.Bin? || e.Store? || e.Index?) && Accepted(e, a, b)
  {
    if e.Store? then a
    else if e.Index? then ExpType(Scalar(a.ty.base), true)
    else ExpType(BinResult(OperatorOf(e, a.ty, b), a.ty.base, b.base), false)
  }

  predicate Decides(e: Exp, a: Ty) {
    e.Bin? && a == TBool && (e.op.And? || e.op.Or?)
  }

  /** The equations of a two-operand expression. */
  lemma OperatorParts(e: Exp, env: Env)
    requires e.Bin? || e.Store? || e.Index?
    ensures GenExp(e.l, env).None? || GenExp(e.r, env).None? ==> GenExp(e, env).None?
    ensures GenExp(e.l, env).Some? && GenExp(e.r, env).Some? ==>
              var a, b := GenExp(e.l, env).value, GenExp(e.r, env).value;
              var ta := ExpType(a.ty, a.lval);
              var op := OperatorOf(e, a.ty, b.ty);
              && TypeOf(GenExp(e, env)) == (if Accepted(e, ta, b.ty) then Some(OperatorType(e, ta, b.ty)) else None)
              && (Accepted(e, ta, b.ty) ==>
                    GenExp(e, env).value.code
                      == if Decides(e, a.ty) then ShortCode(a.code, if e.op.And? then W_JF else W_JT, b.code, op)
                         else a.code + b.code + [Op(op)])
  {
    hide StoreOpcode, BinOpcode, BinResult, CommonType, Lookup, ShortCode;
  }

  lemma OperatorSize(e: Exp, a: Ty, b: Ty)
    requires (e.Bin? || e.Store? || e.Index?) && OperatorOf(e, a, b) != W_NA
    ensures OperandSize(OperatorOf(e, a, b)) == 0
    ensures Decides(e, a) ==> forall lval :: OperatorType(e, ExpType(a, lval), b).ty == TBool
  {
  }

  lemma SelectParts(e: Exp, env: Env)
    requires e.Sel?
    ensures var x, a, b := GenExp(e.c, env), GenExp(e.l, env), GenExp(e.r, env);
            if x.None? || x.value.ty != TBool || a.None? || b.None? || CommonType(a.value.ty, b.value.ty).None?
            then GenExp(e, env).None?
            else GenExp(e, env)
                   == Some(ExpCode(SelCode(x.value.code, a.value.code, b.value.code),
                                   CommonType(a.value.ty, b.value.ty).value, false))
  {
    hide CommonType, Lookup, StoreOpcode, BinCode, SelCode;
  }

  lemma UnaryEquation(e: Exp, env: Env)
    requires e.Not? || e.IsNull?
    ensures var a := GenExp(e.e, env);
            if a.None? || (e.Not? && a.value.ty != TBool && !IsInteger(a.value.ty)) then GenExp(e, env).None?
            else if e.Not? then
              GenExp(e, env)
                == Some(a.value.(code := a.value.code + [Op(if a.value.ty == TBool then W_NOTB else W_NOT)]))
            else GenExp(e, env) == Some(ExpCode(a.value.code + [Op(if e.positive then W_INULL else W_NNULL)], TBool, false))
  {
    hide CommonType, Lookup, StoreOpcode, BinCode;
  }

  lemma JumpSizes()
    ensures forall op: Byte :: IsJump(op) ==> OperandSize(op) == 4
    ensures OperandSize(W_JFC) == 4 && OperandSize(W_JMP) == 4 && OperandSize(W_JF) == 4 && OperandSize(W_JT) == 4
    ensures OperandSize(W_JTC) == 4 && OperandSize(W_CTS) == 1
  {
  }

  /** The open jump before some code, and that code's end seen from the jump. */
  lemma JumpOver(pre: seq<Item>, op: Byte, b: seq<Item>)
    requires IsJump(op)
    ensures Len(pre + [With(op, 0)]) == Len(pre) + 5 && Len(pre + [With(op, 0)] + b) == Len(pre) + 5 + Len(b)
    ensures JumpAt(pre + [With(op, 0)] + b, Len(pre))
    ensures forall v :: Patch(pre + [With(op, 0)] + b, Len(pre), v) == pre + [With(op, v)] + b
  {
    hide Len, Patch, JumpAt;
    JumpSizes();
    BoundJump(pre, op, 0, b, 0, None);
    forall v
      ensures Patch(pre + [With(op, 0)] + b, Len(pre), v) == pre + [With(op, v)] + b
    {
      PatchMid(pre, With(op, 0), b, v);
    }
    PatchMid(pre, With(op, 0), b, 0);
  }

  /** The first open jump of a selection. */
  lemma SelectHead(pre: seq<Item>, a: seq<Item>)
    ensures var items := pre + [With(W_JFC, 0)] + a + [With(W_JMP, 0)];
            && Len(pre + [With(W_JFC, 0)] + a) == Len(pre) + 5 + Len(a) && Len(items) == Len(pre) + 10 + Len(a)
            && JumpAt(items, Len(pre))
            && Patch(items, Len(pre), Len(a) + 10) == pre + [With(W_JFC, Len(a) + 10)] + (a + [With(W_JMP, 0)])
  {
    hide Len, Patch, JumpAt;
    JumpSizes();
    BoundJump(pre, W_JFC, 0, a, 0, None);
    BoundJump(pre + [With(W_JFC, 0)] + a, W_JMP, 0, [], 0, None);
    JumpOver(pre, W_JFC, a + [With(W_JMP, 0)]);
    assert pre + [With(W_JFC, 0)] + (a + [With(W_JMP, 0)]) == pre + [With(W_JFC, 0)] + a + [With(W_JMP, 0)];
  }

  /** The open jump of a Boolean operator whose operator is emitted. */
  lemma ShortTail(pre: seq<Item>, jump: Byte, b: seq<Item>, op: Byte)
    requires IsJump(jump) && OperandSize(op) == 0
    ensures var items := pre + [With(jump, 0)] + b + [Op(op)];
            && Len(items) == Len(pre) + Len(b) + 6 && JumpAt(items, Len(pre))
            && Patch(items, Len(pre), Len(b) + 6) == pre + [With(jump, Len(b) + 6)] + b + [Op(op)]
  {
    hide Len, Patch, JumpAt;
    JumpOver(pre, jump, b + [Op(op)]);
    LenCat(b, [Op(op)]);
    OneLen(Op(op));
    assert pre + [With(jump, 0)] + (b + [Op(op)]) == pre + [With(jump, 0)] + b + [Op(op)];
    assert pre + [With(jump, Len(b) + 6)] + (b + [Op(op)]) == pre + [With(jump, Len(b) + 6)] + b + [Op(op)];
  }

  /** The code of a two-operand form, its open jump patched. */
  lemma BinaryDone(e: Exp, env: Env, items: seq<Item>)
    requires (e.Bin? || e.Store? || e.Index?) && GenExp(e, env).Some?
    ensures GenExp(e.l, env).Some? && GenExp(e.r, env).Some?
    ensures var a, b := GenExp(e.l, env).value, GenExp(e.r, env).value;
            var last := Op(OperatorOf(e, a.ty, b.ty));
            if Decides(e, a.ty) then
              var open := items + a.code + [With(if e.op.And? then W_JF else W_JT, 0)] + b.code + [last];
              && GenExp(e, env).value.ty == TBool && JumpAt(open, Len(items + a.code))
              && Len(open) == Len(items + a.code) + Len(b.code) + 6
              && Patch(open, Len(items + a.code), Len(b.code) + 6) == items + GenExp(e, env).value.code
            else items + a.code + b.code + [last] == items + GenExp(e, env).value.code
  {
    hide GenExp, Len, Patch, JumpAt, OperatorOf, OperatorType, ShortCode;
    OperatorParts(e, env);
    var a, b := GenExp(e.l, env).value, GenExp(e.r, env).value;
    var last := OperatorOf(e, a.ty, b.ty);
    OperatorSize(e, a.ty, b.ty);
    var op := if Decides(e, a.ty) && e.op.And? then W_JF else W_JT;
    JumpSizes();
    BinaryWhole(items, a.code, op, b.code, last);
    if Decides(e, a.ty) {
      ShortTail(items + a.code, op, b.code, last);
    }
  }

  /** The second open jump of a selection. */
  lemma SelectTail(pre: seq<Item>, a: seq<Item>, b: seq<Item>)
    ensures var v := With(W_JFC, Len(a) + 10);
            var items := pre + [v] + (a + [With(W_JMP, 0)]) + b;
            var p := Len(pre) + 5 + Len(a);
            && JumpAt(items, p) && Len(items) == p + 5 + Len(b)
            && Patch(items, p, Len(b) + 5) == pre + ([v] + a + [With(W_JMP, Len(b) + 5)] + b)
  {
    hide Len, Patch, JumpAt;
    JumpSizes();
    var v := With(W_JFC, Len(a) + 10);
    BoundJump(pre, W_JFC, Len(a) + 10, a, 0, None);
    JumpOver(pre + [v] + a, W_JMP, b);
    assert pre + [v] + (a + [With(W_JMP, 0)]) + b == pre + [v] + a + [With(W_JMP, 0)] + b;
    assert pre + ([v] + a + [With(W_JMP, Len(b) + 5)] + b) == pre + [v] + a + [With(W_JMP, Len(b) + 5)] + b;
  }

  lemma BinaryWhole(items: seq<Item>, a: seq<Item>, jump: Byte, b: seq<Item>, op: Byte)
    ensures items + a + b + [Op(op)] == items + (a + b + [Op(op)])
    ensures items + a + [With(jump, Len(b) + 6)] + b + [Op(op)] == items + ShortCode(a, jump, b, op)
  {
  }

  /** The code of the arguments that are translated already, before the rest. */
  function Prepend(done: seq<Item>, rest: Option<seq<Item>>): Option<seq<Item>> {
    if rest.None? then None else Some(done + rest.value)
  }

  lemma OneMoreArg(done: seq<Item>, rest: Args, params: seq<Ty>, n: nat, env: Env)
    requires rest.Arg? && n <= |params|
    ensures n == |params| ==> Prepend(done, GenArgs(rest, params[n..], env)).None?
    ensures n < |params| && GenExp(rest.head, env).None? ==> Prepend(done, GenArgs(rest, params[n..], env)).None?
    ensures n < |params| && GenExp(rest.head, env).Some? ==>
              var c := GenExp(rest.head, env).value;
              Prepend(done, GenArgs(rest, params[n..], env))
                == if Passable(params[n], c.ty) then Prepend(done + c.code, GenArgs(rest.tail, params[n + 1..], env)) else None
  {
    hide GenExp, Passable;
    if n < |params| {
      assert params[n..][1..] == params[n + 1..];
      if GenExp(rest.head, env).Some? && GenArgs(rest.tail, params[n + 1..], env).Some? {
        var c, d := GenExp(rest.head, env).value.code, GenArgs(rest.tail, params[n + 1..], env).value;
        assert done + (c + d) == done + c + d;
      }
    }
  }

  lemma NothingDone(rest: Option<seq<Item>>)
    ensures Prepend([], rest) == rest
  {
    if rest.Some? {
      assert [] + rest.value == rest.value;
    }
  }

  lemma LastArg(done: seq<Item>, params: seq<Ty>, env: Env)
    ensures Prepend(done, GenArgs(NoArgs, params, env)) == Some(done)
  {
    assert done + [] == done;
  }

  lemma CallWhole(items: seq<Item>, done: seq<Item>, p: nat, missing: nat)
    ensures (if missing > 0 then items + done + [With(W_LDNULL, missing % 256)] else items + done) + [With(W_CALL, p)]
         == items + (done + CallCode(p, missing))
  {
  }

  lemma CallParts(e: Exp, env: Env)
    requires e.Call?
    ensures e.proc >= |env.procs| ==> GenExp(e, env).None?
    ensures e.proc < |env.procs| ==>
              var params := env.procs[e.proc].params;
              var c := GenArgs(e.args, params, env);
              GenExp(e, env)
                == if c.None? then None
                   else Some(ExpCode(c.value + CallCode(e.proc, |params| - ArgCount(e.args)), env.procs[e.proc].result, false))
  {
    hide GenArgs, CallCode, CommonType, Lookup, StoreOpcode, BinCode;
  }

  lemma SelectWhole(items: seq<Item>, c: seq<Item>, a: seq<Item>, b: seq<Item>)
    ensures items + c + ([With(W_JFC, Len(a) + 10)] + a + [With(W_JMP, Len(b) + 5)] + b) == items + SelCode(c, a, b)
  {
    hide Len;
  }

  // ----- row copies -----

  /** The code of the fields that are copied already, before the rest. */
  function PrependFields(done: seq<Item>, rest: Option<CopyCode>): Option<CopyCode> {
    if rest.None? then None else Some(CopyCode(done + rest.value.code, rest.value.pool))
  }

  lemma OneMoreField(done: seq<Item>, left: seq<Field>, right: seq<Field>, i: nat, k: nat, pool: seq<Byte>)
    requires |left| == |right| && i < |left|
    ensures var p := Pair(left[i], right[i]);
            var a := ConstantPool.Add(pool, p.l.name);
            var b := ConstantPool.Add(a.1, p.r.name);
            PrependFields(done, GenFields(Zip(left[i..], right[i..]), k, pool))
              == if CopyOpcode(p) == W_NA then None
                 else PrependFields(done + FieldCode(k, a.0, b.0, CopyOpcode(p)),
                                    GenFields(Zip(left[i + 1..], right[i + 1..]), k, b.1))
  {
    hide ConstantPool.Add, CopyOpcode, FieldCode;
    assert left[i..][1..] == left[i + 1..] && right[i..][1..] == right[i + 1..];
    var p := Pair(left[i], right[i]);
    var a := ConstantPool.Add(pool, p.l.name);
    var b := ConstantPool.Add(a.1, p.r.name);
    var pairs := Zip(left[i..], right[i..]);
    assert pairs[0] == p && pairs[1..] == Zip(left[i + 1..], right[i + 1..]);
    var rest := GenFields(pairs[1..], k, b.1);
    if CopyOpcode(p) != W_NA && rest.Some? {
      var f := FieldCode(k, a.0, b.0, CopyOpcode(p));
      assert done + (f + rest.value.code) == done + f + rest.value.code;
    }
  }

  lemma FieldsEnds(done: seq<Item>, rest: Option<CopyCode>, k: nat, pool: seq<Byte>)
    ensures PrependFields([], rest) == rest
    ensures PrependFields(done, GenFields(Zip([], []), k, pool)) == Some(CopyCode(done, pool))
  {
    if rest.Some? {
      assert [] + rest.value.code == rest.value.code;
    }
    assert done + [] == done;
  }

  /** The byte after a match lies inside the constant area. */
  lemma LookAhead(pool: seq<Byte>, text: seq<Byte>, i: nat)
    requires ConstantPool.Terminated(pool) && text != [] && i + |text| <= |pool| && pool[i..i + |text|] == text
    ensures text[|text| - 1] == 0 || i + |text| < |pool|
  {
    assert pool[i..i + |text|][|text| - 1] == pool[i + |text| - 1];
  }

  lemma FindStep(pool: seq<Byte>, text: seq<Byte>, i: nat)
    requires text != [] && i + |text| <= |pool|
    ensures ConstantPool.FindFrom(pool, text, i)
         == if pool[i..i + |text|] == text && (text[|text| - 1] == 0 || (i + |text| < |pool| && pool[i + |text|] == 0)) then i
            else ConstantPool.FindFrom(pool, text, i + 1)
  {
    assert ConstantPool.Holds(pool, i, text)
      <==> pool[i..i + |text|] == text && (text[|text| - 1] == 0 || (i + |text| < |pool| && pool[i + |text|] == 0));
  }

  lemma {:induction false} NothingFits(pool: seq<Byte>, text: seq<Byte>, i: nat)
    requires text != [] && i <= |pool| && i + |text| > |pool|
    ensures ConstantPool.FindFrom(pool, text, i) == |pool|
    decreases |pool| - i
  {
    if i < |pool| {
      NothingFits(pool, text, i + 1);
    }
  }

  lemma SelectFails(left: seq<Field>, lsel: Selection, right: seq<Field>, rsel: Selection)
    requires lsel.Names? && FieldsByName(left, lsel.names).None?
    ensures SelectPairs(left, lsel, right, rsel).None?
  {
  }

  /** The right fields of a selection whose left fields are fs. */
  lemma SelectOther(left: seq<Field>, lsel: Selection, right: seq<Field>, rsel: Selection, fs: seq<Field>)
    requires (if lsel.Names? then FieldsByName(left, lsel.names) else Some(left)) == Some(fs)
    ensures var gs := FieldsByName(right, if rsel.Names? then rsel.names else FieldNames(fs));
            SelectPairs(left, lsel, right, rsel)
              == if gs.None? || |fs| != |gs.value| then None else Some(Zip(fs, gs.value))
  {
  }

  lemma FourPieces(items: seq<Item>, a: seq<Item>, b: seq<Item>, c: seq<Item>, d: seq<Item>)
    ensures items + a + b + c + d == items + (a + b + c + d)
  {
  }

  lemma CopyHeadParts(lt: Exp, li: Exp, rt: Exp, ri: Exp, env: Env)
    ensures var a, b, c, d := GenExp(lt, env), GenExp(li, env), GenExp(rt, env), GenExp(ri, env);
            GenCopyHead(lt, li, rt, ri, env)
              == if a.Some? && a.value.ty.Table? && b.Some? && IsInteger(b.value.ty)
                    && c.Some? && c.value.ty.Table? && d.Some? && IsInteger(d.value.ty)
                 then Some(CopyHead(a.value.code + b.value.code + c.value.code + d.value.code,
                                    a.value.ty.fields, c.value.ty.fields))
                 else None
  {
    hide GenExp;
  }

  lemma AutoWhole(items: seq<Item>, slot: nat, c: seq<Item>, op: Byte)
    ensures items + [LoadLocal(slot)] + c + [Op(op)] + [Drop(1)] == items + ([LoadLocal(slot)] + c + [Op(op)] + [Drop(1)])
    ensures LoadLocal(slot).I? && LoadLocal(slot) == With(LoadLocal(slot).i.op, slot)
  {
  }

  lemma PatchedKeep(c: seq<Item>, p: int, v: int)
    requires JumpAt(c, p)
    ensures forall q :: JumpAt(Patch(c, p, v), q) == JumpAt(c, q)
  {
    forall q
      ensures JumpAt(Patch(c, p, v), q) == JumpAt(c, q)
    {
      PatchKeeps(c, p, v, q);
    }
  }

  lemma FirstBranch(bs: seq<Branch>, n: nat)
    requires n <= |bs|
    ensures bs[n..|bs|] == bs[n..] && AllReturn(bs[|bs|..])
  {
  }

  lemma LastBranch(c: seq<Item>, bs: seq<Branch>, n: nat, id: nat, end: int)
    requires n <= id < |bs|
    ensures var p := OpenJump(bs[id]);
            PatchBranches(c, bs[n..id + 1], end) == PatchBranches(Patch(c, p, end - p), bs[n..id], end)
    ensures AllReturn(bs[id..]) == (AllReturn(bs[id + 1..]) && BranchReturns(bs[id]))
  {
    hide Patch, BranchReturns;
    assert bs[n..id + 1][..id - n] == bs[n..id];
    assert forall b :: b in bs[id..] <==> b == bs[id] || b in bs[id + 1..];
  }

  lemma NoBranches(c: seq<Item>, bs: seq<Branch>, n: nat, end: int)
    requires n <= |bs|
    ensures PatchBranches(c, bs[n..n], end) == c
  {
  }

  // ----- the loop stack -----

  lemma BeginSegment(s: seq<Loop>, l: Loop)
    requires Segments(s) && IsBegin(l)
    ensures Segments(s + [l]) && Innermost(s + [l]) == Some(l)
  {
    assert (s + [l])[..|s|] == s;
  }

  lemma BreakSegment(s: seq<Loop>, pos: nat)
    requires Segments(s) && s != []
    ensures Segments(s + [Loop(BreakEntry, 0, pos)])
  {
    assert (s + [Loop(BreakEntry, 0, pos)])[..|s|] == s;
  }

  lemma {:induction false} SegmentsPrefix(s: seq<Loop>, n: nat)
    requires Segments(s) && n <= |s|
    ensures Segments(s[..n])
    decreases |s|
  {
    if n < |s| {
      SegmentsPrefix(s[..|s| - 1], n);
      assert s[..|s| - 1][..n] == s[..n];
    } else {
      assert s[..n] == s;
    }
  }

  lemma LastEntry(c: seq<Item>, s: seq<Loop>, n: nat, id: nat, brk: int, cont: int)
    requires n < id < |s|
    ensures var p := s[id].breakMark;
            PatchLoop(c, s[n + 1..id + 1], brk, cont)
              == PatchLoop(Patch(c, p, (if s[id].kind.ContinueEntry? then cont else brk) - p), s[n + 1..id], brk, cont)
  {
    hide Patch;
    assert s[n + 1..id + 1][..id - n - 1] == s[n + 1..id];
  }

  lemma NoEntries(c: seq<Item>, s: seq<Loop>, n: nat, brk: int, cont: int)
    requires n < |s|
    ensures PatchLoop(c, s[n + 1..n + 1], brk, cont) == c
  {
  }

  lemma IterSizes()
    ensures OperandSize(W_ITF) == 0 && OperandSize(W_ITL) == 0 && OperandSize(W_ITN) == 0 && OperandSize(W_ITP) == 0
    ensures OperandSize(W_JMP) == 4
  {
  }

  /** The head of a FOR once its first jump is patched. */
  lemma ForHeadPatched(items: seq<Item>, i: seq<Item>, s: seq<Item>, c: seq<Item>)
    ensures var pre := items + (i + [Drop(1)]);
            var open := pre + [With(W_JMP, 0)] + (s + [Drop(1)]) + c + [With(W_JFC, 0)];
            && Len(pre) == Len(items) + Len(i) + 2
            && Len(pre + [With(W_JMP, 0)] + (s + [Drop(1)])) == Len(pre) + Len(s) + 7
            && Len(pre + [With(W_JMP, 0)] + (s + [Drop(1)]) + c) == Len(items) + Len(ForHead(i, s, c))
            && JumpAt(open, Len(pre))
            && Patch(open, Len(pre), Len(s) + 7) == items + ForHead(i, s, c) + [With(W_JFC, 0)]
  {
    hide Len, JumpAt, Patch;
    var x, j, y := Drop(1), With(W_JMP, 0), With(W_JFC, 0);
    var pre := items + (i + [x]);
    LenCat(items, i + [x]);
    LenCat(i, [x]);
    LenCat(s, [x]);
    DropLen();
    JumpOver(pre, W_JMP, s + [x]);
    LenCat(pre + [j] + (s + [x]), c);
    ForHeadLen(i, s, c);
    PatchMid(pre, j, s + [x] + c + [y], Len(s) + 7);
    assert pre + [j] + (s + [x]) + c + [y] == pre + [j] + (s + [x] + c + [y]);
    assert pre + [With(W_JMP, Len(s) + 7)] + (s + [x] + c + [y]) == items + ForHead(i, s, c) + [y];
  }

  lemma DropLen()
    ensures Len([Drop(1)]) == 2
  {
    OneLen(Drop(1));
  }

  lemma OneContinue(s: seq<Loop>, pos: nat)
    requires Segments(s) && s != []
    ensures var k := KnownContinue(s);
            && Bound([Cont], pos, k) == (if k.Some? then [With(W_JMP, k.value - pos)] else [Cont])
            && Marks([Cont], pos, k) == (if k.Some? then [] else [Loop(ContinueEntry, 0, pos)])
            && Segments(s + Marks([Cont], pos, k)) && Innermost(s).Some?
  {
    hide Segments, Innermost;
    MarksKeepLoop(s, [Cont], pos);
    InnermostExists(s);
    BoundHead([Cont], pos, KnownContinue(s), 0, 0);
    NothingBound(pos + ItemSize(Cont), KnownContinue(s), 0, 0);
    assert [Cont][1..] == [];
  }

  lemma OneBreak(pos: nat, k: Option<int>)
    ensures Bound([Brk], pos, k) == [Brk] && Marks([Brk], pos, k) == [Loop(BreakEntry, 0, pos)]
  {
    assert [Brk][1..] == [];
  }

  lemma NoReturn(bs: seq<Branch>)
    ensures WithReturn(bs, false) == bs
  {
  }

  lemma StillInLoop(s: seq<Loop>, c: seq<Item>, pos: nat)
    requires Segments(s) && (s == [] ==> s + Marks(c, pos, KnownContinue(s)) == [])
    ensures KnownContinue(s + Marks(c, pos, KnownContinue(s))) == KnownContinue(s)
  {
    hide Marks;
    if s != [] {
      MarksKeepLoop(s, c, pos);
    }
  }

  lemma SeqParts(s: Stmt, env: Env)
    requires s.Seq?
    ensures var a := GenStmt(s.s1, env);
            GenStmt(s, env)
              == if a.None? then None
                 else
                   var b := GenStmt(s.s2, a.value.env);
                   if b.None? then None else Some(StmtCode(a.value.code + b.value.code, b.value.env))
    ensures Detects(s) == (Detects(s.s1) || Detects(s.s2))
  {
  }

  lemma TwoStmts(items: seq<Item>, loops: seq<Loop>, a: seq<Item>, b: seq<Item>, pos: nat, k: Option<int>)
    ensures items + Bound(a, pos, k) + Bound(b, pos + Len(a), k) == items + Bound(a + b, pos, k)
    ensures loops + Marks(a, pos, k) + Marks(b, pos + Len(a), k) == loops + Marks(a + b, pos, k)
  {
    hide Bound, Marks, Len;
    BoundCat(a, b, pos, k);
  }

  lemma ReturnTwice(bs: seq<Branch>, a: bool, b: bool)
    ensures WithReturn(WithReturn(bs, a), b) == WithReturn(bs, a || b)
  {
  }

  // ----- finished loops -----

  lemma BoolClosed(e: Exp, env: Env)
    requires GenBool(e, env).Some?
    ensures Closed(GenBool(e, env).value)
  {
    ExpClosed(e, env);
  }

  /** The equations of WHILE and FOR; their code is a head, an exit, a body and
      a jump back. */
  lemma LoopEquation(s: Stmt, env: Env)
    requires s.While? || s.For?
    ensures Detects(s) == Detects(s.body)
    ensures var c := GenBool(s.c, env);
            var b := GenStmt(s.body, InLoop(env));
            var heads := c.Some? && (s.For? ==> GenExp(s.init, env).Some? && GenExp(s.step, env).Some?);
            if !heads || b.None? then GenStmt(s, env).None?
            else
              var head := if s.While? then c.value
                          else ForHead(GenExp(s.init, env).value.code, GenExp(s.step, env).value.code, c.value);
              var cont := if s.While? then 0 else Len(GenExp(s.init, env).value.code) + 7;
              GenStmt(s, env) == Some(StmtCode(LoopCode(head, b.value.code, cont), Leave(b.value.env, env)))
  {
    hide GenExp, GenBool, Len, ForHead, LoopCode;
  }

  /** Above a loop's own entry there are only its BREAKs, and every exit is a
      jump in the code. */
  predicate OpenExits(code: seq<Item>, stack: seq<Loop>, n: nat) {
    && (forall i :: n < i < |stack| ==> stack[i].kind.BreakEntry?)
    && (forall i :: n <= i < |stack| ==> JumpAt(code, stack[i].breakMark))
  }

  /** Everything the end of a loop needs to know about the code and the loop
      stack, and what it makes of them. */
  lemma LoopFinished(pre: seq<Item>, head: seq<Item>, b: seq<Item>, cont: nat, begin: Loop, loops: seq<Loop>, k: Option<int>)
    requires IsBegin(begin) && begin.continueMark == Len(pre) + cont && begin.breakMark == Len(pre) + Len(head)
    requires Closed(head)
    ensures var p, start, n := Len(pre), Len(pre) + Len(head) + 5, |loops|;
            var end := start + Len(b);
            var known := Some(p + cont);
            var body := pre + head + [With(W_JFC, 0)] + Bound(b, start, known);
            var stack := loops + [begin] + Marks(b, start, known);
            && Len(pre + head + [With(W_JFC, 0)]) == start && Len(body) == end
            && OpenExits(body + [With(W_JMP, 0)], stack, n)
            && stack[n] == begin && stack[..n] == loops
            && Patch(Patch(PatchLoop(body + [With(W_JMP, 0)], stack[n + 1..], end + 5, 0), begin.breakMark,
                           end + 5 - begin.breakMark), end, begin.continueMark - end)
                 == pre + LoopCode(head, b, cont)
            && Bound(LoopCode(head, b, cont), p, k) == LoopCode(head, b, cont) && Marks(LoopCode(head, b, cont), p, k) == []
            && Closed(LoopCode(head, b, cont))
  {
    hide Bound, Marks, Len, Patch, PatchLoop, JumpAt, Resolve, ItemSize, LoopCode;
    var p, start, n := Len(pre), Len(pre) + Len(head) + 5, |loops|;
    var known := Some(p + cont);
    var x := With(W_JFC, 0);
    var body := pre + head + [x] + Bound(b, start, known);
    var marks := Marks(b, start, known);
    var stack := loops + [begin] + marks;
    JumpSizes();
    LenCat(pre, head);
    BoundJump(pre + head, W_JFC, 0, Bound(b, start, known), 0, k);
    assert body + [With(W_JMP, 0)] == OpenLoop(pre, head, b, cont);
    MarksJump(pre + head + [x], b, [With(W_JMP, 0)], known);
    OnlyBreaks(b, start, p + cont);
    JumpOver(pre + head, W_JFC, Bound(b, start, known) + [With(W_JMP, 0)]);
    assert body + [With(W_JMP, 0)] == pre + head + [x] + (Bound(b, start, known) + [With(W_JMP, 0)]);
    assert stack[n + 1..] == marks && stack[..n] == loops;
    forall i | n < i < |stack|
      ensures stack[i].kind.BreakEntry? && JumpAt(body + [With(W_JMP, 0)], stack[i].breakMark)
    {
      assert stack[i] == marks[i - n - 1];
    }
    LoopCloses(pre, head, b, cont);
    LoopsClosed(head, b, [], cont);
    BoundClosed(LoopCode(head, b, cont), p, k);
  }

  /** With a known CONTINUE target only BREAKs are recorded. */
  lemma {:induction false} OnlyBreaks(b: seq<Item>, pos: nat, cont: int)
    ensures forall m :: m in Marks(b, pos, Some(cont)) ==> m.kind.BreakEntry?
    decreases |b|
  {
    if b != [] {
      OnlyBreaks(b[1..], pos + ItemSize(b[0]), cont);
    }
  }

  lemma ForHeadClosed(s: Stmt, env: Env)
    requires s.For? && GenExp(s.init, env).Some? && GenExp(s.step, env).Some? && GenBool(s.c, env).Some?
    ensures Closed(ForHead(GenExp(s.init, env).value.code, GenExp(s.step, env).value.code, GenBool(s.c, env).value))
  {
    hide GenExp, Len;
    ExpClosed(s.init, env);
    ExpClosed(s.step, env);
    ExpClosed(s.c, env);
  }

  lemma ForeachHeadClosed(e: Exp, reverse: bool, env: Env)
    requires GenExp(e, env).Some?
    ensures var c := GenExp(e, env).value.code;
            Closed(ForeachHead(c, reverse)) && Len(ForeachHead(c, reverse)) == Len(c) + 7
  {
    hide GenExp, Len;
    ExpClosed(e, env);
    var c := GenExp(e, env).value.code;
    var x, y, z := Op(if reverse then W_ITL else W_ITF), With(W_JMP, 6), Op(if reverse then W_ITP else W_ITN);
    assert ForeachHead(c, reverse) == c + [x] + [y] + [z];
    LenCat(c + [x] + [y], [z]);
    LenCat(c + [x], [y]);
    LenCat(c, [x]);
    OneLen(x); OneLen(y); OneLen(z);
  }

  lemma ForeachEquation(s: Stmt, env: Env)
    requires s.Foreach?
    ensures Detects(s) == Detects(s.body)
    ensures var c := GenExp(s.e, env);
            if Lookup(env.iters, s.it).Some? || c.None? || !c.value.ty.Array? then GenStmt(s, env).None?
            else
              var b := GenStmt(s.body, Enter(s.it, c.value.ty, env));
              if b.None? then GenStmt(s, env).None?
              else
                var done := LoopCode(ForeachHead(c.value.code, s.reverse), b.value.code, Len(c.value.code) + 6);
                GenStmt(s, env) == Some(StmtCode(done + [Drop(1)], Leave(b.value.env, env)))
  {
    hide GenExp, Len, Resolve, Lookup, LoopCode;
  }

  /** The end of a FOREACH over the code c with the body b. */
  lemma ForeachFinished(pre: seq<Item>, e: Exp, reverse: bool, env: Env, b: seq<Item>, begin: Loop, loops: seq<Loop>, k: Option<int>)
    requires GenExp(e, env).Some?
    requires var c := GenExp(e, env).value.code;
             IsBegin(begin) && begin.continueMark == Len(pre) + Len(c) + 6 && begin.breakMark == begin.continueMark + 1
    ensures var c, n := GenExp(e, env).value.code, |loops|;
            var start := Len(pre) + Len(c) + 12;
            var known := Some(begin.continueMark);
            var end := start + Len(b);
            var body := pre + ForeachHead(c, reverse) + [With(W_JFC, 0)] + Bound(b, start, known);
            var stack := loops + [begin] + Marks(b, start, known);
            var whole := LoopCode(ForeachHead(c, reverse), b, Len(c) + 6) + [Drop(1)];
            && Len(pre + ForeachHead(c, reverse) + [With(W_JFC, 0)]) == start && Len(body) == end
            && OpenExits(body + [With(W_JMP, 0)], stack, n)
            && stack[n] == begin && stack[..n] == loops
            && Patch(Patch(PatchLoop(body + [With(W_JMP, 0)], stack[n + 1..], end + 5, 0), begin.breakMark,
                           end + 5 - begin.breakMark), end, begin.continueMark - end) + [Drop(1)]
                 == pre + Bound(whole, Len(pre), k)
            && Marks(whole, Len(pre), k) == []
  {
    hide Bound, Marks, Len, Patch, PatchLoop, JumpAt, LoopCode, ForeachHead, GenExp;
    ForeachHeadClosed(e, reverse, env);
    var c := GenExp(e, env).value.code;
    LoopFinished(pre, ForeachHead(c, reverse), b, Len(c) + 6, begin, loops, k);
    var done := LoopCode(ForeachHead(c, reverse), b, Len(c) + 6);
    DropAfter(done, Len(pre), k);
    assert pre + done + [Drop(1)] == pre + (done + [Drop(1)]);
  }

  lemma DropAfter(c: seq<Item>, pos: nat, k: Option<int>)
    requires Closed(c)
    ensures Bound(c + [Drop(1)], pos, k) == c + [Drop(1)] && Marks(c + [Drop(1)], pos, k) == []
  {
    BoundClosed(c + [Drop(1)], pos, k);
  }

  lemma UntilEquation(s: Stmt, env: Env)
    requires s.Until?
    ensures Detects(s) == Detects(s.body)
    ensures var b := GenStmt(s.body, InLoop(env));
            if b.None? then GenStmt(s, env).None?
            else
              var c := GenBool(s.c, b.value.env);
              if c.None? then GenStmt(s, env).None?
              else GenStmt(s, env) == Some(StmtCode(UntilCode(b.value.code, c.value), Leave(b.value.env, env)))
  {
    hide GenBool, Len, Resolve;
  }

  lemma UntilEntries(pre: seq<Item>, b: seq<Item>, begin: Loop, loops: seq<Loop>)
    requires IsBegin(begin)
    ensures var n, marks := |loops|, Marks(b, Len(pre), None);
            var stack := loops + [begin] + marks;
            && stack[n] == begin && stack[..n] == loops && stack[n + 1..] == marks
            && forall i :: n < i < |stack| ==> !IsBegin(stack[i])
  {
    hide Marks, Bound, JumpAt, Len, IsBegin;
    var marks := Marks(b, Len(pre), None);
    var stack := loops + [begin] + marks;
    MarksJump(pre, b, [], None);
    forall i | |loops| < i < |stack|
      ensures !IsBegin(stack[i])
    {
      assert stack[i] == marks[i - |loops| - 1];
    }
  }

  lemma UntilFinished(pre: seq<Item>, b: seq<Item>, c: seq<Item>, begin: Loop, loops: seq<Loop>, k: Option<int>)
    requires IsBegin(begin) && begin.continueMark == Len(pre) && Closed(c)
    ensures var p, n, marks := Len(pre), |loops|, Marks(b, Len(pre), None);
            var body := pre + Bound(b, p, None);
            var stack := loops + [begin] + marks;
            var end := p + Len(b) + Len(c);
            var open := body + (c + [With(W_JTC, 0)]);
            && Len(body) == p + Len(b)
            && (forall i :: n < i < |stack| ==> JumpAt(open, stack[i].breakMark))
            && Patch(PatchLoop(open, marks, end + 5, p + Len(b)), end, begin.continueMark - end) == pre + UntilCode(b, c)
            && Bound(UntilCode(b, c), p, k) == UntilCode(b, c) && Marks(UntilCode(b, c), p, k) == []
  {
    hide Marks, Bound, JumpAt, Len, IsBegin, Patch, PatchLoop, Resolve;
    var p, marks := Len(pre), Marks(b, Len(pre), None);
    var body := pre + Bound(b, p, None);
    var tail := c + [With(W_JTC, 0)];
    var stack := loops + [begin] + marks;
    LenCat(pre, Bound(b, p, None));
    MarksJump(pre, b, tail, None);
    forall i | |loops| < i < |stack|
      ensures JumpAt(body + tail, stack[i].breakMark)
    {
      assert stack[i] == marks[i - |loops| - 1];
    }
    UntilCloses(pre, b, c);
    assert body + tail == pre + (Bound(b, p, None) + c + [With(W_JTC, 0)]);
    LoopsClosed([], b, c, 0);
    BoundClosed(UntilCode(b, c), p, k);
  }

  // ----- IF -----

  lemma ChainBegins(c: Chain, env: Env)
    ensures GenBool(c.c, env).None? ==> GenChain(c, env).None?
  {
    hide GenBool;
  }

  lemma OnTop(bs: seq<Branch>, added: seq<Branch>)
    ensures (bs + added)[|bs|..] == added && (bs + added)[..|bs|] == bs
    ensures forall i :: |bs| <= i < |bs + added| ==> (bs + added)[i] == added[i - |bs|] && (bs + added)[i] in added
  {
  }

  /** Everything the end of an IF needs to know about the code and the branch
      stack, and what it makes of them. */
  lemma IfFinished(pre: seq<Item>, c: Chain, env: Env, bs: seq<Branch>, k: Option<int>)
    requires GenChain(c, env).Some?
    ensures var added := Branches(c, IfBranch, env, Len(pre));
            var open := pre + Bound(OpenChain(c, env), Len(pre), k);
            var stack := bs + added;
            && stack[|bs|..] == added && stack[..|bs|] == bs && |bs| < |stack| && stack[|bs|].kind.IfBranch?
            && (forall i :: |bs| < i < |stack| ==> stack[i].kind.ElseIfBranch?)
            && (forall i :: |bs| <= i < |stack| ==> JumpAt(open, OpenJump(stack[i])))
            && AllReturn(added) == DetectsAll(c)
            && PatchBranches(open, added, Len(open)) == pre + Bound(GenChain(c, env).value.code, Len(pre), k)
  {
    hide GenChain, Bound, Marks, Len, JumpAt, PatchBranches, OpenChain, Branches, AllReturn;
    var added := Branches(c, IfBranch, env, Len(pre));
    BranchesJump(pre, c, IfBranch, env, k);
    BranchKinds(c, IfBranch, env, Len(pre));
    OpenLen(c, env);
    LenCat(pre, Bound(OpenChain(c, env), Len(pre), k));
    ChainCloses(pre, c, IfBranch, env, k);
    AllReturnExact(c, IfBranch, env, Len(pre));
    OnTop(bs, added);
  }

  lemma IfEquation(s: Stmt, env: Env)
    requires s.If?
    ensures GenStmt(s, env) == GenChain(s.chain, env) && Detects(s) == DetectsAll(s.chain)
  {
    hide GenChain;
  }

  /** The code before the branch that follows an emitted one. */
  function NextBranch(pre: seq<Item>, x: seq<Item>, b: seq<Item>, k: Option<int>): seq<Item> {
    pre + (Bound(x + [With(W_JFC, Len(b) + 10)] + b, Len(pre), k) + [With(W_JMP, 0)])
  }

  /** A branch that is emitted up to its last statement, and the jump over the
      next branch. */
  lemma BranchBody(pre: seq<Item>, x: seq<Item>, b: seq<Item>, k: Option<int>)
    requires Closed(x)
    ensures var p := Len(pre);
            var at := pre + x + [With(W_JFC, 0)];
            var emitted := at + Bound(b, p + Len(x) + 5, k);
            && Len(at) == p + Len(x) + 5 && Len(emitted) == p + Len(x) + 5 + Len(b)
            && emitted == pre + Bound(x + [With(W_JFC, 0)] + b, p, k)
            && JumpAt(emitted + [With(W_JMP, 0)], p + Len(x))
            && Patch(emitted + [With(W_JMP, 0)], p + Len(x), Len(b) + 10) == NextBranch(pre, x, b, k)
            && Len(NextBranch(pre, x, b, k)) == p + Len(x) + 10 + Len(b)
            && Marks(x + [With(W_JFC, 0)] + b, p, k) == Marks(b, p + Len(x) + 5, k)
  {
    hide Marks, Bound, JumpAt, Len, Patch;
    JumpSizes();
    var p := Len(pre);
    var y, z := With(W_JFC, 0), With(W_JMP, 0);
    BoundClosed(x, p, k);
    BoundJump(x, W_JFC, 0, b, p, k);
    BoundJump(x, W_JFC, Len(b) + 10, b, p, k);
    LenCat(pre, x);
    BoundJump(pre + x, W_JFC, 0, Bound(b, p + Len(x) + 5, k), 0, k);
    JumpOver(pre + x, W_JFC, Bound(b, p + Len(x) + 5, k) + [z]);
    assert pre + x + [y] + Bound(b, p + Len(x) + 5, k) == pre + (x + [y] + Bound(b, p + Len(x) + 5, k));
    assert pre + x + [y] + Bound(b, p + Len(x) + 5, k) + [z] == pre + x + [y] + (Bound(b, p + Len(x) + 5, k) + [z]);
    var v := With(W_JFC, Len(b) + 10);
    assert pre + x + [v] + (Bound(b, p + Len(x) + 5, k) + [z]) == pre + (x + [v] + Bound(b, p + Len(x) + 5, k) + [z]);
    ElseIfPrefix(pre, x, b, k);
  }

  lemma BranchTail(pre: seq<Item>, x: seq<Item>, b: seq<Item>, o: seq<Item>, k: Option<int>)
    requires Closed(x)
    ensures var p := Len(pre);
            var pre1 := NextBranch(pre, x, b, k);
            var head := x + [With(W_JFC, Len(b) + 10)] + b;
            && pre1 + Bound(o, Len(pre1), k) == pre + Bound(head + [With(W_JMP, 0)] + o, p, k)
            && forall v :: Marks(head + [With(W_JMP, v)] + o, p, k) == Marks(b, p + Len(x) + 5, k) + Marks(o, Len(pre1), k)
  {
    hide Marks, Bound, Len;
    JumpSizes();
    var p := Len(pre);
    var head := x + [With(W_JFC, Len(b) + 10)] + b;
    BoundClosed(x, p, k);
    ElseIfPrefix(pre, x, b, k);
    BoundJump(x, W_JFC, Len(b) + 10, b, p, k);
    forall v
      ensures Marks(head + [With(W_JMP, v)] + o, p, k) == Marks(b, p + Len(x) + 5, k) + Marks(o, p + Len(x) + 10 + Len(b), k)
    {
      BoundJump(head, W_JMP, v, o, p, k);
    }
    BoundJump(head, W_JMP, 0, o, p, k);
  }

  /** The equations of the branches of an IF, for the flags and the loop stack. */
  lemma BranchesEquation(c: Chain, kind: BranchKind, env: Env, pre: seq<Item>, k: Option<int>)
    requires GenBool(c.c, env).Some?
    ensures var x := GenBool(c.c, env).value;
            var b := GenStmt(c.body, env);
            var d := Detects(c.body);
            var start := Len(pre) + Len(x);
            && Closed(x)
            && if b.None? then GenChain(c, env).None?
               else
                 var next := start + 5 + Len(b.value.code);
                 match c.tail {
                   case NoElse =>
                     && GenChain(c, env) == Some(StmtCode(IfCode(x, b.value.code), b.value.env))
                     && OpenChain(c, env) == x + [With(W_JFC, 0)] + b.value.code
                     && Branches(c, kind, env, Len(pre)) == [Branch(kind, start, 0, d, false)]
                   case Else(s) =>
                     var e := GenStmt(s, b.value.env);
                     if e.None? then GenChain(c, env).None?
                     else
                       && GenChain(c, env) == Some(StmtCode(IfElseCode(x, b.value.code, e.value.code), e.value.env))
                       && OpenChain(c, env)
                            == x + [With(W_JFC, Len(b.value.code) + 10)] + b.value.code + [With(W_JMP, 0)] + e.value.code
                       && Branches(c, kind, env, Len(pre)) == [Branch(kind, start, next, Detects(s), d)]
                   case ElseIf(n) =>
                     var e := GenChain(n, b.value.env);
                     if e.None? then GenChain(c, env).None?
                     else
                       && GenChain(c, env) == Some(StmtCode(IfElseCode(x, b.value.code, e.value.code), e.value.env))
                       && OpenChain(c, env) == x + [With(W_JFC, Len(b.value.code) + 10)] + b.value.code + [With(W_JMP, 0)]
                                               + OpenChain(n, b.value.env)
                       && Branches(c, kind, env, Len(pre))
                            == [Branch(kind, start, next, d, d)] + Branches(n, ElseIfBranch, b.value.env, next + 5)
                 }
  {
    hide GenExp, GenBool, GenStmt, GenChain, OpenChain, Branches, Len, IfCode, IfElseCode, Detects, With, Closed;
    BoolClosed(c.c, env);
    ChainEquation(c, env);
    if GenChain(c, env).Some? {
      OpenEquation(c, kind, env, Len(pre));
    }
  }

  lemma ChainEquation(c: Chain, env: Env)
    requires GenBool(c.c, env).Some?
    ensures var x, b := GenBool(c.c, env).value, GenStmt(c.body, env);
            if b.None? then GenChain(c, env).None?
            else
              match c.tail {
                case NoElse => GenChain(c, env) == Some(StmtCode(IfCode(x, b.value.code), b.value.env))
                case Else(s) =>
                  var e := GenStmt(s, b.value.env);
                  GenChain(c, env) == if e.None? then None else Some(StmtCode(IfElseCode(x, b.value.code, e.value.code), e.value.env))
                case ElseIf(n) =>
                  var e := GenChain(n, b.value.env);
                  GenChain(c, env) == if e.None? then None else Some(StmtCode(IfElseCode(x, b.value.code, e.value.code), e.value.env))
              }
  {
    hide GenExp, GenBool, Len, IfCode, IfElseCode;
  }

  lemma OpenEquation(c: Chain, kind: BranchKind, env: Env, pos: nat)
    requires GenChain(c, env).Some?
    ensures GenBool(c.c, env).Some? && GenStmt(c.body, env).Some?
    ensures var x, b := GenBool(c.c, env).value, GenStmt(c.body, env).value;
            var d, start := Detects(c.body), pos + Len(x);
            var next := start + 5 + Len(b.code);
            match c.tail {
              case NoElse =>
                && OpenChain(c, env) == x + [With(W_JFC, 0)] + b.code
                && Branches(c, kind, env, pos) == [Branch(kind, start, 0, d, false)]
              case Else(s) =>
                && GenStmt(s, b.env).Some?
                && OpenChain(c, env) == x + [With(W_JFC, Len(b.code) + 10)] + b.code + [With(W_JMP, 0)] + GenStmt(s, b.env).value.code
                && Branches(c, kind, env, pos) == [Branch(kind, start, next, Detects(s), d)]
              case ElseIf(n) =>
                && GenChain(n, b.env).Some?
                && OpenChain(c, env) == x + [With(W_JFC, Len(b.code) + 10)] + b.code + [With(W_JMP, 0)] + OpenChain(n, b.env)
                && Branches(c, kind, env, pos) == [Branch(kind, start, next, d, d)] + Branches(n, ElseIfBranch, b.env, next + 5)
            }
  {
    hide GenExp, GenStmt, GenChain, GenBool, Len, Detects, With;
    ChainParts(c, env);
  }

  lemma ReturnOnTop(bs: seq<Branch>, b: Branch, d: bool)
    ensures WithReturn(bs + [b], d) == bs + [b.(returnDetected := b.returnDetected || d)]
    ensures forall b' :: (bs + [b])[|bs| := b'] == bs + [b']
  {
  }

  lemma BranchStart(pre: seq<Item>, x: seq<Item>)
    ensures Len(pre + x + [With(W_JFC, 0)]) == Len(pre) + Len(x) + 5
  {
    hide Len;
    LenCat(pre, x);
    JumpOver(pre + x, W_JFC, []);
  }

  lemma NoElseMarks(x: seq<Item>, b: seq<Item>, pos: nat, k: Option<int>)
    requires Closed(x)
    ensures Marks(IfCode(x, b), pos, k) == Marks(b, pos + Len(x) + 5, k)
  {
    hide Marks, Len;
    JumpSizes();
    BoundClosed(x, pos, k);
    BoundJump(x, W_JFC, Len(b) + 5, b, pos, k);
  }

  lemma ChainPartsOf(c: Chain, env: Env)
    requires GenBool(c.c, env).Some?
    ensures GenStmt(c.body, env).None? ==> GenChain(c, env).None?
  {
    hide GenBool, IfCode, IfElseCode;
  }
}
