/** The one-pass generator of a procedure's code: it appends to the code stream,
    leaves zero operands in the jumps whose target is not known yet, and patches
    them from the branch and loop stacks. */
module CodeGenerator {
  import opened Bytes
  import opened Wrappers
  import opened Syntax
  import opened Instructions
  import opened Operators
  import opened Code
  import opened Compiler
  import opened Rendering
  import opened Backpatch
  import opened OpenCode
  import opened Returns
  import opened GeneratorLemmas
  import opened RowFields
  import ConstantPool

  /** The first occurrence of a text in the constant area, or the area's size.
      A zero byte must follow a text that does not end in one. */
  method FindText(pool: seq<Byte>, text: seq<Byte>) returns (off: nat)
    requires ConstantPool.Terminated(pool) && text != []
    ensures off == ConstantPool.FindFrom(pool, text, 0)
  {
    hide ConstantPool.FindFrom, ConstantPool.Holds, ConstantPool.Terminated;
    off := 0;
    while off + |text| <= |pool|
      invariant off <= |pool|
      invariant ConstantPool.FindFrom(pool, text, 0) == ConstantPool.FindFrom(pool, text, off)
    {
      FindStep(pool, text, off);
      if pool[off..off + |text|] == text {
        LookAhead(pool, text, off);
        if text[|text| - 1] == 0 || pool[off + |text|] == 0 {
          return;
        }
      }
      off := off + 1;
    }
    NothingFits(pool, text, off);
    off := |pool|;
  }

  /** The fields a row copy names on both sides. */
  method SelectFields(lt: seq<Field>, lsel: Selection, rt: seq<Field>, rsel: Selection)
    returns (ok: bool, left: seq<Field>, right: seq<Field>)
    ensures ok ==> |left| == |right|
    ensures SelectPairs(lt, lsel, rt, rsel) == if ok then Some(Zip(left, right)) else None
  {
    hide SelectPairs, Zip;
    ok, left, right := false, lt, rt;
    if lsel.Names? {
      var named := FieldsFromIds(lsel.names, lt);
      if named.None? {
        SelectFails(lt, lsel, rt, rsel);
        return;
      }
      left := named.value;
    }
    SelectOther(lt, lsel, rt, rsel, left);
    if rsel.Names? {
      var named := FieldsFromIds(rsel.names, rt);
      if named.None? {
        return;
      }
      right := named.value;
    } else {
      var found, _, right' := FieldsFromLeft(rt, false, left);
      if !found {
        return;
      }
      right := right';
    }
    ok := |left| == |right|;
  }

  class Generator {
    var code: seq<Byte>
    var branchStack: seq<Branch>
    var loopStack: seq<Loop>
    var iterators: seq<Var>
    var usages: seq<int>
    var decls: seq<Var>
    var pool: seq<Byte>
    var returnDetected: bool
    const procs: seq<Proc>
    const ret: Ty

    /** The code stream as items; open jumps are BREAKs, CONTINUEs and jumps
        with a zero operand. */
    ghost var items: seq<Item>

    ghost predicate Valid()
      reads this`code, this`usages, this`loopStack, this`items, this`pool
    {
      code == Render(items, 0) && usages == Uses(items, 0) && Segments(loopStack) && ConstantPool.Terminated(pool)
    }

    function Context(): Env
      reads this`decls, this`iterators, this`pool, this`loopStack
    {
      Env(decls, iterators, pool, procs, ret, loopStack != [])
    }

    constructor (params: seq<Var>, pool: seq<Byte>, procs: seq<Proc>, ret: Ty)
      requires ConstantPool.Terminated(pool)
      ensures Valid() && items == [] && code == [] && branchStack == [] && loopStack == [] && !returnDetected
      ensures Context() == Env(params, [], pool, procs, ret, false)
    {
      this.procs, this.ret, this.decls, this.pool := procs, ret, params, pool;
      code, branchStack, loopStack, iterators, usages, returnDetected := [], [], [], [], [], false;
      items := [];
    }

    // ----- the code stream -----

    method Emit(op: Byte, arg: int)
      requires Valid()
      modifies this`code, this`items
      ensures Valid() && items == old(items) + [With(op, arg)] && Len(items) == old(Len(items)) + 1 + OperandSize(op)
    {
      hide Render, Uses, Segments, Le;
      Appends(items, With(op, arg));
      code := code + [op] + Le(arg, OperandSize(op));
      items := items + [With(op, arg)];
    }

    /** A jump out of a loop body whose target is not known yet. */
    method EmitOpen(ghost x: Item)
      requires Valid() && (x.Brk? || x.Cont?)
      modifies this`code, this`items
      ensures Valid() && items == old(items) + [x]
    {
      hide Render, Uses, Segments, Le;
      Appends(items, x);
      code := code + [W_JMP] + Le(0, 4);
      items := items + [x];
    }

    /** Loads a slot above the locals; the operand is remembered because the
        number of locals is not known yet. */
    method EmitSlot(k: nat)
      requires Valid()
      modifies this`code, this`items, this`usages
      ensures Valid() && items == old(items) + [Iter(k)]
    {
      hide Render, Uses, Segments, Le;
      Appends(items, Iter(k));
      code := code + [W_LDLO32];
      usages := usages + [|code|];
      code := code + Le(k, 4);
      items := items + [Iter(k)];
    }

    /** Fills in the operand of the jump at pos. */
    method PatchJump(pos: nat, offset: int)
      requires Valid() && JumpAt(items, pos)
      modifies this`code, this`items
      ensures Valid() && items == Patch(old(items), pos, offset) && Len(items) == old(Len(items))
    {
      StorePatches(items, pos, offset, 0);
      PatchKeeps(items, pos, offset, 0);
      code := StoreLe32(code, pos + 1, offset);
      items := Patch(items, pos, offset);
    }

    // ----- expressions -----

    method TranslateLeaf(e: Exp) returns (r: Option<ExpType>)
      requires Valid() && (e.NullC? || e.BoolC? || e.IntC? || e.Id?)
      modifies this`code, this`items, this`usages
      ensures r == TypeOf(GenExp(e, Context()))
      ensures r.Some? ==> Valid() && items == old(items) + GenExp(e, Context()).value.code
    {
      match e
      case NullC =>
        Emit(W_LDNULL, 1);
        r := Some(ExpType(TUndet, false));
      case BoolC(b) =>
        Emit(if b then W_LDBT else W_LDBF, 0);
        r := Some(ExpType(TBool, false));
      case IntC(n, signed) =>
        Emit(LoadInt(n).i.op, n);
        r := Some(ExpType(if signed then TI64 else TU64, false));
      case Id(name) =>
        var k := Lookup(iterators, name);
        if k.Some? {
          EmitSlot(k.value);
          r := Some(ExpType(iterators[k.value].ty, true));
        } else {
          var i := Lookup(decls, name);
          if i.None? {
            r := None;
          } else {
            Emit(LoadLocal(i.value).i.op, i.value);
            r := Some(ExpType(decls[i.value].ty, true));
          }
        }
    }

    method TranslateOffset(name: Label) returns (r: Option<ExpType>)
      requires Valid()
      modifies this`code, this`items, this`usages
      ensures r == TypeOf(GenExp(OffsetOf(name), Context()))
      ensures r.Some? ==> Valid() && items == old(items) + GenExp(OffsetOf(name), Context()).value.code
    {
      var k := Lookup(iterators, name);
      if k.None? {
        return None;
      }
      EmitSlot(k.value);
      Emit(W_ITOFF, 0);
      r := Some(ExpType(TU64, false));
    }

    /** The instruction of an operator with two operands. */
    method TranslateOpcode(e: Exp, a: ExpType, b: ExpType) returns (r: Option<ExpType>)
      requires Valid() && (e.Bin? || e.Store? || e.Index?)
      requires GenExp(e.l, Context()).Some? && a == TypeOf(GenExp(e.l, Context())).value
      requires GenExp(e.r, Context()).Some? && b == TypeOf(GenExp(e.r, Context())).value
      modifies this`code, this`items
      ensures r == TypeOf(GenExp(e, Context()))
      ensures r.Some? ==> Valid() && items == old(items) + [Op(OperatorOf(e, a.ty, b.ty))]
      ensures Valid() && Len(items) == old(Len(items)) + if r.Some? then 1 else 0
    {
      hide GenExp;
      OperatorParts(e, Context());
      if !Accepted(e, a, b.ty) {
        return None;
      }
      OperatorSize(e, a.ty, b.ty);
      Emit(OperatorOf(e, a.ty, b.ty), 0);
      r := Some(OperatorType(e, a, b.ty));
    }

    method TranslateSelect(e: Exp) returns (r: Option<ExpType>)
      requires Valid() && e.Sel?
      modifies this`code, this`items, this`usages
      ensures r == TypeOf(GenExp(e, Context()))
      ensures r.Some? ==> Valid() && items == old(items) + GenExp(e, Context()).value.code
      decreases e, 0
    {
      hide GenExp, CommonType, Render, Uses, Len, Patch, Segments, OperandSize, JumpAt, SelCode;
      SelectParts(e, Context());
      JumpSizes();
      var c := TranslateTree(e.c);
      if c.None? || c.value.ty != TBool {
        return None;
      }
      ghost var cc, a, b := GenExp(e.c, Context()).value.code, GenExp(e.l, Context()), GenExp(e.r, Context());
      ghost var pre := items;
      var useSecond := |code|;
      Emit(W_JFC, 0);
      var x := TranslateTree(e.l);
      if x.None? {
        return None;
      }
      var skipSecond := |code|;
      Emit(W_JMP, 0);
      SelectHead(pre, a.value.code);
      PatchJump(useSecond, |code| - useSecond);
      var y := TranslateTree(e.r);
      if y.None? {
        return None;
      }
      SelectTail(pre, a.value.code, b.value.code);
      PatchJump(skipSecond, |code| - skipSecond);
      var ty := CommonType(x.value.ty, y.value.ty);
      if ty.None? {
        return None;
      }
      r := Some(ExpType(ty.value, false));
      SelectWhole(old(items), GenExp(e.c, Context()).value.code, a.value.code, b.value.code);
    }

    /** Two operands and their operator. When a Boolean left operand may decide,
        a jump over the rest is left open until the operator is emitted. */
    method TranslateBinary(e: Exp) returns (r: Option<ExpType>)
      requires Valid() && (e.Bin? || e.Store? || e.Index?)
      modifies this`code, this`items, this`usages
      ensures r == TypeOf(GenExp(e, Context()))
      ensures r.Some? ==> Valid() && items == old(items) + GenExp(e, Context()).value.code
      decreases e, 0
    {
      hide GenExp, Render, Uses, Len, Patch, Segments, OperandSize, OperatorOf, BinResult, JumpAt, OperatorType, With, ShortCode,
        Accepted, ConstantPool.Terminated;
      OperatorParts(e, Context());
      JumpSizes();
      var a := TranslateTree(e.l);
      if a.None? {
        return None;
      }
      var needsJump := a.value.ty == TBool && e.Bin? && (e.op.Or? || e.op.And?);
      var jump := |code|;
      if needsJump && e.op.Or? {
        Emit(W_JT, 0);
      } else if needsJump {
        Emit(W_JF, 0);
      }
      var b := TranslateTree(e.r);
      if b.None? {
        return None;
      }
      r := TranslateOpcode(e, a.value, b.value);
      if r.Some? {
        BinaryDone(e, Context(), old(items));
      }
      if needsJump && r.Some? && r.value.ty == TBool {
        PatchJump(jump, |code| - jump);
      }
    }

    /** The arguments of a call, left to right, each checked against its parameter. */
    method TranslateArgs(args: Args, params: seq<Ty>) returns (n: Option<nat>)
      requires Valid()
      modifies this`code, this`items, this`usages
      ensures n.Some? <==> GenArgs(args, params, Context()).Some?
      ensures n.Some? ==> Valid() && n.value == ArgCount(args)
                          && items == old(items) + GenArgs(args, params, Context()).value
      decreases args, 0
    {
      hide GenExp, GenArgs, Passable, Render, Uses, Len, Segments, OperandSize, ConstantPool.Terminated;
      var rest, count: nat := args, 0;
      ghost var done: seq<Item> := [];
      assert params[0..] == params;
      NothingDone(GenArgs(rest, params, Context()));
      while rest.Arg?
        invariant Valid() && items == old(items) + done && (rest == args || rest < args)
        invariant count <= |params| && count + ArgCount(rest) == ArgCount(args)
        invariant GenArgs(args, params, Context()) == Prepend(done, GenArgs(rest, params[count..], Context()))
        decreases rest
      {
        OneMoreArg(done, rest, params, count, Context());
        if count == |params| {
          return None;
        }
        var a := TranslateTree(rest.head);
        if a.None? || !Passable(params[count], a.value.ty) {
          return None;
        }
        ghost var c := GenExp(rest.head, Context()).value.code;
        assert old(items) + done + c == old(items) + (done + c);
        done, rest, count := done + c, rest.tail, count + 1;
      }
      LastArg(done, params[count..], Context());
      n := Some(count);
    }

    /** The arguments, a NULL for every missing one, and the call. */
    method TranslateCall(e: Exp) returns (r: Option<ExpType>)
      requires Valid() && e.Call?
      modifies this`code, this`items, this`usages
      ensures r == TypeOf(GenExp(e, Context()))
      ensures r.Some? ==> Valid() && items == old(items) + GenExp(e, Context()).value.code
      decreases e, 0
    {
      hide GenExp, GenArgs, Render, Uses, Len, Segments, OperandSize, CallCode, ConstantPool.Terminated;
      CallParts(e, Context());
      if e.proc >= |procs| {
        return None;
      }
      var params := procs[e.proc].params;
      var n := TranslateArgs(e.args, params);
      if n.None? {
        return None;
      }
      CallWhole(old(items), GenArgs(e.args, params, Context()).value, e.proc, |params| - n.value);
      if n.value < |params| {
        Emit(W_LDNULL, (|params| - n.value) % 256);
      }
      Emit(W_CALL, e.proc);
      r := Some(ExpType(procs[e.proc].result, false));
    }

    /** An operator with one operand. */
    method TranslateUnary(e: Exp) returns (r: Option<ExpType>)
      requires Valid() && (e.Not? || e.IsNull?)
      modifies this`code, this`items, this`usages
      ensures r == TypeOf(GenExp(e, Context()))
      ensures r.Some? ==> Valid() && items == old(items) + GenExp(e, Context()).value.code
      decreases e, 0
    {
      hide GenExp, Render, Uses, Len, Segments, OperandSize;
      UnaryEquation(e, Context());
      r := TranslateTree(e.e);
      if r.Some? {
        if e.IsNull? {
          Emit(if e.positive then W_INULL else W_NNULL, 0);
          r := Some(ExpType(TBool, false));
        } else if r.value.ty == TBool {
          Emit(W_NOTB, 0);
        } else if IsInteger(r.value.ty) {
          Emit(W_NOT, 0);
        } else {
          r := None;
        }
      }
    }

    method TranslateTree(e: Exp) returns (r: Option<ExpType>)
      requires Valid()
      modifies this`code, this`items, this`usages
      ensures r == TypeOf(GenExp(e, Context()))
      ensures r.Some? ==> Valid() && items == old(items) + GenExp(e, Context()).value.code
      decreases e, 1
    {
      hide GenExp;
      match e
      case Not(_) => r := TranslateUnary(e);
      case IsNull(_, _) => r := TranslateUnary(e);
      case Bin(_, _, _) => r := TranslateBinary(e);
      case Store(_, _) => r := TranslateBinary(e);
      case Index(_, _) => r := TranslateBinary(e);
      case Sel(_, _, _) => r := TranslateSelect(e);
      case OffsetOf(name) => r := TranslateOffset(name);
      case Call(_, _) => r := TranslateCall(e);
      case _ => r := TranslateLeaf(e);
    }

    // ----- row copies -----

    /** Looks for the text in the constant area and appends it when it is not
        there, with a zero byte after it when it does not end in one. */
    method AddConstantText(text: seq<Byte>) returns (off: nat)
      requires Valid() && text != []
      modifies this`pool
      ensures Valid() && (off, pool) == ConstantPool.Add(old(pool), text)
    {
      hide Render, Uses, Segments, ConstantPool.FindFrom;
      off := FindText(pool, text);
      if off == |pool| {
        pool := pool + text;
        if text[|text| - 1] != 0 {
          pool := pool + [0];
        }
        assert pool == ConstantPool.Appended(old(pool), text);
      }
    }

    /** The operands of a row copy, left on the stack: two tables and two rows. */
    method TranslateOperands(lt: Exp, li: Exp, rt: Exp, ri: Exp) returns (ok: bool, left: seq<Field>, right: seq<Field>)
      requires Valid()
      modifies this`code, this`items, this`usages
      ensures ok <==> GenCopyHead(lt, li, rt, ri, Context()).Some?
      ensures ok ==> Valid() && var h := GenCopyHead(lt, li, rt, ri, Context()).value;
                     left == h.left && right == h.right && items == old(items) + h.code
    {
      hide GenExp, Render, Uses, Segments, GenCopyHead, IsInteger, Context, ConstantPool.Terminated;
      CopyHeadParts(lt, li, rt, ri, Context());
      ok, left, right := false, [], [];
      var a := TranslateTree(lt);
      if a.None? || !a.value.ty.Table? {
        return;
      }
      var b := TranslateTree(li);
      if b.None? || !IsInteger(b.value.ty) {
        return;
      }
      var c := TranslateTree(rt);
      if c.None? || !c.value.ty.Table? {
        return;
      }
      var d := TranslateTree(ri);
      if d.None? || !IsInteger(d.value.ty) {
        return;
      }
      ok, left, right := true, a.value.ty.fields, c.value.ty.fields;
      FourPieces(old(items), GenExp(lt, Context()).value.code, GenExp(li, Context()).value.code,
                 GenExp(rt, Context()).value.code, GenExp(ri, Context()).value.code);
    }

    /** The copy of one field, addressed through the slots from first on. */
    method TranslateFieldCopy(l: Field, r: Field, first: nat) returns (ok: bool)
      requires Valid()
      modifies this`code, this`items, this`usages, this`pool
      ensures var a := ConstantPool.Add(old(pool), l.name);
              var b := ConstantPool.Add(a.1, r.name);
              && ok == (CopyOpcode(Pair(l, r)) != W_NA)
              && (ok ==> Valid() && pool == b.1 && items == old(items) + FieldCode(first, a.0, b.0, CopyOpcode(Pair(l, r))))
    {
      hide Render, Uses, Segments, CopyOpcode, ConstantPool.Add, ConstantPool.Terminated, Len, OperandSize;
      var leftText := AddConstantText(l.name);
      var rightText := AddConstantText(r.name);
      if CopyOpcode(Pair(l, r)) == W_NA {
        return false;
      }
      EmitSlot(first);
      Emit(W_SELF, leftText);
      EmitSlot(first + 1);
      Emit(W_INDF, 0);
      assert items == old(items) + [Iter(first), With(W_SELF, leftText), Iter(first + 1), Op(W_INDF)];
      EmitSlot(first + 2);
      Emit(W_SELF, rightText);
      EmitSlot(first + 3);
      Emit(W_INDF, 0);
      Emit(CopyOpcode(Pair(l, r)), 0);
      ok := true;
    }

    method CopyRowsFields(left: seq<Field>, right: seq<Field>) returns (ok: bool)
      requires Valid() && |left| == |right|
      modifies this`code, this`items, this`usages, this`pool
      ensures var c := GenFields(Zip(left, right), |iterators|, old(pool));
              && ok == c.Some?
              && (ok ==> Valid() && items == old(items) + c.value.code && pool == c.value.pool)
    {
      hide Render, Uses, Segments, CopyOpcode, ConstantPool.Add, ConstantPool.Terminated, FieldCode, GenFields, Zip, Len;
      var first, i := |iterators|, 0;
      ghost var done: seq<Item> := [];
      assert left[0..] == left && right[0..] == right;
      FieldsEnds([], GenFields(Zip(left, right), first, pool), first, pool);
      while i < |left|
        invariant Valid() && 0 <= i <= |left| && items == old(items) + done && first == |iterators|
        invariant GenFields(Zip(left, right), first, old(pool))
               == PrependFields(done, GenFields(Zip(left[i..], right[i..]), first, pool))
      {
        OneMoreField(done, left, right, i, first, pool);
        ghost var a := ConstantPool.Add(pool, left[i].name);
        ghost var b := ConstantPool.Add(a.1, right[i].name);
        var copied := TranslateFieldCopy(left[i], right[i], first);
        if !copied {
          return false;
        }
        done := done + FieldCode(first, a.0, b.0, CopyOpcode(Pair(left[i], right[i])));
        i := i + 1;
      }
      assert left[i..] == [] && right[i..] == [];
      FieldsEnds(done, None, first, pool);
      ok := true;
    }

    method TranslateRowCopy(s: Stmt) returns (ok: bool)
      requires Valid() && (s.RowCopy? || s.RowCopyFree?)
      modifies this`code, this`items, this`usages, this`pool
      ensures ok == GenStmt(s, old(Context())).Some?
      ensures ok ==> Valid() && Context() == GenStmt(s, old(Context())).value.env
                     && items == old(items) + GenStmt(s, old(Context())).value.code
    {
      hide Render, Uses, Segments, GenCopyHead, GenFields, SelectPairs, SharedPairs, Zip, GenExp, Len, With, OperandSize,
        ConstantPool.Terminated;
      var operands, lt, rt := TranslateOperands(s.lt, s.li, s.rt, s.ri);
      if !operands {
        return false;
      }
      var left, right;
      if s.RowCopyFree? {
        ok, left, right := FieldsFromLeft(rt, true, lt);
      } else {
        ok, left, right := SelectFields(lt, s.lsel, rt, s.rsel);
        if !ok {
          return;
        }
      }
      ok := CopyRowsFields(left, right);
      if ok {
        Emit(W_CTS, (4 + |left|) % 256);
      }
    }

    // ----- expression statements -----

    method TranslateBool(e: Exp) returns (ok: bool)
      requires Valid()
      modifies this`code, this`items, this`usages
      ensures ok == GenBool(e, Context()).Some?
      ensures ok ==> Valid() && items == old(items) + GenBool(e, Context()).value
    {
      hide GenExp, Render, Uses, Segments;
      var t := TranslateTree(e);
      ok := t.Some? && t.value.ty == TBool;
    }

    /** An expression whose value is dropped. */
    method TranslateExp(e: Exp) returns (ok: bool)
      requires Valid()
      modifies this`code, this`items, this`usages
      ensures ok == GenExp(e, Context()).Some?
      ensures ok ==> Valid() && items == old(items) + (GenExp(e, Context()).value.code + [Drop(1)])
    {
      hide GenExp, Render, Uses, Segments;
      var t := TranslateTree(e);
      ok := t.Some?;
      if ok {
        Emit(W_CTS, 1);
      }
    }

    /** The first assignment to a name: the next local is loaded, the expression
        follows, and then the local is declared with the expression's type. */
    method TranslateAutoStore(name: Label, e: Exp) returns (ok: bool)
      requires Valid()
      modifies this`code, this`items, this`usages, this`decls
      ensures var c := GenExp(e, old(Context()));
              && ok == (c.Some? && StoreOpcode(c.value.ty, c.value.ty) != W_NA)
              && (ok ==> Valid() && decls == old(decls) + [Var(name, c.value.ty)]
                         && items == old(items) + (AutoCode(|old(decls)|, c.value) + [Drop(1)]))
    {
      hide GenExp, Render, Uses, Segments, StoreOpcode, Len, OperandSize;
      var localId := |decls|;
      Emit(LoadLocal(localId).i.op, localId);
      var t := TranslateTree(e);
      if t.None? {
        return false;
      }
      decls := decls + [Var(name, t.value.ty)];
      var opcode := StoreOpcode(t.value.ty, t.value.ty);
      if opcode == W_NA {
        return false;
      }
      Emit(opcode, 0);
      Emit(W_CTS, 1);
      ok := true;
      AutoWhole(old(items), localId, GenExp(e, old(Context())).value.code, opcode);
    }

    method AddDeclaration(name: Label, ty: Ty) returns (ok: bool)
      requires Valid()
      modifies this`decls
      ensures Valid() && ok == Lookup(old(decls), name).None?
      ensures decls == if ok then old(decls) + [Var(name, ty)] else old(decls)
    {
      ok := Lookup(decls, name).None?;
      if ok {
        decls := decls + [Var(name, ty)];
      }
    }

    /** The flag of the innermost open branch is raised, or else the procedure's. */
    method DetectReturn()
      requires Valid()
      modifies this`branchStack, this`returnDetected
      ensures Valid() && branchStack == WithReturn(old(branchStack), true)
      ensures returnDetected == (old(returnDetected) || old(branchStack) == [])
    {
      var n := |branchStack|;
      if n == 0 {
        returnDetected := true;
      } else {
        branchStack := branchStack[n - 1 := branchStack[n - 1].(returnDetected := true)];
      }
    }

    method TranslateReturn(e: Exp) returns (ok: bool)
      requires Valid()
      modifies this`code, this`items, this`usages, this`branchStack, this`returnDetected
      ensures ok == GenStmt(Return(e), Context()).Some?
      ensures ok ==> Valid() && items == old(items) + (GenExp(e, Context()).value.code + [Op(W_RET)])
      ensures branchStack == WithReturn(old(branchStack), true)
      ensures returnDetected == (old(returnDetected) || old(branchStack) == [])
    {
      hide GenExp, Render, Uses, Segments, Returnable, WithReturn;
      DetectReturn();
      var t := TranslateTree(e);
      ok := t.Some? && Returnable(ret, t.value.ty);
      if ok {
        Emit(W_RET, 0);
      }
    }

    // ----- IF -----

    /** The condition and an open jump over the branch. */
    method BeginIf(e: Exp, kind: BranchKind) returns (ok: bool)
      requires Valid()
      modifies this`code, this`items, this`usages, this`branchStack
      ensures ok == GenBool(e, Context()).Some?
      ensures ok ==> var c := GenBool(e, Context()).value;
                     && Valid() && items == old(items) + c + [With(W_JFC, 0)]
                     && branchStack == old(branchStack) + [Branch(kind, old(Len(items)) + Len(c), 0, false, false)]
    {
      hide GenExp, Render, Uses, Segments, Len, OperandSize;
      ok := TranslateBool(e);
      if ok {
        JumpSizes();
        LenCat(old(items), GenBool(e, Context()).value);
        Emit(W_JFC, 0);
        branchStack := branchStack + [Branch(kind, |code| - 4 - 1, 0, false, false)];
      }
    }

    /** An open jump over the coming branch; the last condition now jumps here. */
    method BeginElse()
      requires Valid() && branchStack != []
      requires JumpAt(items + [With(W_JMP, 0)], branchStack[|branchStack| - 1].startPos)
      modifies this`code, this`items, this`branchStack
      ensures var n := |old(branchStack)| - 1;
              var b := old(branchStack)[n];
              && Valid() && items == Patch(old(items) + [With(W_JMP, 0)], b.startPos, old(Len(items)) + 5 - b.startPos)
              && Len(items) == old(Len(items)) + 5
              && branchStack == old(branchStack)[n := Branch(b.kind, b.startPos, old(Len(items)), false, b.returnDetected)]
    {
      hide Render, Uses, Segments, Len, OperandSize, Patch, JumpAt;
      JumpSizes();
      var n := |branchStack| - 1;
      var b := branchStack[n];
      Emit(W_JMP, 0);
      branchStack := branchStack[n := Branch(b.kind, b.startPos, |code| - 4 - 1, false, b.returnDetected)];
      PatchJump(b.startPos, |code| - b.startPos);
    }

    /** As an ELSE with an IF in it, but on the same level: the branch keeps
        what it knows about returning. */
    method BeginElseIf(e: Exp) returns (ok: bool)
      requires Valid() && branchStack != []
      requires JumpAt(items + [With(W_JMP, 0)], branchStack[|branchStack| - 1].startPos)
      modifies this`code, this`items, this`usages, this`branchStack
      ensures ok == GenBool(e, Context()).Some?
      ensures ok ==>
                var c := GenBool(e, Context()).value;
                var n := |old(branchStack)| - 1;
                var b := old(branchStack)[n];
                && Valid()
                && items == Patch(old(items) + [With(W_JMP, 0)], b.startPos, old(Len(items)) + 5 - b.startPos)
                            + c + [With(W_JFC, 0)]
                && branchStack == old(branchStack)[n := Branch(b.kind, b.startPos, old(Len(items)), b.returnDetected, b.returnDetected)]
                                  + [Branch(ElseIfBranch, old(Len(items)) + 5 + Len(c), 0, false, false)]
    {
      hide GenExp, Render, Uses, Segments, Len, OperandSize, Patch, JumpAt;
      var n := |branchStack| - 1;
      var b := branchStack[n];
      BeginElse();
      branchStack := branchStack[n := branchStack[n].(returnDetected := b.returnDetected)];
      ok := BeginIf(e, ElseIfBranch);
    }

    /** Every branch of the IF now jumps here. The IF returns when all of its
        branches do and there is an ELSE. */
    method FinalizeIf(ghost n: nat)
      requires Valid() && n < |branchStack| && branchStack[n].kind.IfBranch?
      requires forall i :: n < i < |branchStack| ==> branchStack[i].kind.ElseIfBranch?
      requires forall i :: n <= i < |branchStack| ==> JumpAt(items, OpenJump(branchStack[i]))
      modifies this`code, this`items, this`branchStack, this`returnDetected
      ensures Valid() && items == PatchBranches(old(items), old(branchStack)[n..], old(Len(items)))
      ensures var all := AllReturn(old(branchStack)[n..]);
              && branchStack == WithReturn(old(branchStack)[..n], all)
              && returnDetected == (old(returnDetected) || (n == 0 && all))
    {
      hide Render, Uses, Segments, Len, Patch, JumpAt, PatchBranches, AllReturn, BranchReturns, ConstantPool.Terminated;
      var id := |branchStack|;
      var all := true;
      ghost var bs := branchStack[n..];
      FirstBranch(branchStack, n);
      while true
        invariant n < id <= |branchStack| && branchStack == old(branchStack) && returnDetected == old(returnDetected)
        invariant Valid() && Len(items) == old(Len(items))
        invariant forall i :: n <= i < id ==> JumpAt(items, OpenJump(branchStack[i]))
        invariant PatchBranches(items, branchStack[n..id], |code|) == PatchBranches(old(items), bs, |code|)
        invariant all == AllReturn(branchStack[id..])
        decreases id
      {
        id := id - 1;
        var p := OpenJump(branchStack[id]);
        LastBranch(items, branchStack, n, id, |code|);
        PatchedKeep(items, p, |code| - p);
        PatchJump(p, |code| - p);
        all := all && BranchReturns(branchStack[id]);
        if !branchStack[id].kind.ElseIfBranch? {
          break;
        }
      }
      assert id == n;
      NoBranches(items, branchStack, n, |code|);
      branchStack := branchStack[..id];
      if id == 0 {
        returnDetected := returnDetected || all;
      } else {
        branchStack := branchStack[id - 1 := branchStack[id - 1].(returnDetected := branchStack[id - 1].returnDetected || all)];
      }
    }

    // ----- loops -----

    method BeginWhile(e: Exp) returns (ok: bool)
      requires Valid()
      modifies this`code, this`items, this`usages, this`loopStack
      ensures ok == GenBool(e, old(Context())).Some?
      ensures ok ==> var c := GenBool(e, old(Context())).value;
                     && Valid() && items == old(items) + c + [With(W_JFC, 0)]
                     && loopStack == old(loopStack) + [Loop(WhileBegin, old(Len(items)), old(Len(items)) + Len(c))]
    {
      hide GenExp, Render, Uses, Segments, Len, OperandSize;
      var continueMark := |code|;
      ok := TranslateBool(e);
      if ok {
        LenCat(old(items), GenBool(e, Context()).value);
        var breakMark := |code|;
        Emit(W_JFC, 0);
        PushBegin(Loop(WhileBegin, continueMark, breakMark));
      }
    }

    method PushBegin(l: Loop)
      requires Valid() && IsBegin(l)
      modifies this`loopStack
      ensures Valid() && loopStack == old(loopStack) + [l]
    {
      hide Render, Uses;
      BeginSegment(loopStack, l);
      loopStack := loopStack + [l];
    }

    method BeginUntil()
      requires Valid()
      modifies this`loopStack
      ensures Valid() && loopStack == old(loopStack) + [Loop(UntilBegin, Len(items), 0)]
    {
      PushBegin(Loop(UntilBegin, |code|, 0));
    }

    /** The first expression, an open jump over the step expression, the step
        expression and the condition. */
    method BeginFor(first: Exp, cond: Exp, step: Exp) returns (ok: bool)
      requires Valid()
      modifies this`code, this`items, this`usages, this`loopStack
      ensures var env := old(Context());
              ok == (GenExp(first, env).Some? && GenExp(step, env).Some? && GenBool(cond, env).Some?)
      ensures ok ==>
                var env := old(Context());
                var i, s, c := GenExp(first, env).value.code, GenExp(step, env).value.code, GenBool(cond, env).value;
                && Valid() && items == old(items) + ForHead(i, s, c) + [With(W_JFC, 0)]
                && loopStack == old(loopStack) + [Loop(ForBegin, old(Len(items)) + Len(i) + 7,
                                                       old(Len(items)) + Len(ForHead(i, s, c)))]
    {
      hide GenExp, GenBool, Render, Uses, Segments, Len, OperandSize, JumpAt, Patch, ForHead;
      JumpSizes();
      ok := TranslateExp(first);
      if !ok {
        return;
      }
      ghost var env := Context();
      ghost var i := GenExp(first, env).value.code;
      ghost var pre := items;
      var stepExpMark := |code|;
      Emit(W_JMP, 0);
      var continueMark := |code|;
      ok := TranslateExp(step);
      if !ok {
        return;
      }
      ghost var s := GenExp(step, env).value.code;
      var boolExpOffset := |code|;
      ok := TranslateBool(cond);
      if !ok {
        return;
      }
      ghost var c := GenBool(cond, env).value;
      var breakMark := |code|;
      ForHeadPatched(old(items), i, s, c);
      Emit(W_JFC, 0);
      PatchJump(stepExpMark, boolExpOffset - stepExpMark);
      PushBegin(Loop(ForBegin, continueMark, breakMark));
    }

    /** The container, the start of the iteration, and the step that the first
        test jumps over. */
    method BeginForeach(it: Label, e: Exp, reverse: bool) returns (ok: bool)
      requires Valid()
      modifies this`code, this`items, this`usages, this`loopStack, this`iterators
      ensures var env := old(Context());
              ok == (Lookup(env.iters, it).None? && GenExp(e, env).Some? && GenExp(e, env).value.ty.Array?)
      ensures ok ==>
                var c := GenExp(e, old(Context())).value;
                var start := old(Len(items)) + Len(c.code) + 6;
                && Valid() && items == old(items) + ForeachHead(c.code, reverse) + [With(W_JFC, 0)]
                && loopStack == old(loopStack) + [Loop(ForeachBegin, start, start + 1)]
                && iterators == old(iterators) + [Var(it, Scalar(c.ty.base))]
    {
      hide GenExp, Render, Uses, Segments, OperandSize, Lookup, ConstantPool.Terminated, Len;
      ok := Lookup(iterators, it).None?;
      if !ok {
        return;
      }
      var t := TranslateTree(e);
      ok := t.Some? && t.value.ty.Array?;
      if !ok {
        return;
      }
      IterSizes();
      LenCat(old(items), GenExp(e, Context()).value.code);
      Emit(if reverse then W_ITL else W_ITF, 0);
      Emit(W_JMP, 1 + 4 + 1);
      var continueMark := |code|;
      Emit(if reverse then W_ITP else W_ITN, 0);
      var breakMark := |code|;
      Emit(W_JFC, 0);
      PushBegin(Loop(ForeachBegin, continueMark, breakMark));
      iterators := iterators + [Var(it, Scalar(t.value.ty.base))];
    }

    /** The scan of the loop stack: from the top down, every BREAK is sent to
        brk and every CONTINUE to cont, up to the loop's own entry. */
    method PatchExits(brk: nat, cont: nat, ghost n: nat) returns (id: nat)
      requires Valid() && n < |loopStack| && IsBegin(loopStack[n])
      requires forall i :: n < i < |loopStack| ==> !IsBegin(loopStack[i]) && JumpAt(items, loopStack[i].breakMark)
      modifies this`code, this`items
      ensures Valid() && id == n && Len(items) == old(Len(items))
      ensures items == PatchLoop(old(items), loopStack[n + 1..], brk, cont)
      ensures forall q :: JumpAt(items, q) == JumpAt(old(items), q)
    {
      hide Render, Uses, Segments, Len, Patch, JumpAt, PatchLoop, ConstantPool.Terminated;
      id := |loopStack| - 1;
      assert loopStack[n + 1..id + 1] == loopStack[n + 1..];
      while !IsBegin(loopStack[id])
        invariant n <= id < |loopStack| && Valid() && Len(items) == old(Len(items))
        invariant forall q :: JumpAt(items, q) == JumpAt(old(items), q)
        invariant PatchLoop(items, loopStack[n + 1..id + 1], brk, cont)
               == PatchLoop(old(items), loopStack[n + 1..], brk, cont)
        decreases id
      {
        var entry := loopStack[id];
        var offset := (if entry.kind.ContinueEntry? then cont else brk) - entry.breakMark;
        LastEntry(items, loopStack, n, id, brk, cont);
        PatchedKeep(items, entry.breakMark, offset);
        PatchJump(entry.breakMark, offset);
        id := id - 1;
      }
      NoEntries(items, loopStack, n, brk, cont);
    }

    /** The end of a WHILE, FOR or FOREACH: the jump back, then the exits. */
    method FinalizeLoop(ghost n: nat)
      requires Valid() && n < |loopStack| && IsBegin(loopStack[n]) && !loopStack[n].kind.UntilBegin?
      requires loopStack[n].kind.ForeachBegin? ==> iterators != []
      requires OpenExits(items + [With(W_JMP, 0)], loopStack, n)
      modifies this`code, this`items, this`loopStack, this`iterators
      ensures var end := old(Len(items));
              var l := old(loopStack)[n];
              var scanned := PatchLoop(old(items) + [With(W_JMP, 0)], old(loopStack)[n + 1..], end + 5, 0);
              var done := Patch(Patch(scanned, l.breakMark, end + 5 - l.breakMark), end, l.continueMark - end);
              && Valid() && items == (if l.kind.ForeachBegin? then done + [Drop(1)] else done)
              && loopStack == old(loopStack)[..n]
              && iterators == if l.kind.ForeachBegin? then old(iterators)[..|old(iterators)| - 1] else old(iterators)
    {
      hide Render, Uses, Segments, Len, Patch, JumpAt, PatchLoop, OperandSize, ConstantPool.Terminated;
      JumpSizes();
      var endLoopPos := |code|;
      JumpOver(items, W_JMP, []);
      assert items + [With(W_JMP, 0)] + [] == items + [With(W_JMP, 0)];
      Emit(W_JMP, 0);
      var endStmtPos := |code|;
      var id := PatchExits(endStmtPos, 0, n);
      var l := loopStack[id];
      PatchedKeep(items, l.breakMark, endStmtPos - l.breakMark);
      PatchJump(l.breakMark, endStmtPos - l.breakMark);
      PatchJump(endLoopPos, l.continueMark - endLoopPos);
      if l.kind.ForeachBegin? {
        Emit(W_CTS, 1);
        iterators := iterators[..|iterators| - 1];
      }
      SegmentsPrefix(loopStack, id);
      loopStack := loopStack[..id];
    }

    /** The end of an UNTIL: its condition, the jump back, then the exits. */
    method FinalizeUntil(e: Exp, ghost n: nat) returns (ok: bool)
      requires Valid() && n < |loopStack| && loopStack[n].kind.UntilBegin?
      requires forall i :: n < i < |loopStack| ==> !IsBegin(loopStack[i])
      requires GenBool(e, Context()).Some? ==>
                 forall i :: n < i < |loopStack| ==>
                   JumpAt(items + (GenBool(e, Context()).value + [With(W_JTC, 0)]), loopStack[i].breakMark)
      modifies this`code, this`items, this`usages, this`loopStack
      ensures ok == GenBool(e, old(Context())).Some?
      ensures ok ==>
                var c := GenBool(e, old(Context())).value;
                var end := old(Len(items)) + Len(c);
                var open := old(items) + (c + [With(W_JTC, 0)]);
                && Valid() && loopStack == old(loopStack)[..n]
                && items == Patch(PatchLoop(open, old(loopStack)[n + 1..], end + 5, old(Len(items))), end,
                                  old(loopStack)[n].continueMark - end)
    {
      hide GenExp, GenBool, Render, Uses, Segments, Len, Patch, JumpAt, PatchLoop, OperandSize, ConstantPool.Terminated;
      JumpSizes();
      var untilExpPos := |code|;
      ok := TranslateBool(e);
      if !ok {
        return;
      }
      ghost var c := GenBool(e, old(Context())).value;
      LenCat(old(items), c);
      JumpOver(items, W_JTC, []);
      assert items + [With(W_JTC, 0)] + [] == old(items) + (c + [With(W_JTC, 0)]);
      assert items + [With(W_JTC, 0)] == old(items) + (c + [With(W_JTC, 0)]);
      Emit(W_JTC, 0);
      var endStmtPos := |code|;
      var id := PatchExits(endStmtPos, untilExpPos, n);
      var at := endStmtPos - 1 - 4;
      PatchJump(at, loopStack[id].continueMark - at);
      SegmentsPrefix(loopStack, id);
      loopStack := loopStack[..id];
    }

    method HandleBreak() returns (ok: bool)
      requires Valid()
      modifies this`code, this`items, this`loopStack
      ensures ok == (old(loopStack) != [])
      ensures ok ==> Valid() && items == old(items) + [Brk]
                     && loopStack == old(loopStack) + [Loop(BreakEntry, 0, old(Len(items)))]
    {
      hide Render, Uses, Len, OperandSize;
      ok := loopStack != [];
      if ok {
        BreakSegment(loopStack, |code|);
        loopStack := loopStack + [Loop(BreakEntry, 0, |code|)];
        EmitOpen(Brk);
      }
    }

    /** Outside of UNTIL loops the target of a CONTINUE is known already. */
    method HandleContinue() returns (ok: bool)
      requires Valid()
      modifies this`code, this`items, this`loopStack
      ensures ok == (old(loopStack) != [])
      ensures ok ==> var k := KnownContinue(old(loopStack));
                     && Valid() && items == old(items) + Bound([Cont], old(Len(items)), k)
                     && loopStack == old(loopStack) + Marks([Cont], old(Len(items)), k)
    {
      hide Render, Uses, Len, OperandSize, Segments, Marks, Bound;
      var id := |loopStack|;
      assert loopStack[..id] == loopStack;
      InnermostExists(loopStack);
      while id != 0 && !IsBegin(loopStack[id - 1])
        invariant 0 <= id <= |loopStack| && Innermost(loopStack) == Innermost(loopStack[..id])
      {
        assert loopStack[..id][..id - 1] == loopStack[..id - 1];
        id := id - 1;
      }
      ok := id != 0;
      if ok {
        var loop := loopStack[id - 1];
        var breakMark := |code|;
        OneContinue(loopStack, breakMark);
        if loop.kind.UntilBegin? {
          EmitOpen(Cont);
          loopStack := loopStack + [Loop(ContinueEntry, 0, breakMark)];
        } else {
          Emit(W_JMP, loop.continueMark - breakMark);
        }
      }
    }

    // ----- statements, in the order the parser calls the methods above -----

    /** The statement's code is emitted: its open BREAKs and CONTINUEs are on the
        loop stack, its declarations are made, its returns are noted. */
    twostate predicate Compiled(c: StmtCode, d: bool)
      reads this
    {
      var k := KnownContinue(old(loopStack));
      && Valid() && Context() == c.env
      && items == old(items) + Bound(c.code, old(Len(items)), k)
      && loopStack == old(loopStack) + Marks(c.code, old(Len(items)), k)
      && branchStack == WithReturn(old(branchStack), d)
      && returnDetected == (old(returnDetected) || (d && old(branchStack) == []))
    }

    method CompileStmt(s: Stmt) returns (ok: bool)
      requires Valid()
      modifies this
      ensures ok == GenStmt(s, old(Context())).Some?
      ensures ok ==> Compiled(GenStmt(s, old(Context())).value, Detects(s))
      decreases s, 1
    {
      hide GenStmt, Compiled, Detects, Segments, Render, Uses;
      match s
      case Seq(_, _) => ok := CompileSeq(s);
      case If(_) => ok := CompileIf(s);
      case While(_, _) => ok := CompileWhile(s);
      case Until(_, _) => ok := CompileUntil(s);
      case For(_, _, _, _) => ok := CompileFor(s);
      case Foreach(_, _, _, _) => ok := CompileForeach(s);
      case Break => ok := CompileJump(s);
      case Continue => ok := CompileJump(s);
      case _ => ok := CompileSimple(s);
    }

    /** Statements without statements in them. */
    method CompileSimple(s: Stmt) returns (ok: bool)
      requires Valid() && !s.Seq? && !s.If? && !s.While? && !s.Until? && !s.For? && !s.Foreach? && !s.Break? && !s.Continue?
      modifies this
      ensures ok == GenStmt(s, old(Context())).Some?
      ensures ok ==> Compiled(GenStmt(s, old(Context())).value, Detects(s))
    {
      hide Render, Uses, Segments, GenExp, GenCopyHead, GenCopy, SelectPairs, SharedPairs, StoreOpcode, Returnable, Bound, Marks, Len;
      ghost var was := loopStack;
      match s {
      case Skip => ok := true;
      case ExpStmt(e) => ok := TranslateExp(e);
      case Decl(name, ty) => ok := AddDeclaration(name, ty);
      case Assign(name, e) =>
        if Lookup(decls, name).Some? {
          ok := TranslateExp(Store(Id(name), e));
        } else {
          ok := TranslateAutoStore(name, e);
        }
      case Return(e) => ok := TranslateReturn(e);
      case RowCopy(_, _, _, _, _, _) => ok := TranslateRowCopy(s);
      case RowCopyFree(_, _, _, _) => ok := TranslateRowCopy(s);
      }
      if ok {
        SimpleClosed(s, old(Context()));
        BoundClosed(GenStmt(s, old(Context())).value.code, old(Len(items)), KnownContinue(was));
        assert items == old(items) + GenStmt(s, old(Context())).value.code;
        assert was + [] == was;
        NoReturn(old(branchStack));
      }
    }

    method CompileJump(s: Stmt) returns (ok: bool)
      requires Valid() && (s.Break? || s.Continue?)
      modifies this
      ensures ok == GenStmt(s, old(Context())).Some?
      ensures ok ==> Compiled(GenStmt(s, old(Context())).value, Detects(s))
    {
      hide Render, Uses, Segments, Bound, Marks, Len;
      NoReturn(branchStack);
      if s.Break? {
        OneBreak(Len(items), KnownContinue(loopStack));
        ok := HandleBreak();
      } else {
        ok := HandleContinue();
      }
    }

    method CompileSeq(s: Stmt) returns (ok: bool)
      requires Valid() && s.Seq?
      modifies this
      ensures ok == GenStmt(s, old(Context())).Some?
      ensures ok ==> Compiled(GenStmt(s, old(Context())).value, Detects(s))
      decreases s, 0
    {
      hide Render, Uses, Segments, Bound, Marks, Len, GenStmt, WithReturn, KnownContinue, ConstantPool.Terminated;
      ghost var env, k, p := Context(), KnownContinue(loopStack), Len(items);
      SeqParts(s, env);
      ok := CompileStmt(s.s1);
      if ok {
        ghost var a := GenStmt(s.s1, env).value;
        LenCat(old(items), Bound(a.code, p, k));
        EnvLoop(s.s1, env);
        StillInLoop(old(loopStack), a.code, p);
        ok := CompileStmt(s.s2);
        if ok {
          TwoStmts(old(items), old(loopStack), a.code, GenStmt(s.s2, a.env).value.code, p, k);
          ReturnTwice(old(branchStack), Detects(s.s1), Detects(s.s2));
        }
      }
    }

    method CompileWhile(s: Stmt) returns (ok: bool)
      requires Valid() && s.While?
      modifies this
      ensures ok == GenStmt(s, old(Context())).Some?
      ensures ok ==> Compiled(GenStmt(s, old(Context())).value, Detects(s))
      decreases s, 0
    {
      hide Render, Uses, Segments, Bound, Marks, Len, GenStmt, GenExp, GenBool, WithReturn, Innermost, ConstantPool.Terminated, JumpAt,
        IsBegin, With, OpenExits, Patch, PatchLoop, LoopCode;
      ghost var env, k, pre, loops := Context(), KnownContinue(loopStack), items, loopStack;
      LoopEquation(s, env);
      ok := BeginWhile(s.c);
      if ok {
        ghost var begin := loopStack[|loops|];
        BeginSegment(loops, begin);
        ok := CompileStmt(s.body);
        if ok {
          ghost var c, b := GenBool(s.c, env).value, GenStmt(s.body, InLoop(env)).value;
          BoolClosed(s.c, env);
          EnvLoop(s.body, InLoop(env));
          LoopFinished(pre, c, b.code, 0, begin, loops, k);
          FinalizeLoop(|loops|);
        }
      }
    }

    method CompileFor(s: Stmt) returns (ok: bool)
      requires Valid() && s.For?
      modifies this
      ensures ok == GenStmt(s, old(Context())).Some?
      ensures ok ==> Compiled(GenStmt(s, old(Context())).value, Detects(s))
      decreases s, 0
    {
      hide Render, Uses, Segments, Bound, Marks, Len, GenStmt, GenExp, GenBool, WithReturn, Innermost, ConstantPool.Terminated, JumpAt,
        IsBegin, With, OpenExits, Patch, PatchLoop, LoopCode, ForHead;
      ghost var env, k, pre, loops := Context(), KnownContinue(loopStack), items, loopStack;
      LoopEquation(s, env);
      ok := BeginFor(s.init, s.c, s.step);
      if ok {
        ghost var begin := loopStack[|loops|];
        BeginSegment(loops, begin);
        ok := CompileStmt(s.body);
        if ok {
          ghost var i, t, c := GenExp(s.init, env).value.code, GenExp(s.step, env).value.code, GenBool(s.c, env).value;
          ForHeadClosed(s, env);
          EnvLoop(s.body, InLoop(env));
          LoopFinished(pre, ForHead(i, t, c), GenStmt(s.body, InLoop(env)).value.code, Len(i) + 7, begin, loops, k);
          FinalizeLoop(|loops|);
        }
      }
    }

    method CompileForeach(s: Stmt) returns (ok: bool)
      requires Valid() && s.Foreach?
      modifies this
      ensures ok == GenStmt(s, old(Context())).Some?
      ensures ok ==> Compiled(GenStmt(s, old(Context())).value, Detects(s))
      decreases s, 0
    {
      hide Render, Uses, Segments, Bound, Marks, Len, GenStmt, GenExp, GenBool, WithReturn, Innermost, ConstantPool.Terminated, JumpAt,
        IsBegin, With, OpenExits, Patch, PatchLoop, LoopCode, ForeachHead, Lookup, Detects;
      ghost var env, k, pre, loops := Context(), KnownContinue(loopStack), items, loopStack;
      ForeachEquation(s, env);
      ok := BeginForeach(s.it, s.e, s.reverse);
      if ok {
        ghost var begin := loopStack[|loops|];
        BeginSegment(loops, begin);
        ghost var c := GenExp(s.e, env).value;
        ghost var inner := Enter(s.it, c.ty, env);
        ok := CompileStmt(s.body);
        if ok {
          EnvLoop(s.body, inner);
          ghost var b := GenStmt(s.body, inner).value.code;
          ForeachFinished(pre, s.e, s.reverse, env, b, begin, loops, k);
          assert items == pre + ForeachHead(c.code, s.reverse) + [With(W_JFC, 0)] + Bound(b, Len(pre) + Len(c.code) + 12, Some(begin.continueMark));
          assert loopStack == loops + [begin] + Marks(b, Len(pre) + Len(c.code) + 12, Some(begin.continueMark));
          FinalizeLoop(|loops|);
        }
      }
    }

    method CompileUntil(s: Stmt) returns (ok: bool)
      requires Valid() && s.Until?
      modifies this
      ensures ok == GenStmt(s, old(Context())).Some?
      ensures ok ==> Compiled(GenStmt(s, old(Context())).value, Detects(s))
      decreases s, 0
    {
      hide Render, Uses, Segments, Bound, Marks, Len, GenStmt, GenExp, GenBool, WithReturn, Innermost, ConstantPool.Terminated, JumpAt,
        Patch, PatchLoop, UntilCode;
      ghost var env, k, pre, loops := Context(), KnownContinue(loopStack), items, loopStack;
      UntilEquation(s, env);
      BeginUntil();
      ghost var begin := loopStack[|loops|];
      BeginSegment(loops, begin);
      ok := CompileStmt(s.body);
      if ok {
        ghost var b := GenStmt(s.body, InLoop(env)).value;
        EnvLoop(s.body, InLoop(env));
        ghost var x := GenBool(s.c, b.env);
        if x.Some? {
          BoolClosed(s.c, b.env);
          UntilFinished(pre, b.code, x.value, begin, loops, k);
        }
        UntilEntries(pre, b.code, begin, loops);
        ok := FinalizeUntil(s.c, |loops|);
      }
    }

    /** The first branch of an IF is emitted. */
    ghost predicate AfterBranch(c: Chain, kind: BranchKind, env: Env, pre: seq<Item>, bs: seq<Branch>, loops: seq<Loop>)
      requires GenBool(c.c, env).Some? && GenStmt(c.body, env).Some?
      reads this
    {
      var x, b, k := GenBool(c.c, env).value, GenStmt(c.body, env).value, KnownContinue(loops);
      var start := Len(pre) + Len(x) + 5;
      && Valid() && Context() == b.env && KnownContinue(loopStack) == k
      && items == pre + x + [With(W_JFC, 0)] + Bound(b.code, start, k)
      && loopStack == loops + Marks(b.code, start, k)
      && branchStack == bs + [Branch(kind, Len(pre) + Len(x), 0, Detects(c.body), false)]
    }

    /** All branches of an IF are emitted, their jumps to its end still open. */
    ghost predicate AfterChain(c: Chain, kind: BranchKind, env: Env, pre: seq<Item>, bs: seq<Branch>, loops: seq<Loop>)
      requires GenChain(c, env).Some?
      reads this
    {
      var k := KnownContinue(loops);
      && Valid() && Context() == GenChain(c, env).value.env
      && items == pre + Bound(OpenChain(c, env), Len(pre), k)
      && loopStack == loops + Marks(GenChain(c, env).value.code, Len(pre), k)
      && branchStack == bs + Branches(c, kind, env, Len(pre))
    }

    /** What follows an IF's condition: its first branch, and the other ones. */
    method CompileBranches(c: Chain, ghost kind: BranchKind, ghost pre: seq<Item>, ghost bs: seq<Branch>) returns (ok: bool)
      requires Valid() && GenBool(c.c, Context()).Some?
      requires var x := GenBool(c.c, Context()).value;
               && items == pre + x + [With(W_JFC, 0)]
               && branchStack == bs + [Branch(kind, Len(pre) + Len(x), 0, false, false)]
      modifies this
      ensures ok == GenChain(c, old(Context())).Some?
      ensures ok ==> AfterChain(c, kind, old(Context()), pre, bs, old(loopStack)) && returnDetected == old(returnDetected)
      decreases c, 2
    {
      hide Render, Uses, Segments, Bound, Marks, Len, GenStmt, GenChain, GenExp, GenBool, ConstantPool.Terminated, JumpAt, Patch,
        OpenChain, Branches, Detects, WithReturn, KnownContinue, AfterChain;
      ghost var env, k, loops := Context(), KnownContinue(loopStack), loopStack;
      ghost var x := GenBool(c.c, env).value;
      ChainPartsOf(c, env);
      BranchStart(pre, x);
      ok := CompileStmt(c.body);
      if !ok {
        return;
      }
      ghost var b := GenStmt(c.body, env).value;
      ReturnOnTop(bs, Branch(kind, Len(pre) + Len(x), 0, false, false), Detects(c.body));
      EnvLoop(c.body, env);
      StillInLoop(loops, b.code, Len(pre) + Len(x) + 5);
      match c.tail
      case NoElse => EndBranch(c, kind, env, pre, bs, loops);
      case Else(_) => ok := CompileElse(c, kind, env, pre, bs, loops);
      case ElseIf(_) => ok := CompileElseIf(c, kind, env, pre, bs, loops);
    }

    lemma EndBranch(c: Chain, kind: BranchKind, env: Env, pre: seq<Item>, bs: seq<Branch>, loops: seq<Loop>)
      requires GenBool(c.c, env).Some? && GenStmt(c.body, env).Some? && c.tail.NoElse?
      requires AfterBranch(c, kind, env, pre, bs, loops)
      ensures GenChain(c, env).Some? && AfterChain(c, kind, env, pre, bs, loops)
    {
      hide Render, Uses, Segments, Bound, Marks, Len, GenStmt, GenChain, GenExp, GenBool, JumpAt, Patch, OpenChain, Branches, Detects,
        KnownContinue, NextBranch;
      BranchesEquation(c, kind, env, pre, KnownContinue(loops));
      BranchBody(pre, GenBool(c.c, env).value, GenStmt(c.body, env).value.code, KnownContinue(loops));
      NoElseMarks(GenBool(c.c, env).value, GenStmt(c.body, env).value.code, Len(pre), KnownContinue(loops));
    }

    method CompileElse(c: Chain, ghost kind: BranchKind, ghost env: Env, ghost pre: seq<Item>, ghost bs: seq<Branch>,
                       ghost loops: seq<Loop>) returns (ok: bool)
      requires GenBool(c.c, env).Some? && GenStmt(c.body, env).Some? && c.tail.Else?
      requires AfterBranch(c, kind, env, pre, bs, loops)
      modifies this
      ensures ok == GenChain(c, env).Some?
      ensures ok ==> AfterChain(c, kind, env, pre, bs, loops) && returnDetected == old(returnDetected)
      decreases c, 0
    {
      hide Render, Uses, Segments, Bound, Marks, Len, GenStmt, GenChain, GenExp, GenBool, ConstantPool.Terminated, JumpAt, Patch,
        OpenChain, Branches, Detects, WithReturn, KnownContinue, NextBranch;
      ghost var x, b, k := GenBool(c.c, env).value, GenStmt(c.body, env).value, KnownContinue(loops);
      BranchesEquation(c, kind, env, pre, k);
      BranchBody(pre, x, b.code, k);
      ghost var next := Len(pre) + Len(x) + 5 + Len(b.code);
      ReturnOnTop(bs, branchStack[|bs|], false);
      ReturnOnTop(bs, Branch(kind, Len(pre) + Len(x), next, false, Detects(c.body)), Detects(c.tail.body));
      BeginElse();
      ok := CompileStmt(c.tail.body);
      if ok {
        BranchTail(pre, x, b.code, GenStmt(c.tail.body, b.env).value.code, k);
      }
    }

    method CompileElseIf(c: Chain, ghost kind: BranchKind, ghost env: Env, ghost pre: seq<Item>, ghost bs: seq<Branch>,
                         ghost loops: seq<Loop>) returns (ok: bool)
      requires GenBool(c.c, env).Some? && GenStmt(c.body, env).Some? && c.tail.ElseIf?
      requires AfterBranch(c, kind, env, pre, bs, loops)
      modifies this
      ensures ok == GenChain(c, env).Some?
      ensures ok ==> AfterChain(c, kind, env, pre, bs, loops) && returnDetected == old(returnDetected)
      decreases c, 0
    {
      hide Render, Uses, Segments, Bound, Marks, Len, GenStmt, GenChain, GenExp, GenBool, ConstantPool.Terminated, JumpAt, Patch,
        OpenChain, Branches, Detects, WithReturn, KnownContinue, NextBranch;
      ghost var x, b, k := GenBool(c.c, env).value, GenStmt(c.body, env).value, KnownContinue(loops);
      BranchesEquation(c, kind, env, pre, k);
      BranchBody(pre, x, b.code, k);
      ghost var next := Len(pre) + Len(x) + 5 + Len(b.code);
      ReturnOnTop(bs, branchStack[|bs|], false);
      ChainBegins(c.tail.next, b.env);
      ok := BeginElseIf(c.tail.next.c);
      if ok {
        ghost var b2 := Branch(kind, Len(pre) + Len(x), next, Detects(c.body), Detects(c.body));
        ok := CompileBranches(c.tail.next, ElseIfBranch, NextBranch(pre, x, b.code, k), bs + [b2]);
        if ok {
          BranchTail(pre, x, b.code, OpenChain(c.tail.next, b.env), k);
          BranchTail(pre, x, b.code, GenChain(c.tail.next, b.env).value.code, k);
        }
      }
    }

    method CompileIf(s: Stmt) returns (ok: bool)
      requires Valid() && s.If?
      modifies this
      ensures ok == GenStmt(s, old(Context())).Some?
      ensures ok ==> Compiled(GenStmt(s, old(Context())).value, Detects(s))
      decreases s, 0
    {
      hide Render, Uses, Segments, Bound, Marks, Len, GenStmt, GenChain, GenExp, GenBool, Innermost, ConstantPool.Terminated, JumpAt,
        PatchBranches, OpenChain, Branches, AllReturn, Detects, WithReturn;
      ghost var env, k, pre, bs := Context(), KnownContinue(loopStack), items, branchStack;
      IfEquation(s, env);
      ChainBegins(s.chain, env);
      ok := BeginIf(s.chain.c, IfBranch);
      if ok {
        ok := CompileBranches(s.chain, IfBranch, pre, bs);
        if ok {
          IfFinished(pre, s.chain, env, bs, k);
          FinalizeIf(|bs|);
        }
      }
    }

    // ----- the end of the procedure -----

    /** The recorded slot operands get the number of locals added, which is known
        only now. A procedure that may end without a return is an error. */
    method FinishProcDecl() returns (ok: bool)
      requires Valid()
      modifies this`code, this`usages
      ensures ok == returnDetected
      ensures code == Render(items, |decls|) && usages == []
    {
      hide Render, Uses, Segments, StoreLe32, LoadLe32, ConstantPool.Terminated;
      ok := returnDetected;
      var itOffset := |decls|;
      RelocationRenders([], items, itOffset);
      assert [] + code == code && [] + Render(items, itOffset) == Render(items, itOffset);
      var i := 0;
      assert usages[0..] == usages;
      while i < |usages|
        invariant 0 <= i <= |usages| && usages == old(usages) && |code| == |old(code)|
        invariant Relocated(code, usages[i..], itOffset) == Relocated(old(code), usages, itOffset)
      {
        assert usages[i..][1..] == usages[i + 1..];
        code := StoreLe32(code, usages[i], LoadLe32(code, usages[i]) + itOffset);
        i := i + 1;
      }
      usages := [];
    }

    /** A whole procedure: the finished bytes are those of the compiled body with
        every offset computed and every slot behind the procedure's locals. */
    method CompileProc(body: Stmt) returns (ok: bool)
      requires Valid() && items == [] && branchStack == [] && loopStack == [] && !returnDetected
      modifies this
      ensures var c := GenStmt(body, old(Context()));
              && ok == (c.Some? && Detects(body))
              && (ok ==> code == Render(c.value.code, |c.value.env.locals|) && Closed(c.value.code)
                         && Context() == c.value.env && branchStack == [])
    {
      hide Render, Uses, Segments, GenStmt, Bound, Marks, Detects, ConstantPool.Terminated;
      ok := CompileStmt(body);
      if ok {
        ghost var c := GenStmt(body, old(Context())).value.code;
        StmtClosed(body, old(Context()));
        BoundClosed(c, 0, KnownContinue([]));
        assert [] + c == c;
        ok := FinishProcDecl();
      }
    }
  }
}
