/** The machine code of a row copy: its four operands stay on the stack and are
    reached through slots above the locals. */
module SimulateCopy {
  import opened Bytes
  import opened Wrappers
  import opened Syntax
  import opened Instructions
  import opened Operators
  import opened Code
  import opened Compiler
  import opened ByteCounts
  import opened Data
  import opened ValueOps
  import opened Machine
  import opened Semantics
  import opened StackLemmas
  import opened SimulateExp
  import opened CompilerLemmas
  import ConstantPool

  lemma {:induction false} FollowPrefix(stack: seq<Cell>, more: seq<Cell>, i: nat)
    requires i < |stack|
    ensures Follow(stack + more, i) == Follow(stack, i)
    decreases i
  {
    if stack[i].Slot? && stack[i].j < i {
      FollowPrefix(stack, more, stack[i].j);
    }
  }

  /** A reference to a cell reads what the cell reads. */
  lemma SlotOnTop(stack: seq<Cell>, j: nat)
    requires j < |stack|
    ensures RawAt(stack + [Slot(j)], |stack|) == RawAt(stack, j)
  {
    FollowPrefix(stack, [Slot(j)], j);
    assert Follow(stack + [Slot(j)], |stack|) == Follow(stack + [Slot(j)], j);
  }

  lemma CopyKinds()
    ensures KindOf(W_LDLO32) == LoadSlot && KindOf(W_SELF) == FieldOfTable && KindOf(W_INDF) == Indexing
    ensures OperandSize(W_LDLO32) == 4 && OperandSize(W_SELF) == 4 && OperandSize(W_INDF) == 0
  {
  }

  lemma SlotStep(u: Unit, j: nat, c: Config)
    requires DecodeAt(u.code, c.pc) == Some(Instr(W_LDLO32, j)) && j < |c.stack|
    ensures Steps(u, Running(c), 1) == Running(Config(c.pc + 5, c.stack + [Slot(j)], c.w))
  {
    hide KindOf, OperandSize;
    CopyKinds();
    OneStep(u, c, Instr(W_LDLO32, j));
  }

  /** Loading a table from a slot and taking one of its fields. */
  lemma SelfSteps(u: Unit, pc: int, stack: seq<Cell>, w: World, j: nat, off: nat, name: Label)
    requires j < |stack| && ConstantPool.CString(u.consts, off) == name
    requires DecodeAt(u.code, pc) == Some(Instr(W_LDLO32, j)) && DecodeAt(u.code, pc + 5) == Some(Instr(W_SELF, off))
    ensures Steps(u, Running(Config(pc, stack, w)), 2)
         == Proceed(Push(stack, TableField(RawAt(stack, j), name, w), w), pc + 10)
  {
    hide KindOf, OperandSize, DecodeAt, RawAt, TableField, ConstantPool.CString;
    CopyKinds();
    var c1 := Config(pc + 5, stack + [Slot(j)], w);
    SlotStep(u, j, Config(pc, stack, w));
    OneStep(u, c1, Instr(W_SELF, off));
    SlotOnTop(stack, j);
    assert c1.stack[..|c1.stack| - 1] == stack;
    StepsAdd(u, Running(Config(pc, stack, w)), 1, 1);
  }

  /** Indexing the field on top with the row in a slot. */
  lemma RowSteps(u: Unit, pc: int, stack: seq<Cell>, v: Val, w: World, j: nat)
    requires j < |stack|
    requires DecodeAt(u.code, pc) == Some(Instr(W_LDLO32, j)) && DecodeAt(u.code, pc + 5) == Some(Instr(W_INDF, 0))
    ensures var x := Load(RawAt(stack, j), w);
            Steps(u, Running(Config(pc, stack + [Imm(v)], w)), 2)
              == Proceed(Push(stack, if x.None? then None else ElementOf(W_INDF, v, x.value), w), pc + 6)
  {
    hide KindOf, OperandSize, DecodeAt, Load, ElementOf, RawAt;
    CopyKinds();
    var c1 := Config(pc + 5, stack + [Imm(v)] + [Slot(j)], w);
    SlotStep(u, j, Config(pc, stack + [Imm(v)], w));
    OneStep(u, c1, Instr(W_INDF, 0));
    SlotOnTop(stack + [Imm(v)], j);
    RawPrefix(stack, [Imm(v)], j);
    RawPrefix(stack + [Imm(v)], [Slot(j)], |stack|);
    RawImm(stack, v);
    assert c1.stack[..|c1.stack| - 2] == stack;
    StepsAdd(u, Running(Config(pc, stack + [Imm(v)], w)), 1, 1);
  }

  lemma RawPrefix(stack: seq<Cell>, more: seq<Cell>, i: nat)
    requires i < |stack|
    ensures RawAt(stack + more, i) == RawAt(stack, i)
  {
    FollowPrefix(stack, more, i);
  }

  lemma RawImm(stack: seq<Cell>, v: Val)
    ensures RawAt(stack + [Imm(v)], |stack|) == v
  {
  }

  /** The field value of a row, addressed through two slots. */
  lemma AddressSteps(u: Unit, pc: int, st: Store, temps: seq<Cell>, i: nat, j: nat, off: nat, name: Label,
                     table: Operand, row: Operand) returns (n: nat)
    requires ConstantPool.CString(u.consts, off) == name
    requires |Frame(st)| <= i < |Frame(st) + temps| && |Frame(st)| <= j < |Frame(st) + temps|
    requires (Frame(st) + temps)[i] == Low(table, |st.locals|) && (Frame(st) + temps)[j] == Low(row, |st.locals|)
    requires Fits(table, st) && Fits(row, st)
    requires DecodeAt(u.code, pc) == Some(Instr(W_LDLO32, i)) && DecodeAt(u.code, pc + 5) == Some(Instr(W_SELF, off))
    requires DecodeAt(u.code, pc + 10) == Some(Instr(W_LDLO32, j)) && DecodeAt(u.code, pc + 15) == Some(Instr(W_INDF, 0))
    ensures var f := FieldValue(table, name, row, st);
            Steps(u, Conf(pc, st, temps), n)
              == if f.None? then State.Raised else Conf(pc + 16, st, temps + [Low(V(f.value), |st.locals|)])
  {
    hide DecodeAt, Load, FieldRow, RawAt, TableField, Steps, Frame, Follow, ConstantPool.CString;
    var stack := Frame(st) + temps;
    RawOf(stack, i, table, st);
    RawOf(stack, j, row, st);
    SelfSteps(u, pc, stack, st.w, i, off, name);
    n := 2;
    var f := TableField(Raw(table, st), name, st.w);
    if f.Some? {
      RowSteps(u, pc + 10, stack, f.value, st.w, j);
      StepsAdd(u, Conf(pc, st, temps), 2, 2);
      n := 4;
      var v := FieldValue(table, name, row, st);
      if v.Some? {
        assert stack + [Imm(v.value)] == Frame(st) + (temps + [Imm(v.value)]);
      }
    }
  }

  /** The operands of a row copy: left table, left row, right table, right row. */
  datatype Four = Four(a: Operand, b: Operand, c: Operand, d: Operand)

  predicate FourFit(o: Four, st: Store) {
    Fits(o.a, st) && Fits(o.b, st) && Fits(o.c, st) && Fits(o.d, st)
  }

  function FourCells(o: Four, n: nat): seq<Cell> {
    [Low(o.a, n), Low(o.b, n), Low(o.c, n), Low(o.d, n)]
  }

  /** The instructions of one field's copy. */
  lemma FieldParts(code: seq<Byte>, pc: int, k: nat, loff: nat, roff: nat, op: Byte, t: Targets)
    requires At(code, pc, FieldCode(k, loff, roff, op), t) && OperandSize(op) == 0
    ensures DecodeAt(code, pc) == Some(Instr(W_LDLO32, t.base + k))
    ensures DecodeAt(code, pc + 5) == Some(Instr(W_SELF, loff))
    ensures DecodeAt(code, pc + 10) == Some(Instr(W_LDLO32, t.base + k + 1))
    ensures DecodeAt(code, pc + 15) == Some(Instr(W_INDF, 0))
    ensures DecodeAt(code, pc + 16) == Some(Instr(W_LDLO32, t.base + k + 2))
    ensures DecodeAt(code, pc + 21) == Some(Instr(W_SELF, roff))
    ensures DecodeAt(code, pc + 26) == Some(Instr(W_LDLO32, t.base + k + 3))
    ensures DecodeAt(code, pc + 31) == Some(Instr(W_INDF, 0))
    ensures DecodeAt(code, pc + 32) == Some(Instr(op, 0))
    ensures Len(FieldCode(k, loff, roff, op)) == 33
  {
    hide DecodeAt;
    var f := FieldCode(k, loff, roff, op);
    var l := [Iter(k), With(W_SELF, loff), Iter(k + 1), Op(W_INDF)];
    var r := [Iter(k + 2), With(W_SELF, roff), Iter(k + 3), Op(W_INDF)];
    assert f == l + r + [Op(op)];
    AddressLen(k, loff);
    AddressLen(k + 2, roff);
    SplitLast(code, pc, l + r, Op(op), t);
    Split(code, pc, l, r, t);
    AddressParts(code, pc, k, loff, t);
    AddressParts(code, pc + 16, k + 2, roff, t);
  }

  lemma AddressLen(k: nat, off: nat)
    ensures Len([Iter(k), With(W_SELF, off), Iter(k + 1), Op(W_INDF)]) == 16
  {
    var x, y, z, v := Iter(k), With(W_SELF, off), Iter(k + 1), Op(W_INDF);
    assert [x, y, z, v] == [x] + [y] + [z] + [v];
    LenCat([x] + [y] + [z], [v]);
    LenCat([x] + [y], [z]);
    LenCat([x], [y]);
    assert [x][1..] == [] && [y][1..] == [] && [z][1..] == [] && [v][1..] == [];
  }

  lemma AddressParts(code: seq<Byte>, pc: int, k: nat, off: nat, t: Targets)
    requires At(code, pc, [Iter(k), With(W_SELF, off), Iter(k + 1), Op(W_INDF)], t)
    ensures DecodeAt(code, pc) == Some(Instr(W_LDLO32, t.base + k))
    ensures DecodeAt(code, pc + 5) == Some(Instr(W_SELF, off))
    ensures DecodeAt(code, pc + 10) == Some(Instr(W_LDLO32, t.base + k + 1))
    ensures DecodeAt(code, pc + 15) == Some(Instr(W_INDF, 0))
  {
    hide DecodeAt;
    var x, y, z, v := Iter(k), With(W_SELF, off), Iter(k + 1), Op(W_INDF);
    assert [x, y, z, v] == [] + [x] + [y] + [z] + [v];
    SplitLast(code, pc, [] + [x] + [y] + [z], v, t);
    SplitLast(code, pc, [] + [x] + [y], z, t);
    SplitLast(code, pc, [] + [x], y, t);
    SplitLast(code, pc, [], x, t);
  }

  /** The instruction of a field copy converts to the left field's type. */
  lemma FieldStored(p: Pair, a: Operand, b: Operand, st: Store)
    requires CopyOpcode(p) != W_NA
    ensures Stored(FieldTy(p.l), a, b, st) == Assigned(CopyOpcode(p), a, b, st)
  {
    assert CopyOpcode(p) == StoreOpcode(FieldTy(p.l), FieldTy(p.r));
    StoredIs(FieldTy(p.l), FieldTy(p.r), a, b, st);
  }

  lemma CopyOpcodeKind(p: Pair)
    requires CopyOpcode(p) != W_NA
    ensures KindOf(CopyOpcode(p)) == Stores && OperandSize(CopyOpcode(p)) == 0
  {
  }

  /** One field is copied and leaves one value on the stack. */
  lemma SimField(p: Pair, loff: nat, roff: nat, o: Four, u: Unit, pc: int, st: Store, extra: seq<Cell>, k: nat, t: Targets)
    returns (n: nat, left: Cell)
    requires CopyOpcode(p) != W_NA && FourFit(o, st) && t.base + k == |Frame(st)|
    requires At(u.code, pc, FieldCode(k, loff, roff, CopyOpcode(p)), t)
    requires ConstantPool.CString(u.consts, loff) == p.l.name && ConstantPool.CString(u.consts, roff) == p.r.name
    ensures var w := CopyField(p, o.a, o.b, o.c, o.d, st);
            var temps := FourCells(o, |st.locals|) + extra;
            Steps(u, Conf(pc, st, temps), n)
              == if w.None? then State.Raised else Conf(pc + 33, st.(w := w.value), temps + [left])
  {
    hide DecodeAt, Frame, Steps, Conf, Low, FieldValue, At, Assigned, Stored, CopyOpcode, KindOf, OperandSize, ConstantPool.CString;
    CopyOpcodeKind(p);
    FieldParts(u.code, pc, k, loff, roff, CopyOpcode(p), t);
    var m, j := |st.locals|, t.base + k;
    var temps := FourCells(o, m) + extra;
    n := AddressSteps(u, pc, st, temps, j, j + 1, loff, p.l.name, o.a, o.b);
    left := Imm(Null);
    var f := FieldValue(o.a, p.l.name, o.b, st);
    if f.Some? {
      var temps1 := temps + [Low(V(f.value), m)];
      var i := AddressSteps(u, pc + 16, st, temps1, j + 2, j + 3, roff, p.r.name, o.c, o.d);
      StepsAdd(u, Conf(pc, st, temps), n, i);
      n := n + i;
      var g := FieldValue(o.c, p.r.name, o.d, st);
      if g.Some? {
        FieldStored(p, V(f.value), V(g.value), st);
        StoreStep(u, CopyOpcode(p), pc + 32, st, temps, V(f.value), V(g.value));
        StepsAdd(u, Conf(pc, st, temps), n, 1);
        n := n + 1;
        var r := Assigned(CopyOpcode(p), V(f.value), V(g.value), st);
        if r.Value? {
          left := Low(r.o, m);
          AssignedValue(CopyOpcode(p), f.value, g.value, st);
        }
      }
    }
  }

  /** Storing through a value changes the arrays and tables only. */
  lemma AssignedValue(op: Byte, d: Val, s: Val, st: Store)
    ensures var r := Assigned(op, V(d), V(s), st); r.Value? ==> r.st == st.(w := r.st.w)
  {
  }

  lemma {:induction false} SimFields(pairs: seq<Pair>, pool: seq<Byte>, o: Four, u: Unit, pc: int, st: Store, extra: seq<Cell>,
                                     k: nat, t: Targets) returns (n: nat, left: seq<Cell>)
    requires GenFields(pairs, k, pool).Some? && GenFields(pairs, k, pool).value.pool <= u.consts
    requires FourFit(o, st) && t.base + k == |Frame(st)|
    requires At(u.code, pc, GenFields(pairs, k, pool).value.code, t)
    ensures |left| == |pairs|
    ensures var w := CopyFields(pairs, o.a, o.b, o.c, o.d, st);
            var temps := FourCells(o, |st.locals|) + extra;
            Steps(u, Conf(pc, st, temps), n)
              == if w.None? then State.Raised
                 else Conf(pc + Len(GenFields(pairs, k, pool).value.code), st.(w := w.value), temps + left)
    decreases pairs
  {
    hide At, DecodeAt, Conf, Steps, Low, CopyField, CopyOpcode, FieldCode, FourCells, FourFit, ConstantPool.Add, ConstantPool.CString, ConstantPool.Holds, Frame;
    var temps := FourCells(o, |st.locals|) + extra;
    n, left := 0, [];
    if pairs == [] {
      NoSteps(u, Conf(pc, st, temps));
      assert temps + left == temps;
    } else {
      var p := pairs[0];
      var a, b, rest := FieldPoolParts(pairs, k, pool, u.consts);
      var f := FieldCode(k, a, b, CopyOpcode(p));
      FourFitStays(o, st);
      Split(u.code, pc, f, GenFields(pairs[1..], k, rest).value.code, t);
      var cell;
      FieldLen(p, k, a, b);
      n, cell := SimField(p, a, b, o, u, pc, st, extra, k, t);
      left := seq(|pairs|, _ => cell);
      var w := CopyField(p, o.a, o.b, o.c, o.d, st);
      if w.Some? {
        var st1 := st.(w := w.value);
        assert temps + [cell] == FourCells(o, |st.locals|) + (extra + [cell]);
        var m, more := SimFields(pairs[1..], rest, o, u, pc + Len(f), st1, extra + [cell], k, t);
        StepsAdd(u, Conf(pc, st, temps), n, m);
        n := n + m;
        left := [cell] + more;
        assert temps + left == FourCells(o, |st.locals|) + (extra + [cell]) + more;
      }
    }
  }

  lemma FourFitStays(o: Four, st: Store)
    ensures forall w :: FourFit(o, st.(w := w)) == FourFit(o, st)
  {
  }

  lemma FieldLen(p: Pair, k: nat, a: nat, b: nat)
    requires CopyOpcode(p) != W_NA
    ensures Len(FieldCode(k, a, b, CopyOpcode(p))) == 33
  {
    hide CopyOpcode, KindOf, OperandSize;
    CopyOpcodeKind(p);
    var op := CopyOpcode(p);
    AddressLen(k, a);
    AddressLen(k + 2, b);
    var l := [Iter(k), With(W_SELF, a), Iter(k + 1), Op(W_INDF)];
    var r := [Iter(k + 2), With(W_SELF, b), Iter(k + 3), Op(W_INDF)];
    assert FieldCode(k, a, b, op) == l + r + [Op(op)];
    LenCat(l + r, [Op(op)]);
    LenCat(l, r);
    assert [Op(op)][1..] == [];
  }

  /** The names of the first pair stand in the constant area at the offsets its
      code uses. */
  lemma FieldPoolParts(pairs: seq<Pair>, k: nat, pool: seq<Byte>, consts: seq<Byte>) returns (a: nat, b: nat, rest: seq<Byte>)
    requires pairs != [] && GenFields(pairs, k, pool).Some? && GenFields(pairs, k, pool).value.pool <= consts
    ensures CopyOpcode(pairs[0]) != W_NA
    ensures ConstantPool.CString(consts, a) == pairs[0].l.name && ConstantPool.CString(consts, b) == pairs[0].r.name
    ensures GenFields(pairs[1..], k, rest).Some?
    ensures GenFields(pairs, k, pool).value.pool == GenFields(pairs[1..], k, rest).value.pool
    ensures GenFields(pairs, k, pool).value.code
         == FieldCode(k, a, b, CopyOpcode(pairs[0])) + GenFields(pairs[1..], k, rest).value.code
  {
    hide CopyOpcode, FieldCode, ConstantPool.CString, ConstantPool.Holds;
    var x := ConstantPool.Add(pool, pairs[0].l.name);
    var y := ConstantPool.Add(x.1, pairs[0].r.name);
    a, b, rest := x.0, y.0, y.1;
    FieldsGrow(pairs[1..], k, rest);
    ConstantPool.HoldsGrows(x.1, consts, a, pairs[0].l.name);
    ConstantPool.HoldsGrows(y.1, consts, b, pairs[0].r.name);
    ConstantPool.HoldsReads(consts, a, pairs[0].l.name);
    ConstantPool.HoldsReads(consts, b, pairs[0].r.name);
  }

  // ----- the four operands -----

  datatype FourResult = NotFour | AllFour(o: Four, st: Store)

  function EvalFour(lt: Exp, li: Exp, rt: Exp, ri: Exp, env: Env, calls: Calls, st: Store): FourResult
    requires GenExp(lt, env).Some? && GenExp(li, env).Some? && GenExp(rt, env).Some? && GenExp(ri, env).Some?
  {
    var x := EvalBoth(lt, li, env, calls, st);
    if x.NotBoth? then NotFour
    else
      var y := EvalBoth(rt, ri, env, calls, x.st);
      if y.NotBoth? then NotFour else AllFour(Four(x.a, x.b, y.a, y.b), y.st)
  }

  lemma CopyUnfold(lt: Exp, li: Exp, rt: Exp, ri: Exp, pairs: seq<Pair>, env: Env, calls: Calls, st: Store)
    requires GenExp(lt, env).Some? && GenExp(li, env).Some? && GenExp(rt, env).Some? && GenExp(ri, env).Some?
    ensures var x := EvalFour(lt, li, rt, ri, env, calls, st);
            ExecCopy(lt, li, rt, ri, pairs, env, calls, st) ==
              if x.NotFour? then Failed
              else
                var w := CopyFields(pairs, x.o.a, x.o.b, x.o.c, x.o.d, x.st);
                if w.None? then Failed else Normal(x.st.(w := w.value))
  {
    hide Eval, GenExp, CopyFields;
  }

  function HeadCode(lt: Exp, li: Exp, rt: Exp, ri: Exp, env: Env): seq<Item>
    requires GenExp(lt, env).Some? && GenExp(li, env).Some? && GenExp(rt, env).Some? && GenExp(ri, env).Some?
  {
    GenExp(lt, env).value.code + GenExp(li, env).value.code + GenExp(rt, env).value.code + GenExp(ri, env).value.code
  }

  lemma HeadParts(code: seq<Byte>, pc: int, lt: Exp, li: Exp, rt: Exp, ri: Exp, env: Env, t: Targets)
    requires GenExp(lt, env).Some? && GenExp(li, env).Some? && GenExp(rt, env).Some? && GenExp(ri, env).Some?
    requires At(code, pc, HeadCode(lt, li, rt, ri, env), t)
    ensures var a, b := GenExp(lt, env).value.code, GenExp(li, env).value.code;
            var c, d := GenExp(rt, env).value.code, GenExp(ri, env).value.code;
            && At(code, pc, a, t) && At(code, pc + Len(a), b, t)
            && At(code, pc + Len(a) + Len(b), c, t) && At(code, pc + Len(a) + Len(b) + Len(c), d, t)
            && Len(HeadCode(lt, li, rt, ri, env)) == Len(a) + Len(b) + Len(c) + Len(d)
  {
    hide At, Len, GenExp;
    var a, b, c, d := GenExp(lt, env).value.code, GenExp(li, env).value.code, GenExp(rt, env).value.code,
                      GenExp(ri, env).value.code;
    Split(code, pc, a + b + c, d, t);
    Split(code, pc, a + b, c, t);
    Split(code, pc, a, b, t);
  }

  function AfterFour(x: Both, y: Both, pc: int, k: nat): State
    requires x.Both?
  {
    if y.NotBoth? then State.Raised else Conf(pc, y.st, FourCells(Four(x.a, x.b, y.a, y.b), k))
  }

  predicate FourShaped(x: Both, y: Both, st: Store)
    requires x.Both?
  {
    y.Both? ==> SameShape(st, y.st) && FourFit(Four(x.a, x.b, y.a, y.b), y.st)
  }

  /** Two operands above two others. */
  lemma FourAbove(x: Both, y: Both, st: Store, pc: int, k: nat)
    requires x.Both? && BothShaped(x, st) && BothShaped(y, x.st)
    ensures AfterBoth(y, pc, [Low(x.a, k), Low(x.b, k)], k) == AfterFour(x, y, pc, k)
    ensures FourShaped(x, y, st)
  {
    hide Conf, Low;
    if y.Both? {
      StillFits(x.a, x.st, y.st);
      StillFits(x.b, x.st, y.st);
      assert [Low(x.a, k), Low(x.b, k)] + [Low(y.a, k)] + [Low(y.b, k)] == FourCells(Four(x.a, x.b, y.a, y.b), k);
    }
  }

  /** The right operands, evaluated above the left ones. */
  lemma SimRight(x: Both, rt: Exp, ri: Exp, env: Env, u: Unit, pc: int, st: Store, t: Targets) returns (n: nat)
    requires x.Both? && BothShaped(x, st) && Ready(env, st, t) && Linked(u, env)
    requires GenExp(rt, env).Some? && GenExp(ri, env).Some? && FewMissing(rt, env.procs) && FewMissing(ri, env.procs)
    requires At(u.code, pc, GenExp(rt, env).value.code, t)
    requires At(u.code, pc + Len(GenExp(rt, env).value.code), GenExp(ri, env).value.code, t)
    ensures var y := EvalBoth(rt, ri, env, u.calls, x.st);
            var end := pc + Len(GenExp(rt, env).value.code) + Len(GenExp(ri, env).value.code);
            && Steps(u, Conf(pc, x.st, [Low(x.a, |st.locals|), Low(x.b, |st.locals|)]), n)
                 == AfterFour(x, y, end, |st.locals|)
            && FourShaped(x, y, st)
  {
    hide At, Steps, DecodeAt, Conf, Linked, Len, GenExp, EvalBoth, Low, FewMissing, AfterBoth, AfterFour, FourShaped, Fits;
    var k, end := |st.locals|, pc + Len(GenExp(rt, env).value.code) + Len(GenExp(ri, env).value.code);
    n := SimPair(Index(rt, ri), rt, ri, env, u, pc, x.st, [Low(x.a, k), Low(x.b, k)], t);
    FourAbove(x, EvalBoth(rt, ri, env, u.calls, x.st), st, end, k);
  }

  lemma SimFour(lt: Exp, li: Exp, rt: Exp, ri: Exp, env: Env, u: Unit, pc: int, st: Store, t: Targets) returns (n: nat)
    requires GenExp(lt, env).Some? && GenExp(li, env).Some? && GenExp(rt, env).Some? && GenExp(ri, env).Some?
    requires FourFewMissing(lt, li, rt, ri, env.procs) && Ready(env, st, t) && Linked(u, env)
    requires At(u.code, pc, HeadCode(lt, li, rt, ri, env), t)
    ensures var x := EvalFour(lt, li, rt, ri, env, u.calls, st);
            && Steps(u, Conf(pc, st, []), n)
                 == (if x.NotFour? then State.Raised
                     else Conf(pc + Len(HeadCode(lt, li, rt, ri, env)), x.st, FourCells(x.o, |st.locals|)))
            && (x.AllFour? ==> SameShape(st, x.st) && FourFit(x.o, x.st))
  {
    hide At, Steps, DecodeAt, Conf, Linked, Len, GenExp, EvalBoth, Low, HeadCode, FewMissing, FourCells, FourFit;
    HeadParts(u.code, pc, lt, li, rt, ri, env, t);
    n := SimPair(Index(lt, li), lt, li, env, u, pc, st, [], t);
    var x := EvalBoth(lt, li, env, u.calls, st);
    if x.Both? {
      var k, at := |st.locals|, pc + Len(GenExp(lt, env).value.code) + Len(GenExp(li, env).value.code);
      var m := SimRight(x, rt, ri, env, u, at, st, t);
      assert [] + [Low(x.a, k)] + [Low(x.b, k)] == [Low(x.a, k), Low(x.b, k)];
      StepsAdd(u, Conf(pc, st, []), n, m);
      n := n + m;
    }
  }

  lemma StillFits(o: Operand, st: Store, st1: Store)
    requires Fits(o, st) && SameShape(st, st1)
    ensures Fits(o, st1)
  {
  }

  /** The drop after a row copy of 252 fields drops nothing at all. */
  lemma TooManyFields(u: Unit, pc: int, st: Store, temps: seq<Cell>, t: Targets)
    requires At(u.code, pc, [Drop(4 + 252)], t)
    ensures Steps(u, Conf(pc, st, temps), 1) == Conf(pc + 2, st, temps)
  {
    hide Conf, Steps, DecodeAt;
    assert [Drop(4 + 252)] == [] + [With(W_CTS, 0)];
    SplitLast(u.code, pc, [], With(W_CTS, 0), t);
    assert temps + [] == temps;
    DropStep(u, 0, pc, st, temps, []);
  }

  /** A whole row copy: operands, fields, and the drop of what they left. The
      count of the drop has one byte, so everything is dropped if and only if at
      most 251 fields were copied. */
  lemma SimCopy(lt: Exp, li: Exp, rt: Exp, ri: Exp, pairs: seq<Pair>, env: Env, u: Unit, pc: int, st: Store, t: Targets)
    returns (n: nat, rest: seq<Cell>)
    requires GenExp(lt, env).Some? && GenExp(li, env).Some? && GenExp(rt, env).Some? && GenExp(ri, env).Some?
    requires FourFewMissing(lt, li, rt, ri, env.procs) && Ready(env, st, t) && Linked(u, env)
    requires GenCopy(HeadCode(lt, li, rt, ri, env), pairs, env).Some?
    requires GenCopy(HeadCode(lt, li, rt, ri, env), pairs, env).value.env.pool <= u.consts
    requires At(u.code, pc, GenCopy(HeadCode(lt, li, rt, ri, env), pairs, env).value.code, t)
    ensures rest == [] <==> |pairs| <= 251
    ensures var r := ExecCopy(lt, li, rt, ri, pairs, env, u.calls, st);
            var end := pc + Len(GenCopy(HeadCode(lt, li, rt, ri, env), pairs, env).value.code);
            && Steps(u, Conf(pc, st, []), n) == (if r.Normal? then Conf(end, r.st, rest) else State.Raised)
            && (r.Normal? || r.Failed?) && (r.Normal? ==> SameShape(st, r.st))
  {
    hide At, Steps, DecodeAt, Conf, Linked, Len, GenExp, EvalFour, Low, HeadCode, GenFields, ExecCopy, CopyFields, FourCells;
    CopyUnfold(lt, li, rt, ri, pairs, env, u.calls, st);
    var head := HeadCode(lt, li, rt, ri, env);
    var k := |env.iters|;
    var f := GenFields(pairs, k, env.pool).value.code;
    var drop := (4 + |pairs|) % 256;
    rest := seq(4 + |pairs| - drop, _ => Imm(Null));
    SplitLast(u.code, pc, head + f, Drop(4 + |pairs|), t);
    Split(u.code, pc, head, f, t);
    n := SimFour(lt, li, rt, ri, env, u, pc, st, t);
    var x := EvalFour(lt, li, rt, ri, env, u.calls, st);
    if x.AllFour? {
      var cells := FourCells(x.o, |st.locals|);
      assert cells + [] == cells;
      var m, left := SimFields(pairs, env.pool, x.o, u, pc + Len(head), x.st, [], k, t);
      StepsAdd(u, Conf(pc, st, []), n, m);
      n := n + m;
      var w := CopyFields(pairs, x.o.a, x.o.b, x.o.c, x.o.d, x.st);
      if w.Some? {
        FourCount(x.o, |st.locals|, left);
        var all := cells + left;
        rest := all[..|all| - drop];
        assert rest + all[|all| - drop..] == all;
        DropStep(u, drop, pc + Len(head) + Len(f), x.st.(w := w.value), rest, all[|all| - drop..]);
        StepsAdd(u, Conf(pc, st, []), n, 1);
        n := n + 1;
      }
    }
  }

  lemma FourCount(o: Four, n: nat, left: seq<Cell>)
    ensures |FourCells(o, n) + left| == 4 + |left|
  {
  }
}
