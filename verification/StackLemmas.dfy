/** How the interpreter's stack represents the source-level store, and what
    each data instruction does to that representation. */
module StackLemmas {
  import opened Bytes
  import opened Wrappers
  import opened Syntax
  import opened Instructions
  import opened Operators
  import opened Data
  import opened ValueOps
  import opened Machine
  import opened Semantics
  import opened Meaning
  import opened OpcodeMeaning

  /** The locals at the bottom of the frame, the iterators right above them. */
  function Frame(st: Store): (r: seq<Cell>)
    ensures |r| == |st.locals| + |st.iters|
  {
    seq(|st.locals| + |st.iters|, i requires 0 <= i < |st.locals| + |st.iters| =>
      Imm(if i < |st.locals| then st.locals[i] else st.iters[i - |st.locals|]))
  }

  /** The cell that stands for an operand when the frame has n locals. */
  function Low(o: Operand, n: nat): Cell {
    match o case V(v) => Imm(v) case L(i) => Slot(i) case It(k) => Slot(n + k)
  }

  predicate Fits(o: Operand, st: Store) {
    match o case V(_) => true case L(i) => i < |st.locals| case It(k) => k < |st.iters|
  }

  predicate SameShape(a: Store, b: Store) {
    |a.locals| == |b.locals| && |a.iters| == |b.iters|
  }

  /** The machine running at pc with some values above the frame. */
  function Conf(pc: int, st: Store, temps: seq<Cell>): (s: State)
    ensures s.Running?
  {
    Running(Config(pc, Frame(st) + temps, st.w))
  }

  function Cells(os: seq<Operand>, n: nat): (r: seq<Cell>)
    ensures |r| == |os|
  {
    seq(|os|, i requires 0 <= i < |os| => Low(os[i], n))
  }

  // ----- what the instructions make of operands -----

  function Combine(op: Byte, a: Operand, b: Operand, st: Store): Result {
    Pure(BinLoaded(op, Read(a, st), Read(b, st)), st)
  }

  function Assigned(op: Byte, d: Operand, s: Operand, st: Store): Result {
    var x := Read(s, st);
    if x.None? then Raises
    else
      var y := Convert(op, x.value);
      if y.None? then Raises
      else
        var u := Update(Raw(d, st), y.value, st.w);
        if u.None? then Raises
        else
          var (o, st') := Put(d, u.value.0, u.value.1, st);
          Value(o, st')
  }

  function Element(op: Byte, a: Operand, b: Operand, st: Store): Result {
    var x := Read(b, st);
    Pure(if x.None? then None else ElementOf(op, Raw(a, st), x.value), st)
  }

  /** The chosen instruction makes of two operands what the operator means. */
  lemma AppliedIs(op: BinOp, f: Base, s: Base, a: Operand, b: Operand, st: Store)
    requires BinOpcode(op, f, s) != W_NA
    ensures Applied(op, f, s, a, b, st) == Combine(BinOpcode(op, f, s), a, b, st)
  {
    hide BinLoaded, Operate, BinOpcode, Read;
    OperatorMeaning(op, f, s, Read(a, st), Read(b, st));
  }

  lemma StoredIs(t: Ty, s: Ty, a: Operand, b: Operand, st: Store)
    requires StoreOpcode(t, s) != W_NA
    ensures Stored(t, a, b, st) == Assigned(StoreOpcode(t, s), a, b, st)
  {
    hide Convert, Converted, StoreOpcode, Read, Raw, Put, Update;
    var x := Read(b, st);
    if x.Some? {
      StoreMeaning(t, s, x.value);
    }
  }

  lemma SelectedIs(a: Operand, b: Operand, st: Store)
    ensures Selected(a, b, st) == Element(W_INDA, a, b, st)
  {
    hide ArrayElement, Read, Raw;
  }

  lemma RawOf(stack: seq<Cell>, i: nat, o: Operand, st: Store)
    requires |Frame(st)| <= i < |stack| && Frame(st) <= stack
    requires stack[i] == Low(o, |st.locals|) && Fits(o, st)
    ensures RawAt(stack, i) == Raw(o, st)
    ensures Follow(stack, i) == match o case V(_) => i case L(j) => j case It(k) => |st.locals| + k
  {
    if o.L? {
      assert stack[o.i] == Frame(st)[o.i];
      assert Follow(stack, o.i) == o.i;
    } else if o.It? {
      assert stack[|st.locals| + o.k] == Frame(st)[|st.locals| + o.k];
      assert Follow(stack, |st.locals| + o.k) == |st.locals| + o.k;
    }
  }

  /** The effect of an instruction that computes an operand. */
  function Computed(r: Result, temps: seq<Cell>, n: nat): Effect {
    match r
    case Raises => Exception
    case Value(o, st) => Ok(Frame(st) + (temps + [Low(o, n)]), st.w)
  }

  lemma PushPure(v: Option<Val>, st: Store, temps: seq<Cell>)
    ensures Push(Frame(st) + temps, v, st.w) == Computed(Pure(v, st), temps, |st.locals|)
  {
    if v.Some? {
      assert Frame(st) + temps + [Imm(v.value)] == Frame(st) + (temps + [Imm(v.value)]);
    }
  }

  lemma BinaryEffect(op: Byte, st: Store, temps: seq<Cell>, a: Operand, b: Operand)
    requires Fits(a, st) && Fits(b, st)
    ensures var n := |st.locals|;
            BinTop(op, Frame(st) + (temps + [Low(a, n), Low(b, n)]), st.w) == Computed(Combine(op, a, b, st), temps, n)
  {
    hide Load, BinLoaded, RawAt, Follow, Raw;
    var n := |st.locals|;
    var stack := Frame(st) + (temps + [Low(a, n), Low(b, n)]);
    var m := |stack|;
    RawOf(stack, m - 2, a, st);
    RawOf(stack, m - 1, b, st);
    assert stack[..m - 2] == Frame(st) + temps;
    PushPure(BinLoaded(op, Read(a, st), Read(b, st)), st, temps);
  }

  lemma IndexEffect(op: Byte, st: Store, temps: seq<Cell>, a: Operand, b: Operand)
    requires Fits(a, st) && Fits(b, st)
    ensures var n := |st.locals|;
            IndexTop(op, Frame(st) + (temps + [Low(a, n), Low(b, n)]), st.w) == Computed(Element(op, a, b, st), temps, n)
  {
    hide Load, ElementOf, RawAt, Follow, Raw;
    var n := |st.locals|;
    var stack := Frame(st) + (temps + [Low(a, n), Low(b, n)]);
    var m := |stack|;
    RawOf(stack, m - 2, a, st);
    RawOf(stack, m - 1, b, st);
    assert stack[..m - 2] == Frame(st) + temps;
    var x := Read(b, st);
    PushPure(if x.None? then None else ElementOf(op, Raw(a, st), x.value), st, temps);
  }

  lemma StoreEffect(op: Byte, st: Store, temps: seq<Cell>, d: Operand, s: Operand)
    requires Fits(d, st) && Fits(s, st)
    ensures var n := |st.locals|;
            StoreTop(op, Frame(st) + (temps + [Low(d, n), Low(s, n)]), st.w) == Computed(Assigned(op, d, s, st), temps, n)
    ensures var r := Assigned(op, d, s, st); r.Value? ==> SameShape(st, r.st) && Fits(r.o, r.st)
  {
    hide Load, Update, Convert, RawAt, Raw, Follow;
    var n := |st.locals|;
    var stack := Frame(st) + (temps + [Low(d, n), Low(s, n)]);
    var m := |stack|;
    RawOf(stack, m - 2, d, st);
    RawOf(stack, m - 1, s, st);
    var r := Assigned(op, d, s, st);
    if r.Value? {
      var v := Update(Raw(d, st), Convert(op, Read(s, st).value).value, st.w).value;
      assert Put(d, v.0, v.1, st) == (r.o, r.st);
      var stack' := stack[..m - 1][Follow(stack, m - 2) := Imm(v.0)];
      assert stack' == Frame(r.st) + (temps + [Low(r.o, n)]);
    }
  }

  lemma UnaryEffect(op: Byte, positive: bool, st: Store, temps: seq<Cell>, a: Operand)
    requires Fits(a, st)
    ensures var n := |st.locals|;
            var stack := Frame(st) + (temps + [Low(a, n)]);
            var x := Read(a, st);
            var t := NullTest(Raw(a, st), st.w);
            && NotTop(op, stack, st.w) == Computed(Pure(if x.None? then None else NotVal(op, x.value), st), temps, n)
            && NullTop(positive, stack, st.w)
               == Computed(Pure(if t.None? then None else Some(Truth(t.value == positive)), st), temps, n)
            && OffsetTop(stack, st.w)
               == Computed(Pure(if Raw(a, st).ElemAt? then Some(Num(Raw(a, st).i)) else None, st), temps, n)
            && (|stack| > 0 && RawAt(stack, |stack| - 1) == Raw(a, st) && stack[..|stack| - 1] == Frame(st) + temps)
  {
    var n := |st.locals|;
    var stack := Frame(st) + (temps + [Low(a, n)]);
    var m := |stack|;
    RawOf(stack, m - 1, a, st);
    assert stack[..m - 1] == Frame(st) + temps;
    var x := Read(a, st);
    var t := NullTest(Raw(a, st), st.w);
    PushPure(if x.None? then None else NotVal(op, x.value), st, temps);
    PushPure(if t.None? then None else Some(Truth(t.value == positive)), st, temps);
    PushPure(if Raw(a, st).ElemAt? then Some(Num(Raw(a, st).i)) else None, st, temps);
  }

  // ----- loop iterators -----

  /** The store inside a loop that iterates with v. */
  function WithIter(st: Store, v: Val): Store { st.(iters := st.iters + [v]) }

  lemma FrameWithIter(st: Store, v: Val, temps: seq<Cell>)
    ensures Frame(WithIter(st, v)) + temps == Frame(st) + ([Imm(v)] + temps)
  {
  }

  lemma StartEffect(reverse: bool, st: Store, a: Operand)
    requires Fits(a, st)
    ensures var n := |st.locals|;
            StartTop(reverse, Frame(st) + [Low(a, n)], st.w) ==
              match StartIter(reverse, Raw(a, st), st.w)
              case None => Exception
              case Some(Empty) => Ok(Frame(st) + ([Low(a, n)] + [Imm(Truth(false))]), st.w)
              case Some(From(v)) => Ok(Frame(WithIter(st, v)) + [Imm(Truth(true))], st.w)
  {
    hide StartIter, Load, Follow, RawAt;
    var stack := Frame(st) + [Low(a, |st.locals|)];
    RawOf(stack, |stack| - 1, a, st);
    assert stack[..|stack| - 1] == Frame(st);
    assert stack + [Imm(Truth(false))] == Frame(st) + ([Low(a, |st.locals|)] + [Imm(Truth(false))]);
    match StartIter(reverse, Raw(a, st), st.w)
    case Some(From(v)) =>
      assert Frame(st) + [Imm(v), Imm(Truth(true))] == Frame(WithIter(st, v)) + [Imm(Truth(true))];
    case _ =>
  }

  lemma NextEffect(reverse: bool, st: Store)
    requires |st.iters| > 0
    ensures var k := |st.iters| - 1;
            NextTop(reverse, Frame(st), st.w) ==
              match NextIter(reverse, st.iters[k], st.w)
              case None => Exception
              case Some(Empty) => Ok(Frame(st) + [Imm(Truth(false))], st.w)
              case Some(From(v)) => Ok(Frame(st.(iters := st.iters[k := v])) + [Imm(Truth(true))], st.w)
  {
    hide NextIter;
    var k, m := |st.iters| - 1, |Frame(st)|;
    assert Follow(Frame(st), m - 1) == m - 1;
    match NextIter(reverse, st.iters[k], st.w)
    case Some(From(v)) => assert Frame(st)[m - 1 := Imm(v)] == Frame(st.(iters := st.iters[k := v]));
    case _ =>
  }
}
