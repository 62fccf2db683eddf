/** The interpreter of one procedure call: it decodes the instruction at the
    program counter and runs it on the call's part of the value stack. */
module Machine {
  import opened Bytes
  import opened Wrappers
  import opened Syntax
  import opened Instructions
  import opened Data
  import opened ValueOps
  import ConstantPool

  /** A stack cell holds a value or refers to another cell of the frame. */
  datatype Cell = Imm(v: Val) | Slot(j: nat)

  datatype Unit = Unit(code: seq<Byte>, consts: seq<Byte>, procs: seq<Proc>, calls: Calls)

  datatype Config = Config(pc: int, stack: seq<Cell>, w: World)

  /** FellOff: the end of the code was reached without a return. Raised: a
      run-time exception or a division that traps. Corrupt: a state the
      interpreter's assertions exclude, such as an invalid opcode or too few
      values on the stack. */
  datatype State = Running(c: Config) | Done(v: Val, w: World) | FellOff | Raised | Corrupt

  /** The cell that finally holds the value cell i refers to. */
  function Follow(stack: seq<Cell>, i: nat): (r: nat)
    requires i < |stack|
    ensures r <= i
    decreases i
  {
    if stack[i].Slot? && stack[i].j < i then Follow(stack, stack[i].j) else i
  }

  /** The value of cell i, not loaded through element references. */
  function RawAt(stack: seq<Cell>, i: nat): Val
    requires i < |stack|
  {
    var c := stack[Follow(stack, i)];
    if c.Imm? then c.v else Null
  }

  datatype Effect = Ok(stack: seq<Cell>, w: World) | Exception | Malformed

  function Push(stack: seq<Cell>, v: Option<Val>, w: World): Effect {
    if v.None? then Exception else Ok(stack + [Imm(v.value)], w)
  }

  function Nulls(n: nat): (r: seq<Cell>)
    ensures |r| == n
  {
    seq(n, _ => Imm(Null))
  }

  function StoreTop(op: Byte, stack: seq<Cell>, w: World): Effect
    requires |stack| >= 2
  {
    var n := |stack|;
    var x := Load(RawAt(stack, n - 1), w);
    if x.None? then Exception
    else
      var y := Convert(op, x.value);
      if y.None? then Exception
      else
        var d := Follow(stack, n - 2);
        var u := Update(RawAt(stack, n - 2), y.value, w);
        if u.None? then Exception else Ok(stack[..n - 1][d := Imm(u.value.0)], u.value.1)
  }

  function BinTop(op: Byte, stack: seq<Cell>, w: World): Effect
    requires |stack| >= 2
  {
    var n := |stack|;
    Push(stack[..n - 2], BinLoaded(op, Load(RawAt(stack, n - 2), w), Load(RawAt(stack, n - 1), w)), w)
  }

  function IndexTop(op: Byte, stack: seq<Cell>, w: World): Effect
    requires |stack| >= 2
  {
    var n := |stack|;
    var x := Load(RawAt(stack, n - 1), w);
    if x.None? then Exception else Push(stack[..n - 2], ElementOf(op, RawAt(stack, n - 2), x.value), w)
  }

  function SelfTop(name: seq<Byte>, stack: seq<Cell>, w: World): Effect
    requires |stack| >= 1
  {
    var v := RawAt(stack, |stack| - 1);
    if name == [] || 0 in name then Malformed
    else Push(stack[..|stack| - 1], TableField(v, name, w), w)
  }

  function StartTop(reverse: bool, stack: seq<Cell>, w: World): Effect
    requires |stack| >= 1
  {
    match StartIter(reverse, RawAt(stack, |stack| - 1), w)
    case None => Exception
    case Some(Empty) => Ok(stack + [Imm(Truth(false))], w)
    case Some(From(it)) => Ok(stack[..|stack| - 1] + [Imm(it), Imm(Truth(true))], w)
  }

  function NextTop(reverse: bool, stack: seq<Cell>, w: World): Effect
    requires |stack| >= 1
  {
    var d := Follow(stack, |stack| - 1);
    match NextIter(reverse, RawAt(stack, |stack| - 1), w)
    case None => Exception
    case Some(Empty) => Ok(stack + [Imm(Truth(false))], w)
    case Some(From(it)) => Ok(stack[d := Imm(it)] + [Imm(Truth(true))], w)
  }

  function NullTop(positive: bool, stack: seq<Cell>, w: World): Effect
    requires |stack| >= 1
  {
    var t := NullTest(RawAt(stack, |stack| - 1), w);
    Push(stack[..|stack| - 1], if t.None? then None else Some(Truth(t.value == positive)), w)
  }

  function NotTop(op: Byte, stack: seq<Cell>, w: World): Effect
    requires |stack| >= 1
  {
    var x := Load(RawAt(stack, |stack| - 1), w);
    Push(stack[..|stack| - 1], if x.None? then None else NotVal(op, x.value), w)
  }

  function OffsetTop(stack: seq<Cell>, w: World): Effect
    requires |stack| >= 1
  {
    var v := RawAt(stack, |stack| - 1);
    Push(stack[..|stack| - 1], if v.ElemAt? then Some(Num(v.i)) else None, w)
  }

  function CallTop(u: Unit, p: nat, stack: seq<Cell>, w: World): Effect {
    if p >= |u.procs| || |stack| < |u.procs[p].params| then Malformed
    else
      var m := |stack| - |u.procs[p].params|;
      var r := u.calls(p, seq(|stack| - m, i requires 0 <= i < |stack| - m => RawAt(stack, m + i)), w);
      if r.None? then Exception else Ok(stack[..m] + [Imm(r.value.0)], r.value.1)
  }

  datatype Kind =
    | LoadNulls | LoadInt | LoadTruth | LoadSlot | DropCells | Stores | Binary | Indexing | NullTests | Negation
    | FieldOfTable | StartsLoop | NextInLoop | IterOffset | CallsProc | Jump | CondJump | Returns | Unsupported

  function KindOf(op: Byte): Kind {
    if op == W_LDNULL then LoadNulls
    else if W_LDI8 <= op <= W_LDI64 then LoadInt
    else if op == W_LDBT || op == W_LDBF then LoadTruth
    else if W_LDLO8 <= op <= W_LDLO32 then LoadSlot
    else if op == W_CTS then DropCells
    else if op == W_STB || op == W_STA || W_STI8 <= op <= W_STI64 || W_STUI8 <= op <= W_STUI64 then Stores
    else if op == W_INULL || op == W_NNULL then NullTests
    else if op == W_CALL then CallsProc
    else if op == W_RET then Returns
    else if op in {W_ADD, W_AND, W_ANDB, W_DIV, W_DIVU, W_EQ, W_EQB, W_GE, W_GEU, W_GT, W_GTU, W_LE, W_LEU, W_LT,
                   W_LTU, W_MOD, W_MODU, W_MUL, W_MULU, W_NE, W_NEB, W_OR, W_ORB, W_SUB, W_XOR, W_XORB} then Binary
    else if op == W_NOT || op == W_NOTB then Negation
    else if W_JF <= op <= W_JTC then CondJump
    else if op == W_JMP then Jump
    else if op == W_INDA || op == W_INDF then Indexing
    else if op == W_SELF then FieldOfTable
    else if op == W_ITF || op == W_ITL then StartsLoop
    else if op == W_ITN || op == W_ITP then NextInLoop
    else if op == W_ITOFF then IterOffset
    else Unsupported
  }

  /** How many values an instruction needs on the stack. */
  function Needs(k: Kind): nat {
    match k
    case Stores => 2 case Binary => 2 case Indexing => 2
    case NullTests => 1 case Negation => 1 case FieldOfTable => 1 case StartsLoop => 1 case NextInLoop => 1
    case IterOffset => 1 case CondJump => 1 case Returns => 1
    case _ => 0
  }

  /** The effect on the stack of an instruction that only moves to the next one. */
  function DataStep(u: Unit, i: Instr, stack: seq<Cell>, w: World): Effect
    requires |stack| >= Needs(KindOf(i.op))
  {
    if i.arg < 0 then Malformed
    else
      match KindOf(i.op)
      case LoadNulls => Ok(stack + Nulls(i.arg), w)
      case LoadInt => Ok(stack + [Imm(Num(i.arg))], w)
      case LoadTruth => Ok(stack + [Imm(Truth(i.op == W_LDBT))], w)
      case LoadSlot => if i.arg < |stack| then Ok(stack + [Slot(i.arg)], w) else Malformed
      case DropCells => if i.arg <= |stack| then Ok(stack[..|stack| - i.arg], w) else Malformed
      case Stores => StoreTop(i.op, stack, w)
      case Binary => BinTop(i.op, stack, w)
      case Indexing => IndexTop(i.op, stack, w)
      case NullTests => NullTop(i.op == W_INULL, stack, w)
      case Negation => NotTop(i.op, stack, w)
      case FieldOfTable => SelfTop(ConstantPool.CString(u.consts, i.arg), stack, w)
      case StartsLoop => StartTop(i.op == W_ITL, stack, w)
      case NextInLoop => NextTop(i.op == W_ITP, stack, w)
      case IterOffset => OffsetTop(stack, w)
      case CallsProc => CallTop(u, i.arg, stack, w)
      case _ => Malformed
  }

  /** A conditional jump is taken on its own truth value only, so never on a
      null; two of the four pop the value they test. */
  function JumpStep(i: Instr, c: Config): State
    requires |c.stack| >= 1
  {
    var n := |c.stack|;
    var x := Condition(RawAt(c.stack, n - 1), c.w);
    if x.None? then Raised
    else
      var taken := x.value == Truth(i.op == W_JT || i.op == W_JTC);
      var stack := if i.op == W_JFC || i.op == W_JTC then c.stack[..n - 1] else c.stack;
      Running(Config(c.pc + if taken then i.arg else Size(i), stack, c.w))
  }

  function Proceed(e: Effect, pc: int): State {
    match e
    case Ok(stack, w) => Running(Config(pc, stack, w))
    case Exception => Raised
    case Malformed => Corrupt
  }

  function Execute(u: Unit, i: Instr, c: Config): State {
    var k := KindOf(i.op);
    if |c.stack| < Needs(k) then Corrupt
    else
      match k
      case Jump => Running(Config(c.pc + i.arg, c.stack, c.w))
      case CondJump => JumpStep(i, c)
      case Returns => Done(RawAt(c.stack, |c.stack| - 1), c.w)
      case _ => Proceed(DataStep(u, i, c.stack, c.w), c.pc + Size(i))
  }

  function Step(u: Unit, s: State): State {
    if !s.Running? then s
    else if s.c.pc == |u.code| then FellOff
    else
      var i := DecodeAt(u.code, s.c.pc);
      if i.None? then Corrupt else Execute(u, i.value, s.c)
  }

  function Steps(u: Unit, s: State, n: nat): State
    decreases n
  {
    if n == 0 then s else Steps(u, Step(u, s), n - 1)
  }

  lemma {:induction false} StepsAdd(u: Unit, s: State, m: nat, n: nat)
    ensures Steps(u, s, m + n) == Steps(u, Steps(u, s, m), n)
    decreases m
  {
    if m > 0 {
      StepsAdd(u, Step(u, s), m - 1, n);
    }
  }

  lemma {:induction false} StepsStopped(u: Unit, s: State, n: nat)
    requires !s.Running?
    ensures Steps(u, s, n) == s
  {
    if n > 0 {
      StepsStopped(u, s, n - 1);
    }
  }
}
