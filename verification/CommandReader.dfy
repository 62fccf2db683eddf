/** The server's reading of the client's stack commands. */
module CommandReader {
  import opened Bytes
  import opened Wrappers
  import opened Connector

  /** How the handling of a frame ends: all of it was read, a command was
      refused, or the connection is given up. */
  datatype Ending = Complete | InvalidArguments | NotSupported | BrokenFrame

  /** A command and where the next one starts. */
  datatype Step<T> = Got(value: T, next: nat) | Stopped(ending: Ending)

  function Word16(d: seq<Byte>, off: nat): nat
    requires off + 2 <= |d|
  {
    FromLe(d[off..off + 2])
  }

  function Word32(d: seq<Byte>, off: nat): nat
    requires off + 4 <= |d|
  {
    FromLe(d[off..off + 4])
  }

  /** The length of the string at off. */
  function StrLen(d: seq<Byte>, off: nat): (n: nat)
    requires off <= |d|
    ensures off + n <= |d|
    decreases |d| - off
  {
    if off == |d| || d[off] == 0 then 0 else 1 + StrLen(d, off + 1)
  }

  lemma {:induction false} NoZeroInside(d: seq<Byte>, off: nat)
    requires off <= |d|
    ensures 0 !in d[off..off + StrLen(d, off)]
    decreases |d| - off
  {
    if off < |d| && d[off] != 0 {
      NoZeroInside(d, off + 1);
      assert d[off..off + StrLen(d, off)] == [d[off]] + d[off + 1..off + StrLen(d, off)];
    }
  }

  lemma {:induction false} StrLenOf(d: seq<Byte>, off: nat, name: seq<Byte>)
    requires 0 !in name && off + |name| < |d| && d[off..off + |name|] == name && d[off + |name|] == 0
    ensures StrLen(d, off) == |name|
    decreases |name|
  {
    if name != [] {
      assert d[off] == name[0] && name[0] in name;
      assert d[off + 1..off + |name|] == name[1..];
      assert forall c :: c in name[1..] ==> c in name;
      StrLenOf(d, off + 1, name[1..]);
    }
  }

  predicate HasFlag(ty: nat, mask: nat)
    requires mask > 0
  {
    (ty / mask) % 2 == 1
  }

  /** One field of a pushed table: name, zero byte, type. Arrays of text are
      refused; a lenient reader lets them pass. */
  function ReadField(d: seq<Byte>, off: nat, lenient: bool): Step<WField>
    requires off <= |d|
  {
    var n := StrLen(d, off);
    var at := off + n + 1;
    if at + 2 > |d| || n == 0 then Stopped(BrokenFrame)
    else
      var ty := Word16(d, at);
      WordBound(d, at);
      NoZeroInside(d, off);
      if !(TYPE_BOOL <= ty % 32 <= TYPE_TEXT) then Stopped(BrokenFrame)
      else if ty % 32 == TYPE_TEXT && HasFlag(ty, ARRAY_MASK) && !HasFlag(ty, FIELD_MASK) && !lenient then Stopped(NotSupported)
      else Got(WField(d[off..off + n], ty), at + 2)
  }

  function ReadFields(d: seq<Byte>, off: nat, count: nat, lenient: bool): Step<seq<WField>>
    requires off <= |d|
    decreases count
  {
    if count == 0 then Got([], off)
    else
      match ReadField(d, off, lenient)
      case Stopped(e) => Stopped(e)
      case Got(f, next) =>
        match ReadFields(d, next, count - 1, lenient)
        case Stopped(e) => Stopped(e)
        case Got(fs, end) => Got([f] + fs, end)
  }

  lemma WordBound(d: seq<Byte>, off: nat)
    requires off + 2 <= |d|
    ensures Word16(d, off) < 0x1_0000
  {
    FromLeBound(d[off..off + 2]);
    assert Pow256(2) == 256 * Pow256(1);
  }

  /** A pushed value: its type, and for a table its fields. */
  function ReadPush(d: seq<Byte>, off: nat, lenient: bool): Step<Command>
    requires off <= |d|
  {
    if off + 2 > |d| then Stopped(BrokenFrame)
    else
      var ty := Word16(d, off);
      if ty != TABLE_MASK then
        if HasFlag(ty, FIELD_MASK) then Stopped(InvalidArguments)
        else if !(TYPE_BOOL <= (if HasFlag(ty, ARRAY_MASK) then ty - ARRAY_MASK else ty) <= TYPE_TEXT) then Stopped(BrokenFrame)
        else if ty == TYPE_TEXT + ARRAY_MASK && !lenient then Stopped(NotSupported)
        else Got(Push(ty, []), off + 2)
      else if off + 4 > |d| then Stopped(BrokenFrame)
      else if Word16(d, off + 2) == 0 then Stopped(InvalidArguments)
      else
        match ReadFields(d, off + 4, Word16(d, off + 2), lenient)
        case Stopped(e) => Stopped(e)
        case Got(fs, next) => Got(Push(ty, fs), next)
  }

  /** One command: its number, then what belongs to it. */
  function ReadCommand(d: seq<Byte>, off: nat, lenient: bool): (r: Step<Command>)
    requires off < |d|
    ensures r.Got? ==> off < r.next <= |d|
  {
    if d[off] == PUSH then ReadPushed(d, off + 1, lenient)
    else if d[off] == POP then if off + 5 > |d| then Stopped(BrokenFrame) else Got(Pop(Word32(d, off + 1)), off + 5)
    else if d[off] == ROWS then
      if off + 5 > |d| then Stopped(BrokenFrame)
      else
        var rows := Signed32(Word32(d, off + 1));
        if rows < 0 then Stopped(InvalidArguments) else Got(AddRows(rows), off + 5)
    else Stopped(BrokenFrame)
  }

  function ReadPushed(d: seq<Byte>, off: nat, lenient: bool): (r: Step<Command>)
    requires off <= |d|
    ensures r.Got? ==> off < r.next <= |d|
  {
    var r := ReadPush(d, off, lenient);
    PushAdvances(d, off, lenient);
    r
  }

  lemma PushAdvances(d: seq<Byte>, off: nat, lenient: bool)
    requires off <= |d|
    ensures var r := ReadPush(d, off, lenient); r.Got? ==> off < r.next <= |d|
  {
    if off + 4 <= |d| {
      FieldsAdvance(d, off + 4, Word16(d, off + 2), lenient);
    }
  }

  lemma {:induction false} FieldsAdvance(d: seq<Byte>, off: nat, count: nat, lenient: bool)
    requires off <= |d|
    ensures var r := ReadFields(d, off, count, lenient); r.Got? ==> off <= r.next <= |d| && |r.value| == count
    decreases count
  {
    if count > 0 {
      var r := ReadField(d, off, lenient);
      if r.Got? {
        FieldsAdvance(d, r.next, count - 1, lenient);
      }
    }
  }

  /** The commands up to the end of the frame or to the first that is not read. */
  function ReadAll(d: seq<Byte>, off: nat, lenient: bool): (seq<Command>, Ending)
    requires off <= |d|
    decreases |d| - off
  {
    if off == |d| then ([], Complete)
    else
      match ReadCommand(d, off, lenient)
      case Stopped(e) => ([], e)
      case Got(c, next) =>
        var rest := ReadAll(d, next, lenient);
        ([c] + rest.0, rest.1)
  }

  // ----- the server's loops -----

  method PushStack(d: seq<Byte>, off: nat) returns (r: Step<Command>)
    requires off <= |d|
    ensures r == ReadPush(d, off, false)
  {
    hide ReadField, ReadFields, FromLe, HasFlag;
    if off + 2 > |d| {
      return Stopped(BrokenFrame);
    }
    var ty := Word16(d, off);
    if ty != TABLE_MASK {
      if HasFlag(ty, FIELD_MASK) {
        return Stopped(InvalidArguments);
      }
      var base := if HasFlag(ty, ARRAY_MASK) then ty - ARRAY_MASK else ty;
      if base < TYPE_BOOL || base > TYPE_TEXT {
        return Stopped(BrokenFrame);
      }
      if ty == TYPE_TEXT + ARRAY_MASK {
        return Stopped(NotSupported);
      }
      return Got(Push(ty, []), off + 2);
    }
    if off + 4 > |d| {
      return Stopped(BrokenFrame);
    }
    var fieldsCount := Word16(d, off + 2);
    if fieldsCount == 0 {
      return Stopped(InvalidArguments);
    }
    var fields: seq<WField> := [];
    var pos: nat, field: nat := off + 4, 0;
    Onward([], ReadFields(d, pos, fieldsCount, false));
    while field < fieldsCount
      invariant 0 <= field <= fieldsCount && pos <= |d|
      invariant ReadFields(d, off + 4, fieldsCount, false) == After(fields, ReadFields(d, pos, fieldsCount - field, false))
    {
      FieldStep(d, pos, fieldsCount - field, fields);
      match ReadField(d, pos, false) {
        case Stopped(e) => return Stopped(e);
        case Got(f, next) =>
          FieldAdvances(d, pos);
          fields, pos, field := fields + [f], next, field + 1;
      }
    }
    NothingLeft(d, pos);
    assert fields + [] == fields;
    r := Got(Push(ty, fields), pos);
  }

  lemma NothingLeft(d: seq<Byte>, off: nat)
    requires off <= |d|
    ensures ReadFields(d, off, 0, false) == Got([], off)
  {
  }

  lemma FieldAdvances(d: seq<Byte>, off: nat)
    requires off <= |d|
    ensures var r := ReadField(d, off, false); r.Got? ==> r.next <= |d|
  {
  }

  function After(fields: seq<WField>, rest: Step<seq<WField>>): Step<seq<WField>> {
    if rest.Got? then Got(fields + rest.value, rest.next) else rest
  }

  lemma Onward(fields: seq<WField>, rest: Step<seq<WField>>)
    ensures fields == [] ==> After(fields, rest) == rest
  {
    if rest.Got? {
      assert [] + rest.value == rest.value;
    }
  }

  lemma FieldStep(d: seq<Byte>, off: nat, count: nat, fields: seq<WField>)
    requires off <= |d| && count > 0
    ensures var r := ReadField(d, off, false);
            After(fields, ReadFields(d, off, count, false)) ==
              if r.Stopped? then Stopped(r.ending) else After(fields + [r.value], ReadFields(d, r.next, count - 1, false))
  {
    hide ReadField;
    FieldAdvances(d, off);
    var r := ReadField(d, off, false);
    if r.Got? && ReadFields(d, r.next, count - 1, false).Got? {
      assert fields + ([r.value] + ReadFields(d, r.next, count - 1, false).value)
          == fields + [r.value] + ReadFields(d, r.next, count - 1, false).value;
    }
  }

  function Behind(done: seq<Command>, rest: (seq<Command>, Ending)): (seq<Command>, Ending) {
    (done + rest.0, rest.1)
  }

  lemma CommandStep(d: seq<Byte>, off: nat, done: seq<Command>)
    requires off < |d|
    ensures var r := ReadCommand(d, off, false);
            Behind(done, ReadAll(d, off, false)) ==
              if r.Stopped? then (done, r.ending) else Behind(done + [r.value], ReadAll(d, r.next, false))
  {
    hide ReadCommand;
    var r := ReadCommand(d, off, false);
    if r.Got? {
      var rest := ReadAll(d, r.next, false).0;
      assert done + ([r.value] + rest) == done + [r.value] + rest;
    } else {
      assert done + [] == done;
    }
  }

  lemma FrameEnds(d: seq<Byte>, done: seq<Command>)
    ensures Behind(done, ReadAll(d, |d|, false)) == (done, Complete)
    ensures Behind([], ReadAll(d, 0, false)) == ReadAll(d, 0, false)
  {
    assert done + [] == done;
    assert [] + ReadAll(d, 0, false).0 == ReadAll(d, 0, false).0;
  }

  /** The commands of one frame, one after the other. */
  method UpdateStack(d: seq<Byte>) returns (done: seq<Command>, ending: Ending)
    ensures (done, ending) == if d == [] then ([], InvalidArguments) else ReadAll(d, 0, false)
  {
    hide ReadAll, ReadPush, Word32, Signed32, Behind;
    if |d| == 0 {
      return [], InvalidArguments;
    }
    done := [];
    var dataOff := 0;
    FrameEnds(d, []);
    while dataOff < |d|
      invariant dataOff <= |d|
      invariant ReadAll(d, 0, false) == Behind(done, ReadAll(d, dataOff, false))
      decreases |d| - dataOff
    {
      var subcmd := d[dataOff];
      var step;
      if subcmd == PUSH {
        step := PushStack(d, dataOff + 1);
      } else if subcmd == POP {
        step := if dataOff + 5 > |d| then Stopped(BrokenFrame) else Got(Pop(Word32(d, dataOff + 1)), dataOff + 5);
      } else if subcmd == ROWS {
        if dataOff + 5 > |d| {
          step := Stopped(BrokenFrame);
        } else {
          var rows := Signed32(Word32(d, dataOff + 1));
          step := if rows < 0 then Stopped(InvalidArguments) else Got(AddRows(rows), dataOff + 5);
        }
      } else {
        step := Stopped(BrokenFrame);
      }
      assert step == ReadCommand(d, dataOff, false);
      CommandStep(d, dataOff, done);
      match step {
        case Stopped(e) =>
          return done, e;
        case Got(c, next) =>
          done, dataOff := done + [c], next;
      }
    }
    FrameEnds(d, done);
    ending := Complete;
  }

  // ----- what the client sent is what the server reads -----

  function Reversed(fs: seq<WField>): (r: seq<WField>)
    ensures |r| == |fs| && forall i :: 0 <= i < |fs| ==> r[i] == fs[|fs| - 1 - i]
  {
    if fs == [] then [] else [fs[|fs| - 1]] + Reversed(fs[..|fs| - 1])
  }

  /** What the server does for a command: a table's fields come in the opposite
      order. */
  function Served(c: Command): Command {
    match c case Push(ty, fields) => Push(ty, Reversed(fields)) case _ => c
  }

  function ServedAll(cs: seq<Command>): (r: seq<Command>)
    ensures |r| == |cs|
  {
    if cs == [] then [] else [Served(cs[0])] + ServedAll(cs[1..])
  }

  /** A command the client can add whose counts fit their fields; the number of
      rows is a signed one. */
  predicate Sendable(c: Command) {
    match c
    case Push(ty, fields) => Pushable(ty, fields) && |fields| < 0x1_0000
    case Pop(count) => 0 < count < 0x1_0000_0000
    case AddRows(count) => count < 0x8000_0000
  }

  predicate TextArray(ty: nat) { ty == TYPE_TEXT + ARRAY_MASK }

  predicate HasTextArray(fs: seq<WField>) {
    exists i :: 0 <= i < |fs| && TextArray(fs[i].ty)
  }

  lemma NoTextArray()
    ensures !HasTextArray([])
  {
  }

  lemma LastTextArray(fs: seq<WField>)
    requires fs != []
    ensures HasTextArray(fs) <==> TextArray(fs[|fs| - 1].ty) || HasTextArray(fs[..|fs| - 1])
  {
    var init := fs[..|fs| - 1];
    assert forall i :: 0 <= i < |init| ==> init[i] == fs[i];
  }

  /** The server has no arrays of texts. */
  predicate Supported(c: Command) {
    c.Push? ==> !TextArray(c.ty) && !HasTextArray(c.fields)
  }

  lemma ReadWord(pre: seq<Byte>, v: nat, k: nat, post: seq<Byte>)
    requires v < Pow256(k)
    ensures var d := pre + Le(v, k) + post; FromLe(d[|pre|..|pre| + k]) == v
  {
    assert (pre + Le(v, k) + post)[|pre|..|pre| + k] == Le(v, k);
    LeRoundTrip(v, k);
  }

  lemma Powers()
    ensures Pow256(2) == 0x1_0000 && Pow256(4) == 0x1_0000_0000
  {
    assert Pow256(2) == 256 * Pow256(1) && Pow256(3) == 256 * Pow256(2) && Pow256(4) == 256 * Pow256(3);
  }

  /** A piece in the middle. */
  lemma Middle(pre: seq<Byte>, x: seq<Byte>, post: seq<Byte>)
    ensures var d := pre + x + post; |pre| + |x| <= |d| && d[|pre|..|pre| + |x|] == x
  {
  }

  /** A field is read as it was written, unless its type is not supported. */
  lemma FieldBack(pre: seq<Byte>, f: WField, post: seq<Byte>, lenient: bool)
    requires GoodField(f)
    ensures var d := pre + (f.name + [0] + Le(f.ty, 2)) + post;
            ReadField(d, |pre|, lenient)
              == if TextArray(f.ty) && !lenient then Stopped(NotSupported) else Got(f, |pre| + |f.name| + 3)
  {
    hide Le, FromLe, StrLen;
    var name: seq<Byte> := f.name;
    var d := pre + (name + [0] + Le(f.ty, 2)) + post;
    assert d == pre + name + ([0] + Le(f.ty, 2) + post);
    Middle(pre, name, [0] + Le(f.ty, 2) + post);
    StrLenOf(d, |pre|, name);
    Powers();
    assert d == (pre + name + [0]) + Le(f.ty, 2) + post;
    ReadWord(pre + name + [0], f.ty, 2, post);
  }

  lemma {:induction false} FieldsBack(pre: seq<Byte>, fs: seq<WField>, post: seq<Byte>, lenient: bool)
    requires forall f :: f in fs ==> GoodField(f)
    ensures var d := pre + EncodeFields(fs) + post;
            ReadFields(d, |pre|, |fs|, lenient)
              == if !lenient && HasTextArray(fs) then Stopped(NotSupported)
                 else Got(Reversed(fs), |pre| + |EncodeFields(fs)|)
    decreases |fs|
  {
    hide Le, ReadField, GoodField, TextArray, HasTextArray, EncodeFields;
    if fs == [] {
      NoFields();
      NoTextArray();
    } else {
      LastField(fs);
      var f, init := fs[|fs| - 1], fs[..|fs| - 1];
      var name: seq<Byte> := f.name;
      var head := name + [0] + Le(f.ty, 2);
      var d := pre + EncodeFields(fs) + post;
      assert d == pre + head + (EncodeFields(init) + post);
      FieldBack(pre, f, EncodeFields(init) + post, lenient);
      assert d == (pre + head) + EncodeFields(init) + post;
      FieldsBack(pre + head, init, post, lenient);
      LastTextArray(fs);
    }
  }

  lemma PushBack(pre: seq<Byte>, c: Command, post: seq<Byte>, lenient: bool)
    requires c.Push? && Sendable(c)
    ensures var d := pre + EncodeCommand(c) + post;
            ReadPush(d, |pre| + 1, lenient)
              == if lenient || Supported(c) then Got(Served(c), |pre| + |EncodeCommand(c)|) else Stopped(NotSupported)
  {
    hide ReadPush, EncodeCommand, Pushable;
    if c.ty == TABLE_MASK {
      TablePushBack(pre, c.fields, post, lenient);
    } else {
      NoPlainFields(c);
      assert c == Push(c.ty, []);
      PlainPushBack(pre, c.ty, post, lenient);
      NoneReversed();
      NoTextArray();
    }
  }

  lemma NoPlainFields(c: Command)
    requires c.Push? && Sendable(c) && c.ty != TABLE_MASK
    ensures c.fields == []
  {
  }

  lemma TablePushBack(pre: seq<Byte>, fields: seq<WField>, post: seq<Byte>, lenient: bool)
    requires Sendable(Push(TABLE_MASK, fields))
    ensures var e := EncodeCommand(Push(TABLE_MASK, fields));
            ReadPush(pre + e + post, |pre| + 1, lenient)
              == if lenient || !HasTextArray(fields) then Got(Push(TABLE_MASK, Reversed(fields)), |pre| + |e|)
                 else Stopped(NotSupported)
  {
    hide Le, Word16, ReadFields, EncodeFields, EncodeCommand, Reversed, HasTextArray, HasFlag;
    PushShape(TABLE_MASK, fields);
    var head := pre + [PUSH] + Le(TABLE_MASK, 2) + Le(|fields|, 2);
    var d := pre + EncodeCommand(Push(TABLE_MASK, fields)) + post;
    assert d == head + EncodeFields(fields) + post;
    TwoWords(pre, TABLE_MASK, |fields|, EncodeFields(fields) + post);
    assert d == head + (EncodeFields(fields) + post);
    FieldsBack(head, fields, post, lenient);
  }

  /** The type and the number of fields. */
  lemma TwoWords(pre: seq<Byte>, ty: nat, n: nat, rest: seq<Byte>)
    requires ty < 0x1_0000 && n < 0x1_0000
    ensures var d := pre + [PUSH] + Le(ty, 2) + Le(n, 2) + rest;
            Word16(d, |pre| + 1) == ty && Word16(d, |pre| + 3) == n
  {
    hide Le, FromLe;
    Powers();
    var d := pre + [PUSH] + Le(ty, 2) + Le(n, 2) + rest;
    assert d == (pre + [PUSH]) + Le(ty, 2) + (Le(n, 2) + rest);
    ReadWord(pre + [PUSH], ty, 2, Le(n, 2) + rest);
    ReadWord(pre + [PUSH] + Le(ty, 2), n, 2, rest);
  }

  lemma PlainPushBack(pre: seq<Byte>, ty: nat, post: seq<Byte>, lenient: bool)
    requires ty != TABLE_MASK && Sendable(Push(ty, []))
    ensures var e := EncodeCommand(Push(ty, []));
            ReadPush(pre + e + post, |pre| + 1, lenient)
              == if lenient || !TextArray(ty) then Got(Push(ty, []), |pre| + |e|) else Stopped(NotSupported)
  {
    hide Le, FromLe, EncodeCommand, EncodeFields;
    PushShape(ty, []);
    Powers();
    var d := pre + EncodeCommand(Push(ty, [])) + post;
    assert d == (pre + [PUSH]) + Le(ty, 2) + post;
    ReadWord(pre + [PUSH], ty, 2, post);
  }

  lemma NoneReversed()
    ensures Reversed([]) == []
  {
  }

  lemma CommandBack(pre: seq<Byte>, c: Command, post: seq<Byte>, lenient: bool)
    requires Sendable(c)
    ensures var d := pre + EncodeCommand(c) + post;
            |pre| < |d| && ReadCommand(d, |pre|, lenient)
              == if lenient || Supported(c) then Got(Served(c), |pre| + |EncodeCommand(c)|) else Stopped(NotSupported)
  {
    hide Le, FromLe, ReadPush;
    var d := pre + EncodeCommand(c) + post;
    Powers();
    match c
    case Push(ty, fields) =>
      PushShape(ty, fields);
      PushBack(pre, c, post, lenient);
      assert d[|pre|] == PUSH;
    case Pop(count) =>
      assert d == (pre + [POP]) + Le(count, 4) + post;
      ReadWord(pre + [POP], count, 4, post);
    case AddRows(count) =>
      assert d == (pre + [ROWS]) + Le(count, 4) + post;
      ReadWord(pre + [ROWS], count, 4, post);
  }

  /** The commands before the first one the server does not support. */
  function SupportedPrefix(cs: seq<Command>): (r: seq<Command>)
    ensures r <= cs && (|r| < |cs| ==> !Supported(cs[|r|]))
    ensures r == cs <==> forall c :: c in cs ==> Supported(c)
  {
    if cs == [] || !Supported(cs[0]) then []
    else
      var rest := SupportedPrefix(cs[1..]);
      assert cs == [cs[0]] + cs[1..];
      [cs[0]] + rest
  }

  lemma {:induction false} AllBack(pre: seq<Byte>, cs: seq<Command>, lenient: bool)
    requires forall c :: c in cs ==> Sendable(c)
    ensures var done := if lenient then cs else SupportedPrefix(cs);
            ReadAll(pre + EncodeAll(cs), |pre|, lenient) == (ServedAll(done), if done == cs then Complete else NotSupported)
    decreases |cs|
  {
    hide EncodeCommand, ReadCommand, Served, Supported, Sendable;
    var d := pre + EncodeAll(cs);
    if cs == [] {
      EmptyEncodes();
    } else {
      FirstCommand(cs);
      var head := EncodeCommand(cs[0]);
      assert d == pre + head + EncodeAll(cs[1..]);
      CommandBack(pre, cs[0], EncodeAll(cs[1..]), lenient);
      AllBack(pre + head, cs[1..], lenient);
      assert d == (pre + head) + EncodeAll(cs[1..]);
      assert cs == [cs[0]] + cs[1..];
    }
  }

  lemma FirstCommand(cs: seq<Command>)
    requires cs != []
    ensures EncodeAll(cs) == EncodeCommand(cs[0]) + EncodeAll(cs[1..])
  {
    hide EncodeCommand;
    assert cs == [cs[0]] + cs[1..];
    EncodeAllCat([cs[0]], cs[1..]);
    assert [cs[0]][..0] == [];
    EmptyEncodes();
  }

  /** The server reads exactly the commands that were sent, in order, up to the
      first array of texts. */
  lemma ServerReads(cs: seq<Command>)
    requires forall c :: c in cs ==> Sendable(c)
    ensures ReadAll(EncodeAll(cs), 0, false)
         == (ServedAll(SupportedPrefix(cs)), if forall c :: c in cs ==> Supported(c) then Complete else NotSupported)
  {
    hide EncodeAll, Sendable, Supported, ReadAll;
    assert [] + EncodeAll(cs) == EncodeAll(cs);
    AllBack([], cs, false);
  }

  lemma ServedDiffer(c: Command, d: Command)
    requires Served(c) == Served(d)
    ensures c == d
  {
    if c.Push? && d.Push? {
      var r := Reversed(c.fields);
      forall i | 0 <= i < |c.fields|
        ensures c.fields[i] == d.fields[i]
      {
        assert r[|c.fields| - 1 - i] == c.fields[i] && Reversed(d.fields)[|d.fields| - 1 - i] == d.fields[i];
      }
    }
  }

  lemma {:induction false} ServedAllDiffer(cs: seq<Command>, ds: seq<Command>)
    requires ServedAll(cs) == ServedAll(ds)
    ensures cs == ds
    decreases |cs|
  {
    hide Served;
    if cs != [] {
      assert ServedAll(cs)[0] == Served(cs[0]) && ServedAll(ds)[0] == Served(ds[0]);
      assert ServedAll(cs)[1..] == ServedAll(cs[1..]) && ServedAll(ds)[1..] == ServedAll(ds[1..]);
      ServedDiffer(cs[0], ds[0]);
      ServedAllDiffer(cs[1..], ds[1..]);
      assert cs == [cs[0]] + cs[1..] && ds == [ds[0]] + ds[1..];
    }
  }

  /** The bytes of three plain commands. */
  lemma CommandBytes()
    ensures EncodeCommand(Pop(3)) == [1, 3, 0, 0, 0]
    ensures EncodeCommand(AddRows(258)) == [4, 2, 1, 0, 0]
    ensures EncodeCommand(Push(0x105, [])) == [2, 5, 1]
  {
  }

  /** Different commands have different bytes. */
  lemma BytesDiffer(cs: seq<Command>, ds: seq<Command>)
    requires (forall c :: c in cs ==> Sendable(c)) && (forall c :: c in ds ==> Sendable(c))
    ensures EncodeAll(cs) == EncodeAll(ds) <==> cs == ds
  {
    hide EncodeAll, Sendable, ReadAll, ServedAll;
    if EncodeAll(cs) == EncodeAll(ds) {
      assert [] + EncodeAll(cs) == EncodeAll(cs);
      AllBack([], cs, true);
      AllBack([], ds, true);
      ServedAllDiffer(cs, ds);
    }
  }

  /** The counts the client's functions take: an unsigned and a signed number
      of 32 bits. */
  predicate Counted(c: Command) {
    match c case Pop(count) => count < 0x1_0000_0000 case AddRows(count) => count < 0x8000_0000 case _ => true
  }

  /** What can be added to a frame of the protocol's size can be read. */
  lemma AcceptedSendable(c: Command, max: nat)
    requires Acceptable(c, max) && max <= 0xFFFF
    requires Counted(c)
    ensures Sendable(c)
  {
    if c.Push? {
      PushShape(c.ty, c.fields);
      FieldBytes(c.fields);
    }
  }

  lemma {:induction false} FieldBytes(fs: seq<WField>)
    ensures |EncodeFields(fs)| >= |fs|
    decreases |fs|
  {
    if fs != [] {
      LastField(fs);
      FieldBytes(fs[..|fs| - 1]);
    }
  }

  /** Every frame the server took gives it back the commands that were put into
      it, and so does what waits, once it is sent. */
  lemma FramesRead(conn: Connection, k: nat)
    requires conn.Valid() && k < |conn.payloads|
    requires forall c :: c in conn.sent[k] ==> Sendable(c) && Supported(c)
    ensures ReadAll(conn.payloads[k], 0, false) == (ServedAll(conn.sent[k]), Complete)
  {
    hide EncodeAll, Sendable, Supported, ReadAll, ServedAll;
    var cs := conn.sent[k];
    assert conn.payloads[k] == EncodeAll(cs);
    ServerReads(cs);
  }

  /** The bytes of a whole run, what the server took followed by what waits,
      give its commands back. */
  lemma RunRead(ops: seq<Command>, answers: seq<Answer>, bytes: seq<Byte>, max: nat)
    requires |ops| == |answers| && Filled(ops, answers, max).Some? && bytes == EncodeAll(Performed(ops)) && max <= 0xFFFF
    requires forall i :: 0 <= i < |ops| ==> Counted(ops[i])
    ensures ReadAll(bytes, 0, true) == (ServedAll(Performed(ops)), Complete)
  {
    hide EncodeAll, Sendable, Acceptable, Counted, ReadAll, ServedAll, Performed, Filled;
    FilledAcceptable(ops, answers, max);
    var cs := Performed(ops);
    forall c | c in cs
      ensures Sendable(c)
    {
      PerformedFrom(ops, c);
      AcceptedSendable(c, max);
    }
    assert [] + EncodeAll(cs) == EncodeAll(cs);
    AllBack([], cs, true);
  }

  lemma {:induction false} FilledAcceptable(ops: seq<Command>, answers: seq<Answer>, max: nat)
    requires |ops| == |answers| && Filled(ops, answers, max).Some?
    ensures forall i :: 0 <= i < |ops| ==> Acceptable(ops[i], max)
    decreases |ops|
  {
    hide Acceptable, Placed;
    if ops != [] {
      var n := |ops| - 1;
      FilledAcceptable(ops[..n], answers[..n], max);
      assert forall i :: 0 <= i < n ==> ops[i] == ops[..n][i];
    }
  }

  lemma {:induction false} PerformedFrom(ops: seq<Command>, c: Command)
    requires c in Performed(ops)
    ensures c in ops
    decreases |ops|
  {
    if ops != [] {
      var init := ops[..|ops| - 1];
      if c in Performed(init) {
        PerformedFrom(init, c);
      }
      assert ops == init + [ops[|ops| - 1]];
    }
  }
}
