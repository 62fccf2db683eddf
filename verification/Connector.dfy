/** The client's buffer of stack commands: several commands are sent in one
    frame. */
module Connector {
  import opened Bytes
  import opened Syntax
  import opened Wrappers

  type Word = n: int | 0 <= n < 0x1_0000

  const PUSH: Byte := 2
  const POP: Byte := 1
  const ROWS: Byte := 4

  const TYPE_BOOL := 1
  const TYPE_TEXT := 0x10
  const ARRAY_MASK := 0x100
  const FIELD_MASK := 0x200
  const TABLE_MASK := 0x400

  /** A C string without its terminating zero. */
  type CString = s: seq<Byte> | 0 !in s

  datatype WField = WField(name: CString, ty: Word)

  datatype Command = Push(ty: nat, fields: seq<WField>) | Pop(count: nat) | AddRows(count: nat)

  // ----- encoding -----

  /** The fields of a table are written from the last to the first. */
  function EncodeFields(fs: seq<WField>): seq<Byte> {
    if fs == [] then []
    else
      var f := fs[|fs| - 1];
      f.name + [0] + Le(f.ty, 2) + EncodeFields(fs[..|fs| - 1])
  }

  function EncodeCommand(c: Command): (r: seq<Byte>)
    ensures r != []
  {
    match c
    case Push(ty, fields) =>
      [PUSH] + Le(ty, 2) + if ty == TABLE_MASK then Le(|fields|, 2) + EncodeFields(fields) else []
    case Pop(count) => [POP] + Le(count, 4)
    case AddRows(count) => [ROWS] + Le(count, 4)
  }

  function EncodeAll(cs: seq<Command>): seq<Byte> {
    if cs == [] then [] else EncodeAll(cs[..|cs| - 1]) + EncodeCommand(cs[|cs| - 1])
  }

  lemma {:induction false} EncodeAllCat(a: seq<Command>, b: seq<Command>)
    ensures EncodeAll(a + b) == EncodeAll(a) + EncodeAll(b)
    decreases |b|
  {
    hide EncodeCommand;
    if b == [] {
      assert a + b == a;
    } else {
      assert (a + b)[..|a + b| - 1] == a + b[..|b| - 1];
      EncodeAllCat(a, b[..|b| - 1]);
    }
  }

  lemma {:induction false} EncodeAllEmpty(cs: seq<Command>)
    ensures EncodeAll(cs) == [] <==> cs == []
  {
  }

  // ----- the space a push needs -----

  function WithoutArray(ty: nat): nat {
    if (ty / ARRAY_MASK) % 2 == 1 then ty - ARRAY_MASK else ty
  }

  predicate IsBase(ty: nat) {
    TYPE_BOOL <= ty <= TYPE_TEXT
  }

  predicate GoodField(f: WField) {
    f.name != [] && IsBase(WithoutArray(f.ty))
  }

  /** Can a value of this type be pushed? */
  predicate Pushable(ty: nat, fields: seq<WField>) {
    if ty == TABLE_MASK then fields != [] && forall i :: 0 <= i < |fields| ==> GoodField(fields[i])
    else (ty / FIELD_MASK) % 2 == 0 && IsBase(WithoutArray(ty)) && fields == []
  }

  /** The words of the sixteen plain types and of their arrays. */
  predicate Describes(ty: nat) {
    1 <= ty <= 0x10 || 0x101 <= ty <= 0x110
  }

  /** What can be pushed: a value or an array of a plain type, or a table whose
      fields all have a name and such a type. */
  lemma PushableExact(ty: nat, fields: seq<WField>)
    ensures Pushable(ty, fields) <==>
              (Describes(ty) && fields == [])
              || (ty == 0x400 && fields != []
                  && forall i :: 0 <= i < |fields| ==> fields[i].name != [] && Describes(fields[i].ty))
  {
  }

  /** The space needed is 0 for what cannot be pushed and otherwise exactly the
      number of bytes the command is written with. */
  method ComputePushSpaceNeed(ty: nat, fields: seq<WField>) returns (r: nat)
    ensures r == if Pushable(ty, fields) then |EncodeCommand(Push(ty, fields))| else 0
  {
    if ty != TABLE_MASK {
      if (ty / FIELD_MASK) % 2 == 1 || !IsBase(WithoutArray(ty)) || |fields| > 0 {
        return 0;
      }
      return 2 + 1;
    }
    if |fields| == 0 {
      return 0;
    }
    r := 2 * 2 + 1;
    var fieldsCount := |fields|;
    assert fields[..fieldsCount] == fields;
    while fieldsCount > 0
      invariant 0 <= fieldsCount <= |fields|
      invariant r + |EncodeFields(fields[..fieldsCount])| == 5 + |EncodeFields(fields)|
      invariant forall i :: fieldsCount <= i < |fields| ==> GoodField(fields[i])
    {
      fieldsCount := fieldsCount - 1;
      var f := fields[fieldsCount];
      assert fields[..fieldsCount + 1][..fieldsCount] == fields[..fieldsCount];
      var nameLen := |f.name| + 1;
      if nameLen <= 1 || !IsBase(WithoutArray(f.ty)) {
        assert !GoodField(fields[fieldsCount]);
        return 0;
      }
      r := r + nameLen + 2;
    }
  }

  /** A buffer in which bytes were overwritten. */
  function Written(was: seq<Byte>, at: nat, bytes: seq<Byte>): seq<Byte>
    requires at + |bytes| <= |was|
  {
    was[..at] + bytes + was[at + |bytes|..]
  }

  lemma WrittenOn(was: seq<Byte>, at: nat, done: seq<Byte>, bytes: seq<Byte>)
    requires at + |done| + |bytes| <= |was|
    ensures |Written(was, at, done)| == |was|
    ensures Written(Written(was, at, done), at + |done|, bytes) == Written(was, at, done + bytes)
  {
  }

  /** Copies bytes into the buffer. */
  method WriteBytes(dest: array<Byte>, at: nat, bytes: seq<Byte>)
    requires at + |bytes| <= dest.Length
    modifies dest
    ensures dest[..] == Written(old(dest[..]), at, bytes)
  {
    var i := 0;
    while i < |bytes|
      invariant 0 <= i <= |bytes|
      invariant dest[..at] == old(dest[..at]) && dest[at..at + i] == bytes[..i]
      invariant dest[at + i..] == old(dest[at + i..])
    {
      dest[at + i] := bytes[i];
      assert dest[at..at + i + 1] == dest[at..at + i] + [bytes[i]];
      assert old(dest[at + i..])[1..] == old(dest[at + i + 1..]);
      i := i + 1;
    }
    assert dest[..] == dest[..at] + dest[at..at + i] + dest[at + i..];
    assert bytes[..i] == bytes;
  }

  method WritePushCmd(ty: nat, fields: seq<WField>, dest: array<Byte>, at: nat)
    requires at + |EncodeCommand(Push(ty, fields))| <= dest.Length
    modifies dest
    ensures dest[..] == Written(old(dest[..]), at, EncodeCommand(Push(ty, fields)))
  {
    hide EncodeFields, EncodeCommand, Le, Written;
    ghost var was, whole := dest[..], EncodeCommand(Push(ty, fields));
    PushShape(ty, fields);
    var head := [PUSH] + Le(ty, 2);
    if ty == TABLE_MASK {
      head := head + Le(|fields|, 2);
    }
    WriteBytes(dest, at, head);
    ghost var done := head;
    if ty == TABLE_MASK {
      var pos, fieldsCount := at + |head|, |fields|;
      assert fields[..fieldsCount] == fields;
      while fieldsCount > 0
        invariant 0 <= fieldsCount <= |fields| && pos == at + |done|
        invariant whole == done + EncodeFields(fields[..fieldsCount])
        invariant |was| == dest.Length && dest[..] == Written(was, at, done)
      {
        fieldsCount := fieldsCount - 1;
        var f := fields[fieldsCount];
        var bytes := f.name + [0] + Le(f.ty, 2);
        FieldBefore(fields, fieldsCount, done);
        WrittenOn(was, at, done, bytes);
        WriteBytes(dest, pos, bytes);
        done := done + bytes;
        pos := pos + |bytes|;
      }
      NoFields();
      assert whole == done;
    }
  }

  lemma FieldBefore(fields: seq<WField>, n: nat, done: seq<Byte>)
    requires n < |fields|
    ensures done + EncodeFields(fields[..n + 1])
         == done + (fields[n].name + [0] + Le(fields[n].ty, 2)) + EncodeFields(fields[..n])
  {
    hide EncodeFields, Le;
    assert fields[..n + 1][..n] == fields[..n];
    LastField(fields[..n + 1]);
  }

  lemma PushShape(ty: nat, fields: seq<WField>)
    ensures EncodeCommand(Push(ty, fields))
         == if ty == TABLE_MASK then [PUSH] + Le(ty, 2) + Le(|fields|, 2) + EncodeFields(fields) else [PUSH] + Le(ty, 2)
  {
    hide Le, EncodeFields;
  }

  lemma LastField(fs: seq<WField>)
    requires fs != []
    ensures EncodeFields(fs)
         == fs[|fs| - 1].name + [0] + Le(fs[|fs| - 1].ty, 2) + EncodeFields(fs[..|fs| - 1])
  {
  }

  lemma NoFields()
    ensures EncodeFields([]) == []
  {
  }

  // ----- the connection -----

  /** What a frame holds that is being built. */
  datatype Building = Nothing | UpdateStack

  datatype Status = Ok | InvalidArgs | IncompleteCmd | LargeArgs | Failed

  /** How sending a frame goes: the server takes it, refuses it, or it is lost. */
  datatype Answer = Accepts | Refuses | Lost

  /** Can the command be added at all? */
  predicate Acceptable(c: Command, max: nat) {
    match c
    case Push(ty, fields) => Pushable(ty, fields) && |EncodeCommand(c)| <= max
    case Pop(count) => count > 0
    case AddRows(_) => true
  }

  /** The number of waiting bytes after a command when that many waited before
      it; None when what waits has to be sent and is not taken. */
  function Placed(waiting: nat, c: Command, answer: Answer, max: nat): Option<nat> {
    if waiting + |EncodeCommand(c)| <= max then Some(waiting + |EncodeCommand(c)|)
    else if answer.Accepts? then Some(|EncodeCommand(c)|)
    else None
  }

  function PushStatus(c: Command, waiting: nat, answer: Answer, max: nat): Status
    requires c.Push?
  {
    if !Pushable(c.ty, c.fields) then InvalidArgs
    else if |EncodeCommand(c)| > max then LargeArgs
    else if Placed(waiting, c, answer, max).None? then Failed
    else Ok
  }

  function Payloads(sent: seq<seq<Command>>): seq<seq<Byte>> {
    seq(|sent|, i requires 0 <= i < |sent| => EncodeAll(sent[i]))
  }

  function Together(sent: seq<seq<Command>>): seq<Command> {
    if sent == [] then [] else Together(sent[..|sent| - 1]) + sent[|sent| - 1]
  }

  class Connection {
    /** The data area of a frame and how much of it is used. */
    const frame: array<Byte>
    var size: nat
    var buildingCmd: Building

    /** The payloads the server has taken, and the commands in each; the
        commands that wait in the frame. */
    ghost var payloads: seq<seq<Byte>>
    ghost var sent: seq<seq<Command>>
    ghost var pending: seq<Command>

    ghost predicate Valid()
      reads this, frame
    {
      && frame.Length >= 5 && size <= frame.Length
      && payloads == Payloads(sent)
      && (forall i :: 0 <= i < |payloads| ==> 0 < |payloads[i]| <= frame.Length)
      && (buildingCmd.UpdateStack? <==> pending != [])
      && (buildingCmd.UpdateStack? ==> frame[..size] == EncodeAll(pending))
    }

    /** How many bytes wait in the frame. */
    ghost function Waiting(): nat
      reads this
    {
      if buildingCmd.UpdateStack? then size else 0
    }

    /** Every command accepted so far, in order. */
    ghost function Commands(): seq<Command>
      reads this
    {
      Together(sent) + pending
    }

    constructor (maxDataSize: nat)
      requires maxDataSize >= 5
      ensures Valid() && Commands() == [] && payloads == [] && frame.Length == maxDataSize && fresh(frame)
    {
      frame := new Byte[maxDataSize];
      size, buildingCmd, payloads, sent, pending := 0, Nothing, [], [], [];
    }

    /** Sends the waiting commands in one frame. */
    method Flush(answer: Answer) returns (cs: Status)
      requires Valid()
      modifies this
      ensures Valid() && (cs.Ok? ==> Commands() == old(Commands()))
      ensures cs == if old(buildingCmd).UpdateStack? then if answer.Accepts? then Ok else Failed
                    else if old(size) == 0 then Ok else IncompleteCmd
      ensures old(buildingCmd).UpdateStack? ==>
                buildingCmd.Nothing? && pending == []
                && (cs.Ok? ==> size == 0 && payloads == old(payloads) + [old(frame[..size])])
      ensures !cs.Ok? || old(buildingCmd).Nothing? ==> payloads == old(payloads) && sent == old(sent)
    {
      if !buildingCmd.UpdateStack? {
        return if size == 0 then Ok else IncompleteCmd;
      }
      buildingCmd := Nothing;
      EncodeAllEmpty(pending);
      if size == 0 {
        return Ok;
      }
      match answer {
        case Lost => cs := Failed;
        case Refuses => cs, size := Failed, 0;
        case Accepts =>
          cs := Ok;
          assert (sent + [pending])[..|sent|] == sent;
          payloads := payloads + [frame[..size]];
          sent := sent + [pending];
          size := 0;
      }
      pending := [];
    }

    /** Makes room for a command: a new frame is begun when nothing is waiting,
        and what is waiting is sent when the command does not fit behind it. */
    method Reserve(spaceReq: nat, answer: Answer) returns (cs: Status)
      requires Valid() && 0 < spaceReq <= frame.Length
      modifies this
      ensures Valid() && (cs.Ok? ==> Commands() == old(Commands()))
      ensures cs == if old(Waiting()) + spaceReq <= frame.Length || answer.Accepts? then Ok else Failed
      ensures cs.Ok? ==> size == if old(Waiting()) + spaceReq <= frame.Length then old(Waiting()) else 0
      ensures cs.Ok? ==> size + spaceReq <= frame.Length && (buildingCmd.Nothing? ==> size == 0) && Waiting() == size
    {
      if buildingCmd.Nothing? {
        size := 0;
      }
      cs := Ok;
      if frame.Length - spaceReq < size {
        cs := Flush(answer);
      }
    }

    /** The command stands in the frame behind the waiting ones. */
    method Append(ghost c: Command, bytes: nat, ghost before: seq<Byte>)
      requires frame.Length >= 5 && size + bytes <= frame.Length && bytes == |EncodeCommand(c)|
      requires payloads == Payloads(sent) && forall i :: 0 <= i < |payloads| ==> 0 < |payloads[i]| <= frame.Length
      requires buildingCmd.Nothing? ==> size == 0
      requires buildingCmd.UpdateStack? <==> pending != []
      requires before == EncodeAll(pending) && |before| == size && frame[..size + bytes] == before + EncodeCommand(c)
      modifies this
      ensures Valid() && buildingCmd.UpdateStack? && Commands() == old(Commands()) + [c] && payloads == old(payloads)
      ensures size == old(size) + bytes
    {
      hide EncodeCommand, Together;
      assert (pending + [c])[..|pending|] == pending;
      assert Together(sent) + (pending + [c]) == Together(sent) + pending + [c];
      size := size + bytes;
      pending := pending + [c];
      buildingCmd := UpdateStack;
    }

    method PushValue(ty: nat, fields: seq<WField>, answer: Answer) returns (cs: Status)
      requires Valid()
      modifies this, frame
      ensures Valid()
      ensures cs.Ok? ==> Commands() == old(Commands()) + [Push(ty, fields)] && buildingCmd.UpdateStack?
      ensures cs == PushStatus(Push(ty, fields), old(Waiting()), answer, frame.Length)
      ensures cs.Ok? ==> Placed(old(Waiting()), Push(ty, fields), answer, frame.Length) == Some(Waiting())
    {
      hide EncodeCommand, EncodeAll, Payloads, Together, Pushable;
      var spaceReq := ComputePushSpaceNeed(ty, fields);
      if spaceReq == 0 {
        return InvalidArgs;
      }
      if spaceReq > frame.Length {
        return LargeArgs;
      }
      cs := Reserve(spaceReq, answer);
      if cs.Ok? {
        ghost var was := frame[..size];
        EmptyEncodes();
        WritePushCmd(ty, fields, frame, size);
        assert frame[..size + spaceReq] == was + EncodeCommand(Push(ty, fields));
        Append(Push(ty, fields), spaceReq, was);
      }
    }

    method PopValues(count: nat, answer: Answer) returns (cs: Status)
      requires Valid()
      modifies this, frame
      ensures Valid()
      ensures cs.Ok? ==> Commands() == old(Commands()) + [Pop(count)] && buildingCmd.UpdateStack?
      ensures cs == if count == 0 then InvalidArgs
                    else if Placed(old(Waiting()), Pop(count), answer, frame.Length).None? then Failed else Ok
      ensures cs.Ok? ==> Placed(old(Waiting()), Pop(count), answer, frame.Length) == Some(Waiting())
    {
      hide EncodeAll, Payloads, Together;
      if count == 0 {
        return InvalidArgs;
      }
      cs := Reserve(5, answer);
      if cs.Ok? {
        ghost var was := frame[..size];
        EmptyEncodes();
        WriteBytes(frame, size, [POP] + Le(count, 4));
        assert frame[..size + 5] == was + EncodeCommand(Pop(count));
        Append(Pop(count), 5, was);
      }
    }

    method AddTableRows(rowsCount: int, answer: Answer) returns (cs: Status)
      requires Valid()
      modifies this, frame
      ensures Valid()
      ensures cs.Ok? ==> Commands() == old(Commands()) + if rowsCount > 0 then [AddRows(rowsCount)] else []
      ensures cs == if rowsCount < 0 then InvalidArgs
                    else if rowsCount > 0 && Placed(old(Waiting()), AddRows(rowsCount), answer, frame.Length).None? then Failed
                    else Ok
      ensures cs.Ok? && rowsCount > 0 ==> Placed(old(Waiting()), AddRows(rowsCount), answer, frame.Length) == Some(Waiting())
      ensures rowsCount == 0 ==> Waiting() == old(Waiting())
    {
      hide EncodeAll, Payloads, Together;
      if rowsCount < 0 {
        return InvalidArgs;
      }
      if rowsCount == 0 {
        assert Commands() + [] == Commands();
        return Ok;
      }
      cs := Reserve(5, answer);
      if cs.Ok? {
        ghost var was := frame[..size];
        EmptyEncodes();
        WriteBytes(frame, size, [ROWS] + Le(rowsCount, 4));
        assert frame[..size + 5] == was + EncodeCommand(AddRows(rowsCount));
        Append(AddRows(rowsCount), 5, was);
      }
    }
  }

  lemma EmptyEncodes()
    ensures EncodeAll([]) == []
  {
  }

  function Concatenated(payloads: seq<seq<Byte>>): seq<Byte> {
    if payloads == [] then [] else Concatenated(payloads[..|payloads| - 1]) + payloads[|payloads| - 1]
  }

  /** The payloads the server took, one after the other, are the encodings of
      the commands in them: no command is split and none is reordered. */
  lemma {:induction false} PayloadsConserve(sent: seq<seq<Command>>)
    ensures Concatenated(Payloads(sent)) == EncodeAll(Together(sent))
    decreases |sent|
  {
    hide EncodeAll;
    if sent == [] {
      EmptyEncodes();
    } else {
      var n := |sent| - 1;
      var p := Payloads(sent);
      assert p[..n] == Payloads(sent[..n]);
      PayloadsConserve(sent[..n]);
      EncodeAllCat(Together(sent[..n]), sent[n]);
    }
  }

  /** Adding no rows is not sent. */
  function Performed(ops: seq<Command>): seq<Command> {
    if ops == [] then []
    else
      var c := ops[|ops| - 1];
      Performed(ops[..|ops| - 1]) + if c == AddRows(0) then [] else [c]
  }

  /** The number of waiting bytes after a sequence of commands; None when one of
      them does not succeed. */
  function Filled(ops: seq<Command>, answers: seq<Answer>, max: nat): Option<nat>
    requires |ops| == |answers|
  {
    if ops == [] then Some(0)
    else
      var n := |ops| - 1;
      var before := Filled(ops[..n], answers[..n], max);
      if before.None? || !Acceptable(ops[n], max) then None
      else if ops[n] == AddRows(0) then before
      else Placed(before.value, ops[n], answers[n], max)
  }

  /** A run fails only for a command that can never be added or when the server
      does not take a frame. */
  lemma {:induction false} RunSucceeds(ops: seq<Command>, answers: seq<Answer>, max: nat)
    requires |ops| == |answers| && forall i :: 0 <= i < |ops| ==> answers[i].Accepts?
    ensures Filled(ops, answers, max).Some? <==> forall i :: 0 <= i < |ops| ==> Acceptable(ops[i], max)
    decreases |ops|
  {
    hide Acceptable, Placed;
    if ops != [] {
      var n := |ops| - 1;
      RunSucceeds(ops[..n], answers[..n], max);
      AcceptedPlaced();
      assert forall i :: 0 <= i < n ==> ops[i] == ops[..n][i];
    }
  }

  lemma AcceptedPlaced()
    ensures forall w: nat, c: Command, max: nat :: Placed(w, c, Accepts, max).Some?
  {
  }

  lemma {:induction false} NextFilled(ops: seq<Command>, answers: seq<Answer>, k: nat, max: nat)
    requires k < |ops| == |answers|
    ensures Filled(ops[..k + 1], answers[..k + 1], max) ==
              var before := Filled(ops[..k], answers[..k], max);
              if before.None? || !Acceptable(ops[k], max) then None
              else if ops[k] == AddRows(0) then before
              else Placed(before.value, ops[k], answers[k], max)
    ensures Performed(ops[..k + 1]) == Performed(ops[..k]) + if ops[k] == AddRows(0) then [] else [ops[k]]
  {
    hide Acceptable, Placed;
    assert ops[..k + 1][..k] == ops[..k] && answers[..k + 1][..k] == answers[..k];
  }

  lemma {:induction false} FailedStays(ops: seq<Command>, answers: seq<Answer>, k: nat, max: nat)
    requires k <= |ops| == |answers| && Filled(ops[..k], answers[..k], max).None?
    ensures Filled(ops, answers, max).None?
    decreases |ops| - k
  {
    if k < |ops| {
      NextFilled(ops, answers, k, max);
      FailedStays(ops, answers, k + 1, max);
    } else {
      assert ops[..k] == ops && answers[..k] == answers;
    }
  }

  /** Any sequence of commands on a new connection. It succeeds exactly when
      every command can be added and every frame that had to be sent on the way
      is taken, and then what the server took followed by what waits in the frame
      is exactly the commands' encoding in order. */
  method RunAll(conn: Connection, ops: seq<Command>, answers: seq<Answer>) returns (ok: bool)
    requires conn.Valid() && conn.Commands() == [] && |answers| == |ops|
    modifies conn, conn.frame
    ensures conn.Valid()
    ensures ok <==> Filled(ops, answers, conn.frame.Length).Some?
    ensures ok ==> Filled(ops, answers, conn.frame.Length) == Some(conn.Waiting())
    ensures ok ==> Concatenated(conn.payloads) + conn.frame[..conn.Waiting()] == EncodeAll(Performed(ops))
  {
    hide EncodeAll, Payloads, Together, Filled, Performed, EncodeCommand, Pushable;
    var k := 0;
    assert ops[..0] == [] && answers[..0] == [];
    NothingFilled(conn.frame.Length);
    while k < |ops|
      invariant 0 <= k <= |ops| && conn.Valid() && conn.Commands() == Performed(ops[..k])
      invariant Filled(ops[..k], answers[..k], conn.frame.Length) == Some(conn.Waiting())
    {
      NextFilled(ops, answers, k, conn.frame.Length);
      var cs;
      match ops[k] {
        case Push(ty, fields) => cs := conn.PushValue(ty, fields, answers[k]);
        case Pop(count) => cs := conn.PopValues(count, answers[k]);
        case AddRows(count) => cs := conn.AddTableRows(count, answers[k]);
      }
      if !cs.Ok? {
        FailedStays(ops, answers, k + 1, conn.frame.Length);
        return false;
      }
      k := k + 1;
    }
    assert ops[..k] == ops && answers[..k] == answers;
    ok := true;
    PayloadsConserve(conn.sent);
    EncodeAllCat(Together(conn.sent), conn.pending);
    EmptyEncodes();
  }

  lemma NothingFilled(max: nat)
    ensures Filled([], [], max) == Some(0) && Performed([]) == []
  {
  }
}
