/** The pool of type descriptors of a compiled unit. */
module TypePool {
  import opened Bytes
  import opened Wrappers
  import opened Syntax

  type Word = n: int | 0 <= n < 0x1_0000

  const END_MARK: Byte := 59

  datatype FieldSpec = FieldSpec(name: Label, ty: Word)

  /** What a variable's type is written as; only tables have fields. */
  datatype Spec = Spec(ty: Word, fields: seq<FieldSpec>)

  function FieldBytes(fs: seq<FieldSpec>): seq<Byte> {
    if fs == [] then [] else fs[0].name + [0] + Le(fs[0].ty, 2) + FieldBytes(fs[1..])
  }

  function Data(s: Spec): (r: seq<Byte>)
    ensures |r| >= 2
  {
    FieldBytes(s.fields) + [END_MARK, 0]
  }

  /** Type, size of the data in two bytes, data. */
  function Record(s: Spec): (r: seq<Byte>)
    ensures |r| == 4 + |Data(s)|
  {
    Le(s.ty, 2) + Le(|Data(s)|, 2) + Data(s)
  }

  function LoadLe16(b: seq<Byte>, pos: nat): nat
    requires pos + 2 <= |b|
  {
    FromLe(b[pos..pos + 2])
  }

  /** Writes a descriptor: the type, a place for the size, the fields one after
      the other, the end mark; then the size is filled in. */
  method TypeSpecFill(s: Spec) returns (stream: seq<Byte>)
    ensures stream == Record(s)
  {
    hide Le, FieldBytes;
    stream := Le(s.ty, 2) + [0, 0];
    var result, i := 0, 0;
    ghost var done: seq<Byte> := [];
    assert s.fields[0..] == s.fields;
    NothingWritten(FieldBytes(s.fields));
    while i < |s.fields|
      invariant 0 <= i <= |s.fields| && result == |done|
      invariant stream == Le(s.ty, 2) + [0, 0] + done
      invariant FieldBytes(s.fields) == done + FieldBytes(s.fields[i..])
    {
      var f := s.fields[i];
      FieldHead(s.fields[i..]);
      assert s.fields[i..][1..] == s.fields[i + 1..];
      stream := stream + f.name + [0];
      result := result + |f.name| + 1;
      stream := stream + Le(f.ty, 2);
      result := result + 2;
      done := done + (f.name + [0] + Le(f.ty, 2));
      i := i + 1;
    }
    NoFieldBytes();
    assert s.fields[i..] == [] && done + [] == done;
    stream := stream + [END_MARK, 0];
    result := result + 2;
    stream := stream[..2] + Le(result, 2) + stream[4..];
  }

  lemma NothingWritten(b: seq<Byte>)
    ensures b == [] + b
  {
  }

  lemma NoFieldBytes()
    ensures FieldBytes([]) == []
  {
  }

  /** The record says its own size. */
  predicate Sized(r: seq<Byte>) {
    |r| >= 6 && LoadLe16(r, 2) + 4 == |r|
  }

  /** The size of a table's data is cut to two bytes: the record is sound if and
      only if its data is shorter than 65536 bytes. */
  lemma SizedExact(s: Spec)
    ensures Sized(Record(s)) <==> |Data(s)| < 0x1_0000
  {
    hide Le, FromLe, Data;
    var n := |Data(s)|;
    assert Record(s)[2..4] == Le(n, 2);
    Pow2();
    FromLeBound(Le(n, 2));
    if n < 0x1_0000 {
      LeRoundTrip(n, 2);
    }
  }

  /** A table whose data has 65536 bytes: its size is written as 0, and a search
      steps from its start into its own data. */
  lemma OversizedSteps(name: Label)
    requires |name| == 65531
    ensures var s := Spec(TABLE_MASK, [FieldSpec(name, 1)]);
            |Data(s)| == 0x1_0000 && LoadLe16(Record(s), 2) == 0 && 0 + LoadLe16(Record(s), 2) + 2 * 2 < |Record(s)|
  {
    hide FromLe, Pow256;
    var s := Spec(TABLE_MASK, [FieldSpec(name, 1)]);
    FieldHead(s.fields);
    NoFieldBytes();
    assert s.fields[1..] == [];
    assert Le(0x1_0000, 2) == [0, 0];
    assert Record(s)[2..4] == [0, 0];
    FromZeros();
  }

  lemma FromZeros()
    ensures FromLe([0, 0]) == 0
  {
    assert FromLe([0, 0][1..]) == 0;
  }

  lemma Pow2()
    ensures Pow256(2) == 0x1_0000
  {
    assert Pow256(2) == 256 * Pow256(1);
  }

  // ----- validity -----

  /** The length of the zero-terminated text at p. */
  function TextLength(b: seq<Byte>, p: nat): (n: nat)
    requires p <= |b|
    ensures p + n <= |b| && (p + n < |b| ==> b[p + n] == 0) && forall i :: p <= i < p + n ==> b[i] != 0
    decreases |b| - p
  {
    if p == |b| || b[p] == 0 then 0 else 1 + TextLength(b, p + 1)
  }

  const ARRAY_MASK := 0x100
  const FIELD_MASK := 0x200
  const TABLE_MASK := 0x400
  const T_UNDETERMINED := 17

  predicate Has(ty: nat, mask: nat)
    requires mask > 0
  {
    (ty / mask) % 2 == 1
  }

  predicate GoodBase(ty: nat) { 0 < ty % 32 <= T_UNDETERMINED }

  /** The fields of a table's record from p up to the end mark: the name up to
      its zero byte, then a type. */
  predicate FieldsValid(r: seq<Byte>, p: nat)
    requires 6 <= |r| && p <= |r|
    decreases |r| - p
  {
    if p >= |r| - 2 then true
    else
      var n := TextLength(r, p);
      p + n + 3 <= |r| && GoodBase(LoadLe16(r, p + n + 1)) && FieldsValid(r, p + n + 3)
  }

  /** The library's test of a descriptor. */
  predicate IsTypeSpecValid(r: seq<Byte>)
    requires Sized(r)
  {
    var ty, size := LoadLe16(r, 0), |r| - 4;
    if ty == 0 then false
    else if ty > T_UNDETERMINED && !Has(ty, FIELD_MASK) && !Has(ty, ARRAY_MASK) && !Has(ty, TABLE_MASK) then false
    else if r[|r| - 2] != END_MARK || r[|r| - 1] != 0 then false
    else if Has(ty, FIELD_MASK) || Has(ty, ARRAY_MASK) then size == 2 && GoodBase(ty)
    else if Has(ty, TABLE_MASK) then ty % 32 == 0 && FieldsValid(r, 4)
    else true
  }

  /** The types the compiler can describe. */
  predicate LegalSpec(s: Spec) {
    && s.ty > 0
    && (s.ty > T_UNDETERMINED ==> Has(s.ty, FIELD_MASK) || Has(s.ty, ARRAY_MASK) || Has(s.ty, TABLE_MASK))
    && (Has(s.ty, FIELD_MASK) || Has(s.ty, ARRAY_MASK) ==> s.fields == [] && GoodBase(s.ty))
    && (!Has(s.ty, FIELD_MASK) && !Has(s.ty, ARRAY_MASK) && Has(s.ty, TABLE_MASK) ==>
          s.ty % 32 == 0 && forall f :: f in s.fields ==> GoodBase(f.ty))
  }

  /** A type word: the number of a base type below three marks. */
  function TypeWord(base: nat, isArray: bool, isField: bool, isTable: bool): (r: Word)
    requires base < 32
  {
    base + (if isArray then 0x100 else 0) + (if isField then 0x200 else 0) + (if isTable then 0x400 else 0)
  }

  /** The marks and the base type can be told from the word. */
  lemma WordParts(base: nat, isArray: bool, isField: bool, isTable: bool)
    requires base < 32
    ensures var ty := TypeWord(base, isArray, isField, isTable);
            && Has(ty, ARRAY_MASK) == isArray && Has(ty, FIELD_MASK) == isField && Has(ty, TABLE_MASK) == isTable
            && (GoodBase(ty) <==> 1 <= base <= 17)
  {
  }

  /** What is legal: one of the seventeen base types, a field or an array of one,
      and a table of fields of them. */
  lemma LegalExact(base: nat, isArray: bool, isField: bool, isTable: bool, fields: seq<FieldSpec>)
    requires base < 32
    ensures LegalSpec(Spec(TypeWord(base, isArray, isField, isTable), fields)) <==>
              if isField || isArray then fields == [] && 1 <= base <= 17
              else if isTable then base == 0 && forall f :: f in fields ==> 1 <= f.ty % 32 <= 17
              else 1 <= base <= 17
  {
    hide Has;
    WordParts(base, isArray, isField, isTable);
  }

  /** A record passes the library's test exactly when its type and the types of
      its fields are legal: the test's walk meets each field as it was written. */
  lemma ValidExact(s: Spec)
    requires |Data(s)| < 0x1_0000
    ensures Sized(Record(s)) && (IsTypeSpecValid(Record(s)) <==> LegalSpec(s))
  {
    hide Le, FromLe, FieldBytes, FieldsValid, LoadLe16, Has;
    SizedExact(s);
    var r := Record(s);
    var head := Le(s.ty, 2) + Le(|Data(s)|, 2);
    WordRead([], s.ty, Le(|Data(s)|, 2) + Data(s));
    assert r == [] + Le(s.ty, 2) + (Le(|Data(s)|, 2) + Data(s));
    assert r == head + (FieldBytes(s.fields) + [END_MARK, 0]);
    FieldsValidExact(head, s.fields);
    NoFieldsNoBytes(s.fields);
    assert r[|r| - 2] == END_MARK && r[|r| - 1] == 0;
  }

  lemma WordRead(pre: seq<Byte>, ty: Word, post: seq<Byte>)
    ensures LoadLe16(pre + Le(ty, 2) + post, |pre|) == ty
  {
    hide Le, FromLe;
    assert (pre + Le(ty, 2) + post)[|pre|..|pre| + 2] == Le(ty, 2);
    Pow2();
    LeRoundTrip(ty, 2);
  }

  lemma NoFieldsNoBytes(fs: seq<FieldSpec>)
    ensures FieldBytes(fs) == [] <==> fs == []
  {
  }

  lemma {:induction false} FieldsValidExact(pre: seq<Byte>, fs: seq<FieldSpec>)
    requires |pre| >= 4
    ensures FieldsValid(pre + (FieldBytes(fs) + [END_MARK, 0]), |pre|) <==> forall f :: f in fs ==> GoodBase(f.ty)
    decreases |fs|
  {
    hide Le, FromLe, LoadLe16, FieldBytes, TextLength, GoodBase;
    var r := pre + (FieldBytes(fs) + [END_MARK, 0]);
    if fs == [] {
      NoFieldBytes();
    } else {
      FieldHead(fs);
      var f, rest := fs[0], FieldBytes(fs[1..]) + [END_MARK, 0];
      assert r == pre + (f.name + [0] + Le(f.ty, 2)) + rest;
      assert r == (pre + f.name + [0]) + Le(f.ty, 2) + rest;
      WordRead(pre + f.name + [0], f.ty, rest);
      assert r == pre + f.name + [0] + (Le(f.ty, 2) + rest);
      NameLength(pre, f.name, Le(f.ty, 2) + rest, r);
      var next := pre + (f.name + [0] + Le(f.ty, 2));
      FieldsValidExact(next, fs[1..]);
      assert fs == [f] + fs[1..];
    }
  }

  // ----- the pool -----

  function Flat(rs: seq<seq<Byte>>): seq<Byte> {
    if rs == [] then [] else Flat(rs[..|rs| - 1]) + rs[|rs| - 1]
  }

  lemma NothingFlat()
    ensures Flat([]) == []
  {
  }

  lemma {:induction false} FlatPrefix(rs: seq<seq<Byte>>, k: nat)
    requires k < |rs|
    ensures |Flat(rs[..k])| + |rs[k]| == |Flat(rs[..k + 1])| <= |Flat(rs)|
    ensures Flat(rs)[|Flat(rs[..k])|..|Flat(rs[..k])| + |rs[k]|] == rs[k]
    decreases |rs|
  {
    assert rs[..k + 1][..k] == rs[..k];
    if k == |rs| - 1 {
      assert rs[..k + 1] == rs;
    } else {
      var init := rs[..|rs| - 1];
      assert init[..k] == rs[..k] && init[..k + 1] == rs[..k + 1];
      FlatPrefix(init, k);
    }
  }

  /** The descriptor stands at the offset. */
  predicate StandsAt(stream: seq<Byte>, off: nat, r: seq<Byte>) {
    off + |r| <= |stream| && stream[off..off + |r|] == r
  }

  lemma SizeField(stream: seq<Byte>, off: nat, r: seq<Byte>)
    requires |r| >= 4 && StandsAt(stream, off, r)
    ensures off + 4 <= |stream| && stream[off + 2..off + 4] == r[2..4]
  {
    var there := stream[off..off + |r|];
    assert there[2] == stream[off + 2] && there[3] == stream[off + 3];
    assert stream[off + 2..off + 4] == [there[2], there[3]] && r[2..4] == [there[2], there[3]];
  }

  lemma StandsGrows(stream: seq<Byte>, more: seq<Byte>, off: nat, r: seq<Byte>)
    requires StandsAt(stream, off, r) && stream <= more
    ensures StandsAt(more, off, r)
  {
    assert more[off..off + |r|] == stream[off..off + |r|];
  }

  /** A record and a descriptor at its start are equal when the bytes agree. */
  lemma SameRecord(stream: seq<Byte>, off: nat, a: seq<Byte>, b: seq<Byte>)
    requires Sized(a) && Sized(b) && StandsAt(stream, off, a) && StandsAt(stream, off, b)
    ensures a == b
  {
    SizeField(stream, off, a);
    SizeField(stream, off, b);
  }

  datatype Search = At(pos: nat) | Absent | Damaged

  class Pool {
    var stream: seq<Byte>

    /** The records in the order they were added. */
    ghost var records: seq<seq<Byte>>

    ghost predicate Valid()
      reads this
    {
      && stream == Flat(records)
      && (forall k :: 0 <= k < |records| ==> Sized(records[k]))
      && (forall j, k :: 0 <= j < k < |records| ==> records[j] != records[k])
    }

    constructor ()
      ensures Valid() && stream == [] && records == []
    {
      stream, records := [], [];
    }

    /** Is every record one the library accepts? */
    ghost predicate Proper()
      reads this
      requires Valid()
    {
      forall k :: 0 <= k < |records| ==> IsTypeSpecValid(records[k])
    }

    /** Steps from record to record; it looks at every record's start once and
        ends exactly at the end of the stream, or at the first record that is the
        wanted one or is not accepted. */
    method FindTypeSpec(spec: seq<Byte>) returns (position: Search, ghost at: nat)
      requires Valid() && Sized(spec)
      ensures at <= |records| && forall k :: 0 <= k < at ==> records[k] != spec && IsTypeSpecValid(records[k])
      ensures position.At? ==> at < |records| && records[at] == spec && position.pos == |Flat(records[..at])|
      ensures position.Damaged? ==> at < |records| && !IsTypeSpecValid(records[at])
      ensures position.Absent? ==> at == |records|
    {
      hide Flat, FromLe, IsTypeSpecValid;
      var pos := 0;
      at := 0;
      NothingFlat();
      LastRecord(records, 0);
      while pos < |stream|
        invariant 0 <= at <= |records| && pos == |Flat(records[..at])|
        invariant pos == |stream| <==> at == |records|
        invariant pos <= |stream|
        invariant forall k :: 0 <= k < at ==> records[k] != spec && IsTypeSpecValid(records[k])
        decreases |stream| - pos
      {
        FlatPrefix(records, at);
        RecordSize(stream, pos, records[at]);
        var size := LoadLe16(stream, pos + 2) + 2 * 2;
        if !IsTypeSpecValid(stream[pos..pos + size]) {
          return Damaged, at;
        }
        if StandsAt(stream, pos, spec) {
          SameRecord(stream, pos, records[at], spec);
          return At(pos), at;
        }
        pos := pos + size;
        at := at + 1;
        LastRecord(records, at);
      }
      position := Absent;
    }

    /** The offset of a descriptor; a new one is appended. It fails only when the
        search meets a record the library does not accept. */
    method FillTypeSpec(spec: seq<Byte>) returns (off: Option<nat>, ghost at: nat)
      requires Valid() && Sized(spec)
      modifies this
      ensures Valid() && old(stream) <= stream
      ensures records == if off.None? || spec in old(records) then old(records) else old(records) + [spec]
      ensures off.None? ==> exists k :: 0 <= k < |records| && !IsTypeSpecValid(records[k]) && spec !in records[..k]
      ensures old(Proper()) && IsTypeSpecValid(spec) ==> off.Some? && Proper()
      ensures off.Some? ==> StandsAt(stream, off.value, spec)
      ensures off.Some? ==> at < |records| && records[at] == spec && off.value == |Flat(records[..at])|
    {
      hide Flat, Sized, IsTypeSpecValid;
      var position;
      position, at := FindTypeSpec(spec);
      match position {
        case Damaged =>
          assert spec !in records[..at];
          off := None;
        case At(pos) =>
          off := Some(pos);
          FlatPrefix(records, at);
        case Absent =>
          AppendRecord(records, spec);
          off, at := Some(|stream|), |records|;
          stream := stream + spec;
          records := records + [spec];
      }
    }

    /** Any number of legal descriptors: none is refused, each keeps standing at
        the offset it got, and two of them have the same offset exactly when they
        are equal. */
    method FillAll(specs: seq<seq<Byte>>) returns (offs: seq<nat>)
      requires Valid() && Proper() && forall k :: 0 <= k < |specs| ==> Sized(specs[k]) && IsTypeSpecValid(specs[k])
      modifies this
      ensures Valid() && Proper() && |offs| == |specs|
      ensures forall k :: 0 <= k < |specs| ==> StandsAt(stream, offs[k], specs[k])
      ensures forall j, k :: 0 <= j < |specs| && 0 <= k < |specs| ==> (offs[j] == offs[k] <==> specs[j] == specs[k])
    {
      hide Flat, Sized, StandsAt, IsTypeSpecValid, Proper;
      offs := [];
      ghost var ats: seq<nat> := [];
      var k := 0;
      while k < |specs|
        invariant 0 <= k <= |specs| && |offs| == |ats| == k && Valid() && Proper()
        invariant forall j :: 0 <= j < k ==> StandsAt(stream, offs[j], specs[j])
        invariant forall j :: 0 <= j < k ==> ats[j] < |records| && records[ats[j]] == specs[j] && offs[j] == |Flat(records[..ats[j]])|
      {
        ghost var before, was := records, stream;
        var found, at := FillTypeSpec(specs[k]);
        var off := found.value;
        forall j | 0 <= j < k
          ensures records[..ats[j]] == before[..ats[j]] && StandsAt(stream, offs[j], specs[j])
        {
          StandsGrows(was, stream, offs[j], specs[j]);
        }
        offs, ats, k := offs + [off], ats + [at], k + 1;
      }
      forall i, j | 0 <= i < |specs| && 0 <= j < |specs|
        ensures offs[i] == offs[j] <==> specs[i] == specs[j]
      {
        OffsetsDiffer(records, ats[i], ats[j]);
      }
    }
  }

  lemma RecordSize(stream: seq<Byte>, pos: nat, r: seq<Byte>)
    requires Sized(r) && StandsAt(stream, pos, r)
    ensures pos + 4 <= |stream| && LoadLe16(stream, pos + 2) == |r| - 4
  {
    SizeField(stream, pos, r);
  }

  lemma AppendRecord(rs: seq<seq<Byte>>, r: seq<Byte>)
    ensures Flat(rs + [r]) == Flat(rs) + r && (rs + [r])[..|rs|] == rs
  {
    assert (rs + [r])[..|rs|] == rs;
  }

  /** The stream ends where the last record ends. */
  lemma LastRecord(rs: seq<seq<Byte>>, k: nat)
    requires k <= |rs| && forall i :: 0 <= i < |rs| ==> Sized(rs[i])
    ensures |Flat(rs[..k])| <= |Flat(rs)| && (|Flat(rs[..k])| == |Flat(rs)| <==> k == |rs|)
  {
    if k < |rs| {
      FlatPrefix(rs, k);
    } else {
      assert rs[..k] == rs;
    }
  }

  lemma {:induction false} OffsetsDiffer(rs: seq<seq<Byte>>, i: nat, j: nat)
    requires i < |rs| && j < |rs| && forall k :: 0 <= k < |rs| ==> Sized(rs[k])
    ensures |Flat(rs[..i])| == |Flat(rs[..j])| <==> i == j
  {
    if i < j {
      FlatPrefix(rs[..j], i);
      assert rs[..j][..i] == rs[..i];
    } else if j < i {
      FlatPrefix(rs[..i], j);
      assert rs[..i][..j] == rs[..j];
    }
  }

  // ----- the dumper -----

  datatype Listed = Listed(name: seq<Byte>, ty: nat)

  /** The fields the dumper lists from p on. It stops at the end mark, but also
      where the second byte is zero; None when it runs off the descriptor. */
  function ListFields(b: seq<Byte>, p: nat): Option<seq<Listed>>
    requires p <= |b|
    decreases |b| - p
  {
    if p + 2 > |b| then None
    else if b[p] == END_MARK || b[p + 1] == 0 then Some([])
    else
      var n := TextLength(b, p);
      if p + n + 3 > |b| then None
      else
        var rest := ListFields(b, p + n + 3);
        if rest.None? then None
        else Some([Listed(b[p..p + n], LoadLe16(b, p + n + 1))] + rest.value)
  }

  method DumpTableTypeInf(desc: seq<Byte>) returns (fields: Option<seq<Listed>>)
    requires |desc| >= 4
    ensures fields == if LoadLe16(desc, 2) > 2 then ListFields(desc, 4) else Some([])
  {
    hide ListFields, Before, FromLe;
    var descSize := LoadLe16(desc, 2);
    var lines: seq<Listed> := [];
    if descSize > 2 {
      var p := 4;
      Start(ListFields(desc, p));
      while true
        invariant 4 <= p <= |desc|
        invariant ListFields(desc, 4) == Before(lines, ListFields(desc, p))
        decreases |desc| - p
      {
        ListUnfolds(desc, p);
        Ended(lines);
        if p + 2 > |desc| {
          return None;
        }
        if desc[p] == END_MARK || desc[p + 1] == 0 {
          break;
        }
        var n := TextLength(desc, p);
        if p + n + 3 > |desc| {
          return None;
        }
        var line := Listed(desc[p..p + n], LoadLe16(desc, p + n + 1));
        OneMore(lines, line, ListFields(desc, p + n + 3));
        lines, p := lines + [line], p + n + 3;
      }
    }
    fields := Some(lines);
  }

  lemma ListUnfolds(b: seq<Byte>, p: nat)
    requires p <= |b|
    ensures ListFields(b, p) ==
              if p + 2 > |b| then None
              else if b[p] == END_MARK || b[p + 1] == 0 then Some([])
              else if p + TextLength(b, p) + 3 > |b| then None
              else
                var n := TextLength(b, p);
                var rest := ListFields(b, p + n + 3);
                if rest.None? then None else Some([Listed(b[p..p + n], LoadLe16(b, p + n + 1))] + rest.value)
  {
    hide TextLength, FromLe;
  }

  function Before(lines: seq<Listed>, rest: Option<seq<Listed>>): Option<seq<Listed>> {
    if rest.None? then None else Some(lines + rest.value)
  }

  lemma Start(rest: Option<seq<Listed>>)
    ensures Before([], rest) == rest
  {
    if rest.Some? {
      assert [] + rest.value == rest.value;
    }
  }

  lemma Ended(lines: seq<Listed>)
    ensures Before(lines, Some([])) == Some(lines) && Before(lines, None) == None
  {
    assert lines + [] == lines;
  }

  lemma OneMore(lines: seq<Listed>, line: Listed, rest: Option<seq<Listed>>)
    ensures Before(lines, if rest.None? then None else Some([line] + rest.value)) == Before(lines + [line], rest)
  {
    if rest.Some? {
      assert lines + ([line] + rest.value) == lines + [line] + rest.value;
    }
  }

  /** A field the dumper does not take for the end. */
  predicate Readable(f: FieldSpec) {
    |f.name| >= 2 && f.name[0] != END_MARK
  }

  /** The fields before the first one the dumper takes for the end. */
  function ReadablePrefix(fs: seq<FieldSpec>): (r: seq<FieldSpec>)
    ensures r <= fs
    ensures r == fs <==> forall i :: 0 <= i < |fs| ==> Readable(fs[i])
  {
    if fs == [] || !Readable(fs[0]) then []
    else
      var rest := ReadablePrefix(fs[1..]);
      assert [fs[0]] + rest == fs <==> rest == fs[1..];
      [fs[0]] + rest
  }

  function AsListed(fs: seq<FieldSpec>): (r: seq<Listed>)
    ensures |r| == |fs|
  {
    if fs == [] then [] else [Listed(fs[0].name, fs[0].ty)] + AsListed(fs[1..])
  }

  lemma {:induction false} ListsPrefix(pre: seq<Byte>, fs: seq<FieldSpec>, post: seq<Byte>)
    ensures ListFields(pre + (FieldBytes(fs) + [END_MARK, 0]) + post, |pre|) == Some(AsListed(ReadablePrefix(fs)))
    decreases |fs|
  {
    hide Le, FromLe, TextLength, ListFields, ReadablePrefix, AsListed, FieldBytes;
    var b := pre + (FieldBytes(fs) + [END_MARK, 0]) + post;
    if fs == [] {
      NoField(pre, post);
    } else {
      var head := fs[0].name + [0] + Le(fs[0].ty, 2);
      var tail := FieldBytes(fs[1..]) + [END_MARK, 0] + post;
      FieldHead(fs);
      assert b == pre + head + tail;
      OneField(pre, fs[0], tail);
      PrefixHead(fs);
      if Readable(fs[0]) {
        ListsPrefix(pre + head, fs[1..], post);
        assert b == (pre + head) + (FieldBytes(fs[1..]) + [END_MARK, 0]) + post;
      }
    }
  }

  lemma FieldHead(fs: seq<FieldSpec>)
    requires fs != []
    ensures FieldBytes(fs) == fs[0].name + [0] + Le(fs[0].ty, 2) + FieldBytes(fs[1..])
  {
  }

  lemma NoField(pre: seq<Byte>, post: seq<Byte>)
    ensures FieldBytes([]) == [] && ReadablePrefix([]) == [] && AsListed([]) == []
    ensures ListFields(pre + ([] + [END_MARK, 0]) + post, |pre|) == Some([])
  {
    var b := pre + ([] + [END_MARK, 0]) + post;
    assert b[|pre|] == END_MARK;
  }

  lemma PrefixHead(fs: seq<FieldSpec>)
    requires fs != []
    ensures AsListed(ReadablePrefix(fs))
         == if Readable(fs[0]) then [Listed(fs[0].name, fs[0].ty)] + AsListed(ReadablePrefix(fs[1..])) else []
  {
    if Readable(fs[0]) {
      assert ReadablePrefix(fs)[1..] == ReadablePrefix(fs[1..]);
    }
  }

  /** One step of the dumper over a written field. */
  lemma OneField(pre: seq<Byte>, f: FieldSpec, tail: seq<Byte>)
    ensures var head := f.name + [0] + Le(f.ty, 2);
            var b := pre + head + tail;
            ListFields(b, |pre|) ==
              if !Readable(f) then Some([])
              else
                var rest := ListFields(b, |pre + head|);
                if rest.None? then None else Some([Listed(f.name, f.ty)] + rest.value)
  {
    hide Le, FromLe, TextLength, ListFields;
    var ty := Le(f.ty, 2);
    var head := f.name + [0] + ty;
    var b, p := pre + head + tail, |pre|;
    assert b == pre + (f.name + [0]) + (ty + tail);
    NameLength(pre, f.name, ty + tail, b);
    ListUnfolds(b, p);
    assert b[p] == f.name[0] && b[p + 1] == (f.name + [0])[1];
    assert |f.name| >= 2 ==> f.name[1] in f.name;
    TypeAfter(pre + f.name + [0], ty, tail, b);
    WordBack(f.ty);
  }

  lemma TypeAfter(pre: seq<Byte>, ty: seq<Byte>, tail: seq<Byte>, b: seq<Byte>)
    requires b == pre + ty + tail && |ty| == 2
    ensures b[|pre|..|pre| + 2] == ty
  {
  }

  lemma WordBack(w: Word)
    ensures FromLe(Le(w, 2)) == w
  {
    Pow2();
    LeRoundTrip(w, 2);
  }

  lemma NameLength(pre: seq<Byte>, name: Label, post: seq<Byte>, b: seq<Byte>)
    requires b == pre + (name + [0]) + post
    ensures TextLength(b, |pre|) == |name| && b[|pre|..|pre| + |name|] == name
  {
    var n := TextLength(b, |pre|);
    assert b[|pre| + |name|] == 0;
    assert forall i :: 0 <= i < |name| ==> name[i] in name && b[|pre| + i] == name[i];
  }

  /** For data shorter than 65536 bytes the dump of a table gives back the
      fields that were written if and only if no name has only one byte or
      starts with the end mark. */
  lemma DumpExact(s: Spec, rest: seq<Byte>)
    requires |Data(s)| < 0x1_0000
    ensures var desc := Record(s) + rest;
            var listed := if LoadLe16(desc, 2) > 2 then ListFields(desc, 4) else Some([]);
            listed == Some(AsListed(s.fields)) <==> forall i :: 0 <= i < |s.fields| ==> Readable(s.fields[i])
  {
    hide Le, FromLe, FieldBytes, ListFields;
    var desc := Record(s) + rest;
    var pre := Le(s.ty, 2) + Le(|Data(s)|, 2);
    assert desc == pre + (FieldBytes(s.fields) + [END_MARK, 0]) + rest;
    assert desc[2..4] == Le(|Data(s)|, 2);
    WordBack(|Data(s)|);
    ListsPrefix(pre, s.fields, rest);
    SomeBytes(s.fields);
    PrefixShorter(s.fields);
  }

  lemma SomeBytes(fs: seq<FieldSpec>)
    ensures FieldBytes(fs) == [] <==> fs == []
  {
  }

  lemma PrefixShorter(fs: seq<FieldSpec>)
    ensures AsListed(ReadablePrefix(fs)) == AsListed(fs) <==> ReadablePrefix(fs) == fs
  {
    var r := ReadablePrefix(fs);
    assert r == fs[..|r|];
    assert |r| == |fs| ==> fs[..|r|] == fs;
  }
}
