/** The field lists of a row copy, built and filtered in place. */
module RowFields {
  import opened Wrappers
  import opened Syntax
  import opened Operators
  import opened Compiler

  /** The first field of a table with the given name. */
  method FindByName(table: seq<Field>, name: Label) returns (f: Option<Field>)
    ensures f == FindField(table, name)
  {
    var i := 0;
    assert table[0..] == table;
    while i < |table| && table[i].name != name
      invariant 0 <= i <= |table|
      invariant FindField(table, name) == FindField(table[i..], name)
    {
      assert table[i..][1..] == table[i + 1..];
      i := i + 1;
    }
    f := if i < |table| then Some(table[i]) else None;
  }

  /** The named fields in the order of the names; None when one is missing. */
  method FieldsFromIds(names: seq<Label>, table: seq<Field>) returns (r: Option<seq<Field>>)
    ensures r == FieldsByName(table, names)
  {
    var i := 0;
    var result: seq<Field> := [];
    assert names[0..] == names;
    JoinedEnds(result, FieldsByName(table, names));
    while i < |names|
      invariant 0 <= i <= |names|
      invariant FieldsByName(table, names) == Joined(result, FieldsByName(table, names[i..]))
    {
      var f := FindByName(table, names[i]);
      assert names[i..][1..] == names[i + 1..];
      if f.None? {
        return None;
      }
      JoinedStep(result, f.value, FieldsByName(table, names[i + 1..]));
      result, i := result + [f.value], i + 1;
    }
    JoinedEnds(result, None);
    r := Some(result);
  }

  function Joined(done: seq<Field>, rest: Option<seq<Field>>): Option<seq<Field>> {
    if rest.None? then None else Some(done + rest.value)
  }

  lemma JoinedStep(done: seq<Field>, f: Field, rest: Option<seq<Field>>)
    ensures Joined(done, if rest.None? then None else Some([f] + rest.value)) == Joined(done + [f], rest)
  {
    if rest.Some? {
      assert done + ([f] + rest.value) == done + [f] + rest.value;
    }
  }

  lemma JoinedEnds(done: seq<Field>, rest: Option<seq<Field>>)
    ensures Joined([], rest) == rest && Joined(done, Some([])) == Some(done)
  {
    if rest.Some? {
      assert [] + rest.value == rest.value;
    }
    assert done + [] == done;
  }

  /** Removes the i-th element by moving the later ones down and shrinking. */
  method RemoveAt(list: seq<Field>, i: nat) returns (r: seq<Field>)
    requires i < |list|
    ensures r == list[..i] + list[i + 1..]
  {
    r := list;
    var j := i + 1;
    while j < |list|
      invariant i < j <= |list| && |r| == |list|
      invariant forall k :: 0 <= k < |list| ==> r[k] == list[if i <= k < j - 1 then k + 1 else k]
    {
      r := r[j - 1 := r[j]];
      j := j + 1;
    }
    r := r[..|r| - 1];
  }

  /** The right table's fields that match the left list by name. With
      fixMissing the left fields without a match are removed from the left list
      while it is walked; otherwise the first one is an error. */
  method FieldsFromLeft(table: seq<Field>, fixMissing: bool, leftList: seq<Field>)
    returns (ok: bool, left: seq<Field>, result: seq<Field>)
    ensures ok ==> |left| == |result|
    ensures fixMissing ==> ok && Zip(left, result) == SharedPairs(leftList, table)
    ensures !fixMissing && ok ==> left == leftList
    ensures !fixMissing ==> FieldsByName(table, FieldNames(leftList)) == if ok then Some(result) else None
  {
    hide SharedPairs, FieldsByName, FieldNames, FindField, Zip, Joined;
    left, result := leftList, [];
    var i := 0;
    assert left[0..] == leftList;
    NothingFound(leftList, table);
    while i < |left|
      invariant 0 <= i <= |left| && |result| == i
      invariant SharedPairs(leftList, table) == Zip(left[..i], result) + SharedPairs(left[i..], table)
      invariant !fixMissing ==> left == leftList
      invariant !fixMissing ==>
                  FieldsByName(table, FieldNames(leftList)) == Joined(result, FieldsByName(table, FieldNames(left[i..])))
      decreases |left| - i
    {
      var f := FindByName(table, left[i].name);
      assert left[i..][1..] == left[i + 1..];
      NamesHead(left[i..], table);
      if f.None? {
        if fixMissing {
          var was := left;
          left := RemoveAt(left, i);
          assert left[..i] == was[..i] && left[i..] == was[i + 1..];
        } else {
          NoneJoined(result);
          return false, left, result;
        }
      } else {
        ZipGrows(left[..i], result, left[i], f.value);
        JoinedStep(result, f.value, FieldsByName(table, FieldNames(left[i + 1..])));
        assert left[..i + 1] == left[..i] + [left[i]];
        result, i := result + [f.value], i + 1;
      }
    }
    assert left[..i] == left && left[i..] == [];
    NothingLeft(table);
    JoinedEnds(result, None);
    assert Zip(left, result) + [] == Zip(left, result);
    ok := true;
  }

  lemma NoneJoined(done: seq<Field>)
    ensures Joined(done, None) == None
  {
  }

  lemma NothingLeft(table: seq<Field>)
    ensures SharedPairs([], table) == [] && FieldsByName(table, FieldNames([])) == Some([])
  {
  }

  lemma NothingFound(leftList: seq<Field>, table: seq<Field>)
    ensures SharedPairs(leftList, table) == Zip([], []) + SharedPairs(leftList, table)
    ensures FieldsByName(table, FieldNames(leftList)) == Joined([], FieldsByName(table, FieldNames(leftList)))
  {
    JoinedEnds([], FieldsByName(table, FieldNames(leftList)));
  }

  lemma NamesHead(left: seq<Field>, table: seq<Field>)
    requires left != []
    ensures var f := FindField(table, left[0].name);
            var rest := FieldsByName(table, FieldNames(left[1..]));
            && FieldsByName(table, FieldNames(left)) == (if f.None? || rest.None? then None else Some([f.value] + rest.value))
            && SharedPairs(left, table) == (if f.None? then [] else [Pair(left[0], f.value)]) + SharedPairs(left[1..], table)
  {
    assert FieldNames(left)[1..] == FieldNames(left[1..]);
  }

  lemma {:induction false} ZipGrows(fs: seq<Field>, gs: seq<Field>, f: Field, g: Field)
    requires |fs| == |gs|
    ensures Zip(fs + [f], gs + [g]) == Zip(fs, gs) + [Pair(f, g)]
    decreases |fs|
  {
    if fs != [] {
      assert (fs + [f])[1..] == fs[1..] + [f] && (gs + [g])[1..] == gs[1..] + [g];
      ZipGrows(fs[1..], gs[1..], f, g);
    }
  }

  // ----- what the pairs are -----

  predicate Present(name: Label, table: seq<Field>) {
    exists f :: f in table && f.name == name
  }

  /** The fields of a list whose names a table has, in the list's order. */
  function Restricted(left: seq<Field>, table: seq<Field>): seq<Field> {
    if left == [] then []
    else (if Present(left[0].name, table) then [left[0]] else []) + Restricted(left[1..], table)
  }

  lemma {:induction false} FindExact(fields: seq<Field>, name: Label)
    ensures FindField(fields, name).Some? <==> Present(name, fields)
    ensures FindField(fields, name).Some? ==>
              FindField(fields, name).value in fields && FindField(fields, name).value.name == name
  {
    if fields != [] {
      if fields[0].name == name {
        assert fields[0] in fields;
      } else {
        FindExact(fields[1..], name);
        if FindField(fields[1..], name).Some? {
          assert FindField(fields[1..], name).value in fields;
        }
        if f :| f in fields && f.name == name {
          assert f in fields[1..];
        }
      }
    }
  }

  /** The copied pairs are the left list restricted to the names the right
      table has, in order, each with a field of that name of the right table. */
  lemma {:induction false} SharedPairsExact(left: seq<Field>, table: seq<Field>)
    ensures var ps := SharedPairs(left, table);
            && |ps| == |Restricted(left, table)|
            && forall i :: 0 <= i < |ps| ==>
                 ps[i].l == Restricted(left, table)[i] && ps[i].r in table && ps[i].r.name == ps[i].l.name
    decreases |left|
  {
    if left != [] {
      FindExact(table, left[0].name);
      SharedPairsExact(left[1..], table);
    }
  }
}
