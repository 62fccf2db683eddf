/** Declarations whose ids are assigned when they are first needed. */
module DeclIds {
  import opened Wrappers
  import opened Syntax

  /** A declaration; it has an id once it was defined or referred to. */
  datatype Entry = Entry(name: Label, external: bool, id: Option<nat>)

  predicate Distinct(es: seq<Entry>) {
    forall i, j :: 0 <= i < j < |es| ==> es[i].name != es[j].name
  }

  predicate HasId(e: Entry, id: nat) { e.id == Some(id) }

  ghost predicate Used(es: seq<Entry>, id: nat) {
    exists i :: 0 <= i < |es| && HasId(es[i], id)
  }

  /** The ids in use are distinct and are exactly 0 .. count-1. */
  ghost predicate Proper(es: seq<Entry>, count: nat) {
    && Distinct(es)
    && (forall i :: 0 <= i < |es| && es[i].id.Some? ==> es[i].id.value < count)
    && (forall i, j :: 0 <= i < j < |es| && es[i].id.Some? ==> es[i].id != es[j].id)
    && (forall id: nat :: id < count ==> Used(es, id))
  }

  /** The declaration of a name. */
  function Declared(es: seq<Entry>, name: Label): Option<Entry> {
    if es == [] then None
    else if es[0].name == name then Some(es[0])
    else Declared(es[1..], name)
  }

  /** The declaration an id stands for in the compiled unit. */
  function ById(es: seq<Entry>, id: nat): Option<Entry> {
    if es == [] then None
    else if HasId(es[0], id) then Some(es[0])
    else ById(es[1..], id)
  }

  lemma {:induction false} DeclaredAt(es: seq<Entry>, i: nat)
    requires Distinct(es) && i < |es|
    ensures Declared(es, es[i].name) == Some(es[i])
    decreases |es|
  {
    if i > 0 {
      assert es[0].name != es[i].name;
      DeclaredAt(es[1..], i - 1);
    }
  }

  lemma {:induction false} DeclaredIndex(es: seq<Entry>, name: Label) returns (i: nat)
    requires Declared(es, name).Some?
    ensures i < |es| && es[i].name == name && Declared(es, name) == Some(es[i])
    decreases |es|
  {
    if es[0].name == name {
      i := 0;
    } else {
      i := DeclaredIndex(es[1..], name);
      i := i + 1;
    }
  }

  lemma {:induction false} ByIdAt(es: seq<Entry>, count: nat, i: nat)
    requires Proper(es, count) && i < |es| && es[i].id.Some?
    ensures ById(es, es[i].id.value) == Some(es[i])
  {
    FirstWithId(es, i);
  }

  lemma {:induction false} FirstWithId(es: seq<Entry>, i: nat)
    requires i < |es| && es[i].id.Some?
    requires forall j, k :: 0 <= j < k < |es| && es[j].id.Some? ==> es[j].id != es[k].id
    ensures ById(es, es[i].id.value) == Some(es[i])
    decreases |es|
  {
    if i > 0 {
      assert es[0].id.Some? ==> es[0].id != es[i].id;
      FirstWithId(es[1..], i - 1);
    }
  }

  /** An id resolves to the declaration that has it, and to nothing otherwise. */
  lemma ResolveExact(es: seq<Entry>, count: nat, name: Label)
    requires Proper(es, count) && Declared(es, name).Some? && Declared(es, name).value.id.Some?
    ensures ById(es, Declared(es, name).value.id.value) == Declared(es, name)
  {
    var i := DeclaredIndex(es, name);
    ByIdAt(es, count, i);
  }

  lemma {:induction false} NoSuchId(es: seq<Entry>, id: nat)
    ensures ById(es, id).Some? <==> Used(es, id)
    decreases |es|
  {
    if es != [] {
      NoSuchId(es[1..], id);
      if i :| 0 <= i < |es| && HasId(es[i], id) {
        if i > 0 {
          assert HasId(es[1..][i - 1], id);
        }
      }
      if ById(es, id).Some? && !HasId(es[0], id) {
        var i :| 0 <= i < |es[1..]| && HasId(es[1..][i], id);
        assert HasId(es[i + 1], id);
      }
    }
  }

  /** Exactly the ids below the count resolve. */
  lemma IdsCover(es: seq<Entry>, count: nat, id: nat)
    requires Proper(es, count)
    ensures ById(es, id).Some? <==> id < count
  {
    NoSuchId(es, id);
  }

  // ----- changes that keep ids -----

  /** Only the declaration of one name changed, and ids only were added. */
  ghost predicate OnlyName(es: seq<Entry>, es': seq<Entry>, name: Label) {
    forall n: Label :: n != name ==> Declared(es', n) == Declared(es, n)
  }

  ghost predicate IdsKept(es: seq<Entry>, es': seq<Entry>) {
    forall n: Label :: Declared(es, n).Some? ==>
      && Declared(es', n).Some?
      && (Declared(es, n).value.id.Some? ==> Declared(es', n).value.id == Declared(es, n).value.id)
  }

  /** The entry gets the next id. */
  lemma AssignNext(es: seq<Entry>, count: nat, i: nat, external: bool)
    requires Proper(es, count) && i < |es| && es[i].id.None?
    ensures var es' := es[i := Entry(es[i].name, external, Some(count))]; Proper(es', count + 1)
  {
    var es' := es[i := Entry(es[i].name, external, Some(count))];
    forall id: nat | id < count + 1
      ensures Used(es', id)
    {
      if id < count {
        assert Used(es, id);
        var j :| 0 <= j < |es| && HasId(es[j], id);
        assert HasId(es'[j], id);
      } else {
        assert HasId(es'[i], id);
      }
    }
  }

  /** An entry is replaced by one of the same name. */
  lemma ReplaceDeclared(es: seq<Entry>, i: nat, e: Entry)
    requires Distinct(es) && i < |es| && e.name == es[i].name
    ensures var es' := es[i := e]; Distinct(es') && OnlyName(es, es', e.name) && Declared(es', e.name) == Some(e)
    ensures Declared(es, e.name) == Some(es[i])
  {
    var es' := es[i := e];
    DeclaredAt(es, i);
    DeclaredAt(es', i);
    forall x: Entry | x.name != e.name
      ensures x in es <==> x in es'
    {
      if x in es {
        var k :| 0 <= k < |es| && es[k] == x;
        assert es'[k] == x;
      }
      if x in es' {
        var k :| 0 <= k < |es'| && es'[k] == x;
        assert es[k] == x;
      }
    }
    SameElsewhere(es, es', e.name);
  }

  lemma SameElsewhere(es: seq<Entry>, es': seq<Entry>, name: Label)
    requires Distinct(es) && Distinct(es')
    requires forall e: Entry :: e.name != name ==> (e in es <==> e in es')
    ensures OnlyName(es, es', name)
  {
    forall n: Label | n != name
      ensures Declared(es', n) == Declared(es, n)
    {
      if Declared(es, n).Some? {
        var i := DeclaredIndex(es, n);
        assert es[i] in es';
        var j :| 0 <= j < |es'| && es'[j] == es[i];
        DeclaredAt(es', j);
      } else if Declared(es', n).Some? {
        var i := DeclaredIndex(es', n);
        assert es'[i] in es;
        var j :| 0 <= j < |es| && es[j] == es'[i];
        DeclaredAt(es, j);
      }
    }
  }

  /** A new entry at the end. */
  lemma AppendDeclared(es: seq<Entry>, count: nat, e: Entry)
    requires Proper(es, count) && Declared(es, e.name).None? && (e.id == None || e.id == Some(count))
    ensures Proper(es + [e], if e.id.Some? then count + 1 else count)
    ensures OnlyName(es, es + [e], e.name) && Declared(es + [e], e.name) == Some(e)
  {
    var es' := es + [e];
    NoneWithName(es, e.name);
    forall id: nat | id < (if e.id.Some? then count + 1 else count)
      ensures Used(es', id)
    {
      if id < count {
        assert Used(es, id);
        var j :| 0 <= j < |es| && HasId(es[j], id);
        assert HasId(es'[j], id);
      } else {
        assert HasId(es'[|es|], id);
      }
    }
    DeclaredAt(es', |es|);
    SameElsewhere(es, es', e.name);
  }

  lemma {:induction false} NoneWithName(es: seq<Entry>, name: Label)
    requires Declared(es, name).None?
    ensures forall i :: 0 <= i < |es| ==> es[i].name != name
    decreases |es|
  {
    if es != [] {
      NoneWithName(es[1..], name);
      assert forall i :: 0 < i < |es| ==> es[i] == es[1..][i - 1];
    }
  }

  /** Two entries change places. */
  function Swapped(es: seq<Entry>, i: nat, j: nat): (r: seq<Entry>)
    requires i < |es| && j < |es|
    ensures |r| == |es|
  {
    es[i := es[j]][j := es[i]]
  }

  function Place(k: nat, i: nat, j: nat): nat {
    if k == i then j else if k == j then i else k
  }

  lemma SwapProper(es: seq<Entry>, count: nat, i: nat, j: nat)
    requires Proper(es, count) && i < |es| && j < |es|
    ensures Proper(Swapped(es, i, j), count)
  {
    var r := Swapped(es, i, j);
    forall k, l | 0 <= k < l < |r|
      ensures r[k].name != r[l].name && (r[k].id.Some? ==> r[k].id != r[l].id)
    {
      var a, b := Place(k, i, j), Place(l, i, j);
      assert a != b && r[k] == es[a] && r[l] == es[b];
    }
    forall k | 0 <= k < |r| && r[k].id.Some?
      ensures r[k].id.value < count
    {
      assert r[k] == es[Place(k, i, j)];
    }
    forall id: nat | id < count
      ensures Used(r, id)
    {
      assert Used(es, id);
      var k :| 0 <= k < |es| && HasId(es[k], id);
      assert HasId(r[Place(k, i, j)], id);
    }
  }

  /** Places do not matter: neither the ids nor the declarations change. */
  lemma SwapKeeps(es: seq<Entry>, count: nat, i: nat, j: nat)
    requires Proper(es, count) && i < |es| && j < |es|
    ensures Proper(Swapped(es, i, j), count)
    ensures forall n: Label :: Declared(Swapped(es, i, j), n) == Declared(es, n)
  {
    var r := Swapped(es, i, j);
    SwapProper(es, count, i, j);
    forall n: Label
      ensures Declared(r, n) == Declared(es, n)
    {
      var other: Label := if n == [65] then [66] else [65];
      SwapMembers(es, i, j);
      SameElsewhere(es, r, other);
    }
  }

  lemma SwapMembers(es: seq<Entry>, i: nat, j: nat)
    requires i < |es| && j < |es|
    ensures forall e :: e in es <==> e in Swapped(es, i, j)
  {
    var r := Swapped(es, i, j);
    forall e | e in es
      ensures e in r
    {
      var k :| 0 <= k < |es| && es[k] == e;
      assert r[Place(k, i, j)] == e;
    }
  }

  // ----- the table as a map -----

  function Names(es: seq<Entry>): (r: set<Label>)
    ensures forall n: Label :: n in r <==> Declared(es, n).Some?
  {
    if es == [] then {} else {es[0].name} + Names(es[1..])
  }

  /** The declarations by their names; places do not show. */
  function View(es: seq<Entry>): map<Label, Entry> {
    map n: Label | n in Names(es) :: Declared(es, n).value
  }

  lemma ViewUpdates(es: seq<Entry>, es': seq<Entry>, name: Label)
    requires OnlyName(es, es', name) && Declared(es', name).Some?
    ensures View(es') == View(es)[name := Declared(es', name).value]
  {
  }

  lemma ViewStays(es: seq<Entry>, es': seq<Entry>, name: Label)
    requires OnlyName(es, es', name) && Declared(es', name) == Declared(es, name)
    ensures View(es') == View(es)
  {
  }
}
