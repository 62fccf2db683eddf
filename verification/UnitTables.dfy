/** The compiler's tables of procedures and of global variables. */
module UnitTables {
  import opened Wrappers
  import opened Syntax
  import opened DeclIds

  /** A name and the id it had when an instruction with it was emitted. */
  datatype Emitted = Emitted(name: Label, id: nat)

  datatype Op = Refer(name: Label) | Extern(name: Label) | Define(name: Label)

  // ----- what a unit's declarations and references come to -----

  /** The declarations by name and the number of ids given away. */
  datatype Declarations = Declarations(known: map<Label, Entry>, count: nat)

  /** A reference: an undeclared name gives nothing, the first reference to a
      declared one gives it the next id. */
  function Referred(t: Declarations, name: Label): (Declarations, Option<Emitted>) {
    if name !in t.known then (t, None)
    else
      var e := t.known[name];
      if e.id.Some? then (t, Some(Emitted(name, e.id.value)))
      else (Declarations(t.known[name := Entry(name, e.external, Some(t.count))], t.count + 1), Some(Emitted(name, t.count)))
  }

  /** A new definition has the next id, a new declaration has none. */
  function Introduced(t: Declarations, name: Label, externDecl: bool): Declarations {
    if externDecl then t.(known := t.known[name := Entry(name, true, None)])
    else Declarations(t.known[name := Entry(name, false, Some(t.count))], t.count + 1)
  }

  /** A procedure that was declared and never referred to gets its id where it
      is defined; one that was referred to keeps its entry as it is. */
  function Installed(t: Declarations, name: Label, externDecl: bool): Declarations {
    if name !in t.known then Introduced(t, name, externDecl)
    else if t.known[name].external && t.known[name].id.None? && !externDecl then Introduced(t, name, false)
    else t
  }

  /** A variable that is defined after it was referred to keeps its id. */
  function Added(t: Declarations, name: Label, sameType: bool, externDecl: bool): Declarations {
    if name !in t.known then Introduced(t, name, externDecl)
    else if !sameType || externDecl || !t.known[name].external then t
    else if t.known[name].id.None? then Introduced(t, name, false)
    else t.(known := t.known[name := Entry(name, false, t.known[name].id)])
  }

  function ProcStep(t: Declarations, op: Op): (Declarations, Option<Emitted>) {
    match op
    case Refer(name) => Referred(t, name)
    case Extern(name) => (Installed(t, name, true), None)
    case Define(name) => (Installed(t, name, false), None)
  }

  function GlobalStep(t: Declarations, op: Op, sameType: bool): (Declarations, Option<Emitted>) {
    match op
    case Refer(name) => Referred(t, name)
    case Extern(name) => (Added(t, name, sameType, true), None)
    case Define(name) => (Added(t, name, sameType, false), None)
  }

  function ProcRun(t: Declarations, ops: seq<Op>): Declarations {
    if ops == [] then t else ProcStep(ProcRun(t, ops[..|ops| - 1]), ops[|ops| - 1]).0
  }

  function GlobalRun(t: Declarations, ops: seq<Op>, sameTypes: seq<bool>): Declarations
    requires |ops| == |sameTypes|
  {
    if ops == [] then t
    else
      var n := |ops| - 1;
      GlobalStep(GlobalRun(t, ops[..n], sameTypes[..n]), ops[n], sameTypes[n]).0
  }

  /** Is the name declared, at first or by one of the operations? */
  ghost predicate Known(es: seq<Entry>, ops: seq<Op>, name: Label) {
    Declared(es, name).Some? || exists j :: 0 <= j < |ops| && !ops[j].Refer? && ops[j].name == name
  }

  /** What holds for the ids of a unit: there is one entry for each operation,
      an id exactly for a reference to a name declared by then; the name still
      has that id at the end, and it is the only one with it. */
  ghost predicate IdsRight(es: seq<Entry>, ops: seq<Op>, es': seq<Entry>, count: nat, emitted: seq<Option<Emitted>>) {
    && |emitted| == |ops| && IdsKept(es, es')
    && (forall n: Label :: Declared(es', n).Some? <==> Known(es, ops, n))
    && (forall k :: 0 <= k < |ops| ==> (emitted[k].Some? <==> ops[k].Refer? && Known(es, ops[..k], ops[k].name)))
    && (forall k :: 0 <= k < |ops| && emitted[k].Some? ==>
          var x := emitted[k].value;
          && x.name == ops[k].name && Holds(es', x)
          && ById(es', x.id).Some? && ById(es', x.id).value.name == x.name)
    && (forall id: nat :: ById(es', id).Some? <==> id < count)
  }

  class Procedures {
    var procs: seq<Entry>
    var procsCount: nat

    ghost predicate Valid()
      reads this
    {
      Proper(procs, procsCount)
    }

    constructor ()
      ensures Valid() && procs == [] && procsCount == 0
    {
      procs, procsCount := [], 0;
    }

    /** Searches from the end; a reference gives the procedure its id. */
    method FindProcDecl(name: Label, refer: bool) returns (at: Option<nat>)
      requires Valid()
      modifies this
      ensures Valid() && IdsKept(old(procs), procs) && OnlyName(old(procs), procs, name) && |procs| == |old(procs)|
      ensures at.Some? <==> Declared(old(procs), name).Some?
      ensures at.Some? ==> at.value < |procs| && Declared(procs, name) == Some(procs[at.value]) && procs[at.value].name == name
      ensures at.Some? && refer ==> var e := Declared(old(procs), name).value;
                procs[at.value] == Entry(name, e.external, if e.id.Some? then e.id else Some(old(procsCount)))
                && procsCount == old(procsCount) + if e.id.Some? then 0 else 1
      ensures at.None? || !refer ==> procs == old(procs) && procsCount == old(procsCount)
    {
      var procIt := |procs|;
      while procIt > 0
        invariant 0 <= procIt <= |procs|
        invariant forall k :: procIt <= k < |procs| ==> procs[k].name != name
      {
        procIt := procIt - 1;
        if procs[procIt].name == name {
          DeclaredAt(procs, procIt);
          var e := procs[procIt];
          if refer && e.id.None? {
            AssignNext(procs, procsCount, procIt, e.external);
            ReplaceDeclared(procs, procIt, Entry(name, e.external, Some(procsCount)));
            procs := procs[procIt := Entry(name, e.external, Some(procsCount))];
            procsCount := procsCount + 1;
          }
          return Some(procIt);
        }
      }
      AbsentName(procs, name);
      at := None;
    }

    /** A declaration or a definition. A definition gets an id unless it has one
        and, when the id is new, moves to the place with that number. */
    method InstallProcDecl(name: Label, externDecl: bool) returns (ok: bool)
      requires Valid()
      modifies this
      ensures Valid() && IdsKept(old(procs), procs) && OnlyName(old(procs), procs, name)
      ensures ok <==> externDecl || Declared(old(procs), name).None? || Declared(old(procs), name).value.external
      ensures Declarations(View(procs), procsCount) == Installed(Declarations(View(old(procs)), old(procsCount)), name, externDecl)
      ensures Declared(procs, name).Some? && (ok && !externDecl ==> Declared(procs, name).value.id.Some?)
    {
      hide View, Proper;
      var found := FindProcDecl(name, false);
      Viewed(procs, name);
      if found.Some? && !procs[found.value].external && !externDecl {
        return false;
      }
      ok := true;
      if found.None? && externDecl {
        AppendDeclared(procs, procsCount, Entry(name, true, None));
        ViewUpdates(procs, procs + [Entry(name, true, None)], name);
        procs := procs + [Entry(name, true, None)];
      } else if found.None? {
        InstallNew(name);
      } else if procs[found.value].external && procs[found.value].id.None? && !externDecl {
        DefineKnown(name, found.value);
      }
    }

    /** The definition of a procedure that was not declared. */
    method InstallNew(name: Label)
      requires Valid() && Declared(procs, name).None?
      modifies this
      ensures Valid() && IdsKept(old(procs), procs) && OnlyName(old(procs), procs, name)
      ensures Declared(procs, name) == Some(Entry(name, false, Some(old(procsCount)))) && procsCount == old(procsCount) + 1
      ensures View(procs) == View(old(procs))[name := Entry(name, false, Some(old(procsCount)))]
    {
      hide View;
      var id := procsCount;
      AppendDeclared(procs, procsCount, Entry(name, false, Some(id)));
      procs := procs + [Entry(name, false, Some(id))];
      procsCount := procsCount + 1;
      if procsCount < |procs| {
        SwapKeeps(procs, procsCount, |procs| - 1, id);
        procs := Swapped(procs, |procs| - 1, id);
      }
      ViewUpdates(old(procs), procs, name);
    }

    /** The definition of a procedure that was declared but not referred to yet. */
    method DefineKnown(name: Label, found: nat)
      requires Valid() && found < |procs| && procs[found].name == name && procs[found].id.None?
      modifies this
      ensures Valid() && IdsKept(old(procs), procs) && OnlyName(old(procs), procs, name)
      ensures Declared(procs, name) == Some(Entry(name, false, Some(old(procsCount)))) && procsCount == old(procsCount) + 1
      ensures View(procs) == View(old(procs))[name := Entry(name, false, Some(old(procsCount)))]
    {
      hide View;
      var id := procsCount;
      AssignNext(procs, procsCount, found, false);
      ReplaceDeclared(procs, found, Entry(name, false, Some(id)));
      procs := procs[found := Entry(name, false, Some(id))];
      procsCount := procsCount + 1;
      CountFits(procs, procsCount);
      SwapKeeps(procs, procsCount, found, id);
      procs := Swapped(procs, found, id);
      ViewUpdates(old(procs), procs, name);
    }

    /** The procedure an id stands for in the compiled unit. */
    method ProcedureGet(id: nat) returns (name: Option<Label>)
      ensures name == match ById(procs, id) case None => None case Some(e) => Some(e.name)
    {
      var procIndex := 0;
      assert procs[0..] == procs;
      while procIndex < |procs|
        invariant 0 <= procIndex <= |procs|
        invariant ById(procs, id) == ById(procs[procIndex..], id)
      {
        if HasId(procs[procIndex], id) {
          return Some(procs[procIndex].name);
        }
        assert procs[procIndex..][1..] == procs[procIndex + 1..];
        procIndex := procIndex + 1;
      }
      name := None;
    }

    /** A whole unit: declarations, definitions and references in any order.
        Every id that was put into an instruction stands for the same name at
        the end, and the ids of the unit are exactly those below its count. */
    method CompileUnit(ops: seq<Op>) returns (emitted: seq<Option<Emitted>>)
      requires Valid()
      modifies this
      ensures Valid() && IdsRight(old(procs), ops, procs, procsCount, emitted)
      ensures Declarations(View(procs), procsCount) == ProcRun(Declarations(View(old(procs)), old(procsCount)), ops)
    {
      hide View, Proper, IdsKept, OnlyName, ProcRun, Referred, Installed, Known, Progress, Declared, IdsRight;
      emitted := [];
      var k := 0;
      ghost var first, start := procs, Declarations(View(procs), procsCount);
      NothingRun(start, first);
      assert ops[..0] == [];
      while k < |ops|
        invariant 0 <= k <= |ops| && Valid() && Progress(first, ops[..k], procs, emitted)
        invariant Declarations(View(procs), procsCount) == ProcRun(start, ops[..k])
      {
        ghost var was, count := procs, procsCount;
        var x: Option<Emitted> := None;
        match ops[k] {
          case Refer(name) =>
            var at := FindProcDecl(name, true);
            if at.Some? {
              x := Some(Emitted(name, procs[at.value].id.value));
            }
            ReferView(was, count, procs, procsCount, name, x);
          case Extern(name) => var _ := InstallProcDecl(name, true);
          case Define(name) => var _ := InstallProcDecl(name, false);
        }
        ProcRunNext(start, ops, k);
        Progressed(first, ops, k, was, procs, emitted, x);
        emitted := emitted + [x];
        k := k + 1;
      }
      assert ops[..k] == ops;
      RunRight(first, ops, procs, procsCount, emitted);
    }
  }

  class Globals {
    var decls: seq<Entry>
    var localsUsed: nat

    ghost predicate Valid()
      reads this
    {
      Proper(decls, localsUsed)
    }

    constructor ()
      ensures Valid() && decls == [] && localsUsed == 0
    {
      decls, localsUsed := [], 0;
    }

    /** The first declaration of the name; a reference gives it its id. */
    method FindDeclaration(name: Label, reffered: bool) returns (at: Option<nat>)
      requires Valid()
      modifies this
      ensures Valid() && IdsKept(old(decls), decls) && OnlyName(old(decls), decls, name) && |decls| == |old(decls)|
      ensures at.Some? <==> Declared(old(decls), name).Some?
      ensures at.Some? ==> at.value < |decls| && Declared(decls, name) == Some(decls[at.value]) && decls[at.value].name == name
      ensures at.Some? && reffered ==> var e := Declared(old(decls), name).value;
                decls[at.value] == Entry(name, e.external, if e.id.Some? then e.id else Some(old(localsUsed)))
                && localsUsed == old(localsUsed) + if e.id.Some? then 0 else 1
      ensures at.None? || !reffered ==> decls == old(decls) && localsUsed == old(localsUsed)
    {
      var i := 0;
      while i < |decls|
        invariant 0 <= i <= |decls|
        invariant forall k :: 0 <= k < i ==> decls[k].name != name
      {
        if decls[i].name == name {
          DeclaredAt(decls, i);
          var e := decls[i];
          if reffered && e.id.None? {
            AssignNext(decls, localsUsed, i, e.external);
            ReplaceDeclared(decls, i, Entry(name, e.external, Some(localsUsed)));
            decls := decls[i := Entry(name, e.external, Some(localsUsed))];
            localsUsed := localsUsed + 1;
          }
          return Some(i);
        }
        i := i + 1;
      }
      AbsentName(decls, name);
      at := None;
    }

    /** A declaration or a definition of a variable; sameType says whether an
        earlier declaration has the same type. A variable that is defined has
        an id from then on, the one it got earlier if it was referred to. */
    method AddDeclaration(name: Label, sameType: bool, externDecl: bool) returns (ok: bool)
      requires Valid()
      modifies this
      ensures Valid() && IdsKept(old(decls), decls) && OnlyName(old(decls), decls, name)
      ensures ok <==> Declared(old(decls), name).None?
                      || (sameType && (externDecl || Declared(old(decls), name).value.external))
      ensures Declarations(View(decls), localsUsed)
           == Added(Declarations(View(old(decls)), old(localsUsed)), name, sameType, externDecl)
      ensures Declared(decls, name).Some?
      ensures ok && !externDecl ==> Declared(decls, name).value.id.Some? && !Declared(decls, name).value.external
      ensures !ok ==> decls == old(decls) && localsUsed == old(localsUsed)
    {
      hide View;
      ghost var was := decls;
      Viewed(decls, name);
      var at := FindDeclaration(name, false);
      ok := true;
      if at.Some? {
        var e := decls[at.value];
        if !sameType || (!e.external && !externDecl) {
          return false;
        }
        if e.external && !externDecl {
          var id := if e.id.None? then localsUsed else e.id.value;
          if e.id.None? {
            AssignNext(decls, localsUsed, at.value, false);
            localsUsed := localsUsed + 1;
          } else {
            SameId(decls, localsUsed, at.value);
          }
          ReplaceDeclared(decls, at.value, Entry(name, false, Some(id)));
          decls := decls[at.value := Entry(name, false, Some(id))];
          ViewUpdates(was, decls, name);
        }
      } else {
        var e := if externDecl then Entry(name, true, None) else Entry(name, false, Some(localsUsed));
        AppendDeclared(decls, localsUsed, e);
        decls := decls + [e];
        localsUsed := if externDecl then localsUsed else localsUsed + 1;
        ViewUpdates(was, decls, name);
      }
    }

    /** The variable an id stands for in the compiled unit. */
    method GetVar(item: nat) returns (name: Option<Label>)
      ensures name == match ById(decls, item) case None => None case Some(e) => Some(e.name)
    {
      var it := 0;
      assert decls[0..] == decls;
      while it < |decls|
        invariant 0 <= it <= |decls|
        invariant ById(decls, item) == ById(decls[it..], item)
      {
        if HasId(decls[it], item) {
          return Some(decls[it].name);
        }
        assert decls[it..][1..] == decls[it + 1..];
        it := it + 1;
      }
      name := None;
    }

    /** The same for a whole unit as for procedures. */
    method CompileUnit(ops: seq<Op>, sameTypes: seq<bool>) returns (emitted: seq<Option<Emitted>>)
      requires Valid() && |sameTypes| == |ops|
      modifies this
      ensures Valid() && IdsRight(old(decls), ops, decls, localsUsed, emitted)
      ensures Declarations(View(decls), localsUsed)
           == GlobalRun(Declarations(View(old(decls)), old(localsUsed)), ops, sameTypes)
    {
      hide View, Proper, IdsKept, OnlyName, GlobalRun, Referred, Added, Known, Progress, Declared, IdsRight;
      emitted := [];
      var k := 0;
      ghost var first, start := decls, Declarations(View(decls), localsUsed);
      NothingRun(start, first);
      assert ops[..0] == [] && sameTypes[..0] == [];
      while k < |ops|
        invariant 0 <= k <= |ops| && Valid() && Progress(first, ops[..k], decls, emitted)
        invariant Declarations(View(decls), localsUsed) == GlobalRun(start, ops[..k], sameTypes[..k])
      {
        ghost var was, count := decls, localsUsed;
        var x: Option<Emitted> := None;
        match ops[k] {
          case Refer(name) =>
            var at := FindDeclaration(name, true);
            if at.Some? {
              x := Some(Emitted(name, decls[at.value].id.value));
            }
            ReferView(was, count, decls, localsUsed, name, x);
          case Extern(name) => var _ := AddDeclaration(name, sameTypes[k], true);
          case Define(name) => var _ := AddDeclaration(name, sameTypes[k], false);
        }
        GlobalRunNext(start, ops, sameTypes, k);
        Progressed(first, ops, k, was, decls, emitted, x);
        emitted := emitted + [x];
        k := k + 1;
      }
      assert ops[..k] == ops && sameTypes[..k] == sameTypes;
      RunRight(first, ops, decls, localsUsed, emitted);
    }
  }

  /** An entry that keeps its id stays proper. */
  lemma SameId(es: seq<Entry>, count: nat, i: nat)
    requires Proper(es, count) && i < |es|
    ensures Proper(es[i := Entry(es[i].name, false, es[i].id)], count)
  {
    var es' := es[i := Entry(es[i].name, false, es[i].id)];
    forall id: nat | id < count
      ensures Used(es', id)
    {
      assert Used(es, id);
      var j :| 0 <= j < |es| && HasId(es[j], id);
      assert HasId(es'[j], id);
    }
  }

  // ----- whole runs -----

  lemma Viewed(es: seq<Entry>, name: Label)
    ensures name in View(es) <==> Declared(es, name).Some?
    ensures name in View(es) ==> View(es)[name] == Declared(es, name).value
  {
  }

  lemma NothingRun(t: Declarations, es: seq<Entry>)
    ensures ProcRun(t, []) == t && GlobalRun(t, [], []) == t && Progress(es, [], es, [])
  {
  }

  lemma ProcRunNext(t: Declarations, ops: seq<Op>, k: nat)
    requires k < |ops|
    ensures ProcRun(t, ops[..k + 1]) == ProcStep(ProcRun(t, ops[..k]), ops[k]).0
  {
    assert ops[..k + 1][..k] == ops[..k];
  }

  lemma GlobalRunNext(t: Declarations, ops: seq<Op>, sameTypes: seq<bool>, k: nat)
    requires k < |ops| == |sameTypes|
    ensures GlobalRun(t, ops[..k + 1], sameTypes[..k + 1])
         == GlobalStep(GlobalRun(t, ops[..k], sameTypes[..k]), ops[k], sameTypes[k]).0
  {
    assert ops[..k + 1][..k] == ops[..k] && sameTypes[..k + 1][..k] == sameTypes[..k];
  }

  /** What a reference does, by names. */
  lemma ReferView(was: seq<Entry>, count: nat, es: seq<Entry>, count': nat, name: Label, x: Option<Emitted>)
    requires OnlyName(was, es, name) && (x.Some? <==> Declared(was, name).Some?)
    requires x.None? ==> es == was && count' == count
    requires x.Some? ==>
               var e := Declared(was, name).value;
               var id := if e.id.Some? then e.id.value else count;
               && Declared(es, name) == Some(Entry(name, e.external, Some(id))) && x.value == Emitted(name, id)
               && count' == count + if e.id.Some? then 0 else 1
    ensures (Declarations(View(es), count'), x) == Referred(Declarations(View(was), count), name)
  {
    hide View, Declared, OnlyName;
    Viewed(was, name);
    if x.Some? {
      var _ := DeclaredIndex(was, name);
      if Declared(was, name).value.id.Some? {
        ViewStays(was, es, name);
      } else {
        ViewUpdates(was, es, name);
      }
    }
  }

  /** What holds after the first operations. */
  ghost predicate Progress(first: seq<Entry>, done: seq<Op>, es: seq<Entry>, emitted: seq<Option<Emitted>>) {
    && |emitted| == |done| && IdsKept(first, es)
    && (forall n: Label :: Declared(es, n).Some? <==> Known(first, done, n))
    && (forall k :: 0 <= k < |done| ==> (emitted[k].Some? <==> done[k].Refer? && Known(first, done[..k], done[k].name)))
    && (forall k :: 0 <= k < |done| && emitted[k].Some? ==>
          emitted[k].value.name == done[k].name && Holds(es, emitted[k].value))
  }

  lemma Progressed(first: seq<Entry>, ops: seq<Op>, k: nat, was: seq<Entry>, es: seq<Entry>,
                   emitted: seq<Option<Emitted>>, x: Option<Emitted>)
    requires k < |ops| && Progress(first, ops[..k], was, emitted)
    requires IdsKept(was, es) && OnlyName(was, es, ops[k].name)
    requires Declared(es, ops[k].name).Some? <==> !ops[k].Refer? || Declared(was, ops[k].name).Some?
    requires x.Some? <==> ops[k].Refer? && Declared(was, ops[k].name).Some?
    requires x.Some? ==> x.value.name == ops[k].name && Holds(es, x.value)
    ensures Progress(first, ops[..k + 1], es, emitted + [x])
  {
    hide Declared;
    var done, next := ops[..k], ops[..k + 1];
    assert next == done + [ops[k]];
    forall n: Label
      ensures Declared(es, n).Some? <==> Known(first, next, n)
    {
      KnownNext(first, done, ops[k], n);
    }
    forall j | 0 <= j < |next|
      ensures (emitted + [x])[j].Some? <==> next[j].Refer? && Known(first, next[..j], next[j].name)
      ensures (emitted + [x])[j].Some? ==> (emitted + [x])[j].value.name == next[j].name && Holds(es, (emitted + [x])[j].value)
    {
      assert next[..j] == done[..j] && (j < k ==> next[j] == done[j]);
      assert done[..k] == done;
    }
  }

  lemma KnownNext(es: seq<Entry>, ops: seq<Op>, op: Op, n: Label)
    ensures Known(es, ops + [op], n) <==> Known(es, ops, n) || (!op.Refer? && op.name == n)
  {
    var all := ops + [op];
    assert forall j :: 0 <= j < |ops| ==> all[j] == ops[j];
    if !op.Refer? && op.name == n {
      assert all[|ops|].name == n;
    }
  }

  lemma RunRight(first: seq<Entry>, ops: seq<Op>, es: seq<Entry>, count: nat, emitted: seq<Option<Emitted>>)
    requires Progress(first, ops, es, emitted) && Proper(es, count)
    ensures IdsRight(first, ops, es, count, emitted)
  {
    hide Proper, Declared, ById, Known, IdsKept;
    forall k | 0 <= k < |ops| && emitted[k].Some?
      ensures ById(es, emitted[k].value.id).Some? && ById(es, emitted[k].value.id).value.name == emitted[k].value.name
    {
      HoldsResolves(es, count, emitted[k].value);
    }
    forall id: nat
      ensures ById(es, id).Some? <==> id < count
    {
      IdsCover(es, count, id);
    }
  }

  /** The name still has the id. */
  predicate Holds(es: seq<Entry>, e: Emitted) {
    Declared(es, e.name).Some? && Declared(es, e.name).value.id == Some(e.id)
  }

  lemma HoldsResolves(es: seq<Entry>, count: nat, e: Emitted)
    requires Proper(es, count) && Holds(es, e)
    ensures ById(es, e.id).Some? && ById(es, e.id).value.name == e.name
  {
    ResolveExact(es, count, e.name);
    var i := DeclaredIndex(es, e.name);
  }

  lemma {:induction false} AbsentName(es: seq<Entry>, name: Label)
    requires forall k :: 0 <= k < |es| ==> es[k].name != name
    ensures Declared(es, name).None?
    decreases |es|
  {
    if es != [] {
      AbsentName(es[1..], name);
    }
  }

  /** The ids of the first n declarations. */
  function IdsUpTo(es: seq<Entry>, n: nat): (r: set<nat>)
    requires n <= |es|
    ensures |r| <= n
    ensures forall i :: 0 <= i < n && es[i].id.Some? ==> es[i].id.value in r
  {
    if n == 0 then {}
    else
      var r := IdsUpTo(es, n - 1);
      if es[n - 1].id.Some? then r + {es[n - 1].id.value} else r
  }

  function Below(n: nat): (r: set<nat>)
    ensures |r| == n && forall k: nat :: k in r <==> k < n
  {
    if n == 0 then {}
    else
      var r := Below(n - 1);
      assert n - 1 !in r;
      r + {n - 1}
  }

  /** There are at least as many declarations as ids. */
  lemma CountFits(es: seq<Entry>, count: nat)
    requires Proper(es, count)
    ensures count <= |es|
  {
    var ids := IdsUpTo(es, |es|);
    forall id | id in Below(count)
      ensures id in ids
    {
      assert Used(es, id);
      var i :| 0 <= i < |es| && HasId(es[i], id);
    }
    assert ids == Below(count) + (ids - Below(count));
  }
}
