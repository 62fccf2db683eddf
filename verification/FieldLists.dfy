/** The sorted list of a table type's fields. */
module FieldLists {
  import opened Bytes
  import opened Syntax
  import opened Operators

  // ----- the order of names -----

  /** Byte by byte, a prefix before the longer name. */
  predicate Less(a: seq<Byte>, b: seq<Byte>) {
    b != [] && (a == [] || a[0] < b[0] || (a[0] == b[0] && Less(a[1..], b[1..])))
  }

  lemma {:induction false} LessTotal(a: seq<Byte>, b: seq<Byte>)
    ensures Less(a, b) || a == b || Less(b, a)
    ensures !(Less(a, b) && Less(b, a)) && !Less(a, a)
  {
    if a != [] && b != [] {
      LessTotal(a[1..], b[1..]);
      if a[0] == b[0] && a[1..] == b[1..] {
        assert a == [a[0]] + a[1..] && b == [b[0]] + b[1..];
      }
    }
    if a != [] {
      LessTotal(a[1..], a[1..]);
    }
  }

  lemma {:induction false} LessTransitive(a: seq<Byte>, b: seq<Byte>, c: seq<Byte>)
    requires Less(a, b) && Less(b, c)
    ensures Less(a, c)
  {
    if a != [] && a[0] == b[0] && b[0] == c[0] {
      LessTransitive(a[1..], b[1..], c[1..]);
    }
  }

  /** The sign of the comparison of the first n bytes. */
  function Compare(a: seq<Byte>, b: seq<Byte>, n: nat): int
    requires n <= |a| && n <= |b|
  {
    if n == 0 then 0 else if a[0] != b[0] then a[0] - b[0] else Compare(a[1..], b[1..], n - 1)
  }

  /** The compiler's test for "comes after": the common part first, then the
      lengths. */
  lemma {:induction false} ComparesOrder(a: seq<Byte>, b: seq<Byte>)
    ensures var n := if |a| < |b| then |a| else |b|;
            Compare(a, b, n) > 0 || (Compare(a, b, n) == 0 && |a| >= |b|) <==> Less(b, a) || a == b
    decreases |a|
  {
    if a != [] && b != [] {
      ComparesOrder(a[1..], b[1..]);
      if a[0] == b[0] {
        assert a == [a[0]] + a[1..] && b == [b[0]] + b[1..];
      }
    }
  }

  predicate Sorted(fs: seq<Field>) {
    forall i, j :: 0 <= i < j < |fs| ==> Less(fs[i].name, fs[j].name)
  }

  // ----- insertion -----

  predicate Named(fs: seq<Field>, name: Label) {
    exists f :: f in fs && f.name == name
  }

  /** The list with a field inserted before the first one that comes after it. */
  function Insert(fs: seq<Field>, f: Field): (r: seq<Field>)
    ensures |r| == |fs| + 1
    ensures forall g :: g in r <==> g == f || g in fs
  {
    if fs == [] || Less(f.name, fs[0].name) then [f] + fs else [fs[0]] + Insert(fs[1..], f)
  }

  lemma {:induction false} InsertSorted(fs: seq<Field>, f: Field)
    requires Sorted(fs) && !Named(fs, f.name)
    ensures Sorted(Insert(fs, f))
    decreases |fs|
  {
    if fs != [] {
      LessTotal(f.name, fs[0].name);
      assert fs[0] in fs;
      if Less(f.name, fs[0].name) {
        forall j | 0 < j < |fs|
          ensures Less(f.name, fs[j].name)
        {
          LessTransitive(f.name, fs[0].name, fs[j].name);
        }
      } else {
        TailNamed(fs, f.name);
        InsertSorted(fs[1..], f);
        var r := Insert(fs[1..], f);
        forall j | 0 <= j < |r|
          ensures Less(fs[0].name, r[j].name)
        {
          assert r[j] in r;
          if r[j] in fs[1..] {
            var k :| 0 <= k < |fs[1..]| && fs[1..][k] == r[j];
            assert fs[k + 1] == r[j];
          }
        }
      }
    }
  }

  lemma TailNamed(fs: seq<Field>, name: Label)
    requires fs != [] && !Named(fs, name)
    ensures !Named(fs[1..], name)
  {
    forall f | f in fs[1..]
      ensures f.name != name
    {
      assert f in fs;
    }
  }

  lemma {:induction false} InsertAt(fs: seq<Field>, f: Field, k: nat)
    requires k <= |fs| && (forall i :: 0 <= i < k ==> !Less(f.name, fs[i].name)) && (k < |fs| ==> Less(f.name, fs[k].name))
    ensures Insert(fs, f) == fs[..k] + [f] + fs[k..]
    decreases |fs|
  {
    hide Less;
    if k > 0 {
      InsertAt(fs[1..], f, k - 1);
      SpliceTail(fs, f, k);
    }
  }

  lemma SpliceTail(fs: seq<Field>, f: Field, k: nat)
    requires 0 < k <= |fs|
    ensures [fs[0]] + (fs[1..][..k - 1] + [f] + fs[1..][k - 1..]) == fs[..k] + [f] + fs[k..]
  {
    assert fs[1..][..k - 1] == fs[1..k] && fs[1..][k - 1..] == fs[k..];
    assert [fs[0]] + fs[1..k] == fs[..k];
    assert [fs[0]] + (fs[1..k] + [f] + fs[k..]) == ([fs[0]] + fs[1..k]) + [f] + fs[k..];
  }

  /** All fields of a declaration, in the order they are declared. */
  function Declare(decls: seq<Field>): seq<Field> {
    if decls == [] then [] else Insert(Declare(decls[..|decls| - 1]), decls[|decls| - 1])
  }

  predicate NamesDiffer(fs: seq<Field>) {
    forall i, j :: 0 <= i < j < |fs| ==> fs[i].name != fs[j].name
  }

  lemma {:induction false} DeclareSorted(decls: seq<Field>)
    requires NamesDiffer(decls)
    ensures Sorted(Declare(decls)) && forall f :: f in Declare(decls) <==> f in decls
    decreases |decls|
  {
    if decls != [] {
      var n := |decls| - 1;
      DeclareSorted(decls[..n]);
      assert decls == decls[..n] + [decls[n]];
      InsertSorted(Declare(decls[..n]), decls[n]);
    }
  }

  /** A sorted list is determined by its members. */
  lemma {:induction false} SortedUnique(fs: seq<Field>, gs: seq<Field>)
    requires Sorted(fs) && Sorted(gs) && forall f :: f in fs <==> f in gs
    ensures fs == gs
    decreases |fs|
  {
    assert |gs| == 0 || gs[0] in gs;
    if fs != [] {
      assert fs[0] in fs && fs[0] in gs;
      assert gs != [] && gs[0] in gs && gs[0] in fs;
      FirstLeast(fs, gs[0]);
      FirstLeast(gs, fs[0]);
      LessTotal(fs[0].name, gs[0].name);
      assert fs[0] == gs[0];
      forall f
        ensures f in fs[1..] <==> f in gs[1..]
      {
        TailMember(fs, f);
        TailMember(gs, f);
      }
      SortedUnique(fs[1..], gs[1..]);
      assert fs == [fs[0]] + fs[1..] && gs == [gs[0]] + gs[1..];
    }
  }

  lemma FirstLeast(fs: seq<Field>, f: Field)
    requires Sorted(fs) && f in fs
    ensures f == fs[0] || Less(fs[0].name, f.name)
  {
    var i :| 0 <= i < |fs| && fs[i] == f;
  }

  lemma TailMember(fs: seq<Field>, f: Field)
    requires Sorted(fs) && fs != []
    ensures f in fs[1..] <==> f in fs && f != fs[0]
  {
    if f in fs[1..] {
      var i :| 0 <= i < |fs[1..]| && fs[1..][i] == f;
      assert fs[i + 1] == f;
      LessTotal(fs[0].name, fs[i + 1].name);
    }
    if f in fs && f != fs[0] {
      var i :| 0 <= i < |fs| && fs[i] == f;
      assert fs[1..][i - 1] == f;
    }
  }

  /** The list does not depend on the order of the declarations. */
  lemma OrderIndependent(a: seq<Field>, b: seq<Field>)
    requires NamesDiffer(a) && NamesDiffer(b) && forall f :: f in a <==> f in b
    ensures Declare(a) == Declare(b)
  {
    DeclareSorted(a);
    DeclareSorted(b);
    SortedUnique(Declare(a), Declare(b));
  }

  // ----- the linked list -----

  class FieldNode {
    const field: Field
    var extra: FieldNode?

    constructor (f: Field)
      ensures field == f && extra == null
    {
      field, extra := f, null;
    }
  }

  /** The nodes form the list that starts at head. */
  ghost predicate IsList(head: FieldNode?, nodes: seq<FieldNode>)
    reads nodes
  {
    && head == (if nodes == [] then null else nodes[0])
    && (forall i, j :: 0 <= i < j < |nodes| ==> nodes[i] != nodes[j])
    && (forall i :: 0 <= i < |nodes| ==> nodes[i].extra == NodeAt(nodes, i + 1))
  }

  function NodeAt(nodes: seq<FieldNode>, i: nat): FieldNode? {
    if i < |nodes| then nodes[i] else null
  }

  ghost function FieldsOf(nodes: seq<FieldNode>): (r: seq<Field>)
    ensures |r| == |nodes|
  {
    seq(|nodes|, i requires 0 <= i < |nodes| => nodes[i].field)
  }

  /** Is there a field of this name in the list? */
  method HasField(name: Label, head: FieldNode?, ghost nodes: seq<FieldNode>) returns (found: bool)
    requires IsList(head, nodes)
    ensures found <==> Named(FieldsOf(nodes), name)
  {
    var it := head;
    ghost var i := 0;
    while it != null
      invariant 0 <= i <= |nodes| && it == NodeAt(nodes, i)
      invariant forall k :: 0 <= k < i ==> nodes[k].field.name != name
      decreases |nodes| - i
    {
      if it.field.name == name {
        assert FieldsOf(nodes)[i] in FieldsOf(nodes);
        return true;
      }
      it, i := it.extra, i + 1;
    }
    NotNamed(nodes, name);
    found := false;
  }

  /** The node before which a field belongs, and the one before that. */
  method FindPlace(f: Field, head: FieldNode?, ghost nodes: seq<FieldNode>)
    returns (prev: FieldNode?, it: FieldNode?, ghost i: nat)
    requires IsList(head, nodes) && !Named(FieldsOf(nodes), f.name)
    ensures i <= |nodes| && it == NodeAt(nodes, i) && prev == (if i == 0 then null else nodes[i - 1])
    ensures Insert(FieldsOf(nodes), f) == FieldsOf(nodes)[..i] + [f] + FieldsOf(nodes)[i..]
  {
    prev, it, i := null, head, 0;
    while it != null && !Follows(it.field.name, f.name)
      invariant 0 <= i <= |nodes| && it == NodeAt(nodes, i)
      invariant prev == (if i == 0 then null else nodes[i - 1])
      invariant forall k :: 0 <= k < i ==> !Less(f.name, nodes[k].field.name)
      decreases |nodes| - i
    {
      ComparesOrder(it.field.name, f.name);
      prev, it, i := it, it.extra, i + 1;
    }
    if it != null {
      ComparesOrder(it.field.name, f.name);
      assert FieldsOf(nodes)[i] in FieldsOf(nodes);
    }
    InsertAt(FieldsOf(nodes), f, i);
  }

  /** Relinks the list so that the new node stands between prev and it. */
  method LinkIn(result: FieldNode, prev: FieldNode?, it: FieldNode?, head: FieldNode?, ghost nodes: seq<FieldNode>, ghost i: nat)
    returns (head': FieldNode?)
    requires IsList(head, nodes) && i <= |nodes| && it == NodeAt(nodes, i) && result !in nodes
    requires prev == (if i == 0 then null else nodes[i - 1])
    modifies result, nodes
    ensures IsList(head', nodes[..i] + [result] + nodes[i..])
  {
    result.extra := it;
    head' := head;
    if prev == null {
      head' := result;
    } else {
      prev.extra := result;
    }
    ghost var all := nodes[..i] + [result] + nodes[i..];
    StillDistinct(nodes, result, i);
    forall k | 0 <= k < |all|
      ensures all[k].extra == NodeAt(all, k + 1)
    {
      if k > i {
        assert all[k] == nodes[k - 1] && nodes[k - 1].extra == old(nodes[k - 1].extra) == NodeAt(nodes, k);
      } else if k + 1 < i {
        assert all[k] == nodes[k] && nodes[k].extra == old(nodes[k].extra) == NodeAt(nodes, k + 1);
      }
    }
  }

  lemma StillDistinct(nodes: seq<FieldNode>, result: FieldNode, i: nat)
    requires (forall j, k :: 0 <= j < k < |nodes| ==> nodes[j] != nodes[k]) && i <= |nodes| && result !in nodes
    ensures var all := nodes[..i] + [result] + nodes[i..];
            forall j, k :: 0 <= j < k < |all| ==> all[j] != all[k]
  {
    var all := nodes[..i] + [result] + nodes[i..];
    forall j, k | 0 <= j < k < |all|
      ensures all[j] != all[k]
    {
      var j', k' := if j < i then j else j - 1, if k < i then k else k - 1;
      assert j != i ==> all[j] == nodes[j'];
      assert k != i ==> all[k] == nodes[k'];
    }
  }

  /** Adds a field to the list: refused when the name is taken or the type is
      undetermined, otherwise linked in before the first field that comes after
      it. */
  method AddFieldDeclaration(f: Field, head: FieldNode?, ghost nodes: seq<FieldNode>)
    returns (ok: bool, head': FieldNode?, ghost nodes': seq<FieldNode>)
    requires IsList(head, nodes)
    modifies nodes
    ensures ok <==> !Named(FieldsOf(nodes), f.name) && !f.base.Undet?
    ensures ok ==> IsList(head', nodes') && FieldsOf(nodes') == Insert(FieldsOf(nodes), f)
    ensures ok ==> forall k :: 0 <= k < |nodes'| ==> nodes'[k] in nodes || fresh(nodes'[k])
    ensures !ok ==> unchanged(nodes)
  {
    hide Insert, Named, FieldsOf;
    head', nodes' := head, nodes;
    var found := HasField(f.name, head, nodes);
    ok := !found && !f.base.Undet?;
    if ok {
      var result := new FieldNode(f);
      var prev, it, i := FindPlace(f, head, nodes);
      head' := LinkIn(result, prev, it, head, nodes, i);
      nodes' := nodes[..i] + [result] + nodes[i..];
      SplicedFields(nodes, result, i);
    }
  }

  /** The fields of one declaration the compiler accepts. */
  predicate Acceptable(decls: seq<Field>) {
    NamesDiffer(decls) && forall f :: f in decls ==> !f.base.Undet?
  }

  /** The next field is refused exactly when it spoils the declaration. */
  lemma NextAcceptable(decls: seq<Field>, i: nat)
    requires i < |decls| && Acceptable(decls[..i])
    ensures Acceptable(decls[..i + 1]) <==> !Named(Declare(decls[..i]), decls[i].name) && !decls[i].base.Undet?
    ensures Declare(decls[..i + 1]) == Insert(Declare(decls[..i]), decls[i])
    ensures Acceptable(decls) ==> Acceptable(decls[..i + 1])
  {
    hide Insert, Declare;
    var f, was, all := decls[i], decls[..i], decls[..i + 1];
    DeclareSorted(was);
    DeclareNext(all);
    assert all == was + [f] && all[..i] == was;
    if Named(Declare(was), f.name) {
      var g :| g in Declare(was) && g.name == f.name;
      var k :| 0 <= k < |was| && was[k] == g;
      assert all[k].name == all[i].name;
    } else {
      forall k | 0 <= k < i
        ensures all[k].name != all[i].name
      {
        assert was[k] in Declare(was);
      }
    }
    assert f in all;
  }

  lemma DeclareNext(decls: seq<Field>)
    requires decls != []
    ensures Declare(decls) == Insert(Declare(decls[..|decls| - 1]), decls[|decls| - 1])
  {
  }

  /** The fields of one table type: accepted exactly when no name repeats and no
      type is undetermined; the list is then the declared one. */
  method DeclareFields(decls: seq<Field>) returns (ok: bool, head: FieldNode?, ghost nodes: seq<FieldNode>)
    ensures ok <==> Acceptable(decls)
    ensures ok ==> IsList(head, nodes) && FieldsOf(nodes) == Declare(decls) && Sorted(Declare(decls))
  {
    hide Insert, Declare, Named;
    ok, head, nodes := true, null, [];
    var i := 0;
    NothingDeclared();
    while i < |decls|
      invariant 0 <= i <= |decls| && Acceptable(decls[..i])
      invariant IsList(head, nodes) && FieldsOf(nodes) == Declare(decls[..i]) && fresh(nodes)
    {
      hide Acceptable, FieldsOf;
      NextAcceptable(decls, i);
      ok, head, nodes := AddFieldDeclaration(decls[i], head, nodes);
      if !ok {
        assert !Acceptable(decls);
        break;
      }
      i := i + 1;
    }
    if ok {
      assert decls[..i] == decls;
      DeclareSorted(decls);
    }
  }

  lemma NothingDeclared()
    ensures Declare([]) == []
  {
  }

  lemma SplicedFields(nodes: seq<FieldNode>, n: FieldNode, i: nat)
    requires i <= |nodes|
    ensures FieldsOf(nodes[..i] + [n] + nodes[i..]) == FieldsOf(nodes)[..i] + [n.field] + FieldsOf(nodes)[i..]
  {
    var all := nodes[..i] + [n] + nodes[i..];
    assert FieldsOf(all) == FieldsOf(nodes)[..i] + [n.field] + FieldsOf(nodes)[i..];
  }

  /** The test that stops the search for the place. */
  predicate Follows(a: Label, b: Label) {
    var n := if |a| < |b| then |a| else |b|;
    Compare(a, b, n) > 0 || (Compare(a, b, n) == 0 && |a| >= |b|)
  }

  lemma NotNamed(nodes: seq<FieldNode>, name: Label)
    requires forall k :: 0 <= k < |nodes| ==> nodes[k].field.name != name
    ensures !Named(FieldsOf(nodes), name)
  {
  }

  // ----- inclusion -----

  method AreTableFieldsIncluded(fs: seq<Field>, gs: seq<Field>) returns (r: bool)
    ensures r == FieldsIncluded(fs, gs)
  {
    var i, j := 0, 0;
    assert fs[0..] == fs && gs[0..] == gs;
    while i < |fs|
      invariant 0 <= i <= |fs| && 0 <= j <= |gs|
      invariant FieldsIncluded(fs, gs) == FieldsIncluded(fs[i..], gs[j..])
      decreases |fs| - i + |gs| - j
    {
      if j == |gs| {
        return false;
      }
      assert fs[i..][1..] == fs[i + 1..] && gs[j..][1..] == gs[j + 1..];
      if fs[i].name != gs[j].name {
        j := j + 1;
      } else {
        if fs[i] != gs[j] {
          return false;
        }
        i := i + 1;
      }
    }
    r := true;
  }

  /** On sorted lists the one forward pass decides inclusion. */
  lemma {:induction false} IncludedExact(fs: seq<Field>, gs: seq<Field>)
    requires Sorted(fs) && Sorted(gs)
    ensures FieldsIncluded(fs, gs) <==> forall f :: f in fs ==> f in gs
    decreases |fs| + |gs|
  {
    if fs != [] {
      assert fs[0] in fs;
      if gs != [] {
        if fs[0].name != gs[0].name {
          IncludedExact(fs, gs[1..]);
          SkipFirst(fs, gs);
        } else {
          IncludedExact(fs[1..], gs);
          assert forall f :: f in fs <==> f == fs[0] || f in fs[1..];
          SameName(gs, fs[0]);
        }
      }
    }
  }

  /** A field smaller than all that are looked for can be skipped. */
  lemma SkipFirst(fs: seq<Field>, gs: seq<Field>)
    requires Sorted(fs) && Sorted(gs) && fs != [] && gs != [] && fs[0].name != gs[0].name
    ensures (forall f :: f in fs ==> f in gs[1..]) <==> forall f :: f in fs ==> f in gs
  {
    if forall f :: f in fs ==> f in gs {
      assert fs[0] in fs && fs[0] in gs;
      FirstLeast(gs, fs[0]);
      forall f | f in fs
        ensures f in gs[1..]
      {
        FirstLeast(fs, f);
        if f == gs[0] {
          LessTotal(fs[0].name, gs[0].name);
        }
        TailMember(gs, f);
      }
    } else {
      assert forall f :: f in gs[1..] ==> f in gs;
    }
  }

  lemma SameName(gs: seq<Field>, f: Field)
    requires Sorted(gs) && gs != [] && f.name == gs[0].name
    ensures f in gs <==> f == gs[0]
  {
    if f in gs {
      FirstLeast(gs, f);
      LessTotal(f.name, f.name);
    }
  }

  /** For two declared tables the pass decides whether every field of the first
      is one of the second, whatever order they were declared in. */
  lemma DeclaredInclusion(a: seq<Field>, b: seq<Field>)
    requires NamesDiffer(a) && NamesDiffer(b)
    ensures FieldsIncluded(Declare(a), Declare(b)) <==> forall f :: f in a ==> f in b
  {
    DeclareSorted(a);
    DeclareSorted(b);
    IncludedExact(Declare(a), Declare(b));
  }

  /** A table fits another one exactly when each of its fields finds a field of
      its name there whose values can be stored in it. */
  lemma {:induction false} CompatibleExact(fs: seq<Field>, gs: seq<Field>)
    ensures TablesCompatible(fs, gs) <==>
              forall f :: f in fs ==> FindField(gs, f.name).Some? && FieldsCompatible(f, FindField(gs, f.name).value)
    decreases |fs|
  {
    hide FieldsCompatible;
    if fs != [] {
      CompatibleExact(fs[1..], gs);
      assert forall f :: f in fs <==> f == fs[0] || f in fs[1..];
    }
  }
}
