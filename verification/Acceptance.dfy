/** Which types the compiler lets meet, said by the types alone. */
module Acceptance {
  import opened Wrappers
  import opened Syntax
  import opened Instructions
  import opened Operators
  import opened Compiler

  /** Values of these kinds can be stored to each other: every integer type takes
      every integer. */
  predicate SameKind(d: Base, s: Base) {
    (d.Bool? && s.Bool?) || (d.Int? && s.Int?)
  }

  /** Assignment: a value of the same kind, or an undetermined one. */
  lemma StoreExact(d: Ty, s: Ty)
    ensures StoreOpcode(d, s) != W_NA <==>
              match d
              case Scalar(b) => if s == TUndet then !b.Undet? else s.Scalar? && SameKind(b, s.base)
              case Array(b) => s == TUndet || (s.Array? && (b.Undet? || b == s.base))
              case Table(_) => false
  {
  }

  /** Is there a field of the name, and can the first such field be stored? */
  predicate Supplies(gs: seq<Field>, f: Field) {
    exists j :: 0 <= j < |gs| && FirstNamed(gs, f.name, j)
                && gs[j].isArray == f.isArray && (if f.isArray then gs[j].base == f.base else SameKind(f.base, gs[j].base))
  }

  predicate FirstNamed(gs: seq<Field>, name: Label, j: nat) {
    j < |gs| && gs[j].name == name && forall k :: 0 <= k < j ==> gs[k].name != name
  }

  /** May a value of type s stand where one of type p is declared? */
  predicate Fitting(p: Ty, s: Ty) {
    s == TUndet ||
    match p
    case Scalar(b) => s.Scalar? && (b.Undet? || SameKind(b, s.base))
    case Array(b) => s.Array? && (b.Undet? || b == s.base)
    case Table(fs) => s.Table? && forall i :: 0 <= i < |fs| ==> Supplies(s.fields, fs[i])
  }

  /** An argument is accepted for a parameter exactly when its type fits. */
  lemma PassableExact(p: Ty, s: Ty)
    ensures Passable(p, s) <==> Fitting(p, s)
  {
    hide Supplies, TablesCompatible;
    if p.Table? && s.Table? {
      TablesExact(p.fields, s.fields);
    }
  }

  /** A value is accepted as a result when its type fits, and any value when
      nothing is declared of the result. */
  lemma ReturnableExact(ret: Ty, s: Ty)
    ensures Returnable(ret, s) <==> ret == TUndet || Fitting(ret, s)
  {
    hide Fitting, Passable;
    PassableExact(ret, s);
  }

  lemma {:induction false} TablesExact(fs: seq<Field>, gs: seq<Field>)
    ensures TablesCompatible(fs, gs) <==> forall i :: 0 <= i < |fs| ==> Supplies(gs, fs[i])
    decreases |fs|
  {
    hide Supplies, FieldsCompatible;
    if fs != [] {
      FieldExact(fs[0], gs);
      TablesExact(fs[1..], gs);
      assert forall i :: 0 < i < |fs| ==> fs[i] == fs[1..][i - 1];
    }
  }

  lemma FieldExact(f: Field, gs: seq<Field>)
    ensures Supplies(gs, f) <==> FindField(gs, f.name).Some? && FieldsCompatible(f, FindField(gs, f.name).value)
  {
    hide FirstNamed, FindField;
    if FindField(gs, f.name).Some? {
      var j := FoundFirst(gs, f.name);
      forall k | 0 <= k < |gs| && FirstNamed(gs, f.name, k)
        ensures k == j
      {
        OneFirst(gs, f.name, j, k);
      }
    } else {
      NoneNamed(gs, f.name);
    }
  }

  lemma OneFirst(gs: seq<Field>, name: Label, j: nat, k: nat)
    requires FirstNamed(gs, name, j) && FirstNamed(gs, name, k)
    ensures j == k
  {
  }

  lemma {:induction false} FoundFirst(gs: seq<Field>, name: Label) returns (j: nat)
    requires FindField(gs, name).Some?
    ensures FirstNamed(gs, name, j) && gs[j] == FindField(gs, name).value
    decreases |gs|
  {
    if gs[0].name == name {
      j := 0;
    } else {
      j := FoundFirst(gs[1..], name);
      assert forall k :: 0 < k <= j ==> gs[k] == gs[1..][k - 1];
      j := j + 1;
    }
  }

  lemma {:induction false} NoneNamed(gs: seq<Field>, name: Label)
    requires FindField(gs, name).None?
    ensures forall j :: 0 <= j < |gs| ==> !FirstNamed(gs, name, j)
    decreases |gs|
  {
    if gs != [] {
      NoneNamed(gs[1..], name);
      forall j | 0 <= j < |gs| && FirstNamed(gs, name, j)
        ensures false
      {
        assert j > 0 && gs[j] == gs[1..][j - 1];
        assert forall k :: 0 <= k < j - 1 ==> gs[1..][k] == gs[k + 1];
        assert FirstNamed(gs[1..], name, j - 1);
      }
    }
  }

  /** A field is copied to another of a row when both are arrays of one type or
      both are values of one kind. */
  lemma CopyExact(p: Pair)
    ensures CopyOpcode(p) != W_NA <==>
              p.l.isArray == p.r.isArray && (if p.l.isArray then p.l.base == p.r.base else SameKind(p.l.base, p.r.base))
  {
  }

  /** An index is an integer or undetermined, a row number only an integer. */
  lemma IndexExact(t: Ty)
    ensures IsIndex(t) <==> t == TUndet || exists signed, size :: t == Scalar(Int(signed, size))
    ensures IsInteger(t) <==> exists signed, size :: t == Scalar(Int(signed, size))
  {
    if t.Scalar? && t.base.Int? {
      assert t == Scalar(Int(t.base.signed, t.base.size));
    }
  }

  // ----- selections -----

  function Bytes(b: Base): nat {
    match b
    case Int(_, size) => (match size case B1 => 1 case B2 => 2 case B4 => 4 case B8 => 8)
    case _ => 0
  }

  /** Is every value of type s one of the wider type t? A table type is wider
      than one with more fields. */
  predicate Under(s: Ty, t: Ty) {
    s == TUndet || (s == t && !s.Table?) ||
    match (s, t)
    case (Scalar(a), Scalar(b)) => a.Int? && b.Int? && a.signed == b.signed && Bytes(a) <= Bytes(b)
    case (Array(_), Array(b)) => b.Undet?
    case (Table(fs), Table(gs)) => FieldsIncluded(gs, fs)
    case _ => false
  }

  /** Two arms are accepted exactly when the type of one is wider, and that type
      is then the selection's. */
  lemma CommonExact(a: Ty, b: Ty)
    ensures CommonType(a, b).Some? <==> Under(a, b) || Under(b, a)
    ensures CommonType(a, b).Some? ==>
              var t := CommonType(a, b).value; (t == a && Under(b, a)) || (t == b && Under(a, b))
  {
    hide FieldsIncluded;
  }

  // ----- names -----

  /** A name is found exactly when it is declared, and the first declaration of
      it is the one meant. */
  lemma {:induction false} LookupExact(vars: seq<Var>, name: Label, k: nat)
    ensures Lookup(vars, name) == Some(k) <==>
              k < |vars| && vars[k].name == name && forall i :: 0 <= i < k ==> vars[i].name != name
    ensures Lookup(vars, name).None? <==> forall i :: 0 <= i < |vars| ==> vars[i].name != name
    decreases |vars|
  {
    if vars != [] {
      LookupExact(vars[1..], name, if k > 0 then k - 1 else 0);
      assert forall i :: 0 < i < |vars| ==> vars[i] == vars[1..][i - 1];
    }
  }
}
