/** What reading, writing and indexing do to arrays and tables, as laws between
    them. */
module Memory {
  import opened Wrappers
  import opened Syntax
  import opened Data
  import opened Meaning
  import opened Ranges
  import opened OpcodeMeaning

  // ----- reading -----

  /** An array reads as the sequence of what its elements read as; an array of
      no elements reads as NULL, and there is no other element. */
  lemma WholeByElements(id: nat, w: World)
    ensures Load(Arr(id), w) == Some(Null) <==> forall i: nat :: Load(ElemAt(id, i), w).None?
    ensures var whole := Load(Arr(id), w);
            && whole.Some?
            && (whole != Some(Null) ==>
                  && whole.value.Elems? && whole.value.s != []
                  && forall i: nat :: Load(ElemAt(id, i), w) == if i < |whole.value.s| then Some(whole.value.s[i]) else None)
  {
    if Load(Arr(id), w) != Some(Null) {
      assert Load(ElemAt(id, 0), w).Some?;
    }
  }

  predicate IsReference(v: Val) { v.Arr? || v.ElemAt? || v.CellAt? }

  /** Everything else reads as itself. */
  lemma ValuesRead(v: Val, w: World)
    requires !IsReference(v)
    ensures Load(v, w) == Some(v)
  {
  }

  /** The null test agrees with reading, except that an array element tests as
      NULL exactly where there is none: a NULL in an element does not. */
  lemma NullTestExact(v: Val, w: World)
    ensures NullTest(v, w).None? <==> Load(v, w).None? && !v.ElemAt?
    ensures NullTest(v, w).Some? ==>
              (NullTest(v, w).value <==> if v.ElemAt? then Load(v, w).None? else Load(v, w) == Some(Null))
  {
  }

  /** A condition is what is read, when that is a Boolean or NULL. */
  lemma ConditionExact(v: Val, w: World, x: Val)
    ensures Condition(v, w) == Some(x) <==> Load(v, w) == Some(x) && (x == Null || exists b :: x == Truth(b))
  {
    if x.Truth? {
      assert x == Truth(x.b);
    }
  }

  // ----- writing -----

  /** Where there is something to write to. */
  lemma WritableExact(v: Val, x: Val, w: World)
    ensures Update(v, x, w).Some? <==>
              match v
              case ElemAt(_, _) => Load(v, w).Some?
              case CellAt(id, _, row) => id in w.tables && row <= w.tables[id].rows
              case _ => true
  {
  }

  /** What was written is what is read afterwards, through the same reference. A
      whole array that holds nothing reads as NULL. */
  lemma ReadAfterWrite(v: Val, x: Val, w: World)
    requires Update(v, x, w).Some?
    ensures var (v', w') := Update(v, x, w).value;
            if v.ElemAt? || v.CellAt? then v' == v && Load(v, w') == Some(x)
            else if v.Arr? then v' == v && Load(v, w') == Some(if x.Elems? && x.s != [] then x else Null)
            else v' == x && w' == w
  {
  }

  /** Is u a reference to something that a write through v does not touch? */
  predicate Apart(u: Val, v: Val) {
    match u
    case Arr(id) => !(v.Arr? && v.id == id) && !(v.ElemAt? && v.id == id)
    case ElemAt(id, i) => u != v && !(v.Arr? && v.id == id)
    case _ => u != v
  }

  /** A write changes nothing else that could be read: no other element, cell,
      array or table. Only the row that is appended to a table is new. */
  lemma OthersStay(v: Val, x: Val, w: World, u: Val)
    requires Update(v, x, w).Some? && Apart(u, v)
    ensures var w' := Update(v, x, w).value.1;
            Load(u, w') == Load(u, w)
            || (u.CellAt? && v.CellAt? && u.id == v.id && u.row == v.row && Load(u, w).None? && Load(u, w').Some?)
  {
  }

  /** Lengths: only a whole array written changes one, and a table only grows by
      the row behind its last one. */
  lemma LengthsStay(v: Val, x: Val, w: World, id: nat)
    requires Update(v, x, w).Some?
    ensures var w' := Update(v, x, w).value.1;
            && Count(id, w') == (if v == Arr(id) then if x.Elems? then |x.s| else 0 else Count(id, w))
            && (id in w'.tables <==> id in w.tables)
            && (id in w.tables ==>
                  w'.tables[id].rows == w.tables[id].rows
                                        + if v.CellAt? && v.id == id && v.row == w.tables[id].rows then 1 else 0)
  {
  }

  /** No value is kept for a row a table does not have. */
  predicate Tidy(w: World) {
    forall id: nat :: id in w.tables ==> forall c :: c in w.tables[id].cells ==> c.1 < w.tables[id].rows
  }

  /** Then the other fields of an appended row are NULL, and no write leaves such
      a value. */
  lemma AppendedRow(v: Val, x: Val, w: World, name: Label)
    requires Tidy(w) && Update(v, x, w).Some?
    ensures var w' := Update(v, x, w).value.1;
            && Tidy(w')
            && (v.CellAt? && Load(v, w).None? && name != v.name ==> Load(CellAt(v.id, name, v.row), w') == Some(Null))
  {
    var w' := Update(v, x, w).value.1;
    if v.CellAt? {
      assert w'.tables[v.id].cells == w.tables[v.id].cells[(v.name, v.row) := x];
    }
  }

  // ----- indexing -----

  /** The element an index selects is the one with the index's number, taken
      modulo 2^64. */
  lemma ElementSelected(id: nat, n: int, w: World)
    ensures Fitted(UNSIGNED, n) >= 0
    ensures ArrayElement(Arr(id), Num(n)) == Some(ElemAt(id, Fitted(UNSIGNED, n)))
    ensures var whole := Load(Arr(id), w).value;
            var e := Load(ElemAt(id, Fitted(UNSIGNED, n)), w);
            if whole.Elems? && Fitted(UNSIGNED, n) < |whole.s| then e == Some(whole.s[Fitted(UNSIGNED, n)]) else e.None?
  {
    WordFits(n);
    WholeByElements(id, w);
  }

  /** The cell a table, a field name and a row number select. */
  lemma CellSelected(id: nat, name: Label, n: int, w: World)
    ensures Fitted(UNSIGNED, n) >= 0
    ensures var f := TableField(Tab(id), name, w);
            if id in w.tables then f.Some? && FieldRow(f.value, Num(n)) == Some(CellAt(id, name, Fitted(UNSIGNED, n)))
            else f.None?
  {
    WordFits(n);
  }

  // ----- iterating -----

  /** its are the iterators a loop over the container has one after the other:
      the first one is where the iteration starts, each next one is reached from
      the one before, and nothing is reached from the last. */
  predicate Visits(reverse: bool, v: Val, w: World, its: seq<Val>) {
    if its == [] then StartIter(reverse, v, w) == Some(Empty)
    else
      && StartIter(reverse, v, w) == Some(From(its[0]))
      && (forall k :: 0 <= k < |its| - 1 ==> NextIter(reverse, its[k], w) == Some(From(its[k + 1])))
      && NextIter(reverse, its[|its| - 1], w) == Some(Empty)
  }

  /** The elements of an array of n elements, first to last or last to first. */
  function InOrder(reverse: bool, id: nat, n: nat): (r: seq<Val>)
    ensures |r| == n && forall k :: 0 <= k < n ==> r[k] == ElemAt(id, if reverse then n - 1 - k else k)
  {
    seq(n, k requires 0 <= k < n => ElemAt(id, if reverse then n - 1 - k else k))
  }

  /** The loop meets each element of the array exactly once and in order, and
      nothing else: forwards 0, 1, .., n-1, in reverse n-1, .., 1, 0. */
  lemma VisitsExact(reverse: bool, id: nat, w: World, its: seq<Val>)
    requires Count(id, w) <= WORD
    ensures Visits(reverse, Arr(id), w, its) <==> its == InOrder(reverse, id, Count(id, w))
  {
    hide Visits, Count;
    if Visits(reverse, Arr(id), w, its) {
      VisitedInOrder(reverse, id, w, its);
    } else if its == InOrder(reverse, id, Count(id, w)) {
      OrderVisited(reverse, id, w);
    }
  }

  lemma VisitedInOrder(reverse: bool, id: nat, w: World, its: seq<Val>)
    requires Count(id, w) <= WORD && Visits(reverse, Arr(id), w, its)
    ensures its == InOrder(reverse, id, Count(id, w))
  {
    hide Count, NextIter, StartIter;
    var n := Count(id, w);
    StartsAtEnd(reverse, id, w);
    if its != [] {
      var last := |its| - 1;
      VisitedAt(reverse, id, w, its, last);
      StepsOn(reverse, id, w, if reverse then n - 1 - last else last);
      forall k | 0 <= k < |its|
        ensures k < n && its[k] == ElemAt(id, if reverse then n - 1 - k else k)
      {
        VisitedAt(reverse, id, w, its, k);
      }
    }
  }

  lemma OrderVisited(reverse: bool, id: nat, w: World)
    requires Count(id, w) <= WORD
    ensures Visits(reverse, Arr(id), w, InOrder(reverse, id, Count(id, w)))
  {
    hide Count, NextIter, StartIter;
    var n := Count(id, w);
    var its := InOrder(reverse, id, n);
    StartsAtEnd(reverse, id, w);
    if n > 0 {
      forall k | 0 <= k < n - 1
        ensures NextIter(reverse, its[k], w) == Some(From(its[k + 1]))
      {
        StepsOn(reverse, id, w, if reverse then n - 1 - k else k);
      }
      StepsOn(reverse, id, w, if reverse then 0 else n - 1);
      assert its[|its| - 1] == ElemAt(id, if reverse then 0 else n - 1);
    }
  }

  lemma StartsAtEnd(reverse: bool, id: nat, w: World)
    ensures StartIter(reverse, Arr(id), w)
         == Some(if Count(id, w) == 0 then Empty else From(ElemAt(id, if reverse then Count(id, w) - 1 else 0)))
  {
  }

  lemma StepsOn(reverse: bool, id: nat, w: World, i: nat)
    requires i < Count(id, w) <= WORD
    ensures NextIter(reverse, ElemAt(id, i), w)
         == Some(if reverse then if i == 0 then Empty else From(ElemAt(id, i - 1))
                 else if i == Count(id, w) - 1 then Empty else From(ElemAt(id, i + 1)))
  {
    Readings(Count(id, w) - 1);
  }

  /** The k-th iterator is on the k-th element. */
  lemma {:induction false} VisitedAt(reverse: bool, id: nat, w: World, its: seq<Val>, k: nat)
    requires 0 < Count(id, w) <= WORD && k < |its| && Visits(reverse, Arr(id), w, its)
    ensures k < Count(id, w) && its[k] == ElemAt(id, if reverse then Count(id, w) - 1 - k else k)
    decreases k
  {
    hide Count, NextIter, StartIter;
    StartsAtEnd(reverse, id, w);
    if k > 0 {
      VisitedAt(reverse, id, w, its, k - 1);
      StepsOn(reverse, id, w, if reverse then Count(id, w) - k else k - 1);
      assert NextIter(reverse, its[k - 1], w) == Some(From(its[k - 1 + 1]));
    }
  }
}
