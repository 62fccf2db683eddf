/** What a store leaves behind, on the source: the place reads as the converted
    value, and nothing else has changed. */
module StoreLaws {
  import opened Wrappers
  import opened Syntax
  import opened Compiler
  import opened Data
  import opened Meaning
  import opened Semantics
  import opened StackLemmas
  import opened Memory

  lemma ConvertedPlain(t: Ty, x: Val)
    ensures Converted(t, x).Some? ==> var y := Converted(t, x).value; y.Null? || y.Truth? || y.Num? || (y.Elems? && y == x)
  {
  }

  /** After an assignment the place reads as what the assigned value is converted
      to; an array that was assigned no elements reads as NULL. */
  lemma StoredReads(t: Ty, d: Operand, s: Operand, st: Store)
    requires Fits(d, st) && Stored(t, d, s, st).Value?
    ensures var r := Stored(t, d, s, st);
            && Read(s, st).Some? && Converted(t, Read(s, st).value).Some?
            && var y := Converted(t, Read(s, st).value).value;
               Read(r.o, r.st) == Some(if Raw(d, st).Arr? && !(y.Elems? && y.s != []) then Null else y)
  {
    hide Converted, Load, Update;
    var y := Converted(t, Read(s, st).value).value;
    ConvertedPlain(t, Read(s, st).value);
    ReadAfterWrite(Raw(d, st), y, st.w);
    ValuesRead(y, st.w);
  }

  /** Nothing else changes: no other variable, no other element, cell, array or
      table; a place outside the arrays and tables leaves all of these alone, and
      one inside leaves all variables alone. */
  lemma StoredElsewhere(t: Ty, d: Operand, s: Operand, st: Store, u: Val)
    requires Fits(d, st) && Stored(t, d, s, st).Value?
    ensures var r := Stored(t, d, s, st);
            && SameShape(st, r.st)
            && (forall i :: 0 <= i < |st.locals| && d != L(i) ==> r.st.locals[i] == st.locals[i])
            && (forall k :: 0 <= k < |st.iters| && d != It(k) ==> r.st.iters[k] == st.iters[k])
            && (if IsReference(Raw(d, st)) then
                  && r.st.locals == st.locals && r.st.iters == st.iters
                  && (Apart(u, Raw(d, st)) && Load(u, st.w).Some? ==> Load(u, r.st.w) == Load(u, st.w))
                else r.st.w == st.w)
  {
    hide Converted, Load, Update;
    var y := Converted(t, Read(s, st).value).value;
    ReadAfterWrite(Raw(d, st), y, st.w);
    if Apart(u, Raw(d, st)) {
      OthersStay(Raw(d, st), y, st.w, u);
    }
  }

  /** An indexed array is a reference to the element of that number, which reads
      as that element of the array. */
  lemma SelectedElement(a: Operand, b: Operand, st: Store, id: nat, n: int)
    requires Raw(a, st) == Arr(id) && Read(b, st) == Some(Num(n))
    ensures Fitted(UNSIGNED, n) >= 0
    ensures var k, whole := Fitted(UNSIGNED, n), Load(Arr(id), st.w).value;
            && Selected(a, b, st) == Value(V(ElemAt(id, k)), st)
            && Read(V(ElemAt(id, k)), st) == if whole.Elems? && k < |whole.s| then Some(whole.s[k]) else None
  {
    hide Load, ArrayElement, Fitted;
    ElementSelected(id, n, st.w);
  }

  /** After the copy of one field the left cell reads as the right cell did,
      converted to the left field's type. */
  lemma CopyReads(p: Pair, a: Operand, b: Operand, c: Operand, d: Operand, st: Store, i: nat, j: nat, m: int, n: int)
    requires Raw(a, st) == Tab(i) && Raw(c, st) == Tab(j) && Read(b, st) == Some(Num(m)) && Read(d, st) == Some(Num(n))
    requires CopyField(p, a, b, c, d, st).Some?
    ensures Fitted(UNSIGNED, m) >= 0 && Fitted(UNSIGNED, n) >= 0
    ensures var left, right := CellAt(i, p.l.name, Fitted(UNSIGNED, m)), CellAt(j, p.r.name, Fitted(UNSIGNED, n));
            var w := CopyField(p, a, b, c, d, st).value;
            && Load(right, st.w).Some? && Converted(FieldTy(p.l), Load(right, st.w).value).Some?
            && Load(left, w) == Converted(FieldTy(p.l), Load(right, st.w).value)
            && (forall u :: Apart(u, left) && Load(u, st.w).Some? ==> Load(u, w) == Load(u, st.w))
  {
    hide Converted, Load, Update, TableField, FieldRow, Stored, Fitted, Apart;
    CellSelected(i, p.l.name, m, st.w);
    CellSelected(j, p.r.name, n, st.w);
    var left, right := CellAt(i, p.l.name, Fitted(UNSIGNED, m)), CellAt(j, p.r.name, Fitted(UNSIGNED, n));
    assert FieldValue(a, p.l.name, b, st) == Some(left) && FieldValue(c, p.r.name, d, st) == Some(right);
    StoredReads(FieldTy(p.l), V(left), V(right), st);
    StoredCell(FieldTy(p.l), left, right, st);
    forall u | Apart(u, left) && Load(u, st.w).Some?
      ensures Load(u, CopyField(p, a, b, c, d, st).value) == Load(u, st.w)
    {
      StoredElsewhere(FieldTy(p.l), V(left), V(right), st, u);
    }
  }

  lemma StoredCell(t: Ty, left: Val, right: Val, st: Store)
    requires left.CellAt? && Stored(t, V(left), V(right), st).Value?
    ensures var r := Stored(t, V(left), V(right), st);
            Raw(V(left), st) == left && Read(V(right), st) == Load(right, st.w) && r.o == V(left) && Read(r.o, r.st) == Load(left, r.st.w)
  {
    hide Converted, Load, Update;
    ReadAfterWrite(left, Converted(t, Load(right, st.w).value).value, st.w);
  }
}
