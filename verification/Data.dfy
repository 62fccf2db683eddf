/** Run-time values and the objects they refer to. */
module Data {
  import opened Bytes
  import opened Wrappers
  import opened Syntax

  /** What a stack cell can hold. Elems is the value of a whole array; Arr and
      Tab are references to the array and table objects; FieldOf is a table's
      field; ElemAt and CellAt refer to one array element and one field value
      of a row, and are also what an iterator is. */
  datatype Val =
    | Null
    | Truth(b: bool)
    | Num(n: int)
    | Elems(s: seq<Val>)
    | Arr(id: nat)
    | Tab(id: nat)
    | FieldOf(id: nat, name: Label)
    | ElemAt(id: nat, i: nat)
    | CellAt(id: nat, name: Label, row: nat)

  datatype TableData = TableData(rows: nat, cells: map<(Label, nat), Val>)

  datatype World = World(arrays: map<nat, seq<Val>>, tables: map<nat, TableData>)

  /** Other procedures are given by what a call of them does. */
  type Calls = (nat, seq<Val>, World) -> Option<(Val, World)>

  function Count(id: nat, w: World): nat {
    if id in w.arrays then |w.arrays[id]| else 0
  }

  /** Reads a value through a reference; None is a run-time exception. */
  function Load(v: Val, w: World): Option<Val> {
    match v
    case Arr(id) => Some(if Count(id, w) == 0 then Null else Elems(w.arrays[id]))
    case ElemAt(id, i) => if i < Count(id, w) then Some(w.arrays[id][i]) else None
    case CellAt(id, name, row) =>
      if id !in w.tables || row >= w.tables[id].rows then None
      else if (name, row) in w.tables[id].cells then Some(w.tables[id].cells[(name, row)])
      else Some(Null)
    case _ => Some(v)
  }

  /** Writes x where v refers to. The result is what the cell that held v holds
      afterwards; writing one row past the end of a table adds that row. */
  function Update(v: Val, x: Val, w: World): Option<(Val, World)> {
    match v
    case Arr(id) => Some((v, w.(arrays := w.arrays[id := if x.Elems? then x.s else []])))
    case ElemAt(id, i) =>
      if i < Count(id, w) then Some((v, w.(arrays := w.arrays[id := w.arrays[id][i := x]]))) else None
    case CellAt(id, name, row) =>
      if id !in w.tables || row > w.tables[id].rows then None
      else
        var t := w.tables[id];
        var t' := TableData(if row == t.rows then row + 1 else t.rows, t.cells[(name, row) := x]);
        Some((v, w.(tables := w.tables[id := t'])))
    case _ => Some((x, w))
  }

  const HALF := 0x8000_0000_0000_0000
  const WORD := 0x1_0000_0000_0000_0000

  /** The value a conversion to an integer of the given type yields. */
  function Wrap(signed: bool, bytes: nat, n: int): int {
    var u := n % Pow256(bytes);
    if signed && 2 * u >= Pow256(bytes) then u - Pow256(bytes) else u
  }

  function S64(n: int): int { Wrap(true, 8, n) }

  function U64(n: int): nat { n % Pow256(8) }

  /** The null test of an operand that has not been loaded yet. */
  function NullTest(v: Val, w: World): Option<bool> {
    match v
    case ElemAt(id, i) => Some(i >= Count(id, w))
    case _ => var x := Load(v, w); if x.None? then None else Some(x.value.Null?)
  }

  /** The array element a loaded index selects. */
  function ArrayElement(v: Val, x: Val): Option<Val> {
    if v.Arr? && x.Num? then Some(ElemAt(v.id, U64(x.n))) else None
  }

  /** The row of a table's field a loaded index selects. */
  function FieldRow(v: Val, x: Val): Option<Val> {
    if v.FieldOf? && x.Num? then Some(CellAt(v.id, v.name, U64(x.n))) else None
  }

  /** A condition: a loaded Boolean, possibly null. */
  function Condition(v: Val, w: World): Option<Val> {
    var x := Load(v, w);
    if x.Some? && (x.value.Null? || x.value.Truth?) then x else None
  }

  /** The field of a table object. */
  function TableField(v: Val, name: Label, w: World): Option<Val> {
    if v.Tab? && v.id in w.tables then Some(FieldOf(v.id, name)) else None
  }

  /** The iterator over a container and whether it started. A null container
      has no iterator. */
  datatype Started = Empty | From(it: Val)

  function StartIter(reverse: bool, v: Val, w: World): Option<Started> {
    if v.Null? then Some(Empty)
    else if !v.Arr? then None
    else if Count(v.id, w) == 0 then Some(Empty)
    else Some(From(ElemAt(v.id, if reverse then Count(v.id, w) - 1 else 0)))
  }

  /** Advances an iterator; Empty when it was on its last element. The bound of
      a forward step is computed modulo 2^64. */
  function NextIter(reverse: bool, v: Val, w: World): Option<Started> {
    if !v.ElemAt? then None
    else if reverse then Some(if v.i == 0 then Empty else From(ElemAt(v.id, v.i - 1)))
    else Some(if v.i >= U64(Count(v.id, w) - 1) then Empty else From(ElemAt(v.id, v.i + 1)))
  }
}
