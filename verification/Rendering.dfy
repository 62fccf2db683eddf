/** Code as bytes: what a sequence of items looks like in the code stream
    before and after its open jumps and slot numbers are filled in. */
module Rendering {
  import opened Bytes
  import opened Instructions
  import opened Code

  /** The instruction in the stream for an item when the first slot above the
      locals has the number base; an open jump has a zero operand. */
  function Emitted(x: Item, base: nat): Instr {
    match x
    case I(i) => i
    case Iter(k) => Instr(W_LDLO32, base + k)
    case _ => Instr(W_JMP, 0)
  }

  function Render(c: seq<Item>, base: nat): (r: seq<Byte>)
    ensures |r| == Len(c)
  {
    if c == [] then [] else Encode(Emitted(c[0], base)) + Render(c[1..], base)
  }

  lemma {:induction false} RenderCat(a: seq<Item>, b: seq<Item>, base: nat)
    ensures Render(a + b, base) == Render(a, base) + Render(b, base)
  {
    if a == [] {
      assert a + b == b;
    } else {
      assert (a + b)[1..] == a[1..] + b;
      RenderCat(a[1..], b, base);
    }
  }

  lemma RenderOne(x: Item, base: nat)
    ensures Render([x], base) == Encode(Emitted(x, base))
    ensures Len([x]) == ItemSize(x)
  {
    assert [x][1..] == [];
  }

  // ----- patching an open jump -----

  /** A jump of five bytes starts at position p. */
  predicate JumpAt(c: seq<Item>, p: int)
    decreases |c|
  {
    c != [] && if p == 0 then IsJumpItem(c[0]) else JumpAt(c[1..], p - ItemSize(c[0]))
  }

  predicate IsJumpItem(x: Item) {
    x.Brk? || x.Cont? || (x.I? && IsJump(x.i.op))
  }

  function JumpOp(x: Item): Byte {
    if x.I? then x.i.op else W_JMP
  }

  /** The code after the operand of the jump at p is overwritten. */
  function Patch(c: seq<Item>, p: int, v: int): (r: seq<Item>)
    ensures |r| == |c|
    decreases |c|
  {
    if c == [] then []
    else if p == 0 then [With(JumpOp(c[0]), v)] + c[1..]
    else [c[0]] + Patch(c[1..], p - ItemSize(c[0]), v)
  }

  lemma RenderHead(c: seq<Item>, base: nat)
    requires c != []
    ensures Render(c, base) == Encode(Emitted(c[0], base)) + Render(c[1..], base)
    ensures Len(c) == ItemSize(c[0]) + Len(c[1..]) && |Encode(Emitted(c[0], base))| == ItemSize(c[0])
  {
    hide Encode, Le;
  }

  lemma StoreFirst(op: Byte, a: int, v: int, rest: seq<Byte>)
    requires OperandSize(op) == 4
    ensures |Encode(Instr(op, a)) + rest| == 5 + |rest|
    ensures StoreLe32(Encode(Instr(op, a)) + rest, 1, v) == Encode(Instr(op, v)) + rest
  {
    hide OperandSize, Le;
    var code := Encode(Instr(op, a)) + rest;
    assert code[..1] == [op];
    assert code[5..] == rest;
  }

  /** Overwriting four bytes of the stream is patching the item there. */
  lemma {:induction false} StorePatches(c: seq<Item>, p: nat, v: int, base: nat)
    requires JumpAt(c, p)
    ensures p + 5 <= Len(c) && Len(Patch(c, p, v)) == Len(c)
    ensures StoreLe32(Render(c, base), p + 1, v) == Render(Patch(c, p, v), base)
    decreases |c|
  {
    hide Encode, Le, OperandSize, ItemSize, Emitted, Render, StoreLe32, IsJumpItem, JumpOp;
    var rest := Render(c[1..], base);
    var d := Patch(c, p, v);
    RenderHead(c, base);
    RenderHead(d, base);
    if p == 0 {
      JumpSize(c[0]);
      assert d[1..] == c[1..] && d[0] == With(JumpOp(c[0]), v);
      JumpEmits(c[0], v, base);
      StoreFirst(JumpOp(c[0]), Emitted(c[0], base).arg, v, rest);
    } else {
      var n := ItemSize(c[0]);
      JumpInside(c[1..], p - n);
      assert d[1..] == Patch(c[1..], p - n, v);
      StorePatches(c[1..], p - n, v, base);
      StoreBehind(Encode(Emitted(c[0], base)), rest, p + 1 - n, v);
    }
  }

  lemma JumpEmits(x: Item, v: int, base: nat)
    requires IsJumpItem(x)
    ensures Emitted(x, base).op == JumpOp(x) && Emitted(With(JumpOp(x), v), base) == Instr(JumpOp(x), v)
  {
  }

  lemma JumpSize(x: Item)
    requires IsJumpItem(x)
    ensures ItemSize(x) == 5 && forall v :: ItemSize(With(JumpOp(x), v)) == 5
    ensures OperandSize(JumpOp(x)) == 4 && IsJump(JumpOp(x))
  {
  }

  lemma {:induction false} JumpInside(c: seq<Item>, p: int)
    requires JumpAt(c, p)
    ensures 0 <= p
    decreases |c|
  {
    if p != 0 {
      JumpInside(c[1..], p - ItemSize(c[0]));
    }
  }

  lemma StoreBehind(head: seq<Byte>, rest: seq<Byte>, p: nat, v: int)
    requires p + 4 <= |rest|
    ensures StoreLe32(head + rest, |head| + p, v) == head + StoreLe32(rest, p, v)
  {
    var whole := head + rest;
    assert whole[..|head| + p] == head + rest[..p];
    assert whole[|head| + p + 4..] == rest[p + 4..];
  }

  lemma {:induction false} PatchBehind(a: seq<Item>, b: seq<Item>, p: nat, v: int)
    ensures Patch(a + b, Len(a) + p, v) == a + Patch(b, p, v)
    ensures JumpAt(a + b, Len(a) + p) == JumpAt(b, p)
    decreases |a|
  {
    if a == [] {
      assert a + b == b;
    } else {
      assert (a + b)[1..] == a[1..] + b;
      PatchBehind(a[1..], b, p, v);
    }
  }

  /** Patching the jump between two pieces of code. */
  lemma PatchMid(a: seq<Item>, x: Item, b: seq<Item>, v: int)
    requires IsJumpItem(x)
    ensures JumpAt(a + [x] + b, Len(a))
    ensures Patch(a + [x] + b, Len(a), v) == a + [With(JumpOp(x), v)] + b
  {
    PatchBehind(a, [x] + b, 0, v);
    assert a + [x] + b == a + ([x] + b);
    assert ([x] + b)[1..] == b;
  }

  /** Patching one jump leaves the others where they are. */
  lemma {:induction false} PatchKeeps(c: seq<Item>, p: int, v: int, q: int)
    requires JumpAt(c, p)
    ensures JumpAt(Patch(c, p, v), q) == JumpAt(c, q)
    ensures Len(Patch(c, p, v)) == Len(c)
    ensures Uses(Patch(c, p, v), q) == Uses(c, q)
    decreases |c|
  {
    var d := Patch(c, p, v);
    if p == 0 {
      JumpSize(c[0]);
      assert d[1..] == c[1..];
    } else {
      assert d[1..] == Patch(c[1..], p - ItemSize(c[0]), v);
      var n := ItemSize(c[0]);
      PatchKeeps(c[1..], p - n, v, q - n);
      PatchKeeps(c[1..], p - n, v, q + n);
    }
  }

  // ----- iterator slots -----

  /** Where the operands of the slot loads stand, when the code starts at pos. */
  function Uses(c: seq<Item>, pos: int): seq<int> {
    if c == [] then []
    else (if c[0].Iter? then [pos + 1] else []) + Uses(c[1..], pos + ItemSize(c[0]))
  }

  lemma {:induction false} UsesCat(a: seq<Item>, b: seq<Item>, pos: int)
    ensures Uses(a + b, pos) == Uses(a, pos) + Uses(b, pos + Len(a))
    decreases |a|
  {
    hide ItemSize;
    if a == [] {
      assert a + b == b;
    } else {
      assert (a + b)[1..] == a[1..] + b;
      UsesCat(a[1..], b, pos + ItemSize(a[0]));
      var first: seq<int> := if a[0].Iter? then [pos + 1] else [];
      assert first + (Uses(a[1..], pos + ItemSize(a[0])) + Uses(b, pos + Len(a))) == Uses(a, pos) + Uses(b, pos + Len(a));
    }
  }

  /** The additions a relocation makes, one recorded operand after the other. */
  function Relocated(code: seq<Byte>, uses: seq<int>, n: nat): (r: seq<Byte>)
    requires forall i :: 0 <= i < |uses| ==> 0 <= uses[i] <= |code| - 4
    ensures |r| == |code|
    decreases |uses|
  {
    if uses == [] then code
    else Relocated(StoreLe32(code, uses[0], LoadLe32(code, uses[0]) + n), uses[1..], n)
  }

  lemma {:induction false} UsesBound(c: seq<Item>, pos: int)
    ensures forall i :: 0 <= i < |Uses(c, pos)| ==> pos + 1 <= Uses(c, pos)[i] <= pos + Len(c) - 4
    decreases |c|
  {
    if c != [] {
      UsesBound(c[1..], pos + ItemSize(c[0]));
    }
  }

  /** Relocation moves every slot load from the first iterator slot being 0 to
      it being n, and changes nothing else. */
  lemma {:induction false} RelocationRenders(pre: seq<Byte>, c: seq<Item>, n: nat)
    ensures forall i :: 0 <= i < |Uses(c, |pre|)| ==> 0 <= Uses(c, |pre|)[i] <= |pre + Render(c, 0)| - 4
    ensures Relocated(pre + Render(c, 0), Uses(c, |pre|), n) == pre + Render(c, n)
    decreases |c|
  {
    hide Encode, Le, OperandSize, ItemSize, Emitted, Render, StoreLe32, LoadLe32;
    UsesBound(c, |pre|);
    if c == [] {
      assert Render(c, 0) == Render(c, n) == [] by {
        EmptyRender(0);
        EmptyRender(n);
      }
    } else {
      var head, head' := Encode(Emitted(c[0], 0)), Encode(Emitted(c[0], n));
      RenderHead(c, 0);
      RenderHead(c, n);
      assert pre + Render(c, 0) == (pre + head) + Render(c[1..], 0);
      assert pre + Render(c, n) == (pre + head') + Render(c[1..], n);
      RelocationRenders(pre + head', c[1..], n);
      if c[0].Iter? {
        RelocatesFirst(pre, c[0].k, Render(c[1..], 0), n);
        IterSize(c[0], 0);
        IterSize(c[0], n);
        assert Uses(c, |pre|)[0] == |pre| + 1 && Uses(c, |pre|)[1..] == Uses(c[1..], |pre| + 5);
      } else {
        SameEmitted(c[0], n);
        assert Uses(c, |pre|) == Uses(c[1..], |pre + head'|);
      }
    }
  }

  lemma EmptyRender(base: nat)
    ensures Render([], base) == []
  {
  }

  lemma IterSize(x: Item, base: nat)
    requires x.Iter?
    ensures ItemSize(x) == 5 && Emitted(x, base) == Instr(W_LDLO32, base + x.k)
  {
  }

  lemma SameEmitted(x: Item, n: nat)
    requires !x.Iter?
    ensures Emitted(x, 0) == Emitted(x, n)
  {
  }

  lemma RelocatesFirst(pre: seq<Byte>, k: nat, rest: seq<Byte>, n: nat)
    ensures var code := pre + Encode(Instr(W_LDLO32, k)) + rest;
            var p := |pre| + 1;
            p + 4 <= |code|
            && StoreLe32(code, p, LoadLe32(code, p) + n) == pre + Encode(Instr(W_LDLO32, k + n)) + rest
  {
    hide OperandSize, Le, FromLe;
    assert OperandSize(W_LDLO32) == 4 by { LoadSize(); }
    var code := pre + Encode(Instr(W_LDLO32, k)) + rest;
    var p := |pre| + 1;
    assert code[p..p + 4] == Le(k, 4);
    AddsTo(k, n);
    assert code[..p] == pre + [W_LDLO32] && code[p + 4..] == rest;
  }

  lemma LoadSize()
    ensures OperandSize(W_LDLO32) == 4
  {
  }

  /** Adding to a stored word adds to the number, modulo 2^32 in both. */
  lemma AddsTo(k: nat, n: nat)
    ensures Le(FromLe(Le(k, 4)) + n, 4) == Le(k + n, 4)
  {
    var m := LeModulo(k, 4);
    LeShift(k + n, 4, m);
  }

  lemma {:induction false} LeModulo(v: nat, k: nat) returns (m: nat)
    ensures FromLe(Le(v, k)) + m * Pow256(k) == v
    decreases k
  {
    if k == 0 {
      m := v;
    } else {
      assert Le(v, k)[1..] == Le(v / 256, k - 1);
      m := LeModulo(v / 256, k - 1);
      calc {
        FromLe(Le(v, k)) + m * Pow256(k);
        v % 256 + 256 * FromLe(Le(v / 256, k - 1)) + m * (256 * Pow256(k - 1));
        v % 256 + 256 * (FromLe(Le(v / 256, k - 1)) + m * Pow256(k - 1));
        v;
      }
    }
  }

  lemma {:induction false} LeShift(v: int, k: nat, m: int)
    ensures Le(v - m * Pow256(k), k) == Le(v, k)
    decreases k
  {
    if k > 0 {
      var q := m * Pow256(k - 1);
      TimesPow(m, k);
      assert (v - 256 * q) % 256 == v % 256 && (v - 256 * q) / 256 == v / 256 - q;
      LeShift(v / 256, k - 1, m);
    }
  }

  lemma TimesPow(m: int, k: nat)
    requires k > 0
    ensures m * Pow256(k) == 256 * (m * Pow256(k - 1))
  {
  }

  // ----- rendered code is read back -----

  predicate AllEncodable(c: seq<Item>, base: nat) {
    forall x :: x in c ==> Encodable(Emitted(x, base))
  }

  /** Closed code stands where its bytes do. */
  lemma {:induction false} RenderAt(pre: seq<Byte>, c: seq<Item>, post: seq<Byte>, t: Targets)
    requires Closed(c) && AllEncodable(c, t.base)
    ensures At(pre + Render(c, t.base) + post, |pre|, c, t)
    decreases |c|
  {
    hide Encode, Le, OperandSize, ItemSize, Emitted, Render, DecodeAt, Encodable;
    if c != [] {
      assert c[0] in c;
      var head := Encode(Emitted(c[0], t.base));
      var rest := Render(c[1..], t.base);
      RenderHead(c, t.base);
      DecodeEncode(pre, Emitted(c[0], t.base), rest + post);
      ClosedEmits(c[0], |pre|, t);
      assert pre + head + (rest + post) == pre + Render(c, t.base) + post;
      assert AllEncodable(c[1..], t.base) && Closed(c[1..]) by {
        assert forall x :: x in c[1..] ==> x in c;
      }
      RenderAt(pre + head, c[1..], post, t);
      assert (pre + head) + rest + post == pre + Render(c, t.base) + post;
    }
  }

  lemma ClosedEmits(x: Item, pc: int, t: Targets)
    requires x.I? || x.Iter?
    ensures Concrete(x, pc, t) == Emitted(x, t.base)
  {
  }
}
