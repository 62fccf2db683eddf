/** The loop and branch stacks of the one-pass generator, and what patching the
    jumps they record does to the code. */
module Backpatch {
  import opened Wrappers
  import opened Syntax
  import opened Instructions
  import opened Code
  import opened Compiler
  import opened Rendering

  // ----- loops -----

  datatype LoopKind = BreakEntry | ContinueEntry | ForBegin | ForeachBegin | WhileBegin | UntilBegin

  /** One entry of the loop stack: for a loop, where CONTINUE goes and where the
      jump out of it stands; for a BREAK or CONTINUE, where its jump stands. */
  datatype Loop = Loop(kind: LoopKind, continueMark: nat, breakMark: nat)

  predicate IsBegin(l: Loop) {
    !l.kind.BreakEntry? && !l.kind.ContinueEntry?
  }

  /** The loop a BREAK or CONTINUE at this point belongs to. */
  function Innermost(s: seq<Loop>): (r: Option<Loop>)
    ensures r.Some? ==> IsBegin(r.value)
  {
    if s == [] then None
    else if IsBegin(s[|s| - 1]) then Some(s[|s| - 1])
    else Innermost(s[..|s| - 1])
  }

  /** The stack is a sequence of segments, each a loop followed by its BREAKs
      and, for an UNTIL loop only, its CONTINUEs. */
  predicate Segments(s: seq<Loop>) {
    s == [] ||
    (var init := s[..|s| - 1];
     var top := s[|s| - 1];
     && Segments(init)
     && (top.kind.BreakEntry? ==> init != [])
     && (top.kind.ContinueEntry? ==> Innermost(init).Some? && Innermost(init).value.kind.UntilBegin?))
  }

  lemma {:induction false} InnermostExists(s: seq<Loop>)
    requires Segments(s)
    ensures s != [] <==> Innermost(s).Some?
    decreases |s|
  {
    if s != [] {
      InnermostExists(s[..|s| - 1]);
    }
  }

  /** Where CONTINUE jumps to, if the generator knows it already. */
  function KnownContinue(s: seq<Loop>): Option<int> {
    var l := Innermost(s);
    if l.None? || l.value.kind.UntilBegin? then None else Some(l.value.continueMark)
  }

  function BoundItem(x: Item, pos: int, cont: Option<int>): (r: Item)
    ensures ItemSize(r) == ItemSize(x)
  {
    if x.Cont? && cont.Some? then With(W_JMP, cont.value - pos) else x
  }

  /** Code as it is emitted at pos: a CONTINUE with a known target is finished. */
  function Bound(c: seq<Item>, pos: int, cont: Option<int>): (r: seq<Item>)
    ensures |r| == |c| && Len(r) == Len(c)
  {
    if c == [] then [] else [BoundItem(c[0], pos, cont)] + Bound(c[1..], pos + ItemSize(c[0]), cont)
  }

  function Mark(x: Item, pos: nat, cont: Option<int>): (r: seq<Loop>)
    ensures |r| <= 1
  {
    if x.Brk? then [Loop(BreakEntry, 0, pos)]
    else if x.Cont? && cont.None? then [Loop(ContinueEntry, 0, pos)]
    else []
  }

  /** The entries emitting code at pos adds to the loop stack. */
  function Marks(c: seq<Item>, pos: nat, cont: Option<int>): seq<Loop> {
    if c == [] then [] else Mark(c[0], pos, cont) + Marks(c[1..], pos + ItemSize(c[0]), cont)
  }

  lemma {:induction false} BoundCat(a: seq<Item>, b: seq<Item>, pos: nat, cont: Option<int>)
    ensures Bound(a + b, pos, cont) == Bound(a, pos, cont) + Bound(b, pos + Len(a), cont)
    ensures Marks(a + b, pos, cont) == Marks(a, pos, cont) + Marks(b, pos + Len(a), cont)
    decreases |a|
  {
    hide ItemSize, BoundItem, Mark, Bound, Marks, Resolve;
    if a == [] {
      assert a + b == b;
      NothingBound(pos, cont, 0, 0);
    } else {
      assert (a + b)[1..] == a[1..] + b;
      BoundHead(a, pos, cont, 0, 0);
      BoundHead(a + b, pos, cont, 0, 0);
      BoundCat(a[1..], b, pos + ItemSize(a[0]), cont);
    }
  }

  lemma {:induction false} BoundClosed(c: seq<Item>, pos: nat, cont: Option<int>)
    requires Closed(c)
    ensures Bound(c, pos, cont) == c && Marks(c, pos, cont) == []
    decreases |c|
  {
    if c != [] {
      assert c[0] in c;
      assert Closed(c[1..]) by {
        assert forall x :: x in c[1..] ==> x in c;
      }
      BoundClosed(c[1..], pos + ItemSize(c[0]), cont);
    }
  }

  lemma MarkKeepsLoop(s: seq<Loop>, x: Item, pos: nat)
    requires Segments(s) && s != []
    ensures var s' := s + Mark(x, pos, KnownContinue(s)); Segments(s') && s' != [] && Innermost(s') == Innermost(s)
  {
    InnermostExists(s);
    var here := Mark(x, pos, KnownContinue(s));
    if here == [] {
      assert s + here == s;
    } else {
      assert (s + here)[..|s|] == s;
    }
  }

  /** The entries of a statement do not hide the enclosing loop. */
  lemma {:induction false} MarksKeepLoop(s: seq<Loop>, c: seq<Item>, pos: nat)
    requires Segments(s) && s != []
    ensures Segments(s + Marks(c, pos, KnownContinue(s)))
    ensures Innermost(s + Marks(c, pos, KnownContinue(s))) == Innermost(s)
    decreases |c|
  {
    hide Segments, Innermost, Mark;
    var k := KnownContinue(s);
    if c == [] {
      assert s + [] == s;
    } else {
      var here, n := Mark(c[0], pos, k), ItemSize(c[0]);
      MarkKeepsLoop(s, c[0], pos);
      MarksKeepLoop(s + here, c[1..], pos + n);
      assert s + here + Marks(c[1..], pos + n, k) == s + Marks(c, pos, k);
    }
  }

  /** The scan of a finished loop: the recorded jumps are patched from the top
      of the stack down. */
  function PatchLoop(c: seq<Item>, marks: seq<Loop>, brk: int, cont: int): (r: seq<Item>)
    ensures |r| == |c|
    decreases |marks|
  {
    if marks == [] then c
    else
      var m := marks[|marks| - 1];
      var target := if m.kind.ContinueEntry? then cont else brk;
      PatchLoop(Patch(c, m.breakMark, target - m.breakMark), marks[..|marks| - 1], brk, cont)
  }

  lemma {:induction false} PatchLoopCat(c: seq<Item>, a: seq<Loop>, b: seq<Loop>, brk: int, cont: int)
    ensures PatchLoop(c, a + b, brk, cont) == PatchLoop(PatchLoop(c, b, brk, cont), a, brk, cont)
    decreases |b|
  {
    hide Patch;
    if b == [] {
      assert a + b == a;
    } else {
      var m := b[|b| - 1];
      assert (a + b)[..|a + b| - 1] == a + b[..|b| - 1];
      PatchLoopCat(Patch(c, m.breakMark, (if m.kind.ContinueEntry? then cont else brk) - m.breakMark), a, b[..|b| - 1],
                   brk, cont);
    }
  }

  function ResolvedItem(x: Item, pos: int, brk: int, cont: int): Item {
    match x
    case Brk => With(W_JMP, brk - pos)
    case Cont => With(W_JMP, cont - pos)
    case _ => x
  }

  lemma BoundHead(c: seq<Item>, pos: nat, k: Option<int>, brk: int, cont: int)
    requires c != []
    ensures Bound(c, pos, k) == [BoundItem(c[0], pos, k)] + Bound(c[1..], pos + ItemSize(c[0]), k)
    ensures Marks(c, pos, k) == Mark(c[0], pos, k) + Marks(c[1..], pos + ItemSize(c[0]), k)
    ensures Resolve(c, pos, brk, cont)
         == [ResolvedItem(c[0], pos, brk, cont)] + Resolve(c[1..], pos + ItemSize(c[0]), brk, cont)
  {
    hide ItemSize, BoundItem, Mark;
  }

  /** Patching everything a loop body recorded resolves the body. */
  lemma {:induction false} PatchLoopResolves(pre: seq<Item>, c: seq<Item>, post: seq<Item>, k: Option<int>, brk: int, cont: int)
    ensures PatchLoop(pre + Bound(c, Len(pre), k) + post, Marks(c, Len(pre), k), brk, cont)
         == pre + Resolve(c, Len(pre), brk, if k.Some? then k.value else cont) + post
    decreases |c|
  {
    hide Patch, ItemSize, PatchLoop, Bound, Marks, Resolve, BoundItem, Mark, ResolvedItem;
    var p := Len(pre);
    var to := if k.Some? then k.value else cont;
    var all := pre + Bound(c, p, k) + post;
    if c == [] {
      NothingBound(p, k, brk, to);
      NothingToPatch(all, brk, cont);
    } else {
      var q := p + ItemSize(c[0]);
      var x, y := BoundItem(c[0], p, k), ResolvedItem(c[0], p, brk, to);
      BoundHead(c, p, k, brk, to);
      OneItem(pre, x);
      PatchLoopResolves(pre + [x], c[1..], post, k, brk, cont);
      assert all == (pre + [x]) + Bound(c[1..], q, k) + post;
      PatchLoopCat(all, Mark(c[0], p, k), Marks(c[1..], q, k), brk, cont);
      var tail := Resolve(c[1..], q, brk, to) + post;
      assert (pre + [x]) + Resolve(c[1..], q, brk, to) + post == pre + [x] + tail;
      PatchOne(pre, c[0], tail, k, brk, cont);
      assert pre + [y] + tail == pre + Resolve(c, p, brk, to) + post;
    }
  }

  lemma NothingBound(pos: nat, k: Option<int>, brk: int, cont: int)
    ensures Bound([], pos, k) == [] && Marks([], pos, k) == [] && Resolve([], pos, brk, cont) == []
  {
  }

  lemma NothingToPatch(c: seq<Item>, brk: int, cont: int)
    ensures PatchLoop(c, [], brk, cont) == c
  {
  }

  lemma OneItem(pre: seq<Item>, x: Item)
    ensures Len(pre + [x]) == Len(pre) + ItemSize(x)
  {
    LenCat(pre, [x]);
    assert [x][1..] == [];
  }

  lemma PatchOne(pre: seq<Item>, x: Item, post: seq<Item>, k: Option<int>, brk: int, cont: int)
    ensures PatchLoop(pre + [BoundItem(x, Len(pre), k)] + post, Mark(x, Len(pre), k), brk, cont)
         == pre + [ResolvedItem(x, Len(pre), brk, if k.Some? then k.value else cont)] + post
  {
    hide Patch;
    var m := Mark(x, Len(pre), k);
    if m != [] {
      assert m[..0] == [];
      PatchMid(pre, x, post, (if x.Brk? then brk else cont) - Len(pre));
    }
  }

  /** Only differences of positions matter to the jumps out of a body. */
  lemma {:induction false} ResolveShift(c: seq<Item>, pc: int, brk: int, cont: int, d: int)
    ensures Resolve(c, pc + d, brk + d, cont + d) == Resolve(c, pc, brk, cont)
    decreases |c|
  {
    if c != [] {
      ResolveShift(c[1..], pc + ItemSize(c[0]), brk, cont, d);
    }
  }

  lemma {:induction false} ResolveClosed(c: seq<Item>, pc: int, brk: int, cont: int)
    ensures Closed(Resolve(c, pc, brk, cont))
    decreases |c|
  {
    if c != [] {
      ResolveClosed(c[1..], pc + ItemSize(c[0]), brk, cont);
    }
  }

  // ----- branches -----

  datatype BranchKind = IfBranch | ElseIfBranch

  /** One entry of the branch stack: where its conditional jump stands, where
      the jump over the next branch stands (0 when there is none), and what is
      known about its statements returning. */
  datatype Branch = Branch(kind: BranchKind, startPos: nat, elsePos: nat, returnDetected: bool, prevReturnDetected: bool)

  function OpenJump(b: Branch): nat {
    if b.elsePos == 0 then b.startPos else b.elsePos
  }

  /** The scan of a finished IF: the open jump of every branch goes to the end. */
  function PatchBranches(c: seq<Item>, bs: seq<Branch>, end: int): (r: seq<Item>)
    ensures |r| == |c|
    decreases |bs|
  {
    if bs == [] then c
    else
      var p := OpenJump(bs[|bs| - 1]);
      PatchBranches(Patch(c, p, end - p), bs[..|bs| - 1], end)
  }

  lemma {:induction false} PatchBranchesCat(c: seq<Item>, a: seq<Branch>, b: seq<Branch>, end: int)
    ensures PatchBranches(c, a + b, end) == PatchBranches(PatchBranches(c, b, end), a, end)
    decreases |b|
  {
    if b == [] {
      assert a + b == a;
    } else {
      var p := OpenJump(b[|b| - 1]);
      assert (a + b)[..|a + b| - 1] == a + b[..|b| - 1];
      PatchBranchesCat(Patch(c, p, end - p), a, b[..|b| - 1], end);
    }
  }
}
