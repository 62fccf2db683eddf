/** Does every path through a procedure return? What the generator's flags say,
    and which paths there are when nothing is known about the conditions. */
module Returns {
  import opened Syntax

  /** What the generator's flags amount to: a RETURN counts wherever it stands,
      an IF only if it has an ELSE and every branch counts. */
  predicate Detects(s: Stmt) {
    match s
    case Return(_) => true
    case Seq(s1, s2) => Detects(s1) || Detects(s2)
    case If(chain) => DetectsAll(chain)
    case While(_, body) => Detects(body)
    case Until(body, _) => Detects(body)
    case For(_, _, _, body) => Detects(body)
    case Foreach(_, _, _, body) => Detects(body)
    case _ => false
  }

  predicate DetectsAll(c: Chain) {
    Detects(c.body) &&
    match c.tail
    case NoElse => false
    case Else(s) => Detects(s)
    case ElseIf(next) => DetectsAll(next)
  }

  // ----- paths -----

  /** How a path through a statement ends; Open when the choices ran out. */
  datatype Way = Falls | Breaks | Continues | Returns | Open

  datatype Walked = Walked(way: Way, left: seq<bool>)

  /** The path on which the conditions come out as chosen. */
  function Walk(s: Stmt, cs: seq<bool>): (r: Walked)
    ensures |r.left| <= |cs|
    decreases |cs|, s, 0
  {
    match s
    case Return(_) => Walked(Returns, cs)
    case Break => Walked(Breaks, cs)
    case Continue => Walked(Continues, cs)
    case Seq(s1, s2) =>
      var r := Walk(s1, cs);
      if r.way.Falls? then Walk(s2, r.left) else r
    case If(chain) => WalkChain(chain, cs)
    case While(_, body) => WalkLoop(body, cs)
    case For(_, _, _, body) => WalkLoop(body, cs)
    case Foreach(_, _, _, body) => WalkLoop(body, cs)
    case Until(body, _) => WalkUntil(body, cs)
    case _ => Walked(Falls, cs)
  }

  function WalkChain(c: Chain, cs: seq<bool>): (r: Walked)
    ensures |r.left| <= |cs|
    decreases |cs|, c, 0
  {
    if cs == [] then Walked(Open, [])
    else if cs[0] then Walk(c.body, cs[1..])
    else
      match c.tail
      case NoElse => Walked(Falls, cs[1..])
      case Else(s) => Walk(s, cs[1..])
      case ElseIf(next) => WalkChain(next, cs[1..])
  }

  /** The condition comes before every iteration. */
  function WalkLoop(body: Stmt, cs: seq<bool>): (r: Walked)
    ensures |r.left| <= |cs|
    decreases |cs|, body, 1
  {
    if cs == [] then Walked(Open, [])
    else if !cs[0] then Walked(Falls, cs[1..])
    else
      var r := Walk(body, cs[1..]);
      match r.way
      case Falls => WalkLoop(body, r.left)
      case Continues => WalkLoop(body, r.left)
      case Breaks => Walked(Falls, r.left)
      case _ => r
  }

  /** The condition comes after every iteration. */
  function WalkUntil(body: Stmt, cs: seq<bool>): (r: Walked)
    ensures |r.left| <= |cs|
    decreases |cs|, body, 1
  {
    var r := Walk(body, cs);
    match r.way
    case Breaks => Walked(Falls, r.left)
    case Falls => WalkUntilTest(body, r.left)
    case Continues => WalkUntilTest(body, r.left)
    case _ => r
  }

  function WalkUntilTest(body: Stmt, cs: seq<bool>): (r: Walked)
    ensures |r.left| <= |cs|
    decreases |cs|, body, 0
  {
    if cs == [] then Walked(Open, [])
    else if !cs[0] then Walked(Falls, cs[1..])
    else WalkUntil(body, cs[1..])
  }

  // ----- which ways are possible, read off the statement -----

  /** Can the statement end in the given way? */
  predicate Can(s: Stmt, w: Way)
    decreases s, 0
  {
    match s
    case Return(_) => w == Returns
    case Break => w == Breaks
    case Continue => w == Continues
    case Seq(s1, s2) => (Can(s1, Falls) && Can(s2, w)) || (w != Falls && Can(s1, w))
    case If(chain) => CanChain(chain, w)
    case While(_, body) => CanLoop(body, w)
    case For(_, _, _, body) => CanLoop(body, w)
    case Foreach(_, _, _, body) => CanLoop(body, w)
    case Until(body, _) =>
      (w == Falls && (Can(body, Falls) || Can(body, Breaks) || Can(body, Continues))) || (w == Returns && Can(body, Returns))
    case _ => w == Falls
  }

  predicate CanLoop(body: Stmt, w: Way)
    decreases body, 1
  {
    w == Falls || (w == Returns && Can(body, Returns))
  }

  predicate CanChain(c: Chain, w: Way)
    decreases c, 0
  {
    Can(c.body, w) ||
    match c.tail
    case NoElse => w == Falls
    case Else(s) => Can(s, w)
    case ElseIf(next) => CanChain(next, w)
  }

  /** Every path that ends does so in a possible way. */
  lemma {:induction false} WalkCan(s: Stmt, cs: seq<bool>)
    ensures var w := Walk(s, cs).way; !w.Open? ==> Can(s, w)
    decreases |cs|, s, 0
  {
    match s
    case Seq(s1, s2) =>
      WalkCan(s1, cs);
      WalkCan(s2, Walk(s1, cs).left);
    case If(chain) => ChainCan(chain, cs);
    case While(_, body) => LoopCan(body, cs);
    case For(_, _, _, body) => LoopCan(body, cs);
    case Foreach(_, _, _, body) => LoopCan(body, cs);
    case Until(body, c) => UntilCan(body, c, cs);
    case _ =>
  }

  lemma {:induction false} ChainCan(c: Chain, cs: seq<bool>)
    ensures var w := WalkChain(c, cs).way; !w.Open? ==> CanChain(c, w)
    decreases |cs|, c, 0
  {
    if cs != [] {
      WalkCan(c.body, cs[1..]);
      match c.tail
      case NoElse =>
      case Else(s) => WalkCan(s, cs[1..]);
      case ElseIf(next) => ChainCan(next, cs[1..]);
    }
  }

  lemma {:induction false} LoopCan(body: Stmt, cs: seq<bool>)
    ensures var w := WalkLoop(body, cs).way; !w.Open? ==> CanLoop(body, w)
    decreases |cs|, body, 1
  {
    if cs != [] && cs[0] {
      WalkCan(body, cs[1..]);
      LoopCan(body, Walk(body, cs[1..]).left);
    }
  }

  lemma {:induction false} UntilCan(body: Stmt, c: Exp, cs: seq<bool>)
    ensures var w := WalkUntil(body, cs).way; !w.Open? ==> Can(Until(body, c), w)
    decreases |cs|, body, 1
  {
    WalkCan(body, cs);
    var r := Walk(body, cs);
    if (r.way.Falls? || r.way.Continues?) && r.left != [] && r.left[0] {
      UntilCan(body, c, r.left[1..]);
    }
  }

  /** The choices lead to the given end and use up exactly themselves. */
  ghost predicate Leads(s: Stmt, cs: seq<bool>, w: Way) {
    forall more: seq<bool> :: Walk(s, cs + more) == Walked(w, more)
  }

  /** Every possible way is the end of some path. */
  lemma {:induction false} CanWalk(s: Stmt, w: Way) returns (cs: seq<bool>)
    requires Can(s, w)
    ensures Leads(s, cs, w)
    decreases s
  {
    cs := [];
    match s
    case Seq(s1, s2) =>
      if w != Falls && Can(s1, w) {
        cs := CanWalk(s1, w);
      } else {
        var a := CanWalk(s1, Falls);
        var b := CanWalk(s2, w);
        cs := a + b;
        forall more: seq<bool>
          ensures Walk(s, cs + more) == Walked(w, more)
        {
          assert cs + more == a + (b + more);
        }
      }
    case If(chain) => cs := ChainWalk(chain, w);
    case While(_, body) => cs := LoopWalk(s, body, w);
    case For(_, _, _, body) => cs := LoopWalk(s, body, w);
    case Foreach(_, _, _, body) => cs := LoopWalk(s, body, w);
    case Until(body, _) => cs := UntilWalk(s, body, w);
    case _ =>
      forall more: seq<bool>
        ensures Walk(s, cs + more) == Walked(w, more)
      {
        assert cs + more == more;
      }
  }

  lemma {:induction false} ChainWalk(c: Chain, w: Way) returns (cs: seq<bool>)
    requires CanChain(c, w)
    ensures forall more: seq<bool> :: WalkChain(c, cs + more) == Walked(w, more)
    decreases c
  {
    var rest: seq<bool> := [];
    if Can(c.body, w) {
      rest := CanWalk(c.body, w);
      cs := [true] + rest;
    } else {
      match c.tail {
        case NoElse =>
        case Else(s) => rest := CanWalk(s, w);
        case ElseIf(next) => rest := ChainWalk(next, w);
      }
      cs := [false] + rest;
    }
    forall more: seq<bool>
      ensures WalkChain(c, cs + more) == Walked(w, more)
    {
      hide Walk, Can, CanChain;
      assert cs + more == [cs[0]] + (rest + more);
      assert [] + more == more;
    }
  }

  lemma {:induction false} LoopWalk(s: Stmt, body: Stmt, w: Way) returns (cs: seq<bool>)
    requires CanLoop(body, w) && body < s && forall cs :: Walk(s, cs) == WalkLoop(body, cs)
    ensures Leads(s, cs, w)
    decreases s, 0
  {
    var rest: seq<bool> := [];
    if w == Returns {
      rest := CanWalk(body, w);
    }
    cs := [w == Returns] + rest;
    forall more: seq<bool>
      ensures Walk(s, cs + more) == Walked(w, more)
    {
      assert cs + more == [cs[0]] + (rest + more);
      assert [] + more == more;
    }
  }

  lemma {:induction false} UntilWalk(s: Stmt, body: Stmt, w: Way) returns (cs: seq<bool>)
    requires s.Until? && s.body == body && Can(s, w)
    ensures Leads(s, cs, w)
    decreases s, 0
  {
    var inner := if w == Returns then Returns else if Can(body, Breaks) then Breaks
                 else if Can(body, Falls) then Falls else Continues;
    var a := CanWalk(body, inner);
    var test: seq<bool> := if inner == Falls || inner == Continues then [false] else [];
    cs := a + test;
    forall more: seq<bool>
      ensures Walk(s, cs + more) == Walked(w, more)
    {
      assert cs + more == a + (test + more);
      assert Walk(body, a + (test + more)) == Walked(inner, test + more);
      assert Walk(s, cs + more) == WalkUntil(body, a + (test + more));
      assert inner == Falls || inner == Continues ==>
               WalkUntil(body, a + (test + more)) == WalkUntilTest(body, test + more);
      if test == [] {
        assert test + more == more;
      } else {
        assert (test + more)[1..] == more;
      }
    }
  }

  // ----- what the flags are worth -----

  predicate LoopFree(s: Stmt) {
    match s
    case Seq(s1, s2) => LoopFree(s1) && LoopFree(s2)
    case If(chain) => LoopFreeChain(chain)
    case While(_, _) => false
    case Until(_, _) => false
    case For(_, _, _, _) => false
    case Foreach(_, _, _, _) => false
    case Break => false
    case Continue => false
    case _ => true
  }

  predicate LoopFreeChain(c: Chain) {
    LoopFree(c.body) &&
    match c.tail
    case NoElse => true
    case Else(s) => LoopFree(s)
    case ElseIf(next) => LoopFreeChain(next)
  }

  lemma {:induction false} LoopFreeExact(s: Stmt)
    requires LoopFree(s)
    ensures Detects(s) <==> !Can(s, Falls)
    decreases s
  {
    match s
    case Seq(s1, s2) =>
      LoopFreeExact(s1);
      LoopFreeExact(s2);
    case If(chain) => LoopFreeChainExact(chain);
    case _ =>
  }

  lemma {:induction false} LoopFreeChainExact(c: Chain)
    requires LoopFreeChain(c)
    ensures DetectsAll(c) <==> !CanChain(c, Falls)
    decreases c
  {
    LoopFreeExact(c.body);
    match c.tail
    case NoElse =>
    case Else(s) => LoopFreeExact(s);
    case ElseIf(next) => LoopFreeChainExact(next);
  }

  /** Without loops the flag is raised if and only if no path falls off the end. */
  lemma ReturnFlagExact(s: Stmt)
    requires LoopFree(s)
    ensures Detects(s) <==> forall cs: seq<bool> :: !Walk(s, cs).way.Falls?
  {
    LoopFreeExact(s);
    if Can(s, Falls) {
      var cs := CanWalk(s, Falls);
      assert Walk(s, cs + []) == Walked(Falls, []) && cs + [] == cs;
      assert Walk(s, cs).way.Falls?;
    } else {
      forall cs: seq<bool>
        ensures !Walk(s, cs).way.Falls?
      {
        WalkCan(s, cs);
      }
    }
  }

  /** With loops the flag never misses: a body without it does have a path that
      leaves it other than by RETURN. */
  lemma {:induction false} NoFlagEscapes(s: Stmt)
    ensures Detects(s) || Can(s, Falls) || Can(s, Breaks) || Can(s, Continues)
    decreases s
  {
    match s
    case Seq(s1, s2) =>
      NoFlagEscapes(s1);
      NoFlagEscapes(s2);
    case If(chain) => NoFlagChain(chain);
    case Until(body, _) => NoFlagEscapes(body);
    case _ =>
  }

  lemma {:induction false} NoFlagChain(c: Chain)
    ensures DetectsAll(c) || CanChain(c, Falls) || CanChain(c, Breaks) || CanChain(c, Continues)
    decreases c
  {
    NoFlagEscapes(c.body);
    match c.tail
    case NoElse =>
    case Else(s) => NoFlagEscapes(s);
    case ElseIf(next) => NoFlagChain(next);
  }

  /** No path falls off the end exactly when the statement says so itself. */
  lemma FallsExact(s: Stmt)
    ensures (forall cs: seq<bool> :: !Walk(s, cs).way.Falls?) <==> !Can(s, Falls)
  {
    hide Walk, Can;
    forall cs: seq<bool> | Walk(s, cs).way.Falls?
      ensures Can(s, Falls)
    {
      WalkCan(s, cs);
    }
    if Can(s, Falls) {
      var cs := CanWalk(s, Falls);
      assert Walk(s, cs + []) == Walked(Falls, []);
      assert Walk(s, cs + []).way.Falls?;
    }
  }

  /** But a RETURN in a loop that may run zero times raises it as well, so that
      the end can still be reached. */
  lemma FlagInLoop(c: Exp, e: Exp)
    ensures Detects(While(c, Return(e))) && Walk(While(c, Return(e)), [false]).way.Falls?
  {
  }
}
