/** The linear disassembler agrees with the encoder on every instruction. */
module Disassembler {
  import opened Bytes
  import opened Wrappers
  import opened Syntax
  import opened Instructions
  import opened Code
  import opened Compiler
  import opened ByteCounts
  import opened CompilerLemmas
  import opened Rendering
  import opened OpenCode
  import opened Machine
  import opened StackDepth
  import opened StackDepthStmt
  import opened StackDepthRun
  import opened Correctness
  import Limits

  const PLAIN := {Stores, Binary, Indexing, NullTests, Negation, LoadTruth, Returns, StartsLoop, NextInLoop, IterOffset}

  /** How many operand bytes the instructions of compiled code have. */
  lemma OperandWidths()
    ensures forall op :: op in {W_LDNULL, W_LDI8, W_LDLO8, W_CTS} ==> OperandSize(op) == 1
    ensures forall op :: op in {W_LDI16, W_LDLO16} ==> OperandSize(op) == 2
    ensures forall op :: op in {W_LDI32, W_LDLO32, W_CALL, W_SELF, W_JF, W_JFC, W_JT, W_JTC, W_JMP} ==> OperandSize(op) == 4
    ensures OperandSize(W_LDI64) == 8
    ensures forall op: Byte :: KindOf(op) in PLAIN ==> OperandSize(op) == 0
  {
  }

  predicate AllValid(s: seq<Instr>) {
    forall i :: i in s ==> Encodable(i)
  }

  function EncodeAll(s: seq<Instr>): seq<Byte> {
    if s == [] then [] else Encode(s[0]) + EncodeAll(s[1..])
  }

  /** The instructions from position p on; None on an invalid opcode or when the
      last operand is cut off. */
  function Parse(code: seq<Byte>, p: nat): Option<seq<Instr>>
    requires p <= |code|
    decreases |code| - p
  {
    if p == |code| then Some([])
    else
      var i := DecodeAt(code, p);
      if i.None? then None
      else
        var rest := Parse(code, p + Size(i.value));
        if rest.None? then None else Some([i.value] + rest.value)
  }

  /** The walk of the dumper: one instruction after the other, until exactly the
      end of the code. */
  method DumpCode(code: seq<Byte>) returns (r: Option<seq<Instr>>)
    ensures r == Parse(code, 0)
  {
    hide DecodeAt, Size;
    var currPos := 0;
    var lines: seq<Instr> := [];
    Nothing(Parse(code, 0));
    while currPos < |code|
      invariant 0 <= currPos <= |code|
      invariant Parse(code, 0) == After(lines, Parse(code, currPos))
      decreases |code| - currPos
    {
      var i := DecodeAt(code, currPos);
      if i.None? {
        return None;
      }
      DecodeExact(code, currPos);
      OneLine(lines, i.value, Parse(code, currPos + Size(i.value)));
      lines, currPos := lines + [i.value], currPos + Size(i.value);
    }
    assert lines + [] == lines;
    r := Some(lines);
  }

  function After(lines: seq<Instr>, rest: Option<seq<Instr>>): Option<seq<Instr>> {
    if rest.None? then None else Some(lines + rest.value)
  }

  lemma Nothing(rest: Option<seq<Instr>>)
    ensures After([], rest) == rest
  {
    if rest.Some? {
      assert [] + rest.value == rest.value;
    }
  }

  lemma OneLine(lines: seq<Instr>, i: Instr, rest: Option<seq<Instr>>)
    ensures After(lines, if rest.None? then None else Some([i] + rest.value)) == After(lines + [i], rest)
  {
    if rest.Some? {
      assert lines + ([i] + rest.value) == lines + [i] + rest.value;
    }
  }

  // ----- the walk undoes the encoding -----

  lemma {:induction false} LeFromLe(b: seq<Byte>)
    ensures Le(FromLe(b), |b|) == b
    decreases |b|
  {
    if b != [] {
      LeFromLe(b[1..]);
      assert FromLe(b) % 256 == b[0] && FromLe(b) / 256 == FromLe(b[1..]);
      assert b == [b[0]] + b[1..];
    }
  }

  /** The signed reading of a word encodes to the same word. */
  lemma SignedLe(v: nat)
    requires v < 0x1_0000_0000
    ensures Le(Signed32(v), 4) == Le(v, 4) && -0x8000_0000 <= Signed32(v) < 0x8000_0000
  {
    hide Le;
    if v >= 0x8000_0000 {
      assert Pow256(4) == 0x1_0000_0000 by { Limits.Powers(); }
      LeShift(v, 4, 1);
    }
  }

  /** What is decoded at a position is exactly what stands there. */
  lemma DecodeExact(code: seq<Byte>, p: nat)
    requires DecodeAt(code, p).Some?
    ensures var i := DecodeAt(code, p).value;
            Encodable(i) && p + Size(i) <= |code| && code[p..p + Size(i)] == Encode(i)
  {
    hide OperandSize, Le, FromLe;
    var n := OperandSize(code[p]);
    var b := code[p + 1..p + 1 + n];
    LeFromLe(b);
    FromLeBound(b);
    if IsJump(code[p]) {
      Limits.JumpWidth(code[p]);
      Limits.Powers();
      SignedLe(FromLe(b));
    }
    assert code[p..p + 1 + n] == [code[p]] + b;
  }

  lemma {:induction false} ParseEncoded(pre: seq<Byte>, s: seq<Instr>)
    requires AllValid(s)
    ensures Parse(pre + EncodeAll(s), |pre|) == Some(s)
    decreases |s|
  {
    hide DecodeAt, Encodable, Encode, Size;
    NothingEncoded(s);
    if s != [] {
      assert s[0] in s;
      var rest := EncodeAll(s[1..]);
      EncodeSize(s[0]);
      DecodeEncode(pre, s[0], rest);
      assert pre + EncodeAll(s) == pre + Encode(s[0]) + rest;
      assert AllValid(s[1..]) by { assert forall i :: i in s[1..] ==> i in s; }
      ParseEncoded(pre + Encode(s[0]), s[1..]);
      assert s == [s[0]] + s[1..];
    }
  }

  lemma {:induction false} ParsedEncodes(pre: seq<Byte>, code: seq<Byte>, s: seq<Instr>)
    requires Parse(pre + code, |pre|) == Some(s)
    ensures AllValid(s) && code == EncodeAll(s)
    decreases |code|
  {
    hide DecodeAt, Encodable, Encode, Size;
    NothingEncoded(s);
    if code != [] {
      var all := pre + code;
      var i := DecodeAt(all, |pre|).value;
      DecodeExact(all, |pre|);
      EncodeSize(i);
      var next := pre + Encode(i);
      assert next == all[..|pre| + Size(i)];
      assert all == next + all[|next|..];
      ParsedEncodes(next, all[|next|..], s[1..]);
      assert s == [i] + s[1..] && code == Encode(i) + all[|next|..];
    }
  }

  /** A code area is the encoding of a list of valid instructions if and only if
      the walk over it finds that list. */
  lemma ParseExact(pre: seq<Byte>, code: seq<Byte>, s: seq<Instr>)
    ensures Parse(pre + code, |pre|) == Some(s) <==> AllValid(s) && code == EncodeAll(s)
  {
    hide Parse, EncodeAll;
    if Parse(pre + code, |pre|) == Some(s) {
      ParsedEncodes(pre, code, s);
    }
    if AllValid(s) && code == EncodeAll(s) {
      ParseEncoded(pre, s);
    }
  }

  lemma NothingEncoded(s: seq<Instr>)
    ensures EncodeAll(s) == [] <==> s == []
  {
  }

  lemma EncodeSize(i: Instr)
    ensures |Encode(i)| == Size(i) && Size(i) > 0
  {
  }

  // ----- compiled code -----

  function Listing(c: seq<Item>, base: nat): seq<Instr> {
    if c == [] then [] else [Emitted(c[0], base)] + Listing(c[1..], base)
  }

  lemma {:induction false} ListingRenders(c: seq<Item>, base: nat)
    requires AllEncodable(c, base)
    ensures EncodeAll(Listing(c, base)) == Render(c, base) && AllValid(Listing(c, base))
    decreases |c|
  {
    hide Encodable, Encode, Emitted;
    if c != [] {
      assert c[0] in c;
      assert AllEncodable(c[1..], base) by { assert forall x :: x in c[1..] ==> x in c; }
      ListingRenders(c[1..], base);
      var l := Listing(c, base);
      assert l[1..] == Listing(c[1..], base);
      assert forall i :: i in l ==> i == l[0] || i in l[1..];
    }
  }

  /** The dump of a compiled procedure lists exactly the instructions the
      compiler emitted. */
  lemma DumpCompiled(body: Stmt, env: Env, u: Unit)
    requires Finished(body, env, u)
    ensures var c := GenStmt(body, env).value;
            Parse(u.code, 0) == Some(Listing(c.code, |c.env.locals|))
  {
    hide GenStmt, Parse, Listing, EncodeAll, Render, Narrow;
    var c := GenStmt(body, env).value;
    CompiledEncodable(body, env, u);
    ListingRenders(c.code, |c.env.locals|);
    ParseExact([], u.code, Listing(c.code, |c.env.locals|));
    assert [] + u.code == u.code;
  }

  lemma CompiledEncodable(body: Stmt, env: Env, u: Unit)
    requires Finished(body, env, u)
    ensures var c := GenStmt(body, env).value; AllEncodable(c.code, |c.env.locals|)
  {
    hide GenStmt, Limits.Small;
    var c := GenStmt(body, env).value;
    StmtGrows(body, env);
    Limits.StmtFits(body, env);
    SmallEncodable(c.code, Len(c.code), |c.env.locals|);
  }

  /** Every jump of a compiled procedure goes to the start of an instruction or
      to the end of the code. */
  lemma JumpsLand(body: Stmt, env: Env, u: Unit, q: int, i: Instr)
    requires Finished(body, env, u) && Boundary(GenStmt(body, env).value.code, 0, q)
    requires DecodeAt(u.code, q) == Some(i) && IsJump(i.op)
    ensures Boundary(GenStmt(body, env).value.code, 0, q + i.arg) && 0 <= q + i.arg <= |u.code|
  {
    hide GenStmt, At, Flows, Len, Boundary, DecodeAt, Narrow, KindOf, Render, AllEncodable;
    var c, base := GenStmt(body, env).value.code, |GenStmt(body, env).value.env.locals|;
    var s := Setting(env.procs, base, 0, 0, false);
    var t := Targets(0, 0, base);
    StmtGrows(body, env);
    var ds := StmtDepth(body, env, 0, s);
    FinishedAt(body, env, u, t);
    StmtClosed(body, env);
    BoundaryInside(c, 0, q);
    DecodedInside(u.code, q);
    var x := ItemAt(u.code, c, 0, t, ds, s, q);
    JumpKind(i.op);
    BoundaryInside(c, 0, q + i.arg);
  }

  lemma DecodedInside(code: seq<Byte>, q: int)
    requires DecodeAt(code, q).Some?
    ensures q < |code|
  {
  }

  lemma JumpKind(op: Byte)
    requires IsJump(op)
    ensures KindOf(op) == CondJump || KindOf(op) == Jump
    ensures !IsJump(W_LDLO32)
  {
  }
}
