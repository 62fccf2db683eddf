/** The instruction set: opcode numbers, operand sizes, encoding and decoding. */
module Instructions {
  import opened Bytes
  import opened Wrappers

  const W_NA: Byte := 0
  const W_LDNULL: Byte := 1
  const W_LDI8: Byte := 3
  const W_LDI16: Byte := 4
  const W_LDI32: Byte := 5
  const W_LDI64: Byte := 6
  const W_LDBT: Byte := 12
  const W_LDBF: Byte := 13
  const W_LDLO8: Byte := 14
  const W_LDLO16: Byte := 15
  const W_LDLO32: Byte := 16
  const W_CTS: Byte := 20
  const W_STB: Byte := 21
  const W_STI8: Byte := 26
  const W_STI16: Byte := 27
  const W_STI32: Byte := 28
  const W_STI64: Byte := 29
  const W_STUI8: Byte := 33
  const W_STUI16: Byte := 34
  const W_STUI32: Byte := 35
  const W_STUI64: Byte := 36
  const W_STA: Byte := 39
  const W_STUD: Byte := 40
  const W_INULL: Byte := 41
  const W_NNULL: Byte := 42
  const W_CALL: Byte := 43
  const W_RET: Byte := 44
  const W_ADD: Byte := 45
  const W_AND: Byte := 48
  const W_ANDB: Byte := 49
  const W_DIV: Byte := 50
  const W_DIVU: Byte := 51
  const W_EQ: Byte := 53
  const W_EQB: Byte := 54
  const W_GE: Byte := 61
  const W_GEU: Byte := 62
  const W_GT: Byte := 68
  const W_GTU: Byte := 69
  const W_LE: Byte := 75
  const W_LEU: Byte := 76
  const W_LT: Byte := 82
  const W_LTU: Byte := 83
  const W_MOD: Byte := 89
  const W_MODU: Byte := 90
  const W_MUL: Byte := 91
  const W_MULU: Byte := 92
  const W_NE: Byte := 94
  const W_NEB: Byte := 95
  const W_NOT: Byte := 102
  const W_NOTB: Byte := 103
  const W_OR: Byte := 104
  const W_ORB: Byte := 105
  const W_SUB: Byte := 106
  const W_XOR: Byte := 108
  const W_XORB: Byte := 109
  const W_JF: Byte := 110
  const W_JFC: Byte := 111
  const W_JT: Byte := 112
  const W_JTC: Byte := 113
  const W_JMP: Byte := 114
  const W_INDA: Byte := 116
  const W_INDF: Byte := 117
  const W_SELF: Byte := 119
  const W_ITF: Byte := 142
  const W_ITL: Byte := 143
  const W_ITN: Byte := 144
  const W_ITP: Byte := 145
  const W_ITOFF: Byte := 146
  const W_OP_END_MARK: Byte := 152

  /** How many operand bytes follow an opcode. */
  function OperandSize(op: Byte): nat {
    if op in {1, 3, 14, 17, 20, 120, 121, 149, 150, 151} then 1
    else if op in {4, 15, 18} then 2
    else if op == 148 then 3
    else if op in {2, 5, 7, 11, 16, 19, 43, 110, 111, 112, 113, 114, 118, 119} then 4
    else if op == 8 then 7
    else if op == 6 then 8
    else if op == 9 then 11
    else if op == 10 then 16
    else 0
  }

  predicate IsJump(op: Byte) {
    W_JF <= op <= W_JMP
  }

  /** One instruction; the operand bytes are taken as one little-endian number,
      signed for the jumps. */
  datatype Instr = Instr(op: Byte, arg: int)

  function Size(i: Instr): (n: nat)
    ensures n > 0
  {
    1 + OperandSize(i.op)
  }

  predicate Encodable(i: Instr) {
    && W_NA < i.op < W_OP_END_MARK
    && if IsJump(i.op) then -0x8000_0000 <= i.arg < 0x8000_0000
       else 0 <= i.arg < Pow256(OperandSize(i.op))
  }

  function Encode(i: Instr): (r: seq<Byte>)
    ensures |r| == Size(i)
  {
    [i.op] + Le(i.arg, OperandSize(i.op))
  }

  /** The instruction at position pc of a code area; None past the end, on an
      invalid opcode or on a truncated operand. */
  function DecodeAt(code: seq<Byte>, pc: int): Option<Instr> {
    if !(0 <= pc < |code|) || !(W_NA < code[pc] < W_OP_END_MARK) then None
    else
      var n := OperandSize(code[pc]);
      if pc + 1 + n > |code| then None
      else
        var v := FromLe(code[pc + 1..pc + 1 + n]);
        Some(Instr(code[pc], if IsJump(code[pc]) then Signed32(v) else v))
  }

  lemma DecodeEncode(pre: seq<Byte>, i: Instr, post: seq<Byte>)
    requires Encodable(i)
    ensures DecodeAt(pre + Encode(i) + post, |pre|) == Some(i)
  {
    var code := pre + Encode(i) + post;
    var n := OperandSize(i.op);
    assert code[|pre|] == i.op;
    assert code[|pre| + 1..|pre| + 1 + n] == Le(i.arg, n);
    if IsJump(i.op) {
      Signed32RoundTrip(i.arg);
    } else {
      LeRoundTrip(i.arg, n);
    }
  }
}
