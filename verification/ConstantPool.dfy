/** The append-only area of constant texts shared by a compiled unit. */
module ConstantPool {
  import opened Bytes

  /** The area is empty or ends in a zero byte. */
  predicate Terminated(pool: seq<Byte>) {
    pool == [] || pool[|pool| - 1] == 0
  }

  /** The text stands at offset off and a zero byte ends it. */
  predicate Holds(pool: seq<Byte>, off: nat, text: seq<Byte>)
    requires text != []
  {
    && off + |text| <= |pool|
    && pool[off..off + |text|] == text
    && (text[|text| - 1] == 0 || (off + |text| < |pool| && pool[off + |text|] == 0))
  }

  /** The first offset from i on that holds the text, or the size of the area. */
  function FindFrom(pool: seq<Byte>, text: seq<Byte>, i: nat): (r: nat)
    requires text != [] && i <= |pool|
    ensures i <= r <= |pool|
    ensures r < |pool| ==> Holds(pool, r, text)
    ensures forall k :: i <= k < r ==> !Holds(pool, k, text)
    decreases |pool| - i
  {
    if i == |pool| || Holds(pool, i, text) then i else FindFrom(pool, text, i + 1)
  }

  function Appended(pool: seq<Byte>, text: seq<Byte>): seq<Byte>
    requires text != []
  {
    pool + text + if text[|text| - 1] == 0 then [] else [0]
  }

  /** The offset of a text and the area after asking for it. */
  function Add(pool: seq<Byte>, text: seq<Byte>): (r: (nat, seq<Byte>))
    requires text != []
    ensures pool <= r.1
    ensures Holds(r.1, r.0, text)
    ensures Terminated(pool) ==> Terminated(r.1)
  {
    var off := FindFrom(pool, text, 0);
    if off < |pool| then (off, pool)
    else
      var pool' := Appended(pool, text);
      assert pool'[|pool|..|pool| + |text|] == text;
      (|pool|, pool')
  }

  /** Growing the area keeps every text where it was. */
  lemma HoldsGrows(pool: seq<Byte>, pool': seq<Byte>, off: nat, text: seq<Byte>)
    requires text != [] && Holds(pool, off, text) && pool <= pool'
    ensures Holds(pool', off, text)
  {
    assert pool'[off..off + |text|] == pool[off..off + |text|];
  }

  /** The zero-terminated string that starts at off. */
  function CString(pool: seq<Byte>, off: nat): seq<Byte>
    decreases |pool| - off
  {
    if off >= |pool| || pool[off] == 0 then [] else [pool[off]] + CString(pool, off + 1)
  }

  lemma {:induction false} HoldsReads(pool: seq<Byte>, off: nat, text: seq<Byte>)
    requires text != [] && 0 !in text && Holds(pool, off, text)
    ensures CString(pool, off) == text
    decreases |text|
  {
    assert pool[off] == text[0];
    if |text| == 1 {
      assert CString(pool, off + 1) == [];
    } else {
      assert pool[off + 1..off + |text|] == text[1..];
      HoldsReads(pool, off + 1, text[1..]);
      assert text == [text[0]] + text[1..];
    }
  }

  type Text = s: seq<Byte> | s != [] witness [0]

  /** The offsets of texts asked for one after the other. */
  function AddAll(pool: seq<Byte>, texts: seq<Text>): (r: (seq<nat>, seq<Byte>))
    ensures |r.0| == |texts|
    decreases |texts|
  {
    if texts == [] then ([], pool)
    else
      var first := Add(pool, texts[0]);
      var rest := AddAll(first.1, texts[1..]);
      ([first.0] + rest.0, rest.1)
  }

  /** Every offset that was ever handed out keeps addressing its text, also when
      the text was found inside an earlier one. */
  lemma {:induction false} AllHold(pool: seq<Byte>, texts: seq<Text>)
    requires Terminated(pool)
    ensures var r := AddAll(pool, texts);
            && pool <= r.1 && Terminated(r.1)
            && forall k :: 0 <= k < |texts| ==> Holds(r.1, r.0[k], texts[k])
    decreases |texts|
  {
    if texts != [] {
      var first := Add(pool, texts[0]);
      AllHold(first.1, texts[1..]);
      var r := AddAll(pool, texts);
      HoldsGrows(first.1, r.1, first.0, texts[0]);
      forall k | 0 <= k < |texts|
        ensures Holds(r.1, r.0[k], texts[k])
      {
        if k > 0 {
          assert texts[k] == texts[1..][k - 1];
        }
      }
    }
  }

  /** A text is appended exactly when it stands nowhere in the area. */
  lemma SharedExact(pool: seq<Byte>, text: Text)
    ensures Add(pool, text).1 == pool <==> exists off :: 0 <= off < |pool| && Holds(pool, off, text)
  {
    var off := FindFrom(pool, text, 0);
    if off < |pool| {
      assert Holds(pool, off, text);
    }
  }
}
