/** The client's listing of the global variables, page by page. */
module PagedListing {
  import opened Bytes
  import opened Wrappers
  import opened Syntax

  /** Names as the server writes them, each with a terminating zero. */
  function EncodeNames(names: seq<Label>): seq<Byte> {
    if names == [] then [] else names[0] + [0] + EncodeNames(names[1..])
  }

  /** The length of the zero-terminated text at p. */
  function StrLen(b: seq<Byte>, p: nat): (n: nat)
    requires p <= |b|
    ensures p + n <= |b|
    decreases |b| - p
  {
    if p == |b| || b[p] == 0 then 0 else 1 + StrLen(b, p + 1)
  }

  lemma {:induction false} StrLenOf(b: seq<Byte>, p: nat, name: seq<Byte>)
    requires 0 !in name && p + |name| < |b| && b[p..p + |name|] == name && b[p + |name|] == 0
    ensures StrLen(b, p) == |name|
    decreases |name|
  {
    if name != [] {
      assert b[p] == name[0] && name[0] in name;
      assert b[p + 1..p + |name|] == name[1..];
      assert forall c :: c in name[1..] ==> c in name;
      StrLenOf(b, p + 1, name[1..]);
    }
  }

  /** What the server answers to a request for the names from hint on: a status,
      the number of all names, the hint, and run names. */
  function ServerAnswer(names: seq<Label>, hint: nat, run: nat): seq<Byte>
    requires hint + run <= |names|
  {
    Le(0, 4) + Le(|names|, 4) + Le(hint, 4) + EncodeNames(names[hint..hint + run])
  }

  type ErrorCode = n: int | 0 < n < 0x1_0000_0000 witness 1

  /** A page of run names, or a refusal with an error status. */
  datatype Reply = Page(run: nat) | Refusal(code: ErrorCode)

  datatype Status = Ok | InvalidArgs | ServerError(code: ErrorCode)

  /** A server with its names answers a request with at least one name, if one is
      left, and decides itself with how many; or it refuses. */
  predicate Answers(names: seq<Label>, hint: nat, reply: Reply) {
    reply.Page? ==> hint + reply.run <= |names| && (hint < |names| ==> reply.run > 0)
  }

  class Client {
    const names: seq<Label>
    var data: seq<Byte>
    var frameId: nat
    var started: bool
    var index: nat
    var off: nat
    var count: nat
    var listFrameId: nat

    /** How many names are left in the frame. */
    ghost var left: nat

    ghost predicate Valid()
      reads this
    {
      && |names| < 0x1_0000_0000
      && (started ==>
            && count == |names| && index + left <= |names| && listFrameId == frameId
            && 4 <= off <= |data| && data[..4] == Le(0, 4)
            && data[off..] == EncodeNames(names[index..index + left]))
    }

    constructor (names: seq<Label>)
      requires |names| < 0x1_0000_0000
      ensures Valid() && !started && this.names == names
    {
      this.names := names;
      data, frameId, started, index, off, count, listFrameId, left := [], 0, false, 0, 0, 0, 0, 0;
    }

    /** One request and its answer. After a refusal there is no list to fetch
        from. */
    method ListGlobals(hint: nat, reply: Reply) returns (cs: Status, outCount: nat)
      requires |names| < 0x1_0000_0000 && Answers(names, hint, reply)
      modifies this
      ensures Valid() && cs == (match reply case Page(_) => Ok case Refusal(code) => ServerError(code))
      ensures started == reply.Page?
      ensures reply.Page? ==> index == hint && left == reply.run && outCount == count == |names|
    {
      hide EncodeNames, Le, FromLe;
      frameId := frameId + 1;
      data := match reply case Page(run) => ServerAnswer(names, hint, run) case Refusal(code) => Le(code, 4);
      StatusWord(reply, data, names, hint);
      var status := LoadLe32(data, 0);
      if status != 0 {
        started := false;
        return ServerError(status), 0;
      }
      AnswerHead(names, hint, reply.run);
      outCount := LoadLe32(data, 4);
      index := LoadLe32(data, 8);
      cs, off, count, listFrameId, started, left := Ok, 12, outCount, frameId, true, reply.run;
    }

    method StartGlobalsList(reply: Reply) returns (cs: Status, outCount: nat)
      requires Valid() && Answers(names, 0, reply)
      modifies this
      ensures Valid() && cs == (match reply case Page(_) => Ok case Refusal(code) => ServerError(code))
      ensures started == reply.Page? && (started ==> index == 0 && outCount == |names|)
    {
      cs, outCount := ListGlobals(0, reply);
    }

    /** The next name; NULL when all have been fetched. A new request is made
        when the frame holds no more names; when it is refused the list is over
        and every further call is an error. */
    method FetchGlobal(reply: Reply) returns (cs: Status, name: Option<seq<Byte>>)
      requires Valid() && (index <= |names| ==> Answers(names, index, reply))
      modifies this
      ensures Valid() && (cs.InvalidArgs? <==> !old(started)) && (started <==> cs.Ok?)
      ensures cs.ServerError? ==> reply == Refusal(cs.code) && old(left) == 0 && old(index) < |names|
      ensures old(started) && reply.Refusal? && old(left) == 0 && old(index) < |names| ==> cs.ServerError?
      ensures cs.Ok? ==> index == (if old(index) < |names| then old(index) + 1 else old(index))
                         && name == if old(index) < |names| then Some(names[old(index)]) else None
      ensures cs.Ok? && old(index) == |names| ==> data == old(data) && frameId == old(frameId)
    {
      hide EncodeNames, StrLen, Le, ServerAnswer;
      if !started {
        return InvalidArgs, None;
      }
      assert frameId == listFrameId;
      cs := Ok;
      if index >= count {
        return Ok, None;
      }
      EmptyPage(names, index, left);
      PageEnd(data, off);
      if off >= |data| {
        var next;
        cs, next := ListGlobals(index, reply);
        if !cs.Ok? {
          return cs, None;
        }
        EmptyPage(names, index, left);
        PageEnd(data, off);
      }
      PageNotEmpty(names, index, left, data, off);
      var n := StrLen(data, off);
      name := Some(data[off..off + n]);
      off := off + n + 1;
      index := index + 1;
      left := left - 1;
    }

    /** Fetching until NULL yields the server's names in order, each once, and
        every further call yields NULL, whatever the sizes of the pages. */
    method FetchAll(pages: seq<nat>, more: nat) returns (fetched: seq<seq<Byte>>)
      requires Valid() && |pages| == |names| + 1 && forall i :: 0 <= i <= |names| ==> Answers(names, i, Page(pages[i]))
      modifies this
      ensures Valid() && started && index == |names|
      ensures |fetched| == |names| && forall i :: 0 <= i < |names| ==> fetched[i] == names[i]
    {
      var cs, total := StartGlobalsList(Page(pages[0]));
      fetched := [];
      while true
        invariant Valid() && started && index == |fetched| <= |names|
        invariant forall i :: 0 <= i < |fetched| ==> fetched[i] == names[i]
        decreases |names| - index
      {
        var name;
        cs, name := FetchGlobal(Page(pages[index]));
        if name.None? {
          break;
        }
        fetched := fetched + [name.value];
      }
      var k := 0;
      while k < more
        invariant Valid() && started && index == |names|
      {
        var name;
        cs, name := FetchGlobal(Page(pages[index]));
        assert cs.Ok? && name.None?;
        k := k + 1;
      }
    }
  }

  lemma AnswerHead(names: seq<Label>, hint: nat, run: nat)
    requires hint + run <= |names| < 0x1_0000_0000
    ensures var d := ServerAnswer(names, hint, run);
            && |d| >= 12 && d[..4] == Le(0, 4) && LoadLe32(d, 4) == |names| && LoadLe32(d, 8) == hint
            && d[12..] == EncodeNames(names[hint..hint + run])
  {
    hide Le, FromLe;
    var d := ServerAnswer(names, hint, run);
    Pow4();
    LeRoundTrip(|names|, 4);
    LeRoundTrip(hint, 4);
    assert d[4..8] == Le(|names|, 4) && d[8..12] == Le(hint, 4);
  }

  /** The status a reply starts with. */
  lemma StatusWord(reply: Reply, d: seq<Byte>, names: seq<Label>, hint: nat)
    requires reply.Page? ==> hint + reply.run <= |names|
    requires d == match reply case Page(run) => ServerAnswer(names, hint, run) case Refusal(code) => Le(code, 4)
    ensures |d| >= 4 && LoadLe32(d, 0) == match reply case Page(_) => 0 case Refusal(code) => code
  {
    hide Le, FromLe;
    var status := match reply case Page(_) => 0 case Refusal(code) => code;
    assert d[0..4] == Le(status, 4);
    Pow4();
    LeRoundTrip(status, 4);
  }

  lemma PageEnd(d: seq<Byte>, off: nat)
    requires off <= |d|
    ensures off == |d| <==> d[off..] == []
  {
  }

  lemma Pow4()
    ensures Pow256(4) == 0x1_0000_0000
  {
    assert Pow256(2) == 256 * Pow256(1) && Pow256(3) == 256 * Pow256(2) && Pow256(4) == 256 * Pow256(3);
  }

  /** An exhausted frame has no names left. */
  lemma EmptyPage(names: seq<Label>, index: nat, left: nat)
    requires index + left <= |names|
    ensures EncodeNames(names[index..index + left]) == [] <==> left == 0
  {
  }

  /** The next name in a frame that is not exhausted. */
  lemma PageNotEmpty(names: seq<Label>, index: nat, left: nat, data: seq<Byte>, off: nat)
    requires index + left <= |names| && off < |data| && data[off..] == EncodeNames(names[index..index + left])
    ensures left > 0 && StrLen(data, off) == |names[index]| && off + |names[index]| + 1 <= |data|
    ensures data[off..off + |names[index]|] == names[index]
    ensures data[off + |names[index]| + 1..] == EncodeNames(names[index + 1..index + left])
  {
    EmptyPage(names, index, left);
    var page := names[index..index + left];
    assert page[0] == names[index] && page[1..] == names[index + 1..index + left];
    var rest := data[off..];
    assert rest == names[index] + [0] + EncodeNames(page[1..]);
    var n := |names[index]|;
    assert rest[..n] == names[index] && rest[n] == 0;
    assert data[off..off + n] == rest[..n] && data[off + n] == rest[n];
    assert data[off + n + 1..] == rest[n + 1..];
    StrLenOf(data, off, names[index]);
  }
}
