/** The reader as it runs: a position consumed step by step, and a byte budget counted down. */
module RespReader {
  import opened Resp
  import opened Wrappers

  /** The size of the buffer behind the reader: a slice is handed out when a line fills it. */
  const BUFFER: int := 4096

  datatype SliceEnd = Delimiter | BufferFull | EndOfInput

  class Reader {
    var unread: Bytes
    var remainingBulkBytes: int

    constructor (connection: Bytes)
      ensures unread == connection
    {
      unread, remainingBulkBytes := connection, 0;
    }

    method ReadByte() returns (b: Option<Byte>)
      modifies this`unread
      ensures old(unread) == [] ==> b.None? && unread == []
      ensures old(unread) != [] ==> b == Some(old(unread)[0]) && unread == old(unread)[1..]
    {
      if unread == [] {
        return None;
      }
      b := Some(unread[0]);
      unread := unread[1..];
    }

    /** Bytes up to the first line feed, or what fills the buffer, or what is left. */
    method ReadSlice() returns (part: Bytes, end: SliceEnd)
      modifies this`unread
      ensures old(unread) == part + unread
      ensures end.Delimiter? ==> part != [] && LineEnd(old(unread)) == |part| - 1 && |part| <= BUFFER
      ensures end.BufferFull? ==> |part| == BUFFER && LF !in part
      ensures end.EndOfInput? ==> unread == [] && LF !in part
    {
      var i := LineEnd(unread);
      if i < |unread| && i + 1 <= BUFFER {
        part, end := unread[..i + 1], Delimiter;
      } else if |unread| >= BUFFER {
        part, end := unread[..BUFFER], BufferFull;
      } else {
        part, end := unread, EndOfInput;
      }
      unread := unread[|part|..];
    }

    /** Slices joined until a line feed, within the line limit. */
    method ReadLine() returns (text: Option<Bytes>)
      modifies this`unread
      ensures TakeLine(old(unread)) == if text.Some? then Line(text.value, unread) else NoLine
    {
      hide TakeLine, LineEnd;
      var line: Bytes := [];
      ghost var all := unread;
      while true
        invariant all == line + unread && LF !in line && |line| <= MAX_LINE
        decreases |unread|
      {
        var part, end := ReadSlice();
        Regrouped(line, part, unread);
        if |line| + |part| > MAX_LINE {
          TooLong(all, line, part, unread, end);
          return None;
        }
        ghost var before := line;
        line := line + part;
        if end.Delimiter? {
          Ended(all, before, part, unread);
          text := WithoutEnding(line);
          return;
        }
        if end.EndOfInput? {
          NothingBehind(line, unread);
          NoFeed(all);
          return None;
        }
      }
    }

    method WithoutEnding(line: Bytes) returns (text: Option<Bytes>)
      ensures text == if |line| < 2 || line[|line| - 2..] != CRLF then None else Some(line[..|line| - 2])
    {
      if |line| < 2 || line[|line| - 2..] != CRLF {
        return None;
      }
      text := Some(line[..|line| - 2]);
    }

    method ReadFull(n: nat) returns (buf: Option<Bytes>)
      modifies this`unread
      ensures buf.Some? <==> |old(unread)| >= n
      ensures buf.Some? ==> buf.value == old(unread)[..n] && unread == old(unread)[n..]
    {
      if |unread| < n {
        return None;
      }
      buf := Some(unread[..n]);
      unread := unread[n..];
    }

    method ReadBulk() returns (r: Option<Value>)
      modifies this
      ensures TakeBulk(old(unread), old(remainingBulkBytes)) == if r.Some?
        then Read(r.value, unread, remainingBulkBytes) else Failed
    {
      hide TakeLine, Atoi;
      var line := ReadLine();
      if line.None? {
        return None;
      }
      var size := Atoi(line.value);
      if size.None? {
        return None;
      }
      if size.value < 0 {
        return Some(Nil);
      }
      if size.value > MAX_BULK {
        return None;
      }
      if size.value > remainingBulkBytes {
        return None;
      }
      remainingBulkBytes := remainingBulkBytes - size.value;
      ghost var rest := unread;
      var buf := ReadFull(size.value + 2);
      if buf.None? {
        return None;
      }
      assert buf.value[size.value..] == rest[size.value..size.value + 2]
        && buf.value[..size.value] == rest[..size.value];
      if buf.value[size.value..] != CRLF {
        return None;
      }
      r := Some(Bulk(buf.value[..size.value]));
    }

    method ReadValue(maxArray: nat, depth: nat) returns (r: Option<Value>)
      modifies this
      ensures Take(old(unread), maxArray, old(remainingBulkBytes), depth)
           == if r.Some? then Read(r.value, unread, remainingBulkBytes) else Failed
      decreases |unread|, 0
    {
      hide TakeLine, Atoi, TakeBulk, TakeItems;
      if depth > MAX_DEPTH {
        return None;
      }
      var prefix := ReadByte();
      if prefix.None? {
        return None;
      }
      if prefix.value == PLUS {
        var line := ReadLine();
        if line.None? {
          return None;
        }
        return Some(Simple(line.value));
      }
      if prefix.value == MINUS {
        var line := ReadLine();
        if line.None? {
          return None;
        }
        return Some(Error(line.value));
      }
      if prefix.value == DOLLAR {
        r := ReadBulk();
        return;
      }
      if prefix.value == STAR {
        r := ReadArray(maxArray, depth);
        return;
      }
      r := None;
    }

    method ReadArray(maxArray: nat, depth: nat) returns (r: Option<Value>)
      modifies this
      ensures TakeArray(old(unread), maxArray, old(remainingBulkBytes), depth)
           == if r.Some? then Read(r.value, unread, remainingBulkBytes) else Failed
      decreases |unread|, 2
    {
      hide TakeLine, Atoi, TakeBulk, TakeItems;
      var line := ReadLine();
      if line.None? {
        return None;
      }
      var count := Atoi(line.value);
      if count.None? {
        return None;
      }
      if count.value < 0 {
        return Some(Nil);
      }
      if count.value > maxArray {
        return None;
      }
      var items := ReadItems(count.value, maxArray, depth);
      if items.None? {
        return None;
      }
      r := Some(Array(items.value));
    }

    /** The item loop of an array, one level deeper. */
    method ReadItems(count: nat, maxArray: nat, depth: nat) returns (r: Option<seq<Value>>)
      modifies this
      ensures TakeItems(old(unread), count, maxArray, old(remainingBulkBytes), depth)
           == if r.Some? then Items.ReadItems(r.value, unread, remainingBulkBytes) else NoItems
      decreases |unread|, 1
    {
      hide Take;
      var items: seq<Value> := [];
      ghost var start, budget := unread, remainingBulkBytes;
      for i := 0 to count
        invariant |unread| <= |start|
        invariant TakeItems(start, count, maxArray, budget, depth)
               == Prefixed(items, TakeItems(unread, count - i, maxArray, remainingBulkBytes, depth))
      {
        ghost var rest, left := unread, remainingBulkBytes;
        var item := ReadValue(maxArray, depth + 1);
        if item.None? {
          return None;
        }
        PrefixedNext(items, item.value, TakeItems(unread, count - i - 1, maxArray, remainingBulkBytes, depth));
        items := items + [item.value];
      }
      assert items + [] == items;
      r := Some(items);
    }

    /** A whole reply, with a fresh budget. */
    method ReadResponse(maxArrayLength: int) returns (r: Option<Value>)
      modifies this
      ensures Response(old(unread), maxArrayLength) == if r.Some? then Read(r.value, unread, remainingBulkBytes)
        else Failed
    {
      var limit := maxArrayLength;
      if limit <= 0 || limit > MAX_ARRAY {
        limit := MAX_ARRAY;
      }
      remainingBulkBytes := MAX_TOTAL_BULK;
      r := ReadValue(limit, 0);
    }
  }

  ghost function Prefixed(items: seq<Value>, r: Items): Items {
    match r
    case NoItems => NoItems
    case ReadItems(more, rest, budget) => Items.ReadItems(items + more, rest, budget)
  }

  lemma PrefixedNext(items: seq<Value>, item: Value, r: Items)
    ensures Prefixed(items + [item], r) == Prefixed(items, Prefixed([item], r))
  {
    if r.ReadItems? { assert items + [item] + r.items == items + ([item] + r.items); }
  }

  lemma Regrouped(line: Bytes, part: Bytes, rest: Bytes)
    ensures line + (part + rest) == line + part + rest && (LF !in line && LF !in part ==> LF !in line + part)
  {
  }

  lemma NothingBehind(line: Bytes, rest: Bytes)
    ensures rest == [] ==> line + rest == line
  {
  }

  lemma TooLong(all: Bytes, line: Bytes, part: Bytes, rest: Bytes, end: SliceEnd)
    requires all == line + (part + rest) && LF !in line && |line| + |part| > MAX_LINE
    requires end.Delimiter? ==> part != [] && LineEnd(part + rest) == |part| - 1
    requires !end.Delimiter? ==> LF !in part
    ensures TakeLine(all).NoLine?
  {
    forall k | 0 <= k < |line| + |part| - 1 ensures all[k] != LF {
      JoinedAt(line, part, rest, k);
      if k >= |line| && end.Delimiter? { assert (part + rest)[k - |line|] != LF; }
    }
  }

  lemma JoinedAt(line: Bytes, part: Bytes, rest: Bytes, k: nat)
    requires k < |line| + |part|
    ensures (line + (part + rest))[k] == if k < |line| then line[k] else part[k - |line|]
    ensures k >= |line| ==> (part + rest)[k - |line|] == part[k - |line|]
  {
  }

  lemma Ended(all: Bytes, line: Bytes, part: Bytes, rest: Bytes)
    requires all == line + (part + rest) && LF !in line && part != [] && LineEnd(part + rest) == |part| - 1
    requires |line + part| <= MAX_LINE
    ensures var whole := line + part;
      TakeLine(all) == if |whole| < 2 || whole[|whole| - 2..] != CRLF then NoLine else Line(whole[..|whole| - 2], rest)
  {
    hide TakeLine, LineEnd;
    var whole := line + part;
    assert all == whole + rest;
    forall k | 0 <= k < |whole| ensures whole[k] == LF <==> k == |whole| - 1 {
      JoinedAt(line, part, rest, k);
      if k >= |line| { FeedAt(part + rest, k - |line|); }
    }
    WholeLine(whole, rest);
  }

  lemma FeedAt(s: Bytes, k: nat)
    requires k <= LineEnd(s) < |s|
    ensures s[k] == LF <==> k == LineEnd(s)
  {
  }

  lemma WholeLine(whole: Bytes, rest: Bytes)
    requires whole != [] && |whole| <= MAX_LINE && forall k | 0 <= k < |whole| :: whole[k] == LF <==> k == |whole| - 1
    ensures TakeLine(whole + rest) ==
            if |whole| < 2 || whole[|whole| - 2..] != CRLF then NoLine else Line(whole[..|whole| - 2], rest)
  {
    var n := |whole|;
    var all := whole + rest;
    EndAt(all, n - 1);
    assert all[..n] == whole && all[n..] == rest;
    if n >= 2 { EndingAt(whole, rest); }
  }

  lemma EndingAt(whole: Bytes, rest: Bytes)
    requires |whole| >= 2
    ensures var all, n := whole + rest, |whole|;
      all[..n - 2] == whole[..n - 2] && all[n - 2..n] == whole[n - 2..] && [all[n - 2], all[n - 1]] == whole[n - 2..]
  {
  }

  lemma NoFeed(all: Bytes)
    requires LF !in all
    ensures TakeLine(all).NoLine?
  {
  }

  /** The command writer. */
  method WriteCommand(parts: seq<Bytes>) returns (written: Bytes)
    ensures written == CommandBytes(parts)
  {
    hide Itoa;
    written := [STAR] + Itoa(|parts|) + CRLF;
    ghost var head := written;
    assert parts[0..] == parts;
    for i := 0 to |parts|
      invariant written + AllBulks(parts[i..]) == head + AllBulks(parts)
    {
      assert parts[i..][1..] == parts[i + 1..];
      ghost var before := written;
      written := written + ([DOLLAR] + Itoa(|parts[i]|) + CRLF + parts[i] + CRLF);
      assert before + (BulkBytes(parts[i]) + AllBulks(parts[i + 1..])) == written + AllBulks(parts[i + 1..]);
    }
  }
}
