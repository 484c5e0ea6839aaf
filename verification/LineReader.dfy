/** `lib/read_line_buf.c` against `lib/read_line.c`: the buffered reader and the reader of
    single characters, over a file descriptor whose reads return what they like. */
module LineReader {
  import opened InputLines

  const RL_MAX_BUF := 10
  const EINTR := 4
  const EINVAL := 22

  /** What a read() will do: return at most `k` characters, or fail. */
  datatype Outcome = Give(k: nat) | Fail(errno: int)

  /** The `ssize_t` results: a count, or -1 with `errno`. */
  datatype Count = Bytes(n: nat) | Error(errno: int)

  /** A reader carries on after a read that gave something, and one that `restarts` also after
      an interrupt. */
  predicate Smooth(plan: seq<Outcome>, restarts: bool) {
    forall o :: o in plan ==> o.Give? || (restarts && o.errno == EINTR)
  }

  predicate Later(was: seq<Outcome>, plan: seq<Outcome>) {
    |plan| <= |was| && plan == was[|was| - |plan|..]
  }

  /** The outcomes of the reads made so far. */
  function Used(was: seq<Outcome>, plan: seq<Outcome>): seq<Outcome>
    requires Later(was, plan)
  {
    was[..|was| - |plan|]
  }

  /** No read failed, or the last one did and its error is the result. */
  predicate Explains(used: seq<Outcome>, r: Count, restarts: bool) {
    match r
    case Bytes(_) => Smooth(used, restarts)
    case Error(errno) =>
      && used != [] && used[|used|-1] == Fail(errno) && !(restarts && errno == EINTR)
      && Smooth(used[..|used|-1], restarts)
  }

  predicate NoFailure(was: seq<Outcome>, plan: seq<Outcome>, restarts: bool) {
    Later(was, plan) && Smooth(Used(was, plan), restarts)
  }

  lemma UsedMore(was: seq<Outcome>, mid: seq<Outcome>, plan: seq<Outcome>, r: Count, restarts: bool)
    requires Later(was, mid) && Later(mid, plan)
    ensures Later(was, plan)
    ensures Smooth(Used(was, mid), restarts) && Explains(Used(mid, plan), r, restarts) ==>
              Explains(Used(was, plan), r, restarts)
    ensures Smooth(Used(was, mid), restarts) && |Used(mid, plan)| == 1 && Smooth(Used(mid, plan), restarts) ==>
              Smooth(Used(was, plan), restarts)
  {
    assert Used(was, plan) == Used(was, mid) + Used(mid, plan);
    if r.Error? && Used(mid, plan) != [] {
      var n := |Used(mid, plan)| - 1;
      assert Used(was, plan)[..|Used(was, plan)|-1] == Used(was, mid) + Used(mid, plan)[..n];
    }
  }

  /** A plan without failures stays so, and explains none. */
  lemma SmoothStays(was: seq<Outcome>, plan: seq<Outcome>, r: Count, restarts: bool)
    requires Smooth(was, restarts) && Later(was, plan) && Explains(Used(was, plan), r, restarts)
    ensures Smooth(plan, restarts) && r.Bytes?
  {
    forall o | o in plan ensures o in was {
    }
    var used := Used(was, plan);
    assert used != [] ==> used[|used|-1] in was;
  }

  /** A failed call has taken part of a line and lost it. */
  ghost predicate Abandoned(stream: seq<char>, left: seq<char>) {
    exists k :: 0 <= k <= |stream| && '\n' !in stream[..k] && left == stream[k..]
  }

  function Least(a: nat, b: nat): nat { if a <= b then a else b }

  /** `rest` is what is still to be read, `plan` the outcomes of the next reads; every way
      to cut the stream into reads is some `plan`. */
  class Descriptor {
    var rest: seq<char>
    var plan: seq<Outcome>

    constructor (stream: seq<char>, outcomes: seq<Outcome>)
      ensures rest == stream && plan == outcomes
    {
      rest, plan := stream, outcomes;
    }

    /** read(): at least one character unless at the end of the stream. */
    method Read(dst: array<char>, size: nat) returns (r: Count)
      requires 0 < size <= dst.Length
      modifies this, dst
      ensures Later(old(plan), plan)
      ensures Explains(Used(old(plan), plan), r, false) && |Used(old(plan), plan)| <= 1
      ensures r.Error? ==> rest == old(rest) && dst[..] == old(dst[..])
      ensures r.Bytes? ==> r.n <= size && r.n <= |old(rest)| && (r.n == 0 <==> old(rest) == [])
      ensures r.Bytes? ==> rest == old(rest)[r.n..] && dst[..r.n] == old(rest)[..r.n]
      ensures r.Bytes? ==> dst[r.n..] == old(dst[r.n..])
    {
      var k := size;
      if plan != [] {
        var o := plan[0];
        plan := plan[1..];
        if o.Fail? { return Error(o.errno); }
        k := if o.k == 0 then 1 else Least(o.k, size);
      }
      k := Least(k, |rest|);
      forall i | 0 <= i < k { dst[i] := rest[i]; }
      rest := rest[k..];
      return Bytes(k);
    }
  }

  /** The characters a line reader has taken so far are no line yet. */
  predicate Scanning(stream: seq<char>, k: nat, dst: seq<char>, was: seq<char>, cnt: nat, room: nat) {
    && k <= |stream| && '\n' !in stream[..k]
    && cnt == Least(room, k) && |dst| == |was| && cnt <= |dst|
    && dst[..cnt] == stream[..cnt] && dst[cnt..] == was[cnt..]
  }

  /** A reader with room for `room` characters took the line and put its start in `dst`. */
  predicate Took(stream: seq<char>, left: seq<char>, dst: seq<char>, was: seq<char>, cnt: nat, room: nat) {
    var line := NextLine(stream);
    && line <= stream && left == stream[|line|..]
    && cnt == |Truncate(line, room)| && |dst| == |was| && cnt <= |dst|
    && dst[..cnt] == Truncate(line, room) && dst[cnt..] == was[cnt..]
  }

  function Put(dst: seq<char>, cnt: nat, room: nat, c: char): seq<char> {
    if cnt < room && cnt < |dst| then dst[cnt := c] else dst
  }

  /** One more character is stored if there is room. */
  lemma ScanStep(stream: seq<char>, k: nat, dst: seq<char>, was: seq<char>, cnt: nat, room: nat, c: char)
    requires Scanning(stream, k, dst, was, cnt, room) && k < |stream| && stream[k] == c && room <= |dst|
    ensures var dst' := Put(dst, cnt, room, c);
            var cnt' := Least(room, k + 1);
            && (c != '\n' ==> Scanning(stream, k + 1, dst', was, cnt', room))
            && (c == '\n' ==> Took(stream, stream[k + 1..], dst', was, cnt', room))
  {
    var dst' := Put(dst, cnt, room, c);
    var cnt' := Least(room, k + 1);
    assert stream[..k + 1] == stream[..k] + [c];
    assert dst'[..cnt'] == stream[..cnt'] by {
      if cnt < room { assert dst'[..cnt'] == dst[..cnt] + [c]; }
    }
    assert dst'[cnt'..] == was[cnt'..] by {
      if cnt < room { assert dst'[cnt'..] == dst[cnt..][1..] && was[cnt'..] == was[cnt..][1..]; }
    }
    if c == '\n' {
      LineEnds(stream, k);
      assert stream[..k + 1][..cnt'] == stream[..cnt'];
    }
  }

  /** Stores a character if there is room for it. */
  method Store(dst: array<char>, room: nat, cnt: nat, c: char, ghost stream: seq<char>, ghost k: nat,
               ghost was: seq<char>) returns (cnt': nat)
    requires Scanning(stream, k, dst[..], was, cnt, room) && k < |stream| && stream[k] == c && room <= dst.Length
    modifies dst
    ensures c != '\n' ==> Scanning(stream, k + 1, dst[..], was, cnt', room)
    ensures c == '\n' ==> Took(stream, stream[k + 1..], dst[..], was, cnt', room)
  {
    ScanStep(stream, k, dst[..], was, cnt, room, c);
    cnt' := cnt;
    if cnt < room {
      dst[cnt] := c;
      cnt' := cnt + 1;
    }
  }

  lemma ScanEnd(stream: seq<char>, dst: seq<char>, was: seq<char>, cnt: nat, room: nat)
    requires Scanning(stream, |stream|, dst, was, cnt, room)
    ensures Took(stream, [], dst, was, cnt, room)
  {
    LineEnds(stream, |stream|);
  }

  /** The same for readLine() with a buffer of `n`: the characters are followed by a NUL,
      but nothing is written when the stream ends with none stored. */
  predicate TookString(stream: seq<char>, left: seq<char>, dst: seq<char>, was: seq<char>, cnt: nat, n: nat) {
    var line := NextLine(stream);
    && cnt < n && cnt < |dst| && |dst| == |was|
    && if line == [] || (n == 1 && line[|line|-1] != '\n') then Took(stream, left, dst, was, cnt, n - 1)
       else dst[cnt] == '\0' && Took(stream, left, dst[cnt := was[cnt]], was, cnt, n - 1)
  }

  lemma TookToEnd(stream: seq<char>, dst: seq<char>, was: seq<char>, cnt: nat, n: nat)
    requires 0 < n <= |dst| && Scanning(stream, |stream|, dst, was, cnt, n - 1)
    ensures TookString(stream, [], if cnt == 0 then dst else dst[cnt := '\0'], was, cnt, n)
  {
    ScanEnd(stream, dst, was, cnt, n - 1);
    LineEnds(stream, |stream|);
    assert dst[cnt := '\0'][cnt := was[cnt]] == dst[cnt := was[cnt]];
    assert dst[cnt..][0] == was[cnt..][0];
  }

  lemma TookToNewline(stream: seq<char>, k: nat, dst: seq<char>, was: seq<char>, cnt: nat, n: nat)
    requires k < |stream| && '\n' !in stream[..k] && stream[k] == '\n'
    requires 0 < n <= |dst| && Took(stream, stream[k + 1..], dst, was, cnt, n - 1)
    ensures cnt < n && TookString(stream, stream[k + 1..], dst[cnt := '\0'], was, cnt, n)
  {
    LineEnds(stream, k);
    assert dst[cnt := '\0'][cnt := was[cnt]] == dst[cnt := was[cnt]];
    assert dst[cnt..][0] == was[cnt..][0];
  }

  class ReadLineBuf {
    var fd: Descriptor
    const buf: array<char>
    var next: int
    var len: int

    ghost predicate Valid()
      reads this
    {
      buf.Length == RL_MAX_BUF && 0 <= next && -1 <= len <= RL_MAX_BUF
    }

    /** What is still to be handed out: first from the buffer, then from the file. */
    ghost function Pending(): seq<char>
      requires Valid()
      reads this, buf, fd
    {
      (if next < len then buf[next..len] else []) + fd.rest
    }

    constructor (file: Descriptor)
      ensures Valid() && fd == file && fresh(buf) && Pending() == file.rest
    {
      fd, next, len := file, 0, 0;
      buf := new char[RL_MAX_BUF];
    }

    /** Reads on when the buffer is used up; no read since the plan was `was` has failed. */
    method Refill(ghost was: seq<Outcome>) returns (got: Count)
      requires Valid() && next >= len && NoFailure(was, fd.plan, false)
      modifies this`next, this`len, buf, fd
      ensures Valid() && fd == old(fd) && Pending() == old(Pending())
      ensures Later(was, fd.plan) && Explains(Used(was, fd.plan), got, false)
      ensures got.Error? ==> len == -1
      ensures got.Error? || got.n == 0 ==> fd.rest == old(fd.rest) && next == old(next)
      ensures got == Bytes(0) ==> Pending() == []
      ensures got.Bytes? && got.n > 0 ==> next < len
    {
      ghost var plan := fd.plan;
      got := fd.Read(buf, RL_MAX_BUF);
      UsedMore(was, plan, fd.plan, got, false);
      if got.Error? {
        len := -1;
      } else {
        len := got.n;
        if len != 0 { next := 0; }
      }
    }

    /** Takes a character from the buffer and stores it in `dst` if there is room. */
    method Fetch(dst: array<char>, n: nat, cnt: nat, ghost stream: seq<char>, ghost k: nat, ghost was: seq<char>)
      returns (c: char, cnt': nat)
      requires Valid() && next < len && dst != buf && n <= dst.Length
      requires Scanning(stream, k, dst[..], was, cnt, n) && Pending() == stream[k..]
      modifies this`next, dst
      ensures Valid() && Pending() == stream[k + 1..] && k < |stream|
      ensures next == old(next) + 1
      ensures c != '\n' ==> Scanning(stream, k + 1, dst[..], was, cnt', n)
      ensures c == '\n' ==> Took(stream, Pending(), dst[..], was, cnt', n)
    {
      c := buf[next];
      assert c == Pending()[0];
      next := next + 1;
      assert Pending() == stream[k..][1..];
      cnt' := Store(dst, n, cnt, c, stream, k, was);
    }

    /** readLineBuf(): takes a line and stores at most `n` characters of it. It fails exactly
        when a read() does, and then loses what it had taken of the line; it makes
        no read of which it uses nothing. */
    method ReadLine(dst: array?<char>, n: nat) returns (r: Count)
      requires Valid() && dst != buf && (dst != null ==> n <= dst.Length)
      modifies this`next, this`len, buf, fd, dst
      ensures Valid() && fd == old(fd)
      ensures n == 0 || dst == null ==>
                r == Error(EINVAL) && Pending() == old(Pending()) && fd.plan == old(fd.plan)
      ensures n == 0 && dst != null ==> dst[..] == old(dst[..])
      ensures n > 0 && dst != null && r.Bytes? ==>
                Took(old(Pending()), Pending(), dst[..], old(dst[..]), r.n, n)
      ensures n > 0 && dst != null && r.Error? ==>
                Abandoned(old(Pending()), Pending())
      ensures Later(old(fd.plan), fd.plan)
      ensures n > 0 && dst != null ==> Explains(Used(old(fd.plan), fd.plan), r, false)
      ensures n > 0 && dst != null && fd.rest != old(fd.rest) ==> next > 0
    {
      if n == 0 || dst == null {
        return Error(EINVAL);
      }
      ghost var stream, was, plan := Pending(), dst[..], fd.plan;
      ghost var k := 0;
      var cnt := 0;
      while true
        invariant Valid() && fd == old(fd)
        invariant Scanning(stream, k, dst[..], was, cnt, n) && Pending() == stream[k..]
        invariant NoFailure(plan, fd.plan, false)
        invariant fd.rest == old(fd.rest) || next > 0
        decreases |stream| - k
      {
        if next >= len {
          var got := Refill(plan);
          if got.Error? {
            return got;
          }
          if got.n == 0 {
            ScanEnd(stream, dst[..], was, cnt, n);
            break;
          }
        }
        var c;
        c, cnt := Fetch(dst, n, cnt, stream, k, was);
        k := k + 1;
        if c == '\n' {
          break;
        }
      }
      return Bytes(cnt);
    }
  }

  /** readLine(): one character a read, starting again when interrupted; stores at most
      `n - 1` characters and a terminating NUL, except that nothing is written if the stream
      ends with none stored. */
  method ReadLine(fd: Descriptor, buffer: array?<char>, n: nat) returns (r: Count)
    requires buffer != null ==> n <= buffer.Length
    modifies fd, buffer
    ensures Later(old(fd.plan), fd.plan)
    ensures n == 0 || buffer == null ==> r == Error(EINVAL) && fd.rest == old(fd.rest)
    ensures n == 0 && buffer != null ==> buffer[..] == old(buffer[..])
    ensures n > 0 && buffer != null && r.Error? ==>
              Abandoned(old(fd.rest), fd.rest)
    ensures n > 0 && buffer != null ==> Explains(Used(old(fd.plan), fd.plan), r, true)
    ensures n > 0 && buffer != null && r.Bytes? ==>
              TookString(old(fd.rest), fd.rest, buffer[..], old(buffer[..]), r.n, n)
  {
    if n == 0 || buffer == null {
      return Error(EINVAL);
    }
    ghost var stream, was, plan := fd.rest, buffer[..], fd.plan;
    ghost var k: nat := 0;
    var totRead: nat := 0;
    var ch := new char[1];
    while true
      invariant Scanning(stream, k, buffer[..], was, totRead, n - 1)
      invariant fd.rest == stream[k..]
      invariant NoFailure(plan, fd.plan, true)
      decreases |fd.rest| + |fd.plan|
    {
      ghost var mid := fd.plan;
      var numRead := fd.Read(ch, 1);
      UsedMore(plan, mid, fd.plan, numRead, true);
      if numRead.Error? {
        if numRead.errno == EINTR {
          continue;
        } else {
          return numRead;
        }
      } else if numRead.n == 0 {
        TookToEnd(stream, buffer[..], was, totRead, n);
        if totRead == 0 {
          return Bytes(0);
        } else {
          break;
        }
      } else {
        assert ch[..1][0] == stream[k..][0];
        totRead := Store(buffer, n - 1, totRead, ch[0], stream, k, was);
        k := k + 1;
        if ch[0] == '\n' {
          TookToNewline(stream, k - 1, buffer[..], was, totRead, n);
          break;
        }
      }
    }
    buffer[totRead] := '\0';
    return Bytes(totRead);
  }

  /** One call of either reader: what it handed out and what it left. */
  datatype Call = Call(stream: seq<char>, left: seq<char>, out: seq<char>)

  predicate ByReadLineBuf(c: Call, n: nat, dst: seq<char>, was: seq<char>, cnt: nat) {
    Took(c.stream, c.left, dst, was, cnt, n) && c.out == dst[..cnt]
  }

  predicate ByReadLine(c: Call, n: nat, dst: seq<char>, was: seq<char>, cnt: nat) {
    TookString(c.stream, c.left, dst, was, cnt, n) && c.out == dst[..cnt]
  }

  /** A successful call of readLineBuf() with size `n`, or of readLine() with `n + 1`. */
  ghost predicate Served(c: Call, n: nat) {
    exists dst, was, cnt :: ByReadLineBuf(c, n, dst, was, cnt) || ByReadLine(c, n + 1, dst, was, cnt)
  }

  /** The two are indistinguishable by what they hand out and leave. */
  lemma ServedIs(c: Call, n: nat)
    requires Served(c, n)
    ensures c.out == Truncate(NextLine(c.stream), n)
    ensures NextLine(c.stream) <= c.stream && c.left == c.stream[|NextLine(c.stream)|..]
  {
    var dst, was, cnt :| ByReadLineBuf(c, n, dst, was, cnt) || ByReadLine(c, n + 1, dst, was, cnt);
    if ByReadLine(c, n + 1, dst, was, cnt) {
      assert dst[..cnt] == dst[cnt := was[cnt]][..cnt];
    }
  }

  /** Successive calls, of one reader or the other in any mixture and with any reads behind
      them, hand out the lines of the stream in turn, each cut to `n`, and then nothing. */
  lemma {:induction false} CallsServeLines(calls: seq<Call>, n: nat, k: nat)
    requires k < |calls| && forall i :: 0 <= i < |calls| ==> Served(calls[i], n)
    requires forall i :: 0 <= i < |calls| - 1 ==> calls[i].left == calls[i + 1].stream
    ensures calls[k].out == Handed(calls[0].stream, n, k)
    ensures var lines := LinesOf(calls[0].stream);
            calls[k].out == if k < |lines| then Truncate(lines[k], n) else []
  {
    ServedIs(calls[0], n);
    if k > 0 {
      assert calls[0].left == calls[1].stream;
      CallsServeLines(calls[1..], n, k - 1);
    }
    CallsHandOutLines(calls[0].stream, n, k);
  }

  /** What is left of the stream after `k` lines. */
  function LeftAfter(stream: seq<char>, k: nat): seq<char> {
    if k == 0 then stream
    else
      var left := LeftAfter(stream, k - 1);
      NextLineIsPrefix(left);
      left[|NextLine(left)|..]
  }

  lemma {:induction false} LeftAfterNext(stream: seq<char>, rest: seq<char>, k: nat)
    requires k > 0 && rest == LeftAfter(stream, 1)
    ensures LeftAfter(rest, k - 1) == LeftAfter(stream, k)
  {
    if k > 1 { LeftAfterNext(stream, rest, k - 1); }
  }

  lemma {:induction false} HandedIsNext(stream: seq<char>, n: nat, k: nat)
    ensures Handed(stream, n, k) == Truncate(NextLine(LeftAfter(stream, k)), n)
    decreases k
  {
    if k > 0 {
      var rest := LeftAfter(stream, 1);
      HandedIsNext(rest, n, k - 1);
      LeftAfterNext(stream, rest, k);
    }
  }

  function HandedSoFar(stream: seq<char>, n: nat, k: nat): (outs: seq<seq<char>>)
    ensures |outs| == k
  {
    if k == 0 then [] else HandedSoFar(stream, n, k - 1) + [Handed(stream, n, k - 1)]
  }

  lemma {:induction false} HandedAreLines(stream: seq<char>, n: nat, count: nat)
    ensures var lines, outs := LinesOf(stream), HandedSoFar(stream, n, count);
            forall k :: 0 <= k < count ==> outs[k] == if k < |lines| then Truncate(lines[k], n) else []
  {
    if count > 0 {
      var lines, outs := LinesOf(stream), HandedSoFar(stream, n, count);
      HandedAreLines(stream, n, count - 1);
      CallsHandOutLines(stream, n, count - 1);
      forall k | 0 <= k < count ensures outs[k] == if k < |lines| then Truncate(lines[k], n) else [] {
        if k < count - 1 { assert outs[k] == HandedSoFar(stream, n, count - 1)[k]; }
      }
    }
  }

  /** One more line of the stream. */
  method ReadNext(rlbuf: ReadLineBuf, dst: array<char>, n: nat, ghost stream: seq<char>, ghost k: nat)
    returns (out: seq<char>)
    requires rlbuf.Valid() && 0 < n <= dst.Length && dst != rlbuf.buf && Smooth(rlbuf.fd.plan, false)
    requires rlbuf.Pending() == LeftAfter(stream, k)
    modifies rlbuf`next, rlbuf`len, rlbuf.buf, rlbuf.fd, dst
    ensures rlbuf.Valid() && rlbuf.fd == old(rlbuf.fd) && Smooth(rlbuf.fd.plan, false)
    ensures out == Handed(stream, n, k) && rlbuf.Pending() == LeftAfter(stream, k + 1)
  {
    ghost var plan := rlbuf.fd.plan;
    var r := rlbuf.ReadLine(dst, n);
    SmoothStays(plan, rlbuf.fd.plan, r, false);
    HandedIsNext(stream, n, k);
    out := dst[..r.n];
  }

  /** A caller that reads `count` lines through a buffer of `n` characters, over reads that do
      not fail: it gets the lines of the stream in turn, each cut to `n`, and then nothing. */
  method ReadLines(rlbuf: ReadLineBuf, n: nat, count: nat) returns (outs: seq<seq<char>>)
    requires rlbuf.Valid() && n > 0 && Smooth(rlbuf.fd.plan, false)
    modifies rlbuf`next, rlbuf`len, rlbuf.buf, rlbuf.fd
    ensures rlbuf.Valid() && |outs| == count
    ensures var lines := LinesOf(old(rlbuf.Pending()));
            forall k :: 0 <= k < count ==> outs[k] == if k < |lines| then Truncate(lines[k], n) else []
  {
    ghost var stream, fd := rlbuf.Pending(), rlbuf.fd;
    var dst := new char[n];
    outs := [];
    var k: nat := 0;
    while k < count
      invariant rlbuf.Valid() && rlbuf.fd == fd && Smooth(fd.plan, false) && k <= count
      invariant rlbuf.Pending() == LeftAfter(stream, k) && outs == HandedSoFar(stream, n, k)
    {
      var out := ReadNext(rlbuf, dst, n, stream, k);
      outs := outs + [out];
      k := k + 1;
    }
    HandedAreLines(stream, n, count);
  }
}
