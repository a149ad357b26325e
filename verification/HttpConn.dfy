/** Pipelined parsing (runtime/march_http_parse_simd.c) and the read loop of a connection
    (runtime/march_http.c). */
module HttpConn {
  import opened HttpFind
  import opened HttpParse
  import opened Wrappers

  const PIPELINE_BATCH := 32
  const CONN_BUF_SIZE := 65536
  const MAX_REQ_SIZE := 33554432

  /** A request with its body, as handed to the application. */
  datatype Served = Served(req: Request, body: seq<Byte>)

  datatype Next = Next(served: Served, used: nat)

  /** The complete request, body included, at the front of s. */
  function NextRequest(s: seq<Byte>): (r: Option<Next>)
    ensures r.Some? ==> 0 < r.value.used <= |s|
  {
    match ParseRequest(s)
    case Done(req, n) =>
      var total := n + ContentLength(req.headers);
      if total > |s| then None else Some(Next(Served(req, s[n..total]), total))
    case _ => None
  }

  /** A complete request is the same request whatever follows, and needs no byte past its end. */
  lemma NextLocal(s: seq<Byte>, x: seq<Byte>)
    ensures NextRequest(s).Some? ==> NextRequest(s + x) == NextRequest(s)
    ensures NextRequest(s + x).Some? && NextRequest(s + x).value.used <= |s| ==> NextRequest(s) == NextRequest(s + x)
  {
    hide ParseRequest, ContentLength;
    if s == [] {
      assert s + x == x;
      assert ParseRequest(s) == Malformed by { EmptyMalformed(); }
    } else {
      RequestSettled(s, x);
      var p, q := ParseRequest(s), ParseRequest(s + x);
      if p.Done? {
        var total := p.used + ContentLength(p.value.headers);
        if total <= |s| { assert (s + x)[p.used..total] == s[p.used..total]; }
      }
    }
  }

  lemma EmptyMalformed()
    ensures ParseRequest([]) == Malformed
  {
  }

  datatype Batch = Batch(reqs: seq<Served>, used: nat)

  /** Up to max complete requests from the front of s. */
  function Pipeline(s: seq<Byte>, max: nat): (r: Batch)
    ensures r.used <= |s| && |r.reqs| <= max && (r.reqs == [] <==> max == 0 || NextRequest(s).None?)
  {
    if max == 0 || NextRequest(s).None? then Batch([], 0)
    else
      var n := NextRequest(s).value;
      var rest := Pipeline(s[n.used..], max - 1);
      Batch([n.served] + rest.reqs, n.used + rest.used)
  }

  lemma Cons(x: Served, y: seq<Served>, z: seq<Served>)
    ensures y + ([x] + z) == y + [x] + z
  {
  }

  /** march_http_parse_pipelined. */
  method ParsePipelined(buf: seq<Byte>, max: nat, sse42: bool) returns (r: Batch)
    ensures r == Pipeline(buf, max)
  {
    hide NextRequest, Pipeline;
    var consumed: nat := 0;
    var reqs: seq<Served> := [];
    ghost var want := Pipeline(buf, max);
    assert buf[0..] == buf && [] + want.reqs == want.reqs;
    while |reqs| < max && consumed < |buf|
      invariant consumed <= |buf| && |reqs| <= max
      invariant var p := Pipeline(buf[consumed..], max - |reqs|); want == Batch(reqs + p.reqs, consumed + p.used)
      decreases |buf| - consumed
    {
      var cur := buf[consumed..];
      PipelineStep(cur, max - |reqs|);
      var next := TakeRequest(cur, sse42);
      if next.None? {
        assert reqs + [] == reqs;
        return Batch(reqs, consumed);
      }
      var n := next.value;
      assert cur[n.used..] == buf[consumed + n.used..];
      Cons(n.served, reqs, Pipeline(cur[n.used..], max - |reqs| - 1).reqs);
      consumed := consumed + n.used;
      reqs := reqs + [n.served];
    }
    assert reqs + [] == reqs;
    if consumed == |buf| {
      assert buf[consumed..] == [];
      NoneInNothing();
    }
    PipelineStep(buf[consumed..], max - |reqs|);
    r := Batch(reqs, consumed);
  }

  lemma PipelineStep(s: seq<Byte>, max: nat)
    ensures max == 0 || NextRequest(s).None? ==> Pipeline(s, max) == Batch([], 0)
    ensures max > 0 && NextRequest(s).Some? ==>
              var n := NextRequest(s).value;
              var rest := Pipeline(s[n.used..], max - 1);
              Pipeline(s, max) == Batch([n.served] + rest.reqs, n.used + rest.used)
  {
    hide NextRequest;
  }

  /** One turn of the loop: parse, then attach the body if all of it is there. */
  method TakeRequest(cur: seq<Byte>, sse42: bool) returns (r: Option<Next>)
    ensures r == NextRequest(cur)
  {
    hide ParseRequest, ContentLength;
    var result := Parse(cur, sse42);
    if !result.Done? { return None; }
    var bodyLen := BodyLength(result.value.headers);
    var total := result.used + bodyLen;
    if total > |cur| { return None; }
    return Some(Next(Served(result.value, cur[result.used..total]), total));
  }

  // ----- what a connection serves, as a function of the whole byte stream

  /** How a connection ends: a response asked to close, the request did not fit, or the peer did. */
  datatype End = Stopped | TooLarge | Closed

  datatype Session = Session(served: seq<Served>, end: End)

  /** Requests one after another until one is answered with a close, none is complete, or one does
      not fit the largest buffer.  stops tells, from everything served so far, whether the last
      answer closes the connection. */
  function Serve(s: seq<Byte>, served: seq<Served>, stops: seq<Served> -> bool): Session
    decreases |s|
  {
    var n := NextRequest(s);
    if n.None? || n.value.used > MAX_REQ_SIZE then
      Session(served, if |s| >= MAX_REQ_SIZE then TooLarge else Closed)
    else if stops(served + [n.value.served]) then Session(served + [n.value.served], Stopped)
    else Serve(s[n.value.used..], served + [n.value.served], stops)
  }

  /** Answering a batch in order, up to the first close. */
  function Answer(served: seq<Served>, reqs: seq<Served>, stops: seq<Served> -> bool): (r: (seq<Served>, bool))
    decreases |reqs|
  {
    if reqs == [] then (served, true)
    else if stops(served + [reqs[0]]) then (served + [reqs[0]], false)
    else Answer(served + [reqs[0]], reqs[1..], stops)
  }

  /** Serving a batch out of a buffer is a step of serving the whole stream. */
  lemma {:induction false} BatchIsServe(b: seq<Byte>, u: seq<Byte>, max: nat, served: seq<Served>,
                                        stops: seq<Served> -> bool)
    requires |b| <= MAX_REQ_SIZE
    ensures var p := Pipeline(b, max);
            var (now, running) := Answer(served, p.reqs, stops);
            if running then Serve(b + u, served, stops) == Serve(b[p.used..] + u, now, stops)
            else Serve(b + u, served, stops) == Session(now, Stopped)
    decreases max
  {
    hide NextRequest;
    if max == 0 || NextRequest(b).None? {
      assert b[0..] == b;
    } else {
      NextLocal(b, u);
      var n := NextRequest(b).value;
      var rest := Pipeline(b[n.used..], max - 1);
      assert (b + u)[n.used..] == b[n.used..] + u;
      var p := Pipeline(b, max);
      assert p.reqs[0] == n.served && p.reqs[1..] == rest.reqs;
      assert b[n.used..][rest.used..] == b[p.used..];
      BatchIsServe(b[n.used..], u, max - 1, served + [n.served], stops);
    }
  }

  /** With a full buffer of the largest size and no request in it, serving is over. */
  lemma FullIsTooLarge(b: seq<Byte>, u: seq<Byte>, served: seq<Served>, stops: seq<Served> -> bool)
    requires |b| == MAX_REQ_SIZE && NextRequest(b).None?
    ensures Serve(b + u, served, stops) == Session(served, TooLarge)
  {
    NextLocal(b, u);
  }

  /** Receiving more never takes back a request already served, nor changes it. */
  lemma {:induction false} MoreBytesServeMore(s: seq<Byte>, x: seq<Byte>, served: seq<Served>,
                                        stops: seq<Served> -> bool)
    ensures Serve(s, served, stops).served <= Serve(s + x, served, stops).served
    ensures Serve(s, served, stops).end == Stopped ==> Serve(s + x, served, stops) == Serve(s, served, stops)
    decreases |s|
  {
    hide NextRequest;
    NextLocal(s, x);
    var n := NextRequest(s);
    if n.None? || n.value.used > MAX_REQ_SIZE {
      ServedKept(s + x, served, stops);
    } else if !stops(served + [n.value.served]) {
      assert (s + x)[n.value.used..] == s[n.value.used..] + x;
      MoreBytesServeMore(s[n.value.used..], x, served + [n.value.served], stops);
    }
  }

  lemma {:induction false} ServedKept(s: seq<Byte>, served: seq<Served>, stops: seq<Served> -> bool)
    ensures served <= Serve(s, served, stops).served
    decreases |s|
  {
    hide NextRequest;
    var n := NextRequest(s);
    if n.Some? && n.value.used <= MAX_REQ_SIZE && !stops(served + [n.value.served]) {
      ServedKept(s[n.value.used..], served + [n.value.served], stops);
    }
  }

  // ----- the connection's buffer

  class Buffer {
    var buf: array<Byte>
    var len: nat

    ghost predicate Valid()
      reads this
    {
      len <= buf.Length <= MAX_REQ_SIZE && buf.Length > 0
    }

    ghost function Contents(): seq<Byte>
      requires Valid()
      reads this, buf
    {
      buf[..len]
    }

    constructor ()
      ensures Valid() && Contents() == [] && fresh(buf)
    {
      buf := new Byte[CONN_BUF_SIZE];
      len := 0;
    }

    /** Move the unconsumed bytes to the front. */
    method Shift(consumed: nat)
      requires Valid() && consumed <= len
      modifies this, buf
      ensures Valid() && buf == old(buf) && Contents() == old(Contents())[consumed..]
    {
      if 0 < consumed < len {
        forall i | 0 <= i < len - consumed {
          buf[i] := buf[i + consumed];
        }
        len := len - consumed;
      } else if consumed >= len {
        len := 0;
      }
    }

    /** Double the capacity, up to the largest size. */
    method Grow()
      requires Valid() && buf.Length < MAX_REQ_SIZE
      modifies this
      ensures Valid() && fresh(buf) && Contents() == old(Contents()) && len < buf.Length
    {
      var newCap := buf.Length * 2;
      if newCap > MAX_REQ_SIZE { newCap := MAX_REQ_SIZE; }
      var nbuf := new Byte[newCap];
      forall i | 0 <= i < len {
        nbuf[i] := buf[i];
      }
      buf := nbuf;
    }

    /** Grow a full buffer; a full one of the largest size is the refusal with status 413. */
    method MakeRoom() returns (full: bool)
      requires Valid()
      modifies this
      ensures Valid() && Contents() == old(Contents()) && (buf == old(buf) || fresh(buf))
      ensures full <==> |Contents()| == MAX_REQ_SIZE
      ensures !full ==> len < buf.Length
    {
      full := false;
      if buf.Length - len == 0 {
        if buf.Length >= MAX_REQ_SIZE { return true; }
        Grow();
      }
    }

    /** recv: the bytes that arrived, after those already there. */
    method Append(chunk: seq<Byte>)
      requires Valid() && len + |chunk| <= buf.Length
      modifies this, buf
      ensures Valid() && buf == old(buf) && Contents() == old(Contents()) + chunk
    {
      forall i | 0 <= i < |chunk| {
        buf[len + i] := chunk[i];
      }
      len := len + |chunk|;
    }
  }

  /** The request loop over one batch. */
  method AnswerBatch(reqs: seq<Served>, before: seq<Served>, stops: seq<Served> -> bool)
    returns (served: seq<Served>, running: bool)
    ensures (served, running) == Answer(before, reqs, stops)
  {
    served, running := before, true;
    assert reqs[0..] == reqs;
    for i := 0 to |reqs|
      invariant Answer(served, reqs[i..], stops) == Answer(before, reqs, stops) && running
    {
      assert reqs[i..][1..] == reqs[i + 1..];
      served := served + [reqs[i]];
      if stops(served) {
        return served, false;
      }
    }
  }

  /** Step 1 to 3 of the loop: parse and answer until nothing complete is left in the buffer. */
  method Drain(b: Buffer, before: seq<Served>, stops: seq<Served> -> bool, sse42: bool, ghost u: seq<Byte>)
    returns (served: seq<Served>, running: bool)
    requires b.Valid()
    modifies b, b.buf
    ensures b.Valid() && b.buf == old(b.buf)
    ensures running ==> Serve(b.Contents() + u, served, stops) == Serve(old(b.Contents()) + u, before, stops)
    ensures running ==> NextRequest(b.Contents()).None?
    ensures !running ==> Serve(old(b.Contents()) + u, before, stops) == Session(served, Stopped)
  {
    hide Serve, NextRequest, Answer;
    served, running := before, true;
    ghost var want := Serve(b.Contents() + u, before, stops);
    while b.len > 0
      invariant b.Valid() && b.buf == old(b.buf) && running
      invariant Serve(b.Contents() + u, served, stops) == want
      decreases b.len
    {
      var batch := ParsePipelined(b.buf[..b.len], PIPELINE_BATCH, sse42);
      if batch.reqs == [] { return; }
      BatchIsServe(b.Contents(), u, PIPELINE_BATCH, served, stops);
      PipelineUses(b.Contents(), PIPELINE_BATCH);
      served, running := AnswerBatch(batch.reqs, served, stops);
      b.Shift(batch.used);
      if !running { return; }
    }
    assert b.Contents() == [];
    NoneInNothing();
  }

  lemma PipelineUses(s: seq<Byte>, max: nat)
    ensures Pipeline(s, max).reqs != [] ==> Pipeline(s, max).used > 0
  {
  }

  lemma NoneInNothing()
    ensures NextRequest([]).None?
  {
  }

  /** The connection loop.  stream is every byte the peer sends before it closes; the k-th recv has
      sizes(k) bytes ready, and takes no more than there is room for. */
  method Connection(stream: seq<Byte>, sizes: nat -> nat, stops: seq<Served> -> bool, sse42: bool) returns (r: Session)
    requires forall k :: sizes(k) > 0
    ensures r == Serve(stream, [], stops)
  {
    hide Serve, NextRequest;
    var b := new Buffer();
    var at: nat, k: nat := 0, 0;
    var served: seq<Served> := [];
    assert [] + stream[0..] == stream;
    while true
      invariant b.Valid() && fresh(b) && fresh(b.buf) && at <= |stream|
      invariant Serve(b.Contents() + stream[at..], served, stops) == Serve(stream, [], stops)
      decreases |stream| - at
    {
      var running;
      served, running := Drain(b, served, stops, sse42, stream[at..]);
      if !running { return Session(served, Stopped); }
      var full := b.MakeRoom();
      if full {
        FullIsTooLarge(b.Contents(), stream[at..], served, stops);
        return Session(served, TooLarge);
      }
      var n := Min(Min(b.buf.Length - b.len, sizes(k)), |stream| - at);
      k := k + 1;
      if n <= 0 {
        assert stream[at..] == [] && b.Contents() + [] == b.Contents();
        ServeNone(b.Contents(), served, stops);
        return Session(served, Closed);
      }
      Regroup(b.Contents(), stream, at, n);
      b.Append(stream[at..at + n]);
      at := at + n;
    }
  }

  lemma Regroup(b: seq<Byte>, stream: seq<Byte>, at: nat, n: nat)
    requires at + n <= |stream|
    ensures b + stream[at..] == b + stream[at..at + n] + stream[at + n..]
  {
  }

  function Min(a: int, b: int): int {
    if a < b then a else b
  }

  lemma ServeNone(b: seq<Byte>, served: seq<Served>, stops: seq<Served> -> bool)
    requires |b| < MAX_REQ_SIZE && NextRequest(b).None?
    ensures Serve(b, served, stops) == Session(served, Closed)
  {
  }
}
