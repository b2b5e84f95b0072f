/** Partial writes and request framing: gr_api_client_send (api/gr_api_client_impl.h), send_response_with_fd,
    api_send and read_cb (main/api.c). */
module ApiTransmit {
  import opened Wire
  import opened ApiClient
  import opened Common

  /** What a sendmsg call does: take some bytes, find the socket full, or fail. */
  datatype Outcome = Took(n: nat) | Full | Failed

  function Flat(vec: seq<seq<Byte>>): seq<Byte>
  {
    if vec == [] then [] else vec[0] + Flat(vec[1..])
  }

  lemma {:induction false} FlatAppend(a: seq<seq<Byte>>, b: seq<seq<Byte>>)
    ensures Flat(a + b) == Flat(a) + Flat(b)
  {
    if a == [] {
      assert a + b == b;
    } else {
      assert (a + b)[1..] == a[1..] + b && (a + b)[0] == a[0];
      FlatAppend(a[1..], b);
      assert a[0] + (Flat(a[1..]) + Flat(b)) == (a[0] + Flat(a[1..])) + Flat(b);
    }
  }

  /** Skip the `sent` bytes that left: drop whole vectors, then shorten the next one. */
  method Advance(vec: seq<seq<Byte>>, sent: nat) returns (rest: seq<seq<Byte>>)
    requires sent <= |Flat(vec)| && Solid(vec)
    ensures Flat(rest) == Flat(vec)[sent..] && Solid(rest)
  {
    rest := vec;
    var n := sent;
    while 0 < n
      invariant 0 <= n <= |Flat(rest)| && n <= sent && Solid(rest)
      invariant Flat(rest)[n..] == Flat(vec)[sent..]
      decreases n
    {
      var first := rest[0];
      if |first| <= n {
        n := n - |first|;
        rest := rest[1..];
        assert (first + Flat(rest))[|first| + n..] == Flat(rest)[n..];
      } else {
        assert (first + Flat(rest[1..]))[n..] == first[n..] + Flat(rest[1..]);
        rest := [first[n..]] + rest[1..];
        n := 0;
      }
    }
  }

  /** No vector is empty. */
  predicate Solid(vec: seq<seq<Byte>>)
  {
    forall i | 0 <= i < |vec| :: vec[i] != []
  }

  lemma {:induction false} SolidFlat(vec: seq<seq<Byte>>)
    requires Solid(vec)
    ensures Flat(vec) == [] <==> vec == []
  {
  }

  datatype SendResult = Sent | Failure | Waiting

  /** gr_api_client_send, over any sequence of outcomes of its sendmsg calls. `out` is what reached the socket:
      all of header and payload when it succeeds, and a prefix of them otherwise. A full socket is an error only
      before the first byte; when the outcomes run out in the middle the call is still waiting. */
  method SendRequest(id: nat, reqType: nat, payload: seq<Byte>, outcomes: seq<Outcome>)
    returns (r: SendResult, out: seq<Byte>)
    requires id < WORD_LIMIT && reqType < WORD_LIMIT && |payload| < 0x8000_0000 - HEADER_LEN
    ensures var all := Pack(Header(id, reqType, |payload|)) + payload;
            && (r == Sent ==> out == all)
            && (r != Sent ==> |out| < |all| && out == all[..|out|])
            && (r == Failure && Failed !in outcomes ==> out == [])
  {
    var header := Pack(Header(id, reqType, |payload|));
    var vec := if 0 < |payload| then [header, payload] else [header];
    ghost var all := header + payload;
    assert Flat(vec[1..]) == payload;
    assert Flat(vec) == all;
    out := [];
    var i := 0;
    while vec != []
      invariant 0 <= i <= |outcomes| && Solid(vec) && out + Flat(vec) == all
      decreases |outcomes| - i
    {
      SolidFlat(vec);
      if i == |outcomes| {
        r := Waiting;
        return;
      }
      var o := outcomes[i];
      i := i + 1;
      match o {
        case Failed =>
          r := Failure;
          return;
        case Full =>
          if out == [] {
            r := Failure;
            return;
          }
        case Took(k) =>
          // sendmsg never takes more than there is.
          var n := if k <= |Flat(vec)| then k else |Flat(vec)|;
          ghost var before := Flat(vec);
          out := out + Flat(vec)[..n];
          vec := Advance(vec, n);
          assert before == before[..n] + before[n..];
      }
    }
    r := Sent;
  }

  predicate NoFd(cells: seq<Cell>)
  {
    forall c <- cells :: c.fd == -1
  }

  /** The output side of a client connection: bytes in the socket, and bytes queued on the bufferevent. */
  class Output {
    var wire: seq<Cell>
    var queue: seq<Cell>

    constructor ()
      ensures Valid() && wire == queue == []
    {
      wire, queue := [], [];
    }

    /** Descriptors only leave through sendmsg, never from the queue. */
    ghost predicate Valid()
      reads this
    {
      NoFd(queue)
    }

    /** What the client will read. */
    ghost function Stream(): seq<Cell>
      reads this
    {
      wire + queue
    }

    /** The event loop, or a flush, writes some of the queue. */
    method Drain(n: nat)
      requires Valid()
      modifies this
      ensures Valid() && Stream() == old(Stream()) && |wire| == |old(wire)| + Min(n, |old(queue)|)
      ensures |old(queue)| <= n <==> queue == []
    {
      var k := Min(n, |queue|);
      wire := wire + queue[..k];
      queue := queue[k..];
    }

    /** api_send, and the answer of read_cb that carries no descriptor. */
    method Respond(m: Msg)
      requires Valid() && Sendable(m) && m.reply.fd == -1
      modifies this
      ensures Valid() && wire == old(wire) && queue == old(queue) + Encode(m)
    {
      var h := Pack(HeaderOf(m));
      queue := queue + Plain(h);
      assert Headed(h, -1) == Plain(h);
      if 0 < |m.reply.payload| {
        queue := queue + Plain(m.reply.payload);
      }
      assert Plain(h) + Plain(m.reply.payload) == Encode(m);
      assert queue == old(queue) + Encode(m);
    }

    /** The loop of send_response_with_fd that queues what sendmsg did not take. */
    method QueueRest(vec: seq<seq<Byte>>, sent: nat)
      requires Valid() && sent <= |Flat(vec)|
      modifies this`queue
      ensures Valid() && queue == old(queue) + Plain(Flat(vec)[sent..])
    {
      var pos, i := 0, 0;
      while i < |vec|
        invariant 0 <= i <= |vec| && pos == |Flat(vec[..i])| <= |Flat(vec)| && Valid()
        invariant queue == old(queue) + Plain(Flat(vec[..i])[Min(sent, pos)..])
      {
        FlatNext(vec, i);
        var end := pos + |vec[i]|;
        if sent < end {
          var skip := if sent > pos then sent - pos else 0;
          queue := queue + Plain(vec[i][skip..]);
          RestNext(Flat(vec[..i]), vec[i], sent);
        }
        pos := end;
        i := i + 1;
      }
      assert vec[..i] == vec;
    }

    /** send_response_with_fd: the flush writes `flushed` bytes of the queue and sendmsg takes `took` bytes, or
        fails when that is 0. The response is then dropped; otherwise it arrives in order exactly when the flush
        emptied the queue. */
    method RespondWithFd(m: Msg, flushed: nat, took: nat) returns (emptied: bool)
      requires Valid() && Sendable(m) && 0 <= m.reply.fd && took <= |Encode(m)|
      modifies this
      ensures Valid() && emptied == (|old(queue)| <= flushed)
      ensures took == 0 ==> Stream() == old(Stream())
      ensures 0 < took ==>
                var cut := |old(wire)| + Min(flushed, |old(queue)|);
                Stream() == old(Stream())[..cut] + Encode(m)[..took] + (old(Stream())[cut..] + Encode(m)[took..])
      ensures 0 < took ==> (Stream() == old(Stream()) + Encode(m) <==> emptied)
    {
      emptied := |queue| <= flushed;
      Drain(flushed);
      if took == 0 {
        return;
      }
      var h := Pack(HeaderOf(m));
      var vec := if 0 < |m.reply.payload| then [h, m.reply.payload] else [h];
      ghost var w, q := wire, queue;
      wire := wire + Encode(m)[..took];
      EncodeTail(m, vec, took);
      QueueRest(vec, took);
      InOrder(w, q, Encode(m), took);
    }
  }

  lemma {:induction false} FlatNext(vec: seq<seq<Byte>>, i: nat)
    requires i < |vec|
    ensures Flat(vec[..i + 1]) == Flat(vec[..i]) + vec[i] && |Flat(vec[..i + 1])| <= |Flat(vec)|
  {
    assert vec[..i + 1] == vec[..i] + [vec[i]];
    FlatAppend(vec[..i], [vec[i]]);
    assert Flat([vec[i]]) == vec[i] + Flat([]) == vec[i];
    assert vec == vec[..i + 1] + vec[i + 1..];
    FlatAppend(vec[..i + 1], vec[i + 1..]);
  }

  /** Extending the queued remainder by the unsent part of the next vector. */
  lemma {:induction false} RestNext(a: seq<Byte>, v: seq<Byte>, sent: nat)
    requires sent < |a| + |v|
    ensures var skip := if sent > |a| then sent - |a| else 0;
            Plain(a[Min(sent, |a|)..]) + Plain(v[skip..]) == Plain((a + v)[sent..])
  {
  }

  /** Past its first byte a response carries no descriptor. */
  lemma {:induction false} EncodeTail(m: Msg, vec: seq<seq<Byte>>, took: nat)
    requires Sendable(m) && 0 < took <= |Encode(m)|
    requires var h := Pack(HeaderOf(m)); vec == if 0 < |m.reply.payload| then [h, m.reply.payload] else [h]
    ensures |Flat(vec)| == |Encode(m)| && Plain(Flat(vec)[took..]) == Encode(m)[took..]
  {
    var h := Pack(HeaderOf(m));
    assert Flat(vec[1..]) == m.reply.payload;
    assert Flat(vec) == h + m.reply.payload;
  }

  /** A response starting with a descriptor overtakes whatever was queued before it. */
  lemma {:induction false} InOrder(w: seq<Cell>, q: seq<Cell>, e: seq<Cell>, n: nat)
    requires NoFd(q) && 0 < n <= |e| && e[0].fd != -1
    ensures (w + e[..n]) + (q + e[n..]) == (w + q) + e <==> q == []
  {
    if q == [] {
      assert e == e[..n] + e[n..];
    } else {
      assert ((w + e[..n]) + (q + e[n..]))[|w|] == e[0];
      assert ((w + q) + e)[|w|] == q[0] && q[0] in q;
    }
  }

  /** A request as the handlers see it. */
  datatype Request = Request(id: nat, kind: nat, payload: seq<Byte>)

  predicate Valid(r: Request)
  {
    r.id < WORD_LIMIT && r.kind < WORD_LIMIT && |r.payload| <= MAX_MSG_LEN
  }

  function Frame(r: Request): (s: seq<Byte>)
    requires Valid(r)
    ensures HEADER_LEN <= |s|
  {
    Pack(Header(r.id, r.kind, |r.payload|)) + r.payload
  }

  predicate AllValid(rs: seq<Request>)
  {
    forall i | 0 <= i < |rs| :: Valid(rs[i])
  }

  function Frames(rs: seq<Request>): seq<Byte>
    requires AllValid(rs)
  {
    if rs == [] then [] else Frame(rs[0]) + Frames(rs[1..])
  }

  lemma {:induction false} FramesAppend(rs: seq<Request>, r: Request)
    requires AllValid(rs) && Valid(r)
    ensures AllValid(rs + [r]) && Frames(rs + [r]) == Frames(rs) + Frame(r)
  {
    var all := rs + [r];
    if rs == [] {
      assert all == [r];
      assert Frames([r]) == Frame(r) + Frames([]);
    } else {
      assert all[0] == rs[0] && all[1..] == rs[1..] + [r];
      FramesAppend(rs[1..], r);
      Regroup(Frame(rs[0]), Frames(rs[1..]), Frame(r));
    }
  }

  /** The same bytes cannot be read as two different requests. */
  lemma {:induction false} FrameUnique(a: Request, x: seq<Byte>, b: Request, y: seq<Byte>)
    requires Valid(a) && Valid(b) && Frame(a) + x == Frame(b) + y
    ensures a == b && x == y
  {
    var s := Frame(a) + x;
    var ha, hb := Header(a.id, a.kind, |a.payload|), Header(b.id, b.kind, |b.payload|);
    assert s[..HEADER_LEN] == Pack(ha) && (Frame(b) + y)[..HEADER_LEN] == Pack(hb);
    assert ha == hb;
    var n := HEADER_LEN + |a.payload|;
    assert s[HEADER_LEN..n] == a.payload && (Frame(b) + y)[HEADER_LEN..n] == b.payload;
    assert s[n..] == x && (Frame(b) + y)[n..] == y;
  }

  lemma {:induction false} FramesHead(rs: seq<Request>, x: seq<Byte>)
    requires AllValid(rs) && rs != []
    ensures Frames(rs) + x == Frame(rs[0]) + (Frames(rs[1..]) + x)
  {
  }

  /** However a stream was cut into reads, the requests handled are the same up to how many were handled. */
  lemma {:induction false} FramesUnique(a: seq<Request>, x: seq<Byte>, b: seq<Request>, y: seq<Byte>)
    requires AllValid(a) && AllValid(b) && |a| <= |b| && Frames(a) + x == Frames(b) + y
    ensures a == b[..|a|] && (|a| == |b| ==> x == y)
  {
    if a == [] {
      if b == [] {
        assert x == Frames(a) + x && y == Frames(b) + y;
      }
    } else {
      FramesHead(a, x);
      FramesHead(b, y);
      FrameUnique(a[0], Frames(a[1..]) + x, b[0], Frames(b[1..]) + y);
      FramesUnique(a[1..], x, b[1..], y);
      assert a == [a[0]] + a[1..] && b[..|a|] == [b[0]] + b[1..][..|a| - 1];
    }
  }

  lemma {:induction false} FrameSplit(all: seq<Byte>, r: Request, input: seq<Byte>)
    requires HEADER_LEN <= |all| && input == all[HEADER_LEN..] && |r.payload| <= |input| && Valid(r)
    requires Unpack(all[..HEADER_LEN]) == Header(r.id, r.kind, |r.payload|) && r.payload == input[..|r.payload|]
    ensures all == Frame(r) + input[|r.payload|..]
    ensures var n := HEADER_LEN + |r.payload|; all[HEADER_LEN..n] == r.payload && all[n..] == input[|r.payload|..]
  {
    PackUnpack(all[..HEADER_LEN]);
    assert all == all[..HEADER_LEN] + (input[..|r.payload|] + input[|r.payload|..]);
  }

  /** One call of read_cb on the unhandled bytes `before`, without regard to where the reads were cut. */
  predicate Handles(before: seq<Byte>, after: seq<Byte>, closed: bool, done: seq<Request>, handled: seq<Request>)
  {
    if |before| < HEADER_LEN then !closed && after == before && handled == done
    else
      var h := Unpack(before[..HEADER_LEN]);
      var n := HEADER_LEN + h.len;
      if MAX_MSG_LEN < h.len then closed && handled == done
      else if |before| < n then !closed && after == before && handled == done
      else
        && !closed && after == before[n..]
        && handled == done + [Request(h.id, h.info, before[HEADER_LEN..n])]
  }

  /** The bytes start with a whole request. */
  predicate Whole(s: seq<Byte>)
  {
    && HEADER_LEN <= |s|
    && var len := Unpack(s[..HEADER_LEN]).len;
    len <= MAX_MSG_LEN && HEADER_LEN + len <= |s|
  }

  lemma {:induction false} FrameWhole(r: Request, x: seq<Byte>)
    requires Valid(r)
    ensures Whole(Frame(r) + x) && Unpack((Frame(r) + x)[..HEADER_LEN]) == Header(r.id, r.kind, |r.payload|)
  {
    assert (Frame(r) + x)[..HEADER_LEN] == Pack(Header(r.id, r.kind, |r.payload|));
  }

  /** One call handles one request. If the requests `rs` have arrived, and `tail`, the second of them waits for the
      next call, and a whole request is left exactly when there is a second one or the tail starts with one. */
  lemma {:induction false} OneAtATime(before: seq<Byte>, after: seq<Byte>, closed: bool, done: seq<Request>,
                                      handled: seq<Request>, rs: seq<Request>, tail: seq<Byte>)
    requires Handles(before, after, closed, done, handled)
    requires AllValid(rs) && rs != [] && before == Frames(rs) + tail
    ensures !closed && handled == done + [rs[0]] && after == Frames(rs[1..]) + tail
    ensures Whole(after) <==> 2 <= |rs| || Whole(tail)
  {
    FramesHead(rs, tail);
    FrameWhole(rs[0], Frames(rs[1..]) + tail);
    if |rs| == 1 {
      assert Frames(rs[1..]) + tail == tail;
    } else {
      FramesHead(rs[1..], tail);
      FrameWhole(rs[1], Frames(rs[2..]) + tail);
      assert rs[1..][1..] == rs[2..];
    }
  }

  /** The input side of a client connection. */
  class Input {
    var headerComplete: bool
    var header: Header
    var input: seq<Byte>
    var closed: bool
    var handled: seq<Request>
    /** Every byte that arrived. */
    ghost var received: seq<Byte>

    constructor ()
      ensures Valid() && handled == [] && received == [] && !closed
    {
      headerComplete, header, input, closed, handled := false, Header(0, 0, 0), [], false, [];
      received := [];
    }

    ghost predicate Valid()
      reads this
    {
      && Fits(header) && (headerComplete ==> header.len <= MAX_MSG_LEN) && AllValid(handled)
      && (!closed ==> received == Frames(handled) + Rest())
    }

    /** The bytes of requests not handled yet. */
    ghost function Rest(): seq<Byte>
      requires Fits(header)
      reads this
    {
      (if headerComplete then Pack(header) else []) + input
    }

    method Feed(bytes: seq<Byte>)
      requires Valid()
      modifies this`input, this`received
      ensures Valid() && received == old(received) + bytes && Rest() == old(Rest()) + bytes
    {
      input := input + bytes;
      received := received + bytes;
      assert Rest() == old(Rest()) + bytes;
      assert (Frames(handled) + old(Rest())) + bytes == Frames(handled) + (old(Rest()) + bytes);
    }

    /** read_cb: handles the first request of what has not been handled, as soon as all of it has arrived. */
    method ReadCb()
      requires Valid() && !closed
      modifies this
      ensures Valid() && received == old(received)
      ensures Handles(old(Rest()), Rest(), closed, old(handled), handled)
    {
      ghost var all := Rest();
      var ready := ReadHeader();
      if ready && header.len <= |input| {
        var r := Request(header.id, header.info, input[..header.len]);
        FrameSplit(all, r, input);
        FramesAppend(handled, r);
        Regroup(Frames(handled), Frame(r), input[header.len..]);
        handled := handled + [r];
        input := input[header.len..];
        headerComplete := false;
        assert Rest() == input;
      }
    }

    /** The first part of read_cb: read the header if that has not been done. */
    method ReadHeader() returns (ready: bool)
      requires Valid() && !closed
      modifies this`headerComplete, this`header, this`input, this`closed
      ensures Fits(header)
      ensures ready == (HEADER_LEN <= |old(Rest())| && Unpack(old(Rest())[..HEADER_LEN]).len <= MAX_MSG_LEN)
      ensures closed == (HEADER_LEN <= |old(Rest())| && MAX_MSG_LEN < Unpack(old(Rest())[..HEADER_LEN]).len)
      ensures !closed ==> Rest() == old(Rest())
      ensures ready ==> headerComplete && header == Unpack(Rest()[..HEADER_LEN]) && input == Rest()[HEADER_LEN..]
      ensures headerComplete ==> header.len <= MAX_MSG_LEN
    {
      ghost var all := Rest();
      ready := headerComplete;
      if headerComplete {
        assert all[..HEADER_LEN] == Pack(header) && all[HEADER_LEN..] == input;
      } else {
        assert all == input;
        if HEADER_LEN <= |input| {
          PackUnpack(all[..HEADER_LEN]);
          header := Unpack(input[..HEADER_LEN]);
          input := input[HEADER_LEN..];
          closed := MAX_MSG_LEN < header.len;
          ready := !closed;
          headerComplete := ready;
          assert all == Pack(header) + input;
        }
      }
    }
  }

  /** A response with a descriptor overtakes one that is still queued. */
  method DescriptorOvertakes() returns (o: Output)
    ensures o.Valid()
    ensures var first, second := Msg(1, Reply(0, [], -1)), Msg(2, Reply(0, [], 7));
            o.Stream() != Encode(first) + Encode(second) && |o.Stream()| == |Encode(first)| + |Encode(second)|
  {
    o := new Output();
    o.Respond(Msg(1, Reply(0, [], -1)));
    var _ := o.RespondWithFd(Msg(2, Reply(0, [], 7)), 0, HEADER_LEN);
  }

  /** Two requests that arrive together: the second one is not handled. */
  method SecondRequestWaits() returns (c: Input)
    ensures c.Valid() && !c.closed && c.handled == [Request(1, 2, [])] && Whole(c.Rest())
  {
    var a, b := Request(1, 2, []), Request(3, 4, []);
    c := new Input();
    assert Frames([a, b]) == Frame(a) + Frames([b]) && [a, b][1..] == [b];
    ghost var all := Frames([a, b]) + [];
    assert all == Frames([a, b]);
    c.Feed(Frames([a, b]));
    assert c.Rest() == all;
    c.ReadCb();
    OneAtATime(all, c.Rest(), c.closed, [], c.handled, [a, b], []);
    assert [] + [a] == [a];
  }
}
