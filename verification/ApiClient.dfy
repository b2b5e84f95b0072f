/** The receive side of the API client (api/gr_api_client_impl.h, api/gr_api.h): read-ahead buffering, the cache
    of out-of-order responses, and stream loops with nesting and early break, on a blocking socket.

    The kernel is the field `net`, the bytes the server has sent or will send before the call returns. A read
    returns any non-empty chunk of it, which may join the bytes of a message with a descriptor to earlier ones; a
    read that does not ask for descriptors discards them. A read can also fail or find the connection cut, which
    sets the ghost flag `dead`. */
module ApiClient {
  import opened Wire
  import opened Common

  const ECONNRESET: nat := 104
  const EMSGSIZE: nat := 90
  const EIDRM: nat := 43

  /** A byte of the socket, with the descriptor attached to it, -1 if none. */
  datatype Cell = Cell(b: Byte, fd: int)

  /** What the server answers; `fd` is -1 if no descriptor comes with it. */
  datatype Reply = Reply(status: nat, payload: seq<Byte>, fd: int)

  /** A response: an answer and the request it is for. */
  datatype Msg = Msg(id: nat, reply: Reply)

  /** What the client knows of a message type. */
  datatype Spec = Spec(minSize: nat, stream: bool)

  /** What gr_api_client_recv_fd gives its caller. An empty `rx` is a NULL pointer. */
  datatype Answer = Answer(ret: int, rx: seq<Byte>, fd: int)

  predicate Short(r: Reply)
  {
    r.status < WORD_LIMIT && |r.payload| <= MAX_MSG_LEN && -1 <= r.fd
  }

  predicate Sendable(m: Msg)
  {
    m.id < WORD_LIMIT && Short(m.reply)
  }

  predicate AllSendable(ms: seq<Msg>)
  {
    forall m <- ms :: Sendable(m)
  }

  function HeaderOf(m: Msg): Header
  {
    Header(m.id, m.reply.status, |m.reply.payload|)
  }

  /** Bytes without descriptors. */
  function Plain(s: seq<Byte>): (cells: seq<Cell>)
    ensures |cells| == |s|
  {
    seq(|s|, i requires 0 <= i < |s| => Cell(s[i], -1))
  }

  function BytesOf(cells: seq<Cell>): (s: seq<Byte>)
    ensures |s| == |cells|
  {
    seq(|cells|, i requires 0 <= i < |cells| => cells[i].b)
  }

  /** The descriptor that recvmsg gives for a chunk, -1 if none. */
  function FirstFd(cells: seq<Cell>): (fd: int)
    ensures -1 <= fd
  {
    if cells == [] then -1 else if 0 <= cells[0].fd then cells[0].fd else FirstFd(cells[1..])
  }

  /** The descriptor travels with the first byte of the header. */
  function Headed(h: seq<Byte>, fd: int): (cells: seq<Cell>)
    requires |h| == HEADER_LEN
    ensures |cells| == HEADER_LEN
  {
    [Cell(h[0], fd)] + Plain(h[1..])
  }

  function Encode(m: Msg): (cells: seq<Cell>)
    requires Sendable(m)
    ensures |cells| == HEADER_LEN + |m.reply.payload|
  {
    Headed(Pack(HeaderOf(m)), m.reply.fd) + Plain(m.reply.payload)
  }

  function EncodeAll(ms: seq<Msg>): seq<Cell>
    requires AllSendable(ms)
  {
    if ms == [] then [] else Encode(ms[0]) + EncodeAll(ms[1..])
  }

  lemma {:induction false} EncodeAllAppend(xs: seq<Msg>, ys: seq<Msg>)
    requires AllSendable(xs) && AllSendable(ys)
    ensures AllSendable(xs + ys) && EncodeAll(xs + ys) == EncodeAll(xs) + EncodeAll(ys)
  {
    if xs == [] {
      assert xs + ys == ys;
    } else {
      assert (xs + ys)[1..] == xs[1..] + ys && (xs + ys)[0] == xs[0];
      EncodeAllAppend(xs[1..], ys);
      var a, b, c := Encode(xs[0]), EncodeAll(xs[1..]), EncodeAll(ys);
      assert a + (b + c) == (a + b) + c;
    }
  }

  /** What a reader finds at the head of a stream of whole responses. */
  lemma {:induction false} StreamHead(ms: seq<Msg>)
    requires AllSendable(ms) && ms != []
    ensures Sendable(ms[0]) && AllSendable(ms[1..])
    ensures EncodeAll(ms)
            == Headed(Pack(HeaderOf(ms[0])), ms[0].reply.fd) + (Plain(ms[0].reply.payload) + EncodeAll(ms[1..]))
  {
  }

  /** A 32-bit status stored in the int `errno`. */
  function Signed(x: nat): int
  {
    if x < 0x8000_0000 then x else x - WORD_LIMIT
  }

  /** The verdict on a response once it has reached its request. */
  function Judge(r: Reply, spec: Option<Spec>): Answer
  {
    if r.status != 0 then Answer(-Signed(r.status), [], -1)
    else if spec.None? then Answer(0 - EIDRM, [], -1)
    else if |r.payload| < spec.value.minSize && (!spec.value.stream || |r.payload| != 0) then
      Answer(0 - EMSGSIZE, [], -1)
    else Answer(|r.payload|, r.payload, r.fd)
  }

  function Delivered(m: Msg, spec: Option<Spec>, wantFd: bool): Answer
  {
    if wantFd then Judge(m.reply, spec) else Judge(m.reply, spec).(fd := -1)
  }

  /** What a receive for `id` does to the pending responses, given those still in the stream afterwards; the
      descriptor can be missing. */
  predicate Received(before: seq<Msg>, after: seq<Msg>, unread: seq<Msg>, spec: Option<Spec>, id: nat, wantFd: bool,
                     a: Answer)
  {
    var k := FirstFor(id, before);
    if k < |before| then
      && (a == Delivered(before[k], spec, wantFd) || a == Delivered(before[k], spec, false))
      && after == before[..k] + before[k + 1..]
    else
      a.ret < 0 && a.rx == [] && a.fd == -1 && after == before && unread == []
  }

  /** The answers to one request, as responses. */
  function Msgs(id: nat, replies: seq<Reply>): (ms: seq<Msg>)
    ensures |ms| == |replies|
    ensures id < WORD_LIMIT && (forall r <- replies :: Short(r)) ==> AllSendable(ms)
  {
    seq(|replies|, i requires 0 <= i < |replies| => Msg(id, replies[i]))
  }

  /** Index of the first response to `id`, or the length. */
  function FirstFor(id: nat, ms: seq<Msg>): (k: nat)
    ensures k <= |ms|
    ensures k < |ms| ==> ms[k].id == id
    ensures forall i | 0 <= i < k :: ms[i].id != id
  {
    if ms == [] then 0
    else if ms[0].id == id then 0
    else
      var k := FirstFor(id, ms[1..]);
      assert forall i | 1 <= i < k + 1 :: ms[i] == ms[1..][i - 1];
      k + 1
  }

  lemma {:induction false} FirstForIs(id: nat, ms: seq<Msg>, k: nat)
    requires k <= |ms| && (k < |ms| ==> ms[k].id == id)
    requires forall i | 0 <= i < k :: ms[i].id != id
    ensures FirstFor(id, ms) == k
  {
  }

  /** The first response to `id` among `xs` and then `ys`, and what remains without it. */
  lemma {:induction false} FirstInFront(id: nat, xs: seq<Msg>, ys: seq<Msg>)
    requires FirstFor(id, xs) < |xs|
    ensures var k, ms := FirstFor(id, xs), xs + ys;
            FirstFor(id, ms) == k && ms[k] == xs[k] && ms[..k] + ms[k + 1..] == (xs[..k] + xs[k + 1..]) + ys
  {
  }

  /** Even over a failing connection, a receive only takes the first cached response to `id` and otherwise adds
      to the end of the cache. */
  predicate CacheKept(before: seq<Msg>, after: seq<Msg>, id: nat)
  {
    var k := FirstFor(id, before);
    if k < |before| then after == before[..k] + before[k + 1..] else before <= after
  }

  /** The first response to `id`, taken out of the pending ones. */
  predicate Fetched(before: seq<Msg>, after: seq<Msg>, unread: seq<Msg>, id: nat, ok: bool, m: Msg)
  {
    var k := FirstFor(id, before);
    if k < |before| then ok && m == before[k] && after == before[..k] + before[k + 1..]
    else !ok && after == before && unread == []
  }

  /** Reading one response when none of the cached ones is to `id`. */
  lemma {:induction false} FetchStep(id: nat, cached: seq<Msg>, unread: seq<Msg>)
    requires FirstFor(id, cached) == |cached|
    ensures unread == [] ==> FirstFor(id, cached + unread) == |cached + unread|
    ensures unread != [] && unread[0].id == id ==>
              Fetched(cached + unread, cached + unread[1..], unread[1..], id, true, unread[0])
    ensures unread != [] ==> (cached + [unread[0]]) + unread[1..] == cached + unread
  {
    if unread == [] {
      assert cached + unread == cached;
    } else if unread[0].id == id {
      FirstForIs(id, cached + unread, |cached|);
    }
  }

  /** How many of the responses carry the descriptor `d`. */
  function Held(ms: seq<Msg>, d: nat): nat
  {
    if ms == [] then 0 else Is(ms[0].reply.fd, d) + Held(ms[1..], d)
  }

  function Is(fd: int, d: nat): nat
  {
    if fd == d then 1 else 0
  }

  lemma {:induction false} HeldAppend(xs: seq<Msg>, ys: seq<Msg>, d: nat)
    ensures Held(xs + ys, d) == Held(xs, d) + Held(ys, d)
  {
    if xs == [] {
      assert xs + ys == ys;
    } else {
      assert (xs + ys)[1..] == xs[1..] + ys && (xs + ys)[0] == xs[0];
      HeldAppend(xs[1..], ys, d);
    }
  }

  lemma {:induction false} HeldRemove(ms: seq<Msg>, k: nat, d: nat)
    requires k < |ms|
    ensures Held(ms, d) == Held(ms[..k] + ms[k + 1..], d) + Is(ms[k].reply.fd, d)
  {
    var tail := ms[k..];
    assert tail[1..] == ms[k + 1..];
    assert ms == ms[..k] + tail;
    HeldAppend(ms[..k], tail, d);
    HeldAppend(ms[..k], ms[k + 1..], d);
  }

  /** The response without its descriptor. */
  function Stripped(m: Msg): Msg
  {
    m.(reply := m.reply.(fd := -1))
  }

  /** The response as it was sent, or without its descriptor. */
  predicate Less(m: Msg, sent: Msg)
  {
    m == sent || m == Stripped(sent)
  }

  predicate Kept(responses: seq<Msg>, sent: seq<Msg>)
  {
    |responses| == |sent| && forall i | 0 <= i < |sent| :: Less(responses[i], sent[i])
  }

  lemma {:induction false} KeptFirst(responses: seq<Msg>, sent: seq<Msg>, id: nat)
    requires Kept(responses, sent)
    ensures FirstFor(id, responses) == FirstFor(id, sent)
  {
    FirstForIs(id, responses, FirstFor(id, sent));
  }

  lemma {:induction false} DeliveredNext(m: Msg, next: Msg, whole: bool, spec: Option<Spec>, wantFd: bool)
    requires m == if whole then next else Stripped(next)
    ensures Delivered(m, spec, wantFd) == Delivered(next, spec, wantFd && whole)
  {
  }

  /** What is delivered is what was sent, up to a missing descriptor. */
  lemma {:induction false} ReceivedIs(before: seq<Msg>, after: seq<Msg>, unread: seq<Msg>, spec: Option<Spec>, id: nat,
                                      wantFd: bool, m: Msg, sent: Msg, a: Answer)
    requires Fetched(before, after, unread, id, true, sent) && Less(m, sent) && a == Delivered(m, spec, wantFd)
    ensures Received(before, after, unread, spec, id, wantFd, a)
  {
  }

  /** The stream has the bytes `want`, then the cells `rest`. */
  predicate Leads(stream: seq<Cell>, want: seq<Byte>, rest: seq<Cell>)
  {
    |stream| == |want| + |rest| && BytesOf(stream[..|want|]) == want && stream[|want|..] == rest
  }

  lemma {:induction false} TakeOff(stream: seq<Cell>, want: seq<Byte>, rest: seq<Cell>, n: nat)
    requires Leads(stream, want, rest) && n <= |want|
    ensures BytesOf(stream[..n]) == want[..n] && Leads(stream[n..], want[n..], rest)
  {
    assert forall i | 0 <= i < |want| :: BytesOf(stream[..|want|])[i] == stream[i].b;
  }

  lemma {:induction false} PlainLeads(b: seq<Byte>, rest: seq<Cell>)
    ensures Leads(Plain(b) + rest, b, rest)
  {
  }

  lemma {:induction false} HeadedLeads(h: seq<Byte>, fd: int, rest: seq<Cell>)
    requires |h| == HEADER_LEN
    ensures Leads(Headed(h, fd) + rest, h, rest)
  {
  }

  /** A chunk of a stream that starts with the header `h`, descriptor `fd` on its first byte. */
  lemma {:induction false} HeaderChunk(h: seq<Byte>, fd: int, rest: seq<Cell>, n: nat)
    requires |h| == HEADER_LEN && 1 <= n <= HEADER_LEN && -1 <= fd
    ensures var s := Headed(h, fd) + rest;
            FirstFd(s[..n]) == fd && BytesOf(s[..n]) == h[..n] && Leads(s[n..], h[n..], rest)
  {
    var s := Headed(h, fd) + rest;
    HeadedLeads(h, fd, rest);
    TakeOff(s, h, rest, n);
    assert s[..n][0] == Cell(h[0], fd);
    assert forall c <- s[..n][1..] :: c.fd == -1;
    PlainFd(s[..n][1..]);
  }

  lemma {:induction false} PlainFd(cells: seq<Cell>)
    requires forall c <- cells :: c.fd == -1
    ensures FirstFd(cells) == -1
  {
    if cells != [] {
      PlainFd(cells[1..]);
    }
  }

  /** The socket and the read-ahead buffer. */
  class Reader {
    const recvBuf: array<Byte>
    /** No read fails, and each returns as much as there is. */
    const calm: bool
    var bufOff: nat
    var bufLen: nat
    var errno: nat
    var net: seq<Cell>
    /** What was read ahead, as it was sent. */
    ghost var ahead: seq<Cell>
    /** A read failed, or the connection was cut while bytes were still owed. */
    ghost var dead: bool
    /** Any descriptor: how often the kernel installed it, and how often the client closed it. */
    ghost const watched: nat
    ghost var received: nat
    ghost var closed: nat

    ghost predicate Shape()
      reads this, recvBuf
    {
      && recvBuf.Length == HEADER_LEN + MAX_MSG_LEN && bufOff + bufLen <= recvBuf.Length
      && BytesOf(ahead) == recvBuf[bufOff..bufOff + bufLen]
    }

    constructor (ghost descriptor: nat, isCalm: bool)
      ensures Holds([]) && !dead && watched == descriptor && received == 0 && closed == 0 && fresh(recvBuf)
      ensures calm == isCalm
    {
      recvBuf := new Byte[HEADER_LEN + MAX_MSG_LEN](_ => 0);
      calm, bufOff, bufLen, errno, net := isCalm, 0, 0, 0, [];
      ahead, dead, watched, received, closed := [], false, descriptor, 0, 0;
    }

    /** The connection failed if it had before, and only if reads can fail. */
    ghost predicate Lasts(was: bool)
      reads this
    {
      (was ==> dead) && (calm ==> dead == was)
    }

    /** Everything the server sent that has not been consumed. */
    ghost function Stream(): seq<Cell>
      reads this
    {
      ahead + net
    }

    /** The unconsumed bytes are those of the whole responses `ms`. */
    ghost predicate Holds(ms: seq<Msg>)
      reads this, recvBuf
    {
      Shape() && (!dead ==> AllSendable(ms) && Stream() == EncodeAll(ms))
    }

    /** The server sends `more`. */
    method Arrive(ghost ms: seq<Msg>, more: seq<Msg>)
      requires Holds(ms) && AllSendable(more)
      modifies this`net
      ensures Holds(ms + more)
    {
      if !dead {
        EncodeAllAppend(ms, more);
      }
      net := net + EncodeAll(more);
      assert Stream() == old(Stream()) + EncodeAll(more);
    }

    /** A read of at most `cap` bytes: n > 0 cells of the socket, 0 when the peer closed, or -1 and errno. */
    method Read(cap: nat) returns (n: int, cells: seq<Cell>)
      requires 0 < cap
      modifies this`net, this`dead, this`errno
      ensures Lasts(old(dead))
      ensures n <= 0 ==> net == old(net) && (dead || net == []) && (n < 0 ==> 0 < errno)
      ensures 0 < n ==> dead == old(dead) && n <= cap && n <= |old(net)|
      ensures 0 < n ==> cells == old(net)[..n] && net == old(net)[n..]
      ensures calm && old(net) != [] ==> n == Min(cap, |old(net)|)
    {
      var cut: bool := *;
      if net == [] || (cut && !calm) {
        dead := dead || net != [];
        n, cells := *, [];
        if 0 <= n {
          n := 0;
        } else {
          var e: nat :| 0 < e;
          errno := e;
        }
      } else {
        n := Min(cap, |net|);
        if !calm {
          n :| 0 < n <= cap && n <= |net|;
        }
        cells := net[..n];
        net := net[n..];
      }
    }

    /** Copy `n` buffered bytes out. */
    method CopyOut(n: nat) returns (b: seq<Byte>)
      requires Shape() && n <= bufLen
      modifies this`bufOff, this`bufLen, this`ahead
      ensures Shape() && bufLen == old(bufLen) - n && net == old(net) && n <= |old(Stream())|
      ensures b == BytesOf(old(Stream())[..n]) && Stream() == old(Stream())[n..]
    {
      assert |ahead| == bufLen;
      b := recvBuf[bufOff..bufOff + n];
      assert forall i | 0 <= i < n :: b[i] == recvBuf[bufOff + i] == BytesOf(ahead)[i];
      assert Stream()[..n] == ahead[..n] && Stream()[n..] == ahead[n..] + net;
      ahead := ahead[n..];
      bufOff := bufOff + n;
      bufLen := bufLen - n;
    }

    /** Fill the empty buffer from the socket; false when the connection ended. Descriptors are discarded. */
    method Refill() returns (more: bool)
      requires Shape() && bufLen == 0
      modifies this`net, this`dead, this`errno, this`bufOff, this`bufLen, this`ahead, recvBuf
      ensures Shape() && Lasts(old(dead)) && Stream() == old(Stream())
      ensures if more then 0 < bufLen else (dead || Stream() == []) && 0 < errno
      ensures calm && |old(net)| <= recvBuf.Length ==> net == []
    {
      assert |ahead| == 0 && Stream() == net;
      bufOff, ahead := 0, [];
      var n, cells := Read(recvBuf.Length);
      more := 0 < n;
      if more {
        forall i | 0 <= i < n {
          recvBuf[i] := cells[i].b;
        }
        bufLen, ahead := n, cells;
        assert recvBuf[bufOff..bufOff + bufLen] == BytesOf(ahead);
      } else {
        errno := if n == 0 then ECONNRESET else errno;
        assert Stream() == net;
      }
    }

    /** One round of recv_all, with the bytes `want` still to come. */
    method RecvSome(max: nat, ghost want: seq<Byte>, ghost rest: seq<Cell>) returns (b: seq<Byte>, open: bool)
      requires Shape() && 0 < max && (!dead ==> max == |want| && Leads(Stream(), want, rest))
      modifies this`net, this`dead, this`errno, this`bufOff, this`bufLen, this`ahead, recvBuf
      ensures Shape() && Lasts(old(dead)) && |b| <= max
      ensures |Stream()| + |b| == |old(Stream())|
      ensures !open ==> b == [] && 0 < errno && dead
      ensures open ==> if old(bufLen) == 0 then 0 < bufLen else 0 < |b|
      ensures !dead ==> b == want[..|b|] && Leads(Stream(), want[|b|..], rest)
      ensures calm && |old(net)| <= recvBuf.Length && (old(bufLen) == 0 || old(net) == []) ==> net == []
    {
      open := true;
      if 0 < bufLen {
        b := CopyOut(Min(max, bufLen));
        if !dead {
          TakeOff(old(Stream()), want, rest, |b|);
        }
      } else {
        b := [];
        open := Refill();
        assert want[..0] == [] && want[0..] == want;
      }
    }

    /** recv_all: when the stream starts with the `len` bytes `want`, exactly these are taken off it. */
    method RecvAll(len: nat, ghost want: seq<Byte>, ghost rest: seq<Cell>) returns (got: seq<Byte>)
      requires Shape() && (!dead ==> |want| == len && Leads(Stream(), want, rest))
      modifies this`net, this`dead, this`errno, this`bufOff, this`bufLen, this`ahead, recvBuf
      ensures Shape() && Lasts(old(dead)) && |got| <= len
      ensures |Stream()| + |got| == |old(Stream())|
      ensures |got| < len ==> 0 < errno && dead
      ensures !dead ==> got == want && Stream() == rest
      ensures calm && old(bufLen) == 0 < len && |old(net)| <= recvBuf.Length ==> net == []
    {
      got := [];
      assert want[0..] == want;
      var open := true;
      while |got| < len && open
        invariant Shape() && Lasts(old(dead)) && |got| <= len
        invariant |Stream()| + |got| == |old(Stream())|
        invariant !open ==> 0 < errno && dead
        invariant !dead ==> got == want[..|got|] && Leads(Stream(), want[|got|..], rest)
        invariant calm && old(bufLen) == 0 && |old(net)| <= recvBuf.Length ==>
                    net == [] || (got == [] && open && bufLen == 0 && net == old(net))
        decreases open, len - |got|, bufLen == 0
      {
        var g := |got|;
        var b;
        b, open := RecvSome(len - g, if dead then [] else want[g..], rest);
        got := got + b;
        if !dead {
          assert want[g..][..|b|] == want[g..g + |b|] && want[g..][|b|..] == want[g + |b|..];
        }
      }
    }

    /** recv_response_header, on a stream that is empty or starts with the header `h` and its descriptor. The
        descriptor arrives exactly when nothing was read ahead. */
    method RecvHeader(ghost some: bool, ghost h: seq<Byte>, ghost sentFd: int, ghost rest: seq<Cell>)
      returns (got: seq<Byte>, fd: int)
      requires Shape() && HeaderAt(some, h, sentFd, rest)
      modifies this`net, this`dead, this`errno, this`bufOff, this`bufLen, this`ahead, this`received, this`closed,
               recvBuf
      ensures Shape() && Lasts(old(dead)) && |got| <= HEADER_LEN && -1 <= fd
      ensures |got| == HEADER_LEN ==> |Stream()| < |old(Stream())|
      ensures |got| < HEADER_LEN ==> 0 < errno && fd == -1
      ensures received + old(closed) == old(received) + closed + Is(fd, watched)
      ensures !dead && some ==> got == h && Stream() == rest && fd == if old(bufLen) == 0 then sentFd else -1
      ensures !dead && !some ==> |got| < HEADER_LEN && Stream() == []
      ensures calm && old(bufLen) == 0 && HEADER_LEN <= |old(net)| ==> bufLen == 0
    {
      if 0 < bufLen {
        fd := -1;
        if !dead {
          HeadedLeads(h, sentFd, rest);
        }
        got := RecvAll(HEADER_LEN, h, rest);
      } else {
        got, fd := RecvFresh(some, h, sentFd, rest);
      }
    }

    ghost predicate HeaderAt(some: bool, h: seq<Byte>, sentFd: int, rest: seq<Cell>)
      reads this
    {
      && |h| == HEADER_LEN && -1 <= sentFd
      && (!dead ==> Stream() == if some then Headed(h, sentFd) + rest else [])
    }

    /** The recvmsg path of recv_response_header, with an empty buffer. */
    method RecvFresh(ghost some: bool, ghost h: seq<Byte>, ghost sentFd: int, ghost rest: seq<Cell>)
      returns (got: seq<Byte>, fd: int)
      requires Shape() && bufLen == 0 && HeaderAt(some, h, sentFd, rest)
      modifies this`net, this`dead, this`errno, this`bufOff, this`bufLen, this`ahead, this`received, this`closed,
               recvBuf
      ensures Shape() && Lasts(old(dead)) && |got| <= HEADER_LEN && -1 <= fd
      ensures |got| == HEADER_LEN ==> |Stream()| < |old(Stream())|
      ensures |got| < HEADER_LEN ==> 0 < errno && fd == -1
      ensures received + old(closed) == old(received) + closed + Is(fd, watched)
      ensures !dead && some ==> got == h && fd == sentFd && Stream() == rest
      ensures !dead && !some ==> |got| < HEADER_LEN && Stream() == []
      ensures calm && HEADER_LEN <= |old(net)| ==> bufLen == 0
    {
      assert |ahead| == 0 && Stream() == net;
      var n, cells := Read(HEADER_LEN);
      assert Stream() == net;
      if n <= 0 {
        errno := if n == 0 then ECONNRESET else errno;
        got, fd := [], -1;
        return;
      }
      if !dead {
        HeaderChunk(h, sentFd, rest, n);
      }
      fd := FirstFd(cells);
      received := received + Is(fd, watched);
      got, fd := RecvRest(BytesOf(cells), fd, h, rest);
    }

    /** Read what is missing of the header `h`; a captured descriptor is closed if that fails. */
    method RecvRest(part: seq<Byte>, partFd: int, ghost h: seq<Byte>, ghost rest: seq<Cell>)
      returns (got: seq<Byte>, fd: int)
      requires Shape() && 1 <= |part| <= HEADER_LEN == |h|
      requires !dead ==> part == h[..|part|] && Leads(Stream(), h[|part|..], rest)
      modifies this`net, this`dead, this`errno, this`bufOff, this`bufLen, this`ahead, this`closed, recvBuf
      ensures Shape() && Lasts(old(dead)) && |got| <= HEADER_LEN
      ensures |Stream()| <= |old(Stream())| && (|part| == HEADER_LEN ==> bufLen == old(bufLen))
      ensures |got| < HEADER_LEN ==> 0 < errno && fd == -1 && dead
      ensures closed + Is(fd, watched) == old(closed) + Is(partFd, watched) && (fd == partFd || fd == -1)
      ensures !dead ==> got == h && fd == partFd && Stream() == rest
    {
      got, fd := part, partFd;
      if |part| < HEADER_LEN {
        var more := RecvAll(HEADER_LEN - |part|, h[|part|..], rest);
        got := got + more;
        if |got| < HEADER_LEN {
          closed := closed + Is(fd, watched);
          fd := -1;
        }
      }
    }

    /** The header of the next response of `ms`; short when there is none. */
    method RecvHead(ghost ms: seq<Msg>) returns (got: seq<Byte>, fd: int)
      requires Holds(ms)
      modifies this, recvBuf
      ensures Shape() && Lasts(old(dead)) && |got| <= HEADER_LEN && -1 <= fd
      ensures |got| == HEADER_LEN ==> |Stream()| < |old(Stream())|
      ensures |got| < HEADER_LEN ==> 0 < errno && fd == -1
      ensures received + old(closed) == old(received) + closed + Is(fd, watched)
      ensures !dead && ms == [] ==> |got| < HEADER_LEN && Stream() == []
      ensures !dead && ms != [] ==>
                && |got| == HEADER_LEN && Sendable(ms[0]) && AllSendable(ms[1..])
                && Unpack(got) == HeaderOf(ms[0]) && fd == (if old(bufLen) == 0 then ms[0].reply.fd else -1)
                && Stream() == Plain(ms[0].reply.payload) + EncodeAll(ms[1..])
                && (calm && old(bufLen) == 0 ==> bufLen == 0)
    {
      ghost var m, rest := Msg(0, Reply(0, [], -1)), [];
      if !dead && ms != [] {
        StreamHead(ms);
        m, rest := ms[0], Plain(ms[0].reply.payload) + EncodeAll(ms[1..]);
      }
      got, fd := RecvHeader(ms != [], Pack(HeaderOf(m)), m.reply.fd, rest);
    }

    /** The payload `sent`, which the responses `ms` follow unless the connection failed. */
    method RecvPayload(len: nat, ghost sent: seq<Byte>, ghost ms: seq<Msg>) returns (got: seq<Byte>)
      requires Shape()
      requires !dead ==> |sent| == len && AllSendable(ms) && Stream() == Plain(sent) + EncodeAll(ms)
      modifies this`net, this`dead, this`errno, this`bufOff, this`bufLen, this`ahead, recvBuf
      ensures Holds(ms) && Lasts(old(dead)) && |got| <= len
      ensures |Stream()| <= |old(Stream())|
      ensures |got| < len ==> 0 < errno && dead
      ensures !dead ==> got == sent
      ensures calm && old(bufLen) == 0 < len && |old(net)| <= recvBuf.Length ==> net == []
    {
      got := [];
      if 0 < len {
        if !dead {
          PlainLeads(sent, EncodeAll(ms));
        }
        got := RecvAll(len, sent, if dead then [] else EncodeAll(ms));
      } else {
        assert !dead ==> Plain(sent) == [];
      }
    }

    /** One whole response off the stream; false when the connection ended or the response is too long. It comes
        with its descriptor exactly when nothing was read ahead. */
    method RecvMsg(ghost ms: seq<Msg>) returns (ok: bool, m: Msg, ghost rest: seq<Msg>)
      requires Holds(ms)
      modifies this, recvBuf
      ensures Holds(rest) && Lasts(old(dead))
      ensures if ok then |Stream()| < |old(Stream())| else 0 < errno
      ensures received + old(closed) == old(received) + closed + if ok then Is(m.reply.fd, watched) else 0
      ensures !dead ==> if ms == [] then !ok && rest == []
                        else ok && m == (if old(bufLen) == 0 then ms[0] else Stripped(ms[0])) && rest == ms[1..]
      ensures calm && !dead && ms != [] && ms[0].reply.payload != [] ==>
                (old(bufLen) == 0 && |old(Stream())| <= recvBuf.Length ==> net == [])
    {
      ok, m, rest := false, Msg(0, Reply(0, [], -1)), [];
      var got, fd := RecvHead(ms);
      if |got| < HEADER_LEN {
        return;
      }
      ghost var sent: seq<Byte> := [];
      if !dead {
        sent, rest := ms[0].reply.payload, ms[1..];
      }
      var h := Unpack(got);
      if MAX_MSG_LEN < h.len {
        errno := EMSGSIZE;
        closed := closed + Is(fd, watched);
        return;
      }
      var payload := RecvPayload(h.len, sent, rest);
      if |payload| < h.len {
        closed := closed + Is(fd, watched);
        return;
      }
      ok, m := true, Msg(h.id, Reply(h.info, payload, fd));
    }
  }

  lemma {:induction false} OneLength(m: Msg, ms: seq<Msg>)
    requires Sendable(m) && AllSendable(ms)
    ensures AllSendable([m] + ms) && |EncodeAll([m] + ms)| == HEADER_LEN + |m.reply.payload| + |EncodeAll(ms)|
  {
    assert ([m] + ms)[1..] == ms;
  }

  /** A connection with two responses underway, the second with a descriptor. */
  method TwoResponses(ms: seq<Msg>) returns (r: Reader)
    requires ms == [Msg(1, Reply(0, [5], -1))] + [Msg(2, Reply(0, [], 7))]
    ensures fresh(r) && fresh(r.recvBuf) && r.calm && r.Holds(ms) && !r.dead && r.bufLen == 0
    ensures |r.Stream()| == 2 * HEADER_LEN + 1
  {
    r := new Reader(7, true);
    r.Arrive([], ms);
    assert [] + ms == ms;
    OneLength(ms[1], []);
    assert [ms[1]] + [] == [ms[1]];
    OneLength(ms[0], [ms[1]]);
  }

  /** The payload of one response is read with all that has arrived, and the next response comes without its
      descriptor. */
  method DescriptorLost() returns (m: Msg)
    ensures m == Stripped(Msg(2, Reply(0, [], 7)))
  {
    var ms := [Msg(1, Reply(0, [5], -1))] + [Msg(2, Reply(0, [], 7))];
    var r := TwoResponses(ms);
    var ok, first; ghost var rest;
    ok, first, rest := r.RecvMsg(ms);
    assert rest == [ms[1]] && |EncodeAll(rest)| > 0;
    ok, m, rest := r.RecvMsg(rest);
  }

  class Client {
    const reader: Reader
    var responses: seq<Msg>
    /** How many requests were sent; the identifier of the next one wraps at 32 bits. */
    var requests: nat
    /** The responses whose bytes are buffered or in the socket, in server order. */
    ghost var inflight: seq<Msg>
    /** The cached responses as they were sent, with their descriptors. */
    ghost var kept: seq<Msg>
    /** How often a caller was given the watched descriptor, and how often it was closed instead. */
    ghost var handed: nat
    ghost var dropped: nat

    ghost predicate Valid()
      reads this, reader, reader.recvBuf
    {
      reader.Holds(inflight) && Kept(responses, kept) && Accounted(0)
    }

    /** Every copy of the watched descriptor is cached, closed, with a caller, or one of `extra` in hand. */
    ghost predicate Accounted(extra: nat)
      reads this, reader
    {
      reader.received == Held(responses, reader.watched) + reader.closed + dropped + handed + extra
    }

    /** A connected client, for any descriptor to be accounted for. */
    constructor (ghost descriptor: nat, isCalm: bool)
      ensures Valid() && !reader.dead && Pending() == [] && requests == 0
      ensures reader.watched == descriptor && reader.calm == isCalm && fresh(reader) && fresh(reader.recvBuf)
    {
      reader := new Reader(descriptor, isCalm);
      responses, requests, inflight, kept, handed, dropped := [], 0, [], [], 0, 0;
    }

    /** The responses not yet returned, as they were sent, cached ones first. */
    ghost function Pending(): seq<Msg>
      reads this
    {
      kept + inflight
    }

    /** Send a request that the server will answer with `replies`; -1 when it cannot be sent. */
    method Send(replies: seq<Reply>, sendOk: bool) returns (id: int)
      requires Valid() && forall r <- replies :: Short(r)
      modifies this`requests, this`inflight, reader`net
      ensures Valid() && requests == old(requests) + 1 && kept == old(kept) && reader.bufLen == old(reader.bufLen)
      ensures id == -1 || (id == requests % WORD_LIMIT && (requests < WORD_LIMIT ==> id == requests))
      ensures 0 <= id <==> sendOk
      ensures Pending() == if id < 0 then old(Pending()) else old(Pending()) + Msgs(id, replies)
    {
      requests := requests + 1;
      id := -1;
      if sendOk {
        id := requests % WORD_LIMIT;
        reader.Arrive(inflight, Msgs(id, replies));
        inflight := inflight + Msgs(id, replies);
      }
    }

    /** Index of the first cached response to `id`, or the length. */
    method FindCached(id: nat) returns (k: nat)
      ensures k == FirstFor(id, responses)
    {
      k := 0;
      while k < |responses| && responses[k].id != id
        invariant k <= |responses| && forall i | 0 <= i < k :: responses[i].id != id
      {
        k := k + 1;
      }
      FirstForIs(id, responses, k);
    }

    /** The end of gr_api_client_recv_fd, once the response `m` is off the stream and out of the cache. */
    method Deliver(m: Msg, spec: Option<Spec>, wantFd: bool) returns (a: Answer)
      requires reader.Holds(inflight) && Kept(responses, kept) && Accounted(Is(m.reply.fd, reader.watched))
      modifies this`handed, this`dropped
      ensures Valid() && a == Delivered(m, spec, wantFd)
      ensures dropped + handed == old(dropped) + old(handed) + Is(m.reply.fd, reader.watched)
      ensures handed == old(handed) + Is(a.fd, reader.watched)
    {
      a := Judge(m.reply, spec);
      if !wantFd {
        a := a.(fd := -1);
      }
      if a.fd < 0 {
        dropped := dropped + Is(m.reply.fd, reader.watched);
      } else {
        handed := handed + Is(m.reply.fd, reader.watched);
      }
    }

    /** gr_api_client_recv_fd: the oldest pending response to `id` is returned and every other one stays pending,
        in server order. With no such response every pending one is cached and the call fails. If that response is
        the next one in the stream, its descriptor arrives exactly when nothing was read ahead. */
    method RecvFd(spec: Option<Spec>, id: nat, wantFd: bool) returns (a: Answer)
      requires Valid()
      modifies this`responses, this`kept, this`inflight, this`handed, this`dropped, reader, reader.recvBuf
      ensures Valid() && reader.Lasts(old(reader.dead)) && (a.rx != [] ==> Size() < old(Size()))
      ensures !reader.dead ==> Received(old(Pending()), Pending(), inflight, spec, id, wantFd, a)
      ensures !reader.dead && old(Next(id)) ==>
                a == Delivered(old(inflight)[0], spec, wantFd && old(reader.bufLen) == 0)
      ensures CacheKept(old(responses), responses, id)
    {
      ghost var sent;
      var ok, m;
      ok, m, sent := Take(id);
      if ok {
        a := Deliver(m, spec, wantFd);
        if !reader.dead {
          ReceivedIs(old(Pending()), Pending(), inflight, spec, id, wantFd, m, sent, a);
          if old(Next(id)) {
            DeliveredNext(m, old(inflight)[0], old(reader.bufLen) == 0, spec, wantFd);
          }
        }
      } else {
        a := Answer(0 - reader.errno, [], -1);
      }
    }

    /** The next response in the stream is to `id`, and none in the cache is. */
    ghost predicate Next(id: nat)
      reads this
    {
      FirstFor(id, responses) == |responses| && inflight != [] && inflight[0].id == id
    }

    /** gr_api_client_send_recv_fd, for a request with one answer: if no response was pending, the answer comes with
        its descriptor. */
    method Exchange(reply: Reply, spec: Option<Spec>, sendOk: bool) returns (id: int, a: Answer)
      requires Valid() && Short(reply)
      modifies this, reader, reader.recvBuf
      ensures Valid() && reader.Lasts(old(reader.dead))
      ensures 0 <= id <==> sendOk
      ensures !reader.dead && old(Pending()) == [] && sendOk ==>
                a == Delivered(Msg(id, reply), spec, true) && Pending() == []
    {
      a := Answer(-1, [], -1);
      if Pending() == [] {
        NothingAhead();
      }
      id := Send([reply], sendOk);
      if 0 <= id {
        ghost var alone := [Msg(id, reply)];
        if old(Pending()) == [] {
          assert [] + Msgs(id, [reply]) == alone && [] + inflight == inflight;
          assert Next(id);
        }
        a := RecvFd(spec, id, true);
        if old(Pending()) == [] {
          assert FirstFor(id, alone) == 0 && alone[..0] + alone[1..] == [];
        }
      }
    }

    lemma {:induction false} NothingAhead()
      requires Valid() && Pending() == []
      ensures kept == [] && responses == [] && inflight == [] && (!reader.dead ==> reader.bufLen == 0)
    {
    }

    /** Bounds how many more receives can succeed. */
    ghost function Size(): nat
      reads this, reader
    {
      |responses| + |reader.Stream()|
    }

    /** The first response to `id`, from the cache if it has one. */
    method Take(id: nat) returns (ok: bool, m: Msg, ghost sent: Msg)
      requires Valid()
      modifies this`responses, this`kept, this`inflight, reader, reader.recvBuf
      ensures reader.Holds(inflight) && Kept(responses, kept) && reader.Lasts(old(reader.dead))
      ensures Accounted(if ok then Is(m.reply.fd, reader.watched) else 0)
      ensures if ok then Size() < old(Size()) else 0 < reader.errno
      ensures !reader.dead ==> Fetched(old(Pending()), Pending(), inflight, id, ok, sent) && (ok ==> Less(m, sent))
      ensures !reader.dead && old(Next(id)) ==>
                ok && m == if old(reader.bufLen) == 0 then old(inflight)[0] else Stripped(old(inflight)[0])
      ensures CacheKept(old(responses), responses, id)
    {
      var k := FindCached(id);
      if k < |responses| {
        ok := true;
        m, sent := Dequeue(k);
        KeptFirst(old(responses), old(kept), id);
        FirstInFront(id, old(kept), inflight);
      } else {
        ok, m, sent := Fetch(id);
      }
    }

    method Dequeue(k: nat) returns (m: Msg, ghost sent: Msg)
      requires Accounted(0) && Kept(responses, kept) && k < |responses|
      modifies this`responses, this`kept
      ensures m == old(responses)[k] && responses == old(responses)[..k] + old(responses)[k + 1..]
      ensures sent == old(kept)[k] && kept == old(kept)[..k] + old(kept)[k + 1..]
      ensures Kept(responses, kept) && Less(m, sent) && Accounted(Is(m.reply.fd, reader.watched))
    {
      HeldRemove(responses, k, reader.watched);
      m, sent := responses[k], kept[k];
      responses := responses[..k] + responses[k + 1..];
      kept := kept[..k] + kept[k + 1..];
    }

    /** One response off the stream. */
    method FetchOne() returns (ok: bool, m: Msg, ghost sent: Msg)
      requires Valid()
      modifies this`inflight, reader, reader.recvBuf
      ensures reader.Holds(inflight) && reader.Lasts(old(reader.dead)) && Less(m, sent)
      ensures Accounted(if ok then Is(m.reply.fd, reader.watched) else 0)
      ensures if ok then |reader.Stream()| < |old(reader.Stream())| else 0 < reader.errno
      ensures !reader.dead ==> if old(inflight) == [] then !ok && inflight == []
                               else && ok && sent == old(inflight)[0] && inflight == old(inflight)[1..]
                                    && m == if old(reader.bufLen) == 0 then sent else Stripped(sent)
    {
      ghost var rest;
      ok, m, rest := reader.RecvMsg(inflight);
      sent := if !reader.dead && inflight != [] then inflight[0] else m;
      inflight := rest;
    }

    /** The loop of gr_api_client_recv_fd: read responses and cache them up to the first one to `id`. */
    method Fetch(id: nat) returns (ok: bool, m: Msg, ghost sent: Msg)
      requires Valid() && FirstFor(id, responses) == |responses|
      modifies this`responses, this`kept, this`inflight, reader, reader.recvBuf
      ensures reader.Holds(inflight) && Kept(responses, kept)
      ensures reader.Lasts(old(reader.dead)) && old(responses) <= responses
      ensures Accounted(if ok then Is(m.reply.fd, reader.watched) else 0)
      ensures if ok then Size() < old(Size()) else 0 < reader.errno
      ensures !reader.dead ==> Fetched(old(Pending()), Pending(), inflight, id, ok, sent) && (ok ==> Less(m, sent))
      ensures !reader.dead && old(Next(id)) ==>
                ok && m == if old(reader.bufLen) == 0 then old(inflight)[0] else Stripped(old(inflight)[0])
    {
      ghost var pending := Pending();
      ghost var first := true;
      while true
        invariant Valid() && reader.Lasts(old(reader.dead)) && old(responses) <= responses && Size() <= old(Size())
        invariant FirstFor(id, responses) == |responses|
        invariant !reader.dead ==> Pending() == pending
        invariant first ==> inflight == old(inflight) && reader.bufLen == old(reader.bufLen)
        invariant !first && !reader.dead ==> !old(Next(id))
        decreases |reader.Stream()|
      {
        KeptFirst(responses, kept, id);
        FetchStep(id, kept, inflight);
        ok, m, sent := FetchOne();
        if !ok || m.id == id {
          return;
        }
        Enqueue(m, sent, id);
        first := false;
      }
    }

    /** Append a response to some other request to the cache. */
    method Enqueue(m: Msg, ghost sent: Msg, ghost id: nat)
      requires Accounted(Is(m.reply.fd, reader.watched)) && FirstFor(id, responses) == |responses| && m.id != id
      requires Kept(responses, kept) && Less(m, sent)
      modifies this`responses, this`kept
      ensures responses == old(responses) + [m] && kept == old(kept) + [sent] && Kept(responses, kept)
      ensures Accounted(0) && FirstFor(id, responses) == |responses|
    {
      HeldAppend(responses, [m], reader.watched);
      FirstForIs(id, responses + [m], |responses| + 1);
      responses := responses + [m];
      kept := kept + [sent];
    }
  }
}
