/** Streams of responses: __gr_api_client_stream_drain (api/gr_api_client_impl.h) and the loop of
    gr_api_client_stream_foreach (api/gr_api.h), with nested loops and early break. */
module ApiStream {
  import opened Wire
  import opened ApiClient
  import opened Common

  /** The answers to request `id` among the pending responses, and the other responses. */
  function Of(id: nat, ms: seq<Msg>): seq<Reply>
  {
    if ms == [] then [] else (if ms[0].id == id then [ms[0].reply] else []) + Of(id, ms[1..])
  }

  function Without(id: nat, ms: seq<Msg>): seq<Msg>
  {
    if ms == [] then [] else (if ms[0].id == id then [] else [ms[0]]) + Without(id, ms[1..])
  }

  lemma {:induction false} OfAppend(id: nat, xs: seq<Msg>, ys: seq<Msg>)
    ensures Of(id, xs + ys) == Of(id, xs) + Of(id, ys)
  {
    if xs == [] {
      assert xs + ys == ys;
    } else {
      assert (xs + ys)[1..] == xs[1..] + ys && (xs + ys)[0] == xs[0];
      OfAppend(id, xs[1..], ys);
      var h := if xs[0].id == id then [xs[0].reply] else [];
      assert h + (Of(id, xs[1..]) + Of(id, ys)) == (h + Of(id, xs[1..])) + Of(id, ys);
    }
  }

  /** An answer that ends a stream: a terminator, or one that is turned into an error. */
  predicate Ends(spec: Option<Spec>, r: Reply)
  {
    Judge(r, spec).rx == []
  }

  /** What follows the first ending answer; and the code a loop over the answers finishes with. */
  function After(spec: Option<Spec>, rs: seq<Reply>): seq<Reply>
  {
    if rs == [] then [] else if Ends(spec, rs[0]) then rs[1..] else After(spec, rs[1..])
  }

  function Code(spec: Option<Spec>, rs: seq<Reply>): Option<int>
  {
    if rs == [] then None else if Ends(spec, rs[0]) then Some(Judge(rs[0], spec).ret) else Code(spec, rs[1..])
  }

  predicate Returns(ret: int, code: Option<int>)
  {
    match code
    case None => ret < 0
    case Some(c) => ret == c
  }

  /** The answers up to the first ending one were taken: `rs` is left of `all`, with the same end. */
  predicate Owed(spec: Option<Spec>, all: seq<Reply>, rs: seq<Reply>)
  {
    After(spec, all) == After(spec, rs) && Code(spec, all) == Code(spec, rs)
  }

  /** What a drain of `id` leaves of the pending responses: it takes the answers to `id` up to the first ending one. */
  function Rest(spec: Option<Spec>, id: nat, ms: seq<Msg>): seq<Msg>
  {
    if ms == [] then []
    else if ms[0].id != id then [ms[0]] + Rest(spec, id, ms[1..])
    else if Ends(spec, ms[0].reply) then ms[1..]
    else Rest(spec, id, ms[1..])
  }

  /** No other response is touched, and of the stream itself what follows the first ending answer is left. */
  lemma {:induction false} RestKeeps(spec: Option<Spec>, id: nat, ms: seq<Msg>)
    ensures Without(id, Rest(spec, id, ms)) == Without(id, ms)
    ensures Of(id, Rest(spec, id, ms)) == After(spec, Of(id, ms))
  {
    if ms != [] {
      RestKeeps(spec, id, ms[1..]);
      var rest := Rest(spec, id, ms[1..]);
      if ms[0].id != id {
        assert Rest(spec, id, ms)[0] == ms[0] && Rest(spec, id, ms)[1..] == rest;
        assert Of(id, ms) == Of(id, ms[1..]) && Of(id, Rest(spec, id, ms)) == Of(id, rest);
      } else {
        assert Of(id, ms) == [ms[0].reply] + Of(id, ms[1..]) && Of(id, ms)[1..] == Of(id, ms[1..]);
      }
    }
  }

  lemma {:induction false} RestNone(spec: Option<Spec>, id: nat, ms: seq<Msg>)
    requires forall m <- ms :: m.id != id
    ensures Rest(spec, id, ms) == ms && Of(id, ms) == [] && Without(id, ms) == ms
  {
    if ms != [] {
      RestNone(spec, id, ms[1..]);
    }
  }

  lemma {:induction false} RestAppend(spec: Option<Spec>, id: nat, xs: seq<Msg>, ys: seq<Msg>)
    requires forall m <- xs :: m.id != id
    ensures Rest(spec, id, xs + ys) == xs + Rest(spec, id, ys)
  {
    if xs == [] {
      assert xs + ys == ys;
    } else {
      assert (xs + ys)[1..] == xs[1..] + ys && (xs + ys)[0] == xs[0];
      RestAppend(spec, id, xs[1..], ys);
    }
  }

  /** A stream that is answered in one piece. */
  lemma {:induction false} RestOfMsgs(spec: Option<Spec>, id: nat, rs: seq<Reply>, ys: seq<Msg>)
    requires forall m <- ys :: m.id != id
    ensures Rest(spec, id, Msgs(id, rs) + ys) == Msgs(id, After(spec, rs)) + ys
    ensures Of(id, Msgs(id, rs) + ys) == rs
  {
    var ms := Msgs(id, rs) + ys;
    if rs == [] {
      assert ms == ys;
      RestNone(spec, id, ys);
    } else {
      assert ms[0] == Msg(id, rs[0]) && ms[1..] == Msgs(id, rs[1..]) + ys;
      RestOfMsgs(spec, id, rs[1..], ys);
    }
  }

  /** A receive for `id`: the first response to it is taken, if there is one. */
  predicate Took(spec: Option<Spec>, id: nat, before: seq<Msg>, after: seq<Msg>, a: Answer)
  {
    var k := FirstFor(id, before);
    if k < |before| then a == Judge(before[k].reply, spec).(fd := -1) && after == before[..k] + before[k + 1..]
    else a.ret < 0 && a.rx == [] && after == before
  }

  predicate Drained(spec: Option<Spec>, id: nat, before: seq<Msg>, after: seq<Msg>, ret: int)
  {
    after == Rest(spec, id, before) && Returns(ret, Code(spec, Of(id, before)))
  }

  /** The first answer to `id` among the pending responses. */
  lemma {:induction false} RestAt(spec: Option<Spec>, front: seq<Msg>, m: Msg, back: seq<Msg>)
    requires forall x <- front :: x.id != m.id
    ensures Of(m.id, front + ([m] + back)) == [m.reply] + Of(m.id, back) && Of(m.id, front + back) == Of(m.id, back)
    ensures Rest(spec, m.id, front + ([m] + back))
            == if Ends(spec, m.reply) then front + back else Rest(spec, m.id, front + back)
  {
    RestNone(spec, m.id, front);
    RestAppend(spec, m.id, front, [m] + back);
    RestAppend(spec, m.id, front, back);
    OfAppend(m.id, front, [m] + back);
    OfAppend(m.id, front, back);
    assert ([m] + back)[1..] == back;
  }

  /** One receive of a drain: it ends the drain, or leaves the same to do. */
  lemma {:induction false} DrainStep(spec: Option<Spec>, id: nat, before: seq<Msg>, after: seq<Msg>, a: Answer)
    requires Took(spec, id, before, after, a)
    ensures if a.rx == [] then Drained(spec, id, before, after, a.ret)
            else Rest(spec, id, after) == Rest(spec, id, before)
                 && Code(spec, Of(id, after)) == Code(spec, Of(id, before))
  {
    var k := FirstFor(id, before);
    if k < |before| {
      var front, m, back := before[..k], before[k], before[k + 1..];
      assert before == front + ([m] + back);
      RestAt(spec, front, m, back);
      assert Of(id, before)[1..] == Of(id, after);
    } else {
      RestNone(spec, id, before);
    }
  }

  /** A loop: whether its request can be sent, what the server answers, and what its body does. `Last` is a body that
      does nothing more. */
  datatype Loop = Loop(spec: Option<Spec>, sendOk: bool, replies: seq<Reply>, body: Body)
  datatype Body = Last | Iteration(inner: Loops, leave: bool, next: Body)
  datatype Loops = Done | Run(first: Loop, rest: Loops)

  predicate AllShort(loop: Loop)
    decreases loop
  {
    (forall r <- loop.replies :: Short(r)) && BodyShort(loop.body)
  }

  predicate BodyShort(body: Body)
    decreases body
  {
    body.Iteration? ==> LoopsShort(body.inner) && BodyShort(body.next)
  }

  predicate LoopsShort(loops: Loops)
    decreases loops
  {
    loops.Run? ==> AllShort(loops.first) && LoopsShort(loops.rest)
  }

  function Next(body: Body): Body
  {
    if body.Iteration? then body.next else body
  }

  /** The payloads the body sees: the answers before the first ending one, up to the iteration that leaves. */
  function Seen(spec: Option<Spec>, rs: seq<Reply>, body: Body): seq<seq<Byte>>
  {
    if rs == [] || Ends(spec, rs[0]) then []
    else if body.Iteration? && body.leave then [rs[0].payload]
    else [rs[0].payload] + Seen(spec, rs[1..], Next(body))
  }

  /** How many requests a loop sends, with those of the loops that its body runs. */
  function Count(loop: Loop): (n: nat)
    ensures 1 <= n
    decreases loop
  {
    1 + if loop.sendOk then BodyCount(loop.spec, loop.replies, loop.body) else 0
  }

  function BodyCount(spec: Option<Spec>, rs: seq<Reply>, body: Body): nat
    decreases body
  {
    if rs == [] || Ends(spec, rs[0]) || body.Last? then 0
    else LoopsCount(body.inner) + if body.leave then 0 else BodyCount(spec, rs[1..], body.next)
  }

  function LoopsCount(loops: Loops): nat
    decreases loops
  {
    if loops.Done? then 0 else Count(loops.first) + LoopsCount(loops.rest)
  }

  /** What a loop leaves behind, after `n` requests: of its own stream what follows the first ending answer, then what
      the loops that its body ran left of theirs. */
  function Left(loop: Loop, n: nat): seq<Msg>
    decreases loop
  {
    if loop.sendOk
    then Msgs(n + 1, After(loop.spec, loop.replies)) + BodyLeft(loop.spec, loop.replies, loop.body, n + 1)
    else []
  }

  function BodyLeft(spec: Option<Spec>, rs: seq<Reply>, body: Body, n: nat): seq<Msg>
    decreases body
  {
    if rs == [] || Ends(spec, rs[0]) || body.Last? then []
    else
      LoopsLeft(body.inner, n)
      + if body.leave then [] else BodyLeft(spec, rs[1..], body.next, n + LoopsCount(body.inner))
  }

  function LoopsLeft(loops: Loops, n: nat): seq<Msg>
    decreases loops
  {
    if loops.Done? then [] else Left(loops.first, n) + LoopsLeft(loops.rest, n + Count(loops.first))
  }

  /** In every stream of a loop that runs, the server sends nothing after the first ending answer. */
  predicate Neat(loop: Loop)
    decreases loop
  {
    loop.sendOk ==> After(loop.spec, loop.replies) == [] && BodyNeat(loop.spec, loop.replies, loop.body)
  }

  predicate BodyNeat(spec: Option<Spec>, rs: seq<Reply>, body: Body)
    decreases body
  {
    rs == [] || Ends(spec, rs[0]) || body.Last?
    || (LoopsNeat(body.inner) && (body.leave || BodyNeat(spec, rs[1..], body.next)))
  }

  predicate LoopsNeat(loops: Loops)
    decreases loops
  {
    loops.Run? ==> Neat(loops.first) && LoopsNeat(loops.rest)
  }

  /** A loop leaves nothing exactly when the server ends every stream that was asked for at its first ending answer. */
  lemma {:induction false} LeftExactly(loop: Loop, n: nat)
    ensures Left(loop, n) == [] <==> Neat(loop)
    decreases loop
  {
    BodyLeftExactly(loop.spec, loop.replies, loop.body, n + 1);
    assert |Left(loop, n)| == if loop.sendOk then |After(loop.spec, loop.replies)|
                                                  + |BodyLeft(loop.spec, loop.replies, loop.body, n + 1)| else 0;
  }

  lemma {:induction false} BodyLeftExactly(spec: Option<Spec>, rs: seq<Reply>, body: Body, n: nat)
    ensures BodyLeft(spec, rs, body, n) == [] <==> BodyNeat(spec, rs, body)
    decreases body
  {
    if rs != [] && body.Iteration? {
      LoopsLeftExactly(body.inner, n);
      BodyLeftExactly(spec, rs[1..], body.next, n + LoopsCount(body.inner));
    }
  }

  lemma {:induction false} LoopsLeftExactly(loops: Loops, n: nat)
    ensures LoopsLeft(loops, n) == [] <==> LoopsNeat(loops)
    decreases loops
  {
    if loops.Run? {
      LeftExactly(loops.first, n);
      LoopsLeftExactly(loops.rest, n + Count(loops.first));
    }
  }

  /** Responses to requests after the first `n`, up to the first `m`. */
  predicate Between(ms: seq<Msg>, n: nat, m: nat)
  {
    forall x <- ms :: n < x.id <= m
  }

  /** What is left is left of the loop's own requests. */
  lemma {:induction false} LeftBetween(loop: Loop, n: nat)
    ensures Between(Left(loop, n), n, n + Count(loop))
    decreases loop
  {
    BodyLeftBetween(loop.spec, loop.replies, loop.body, n + 1);
  }

  lemma {:induction false} BodyLeftBetween(spec: Option<Spec>, rs: seq<Reply>, body: Body, n: nat)
    ensures Between(BodyLeft(spec, rs, body, n), n, n + BodyCount(spec, rs, body))
    decreases body
  {
    if rs != [] && body.Iteration? {
      LoopsLeftBetween(body.inner, n);
      BodyLeftBetween(spec, rs[1..], body.next, n + LoopsCount(body.inner));
    }
  }

  lemma {:induction false} LoopsLeftBetween(loops: Loops, n: nat)
    ensures Between(LoopsLeft(loops, n), n, n + LoopsCount(loops))
    decreases loops
  {
    if loops.Run? {
      LeftBetween(loops.first, n);
      LoopsLeftBetween(loops.rest, n + Count(loops.first));
    }
  }

  /** The answers to earlier requests are as they were, and of the loop's own stream what follows the first ending
      answer is left. */
  lemma {:induction false} LeftOwn(ms: seq<Msg>, loop: Loop, n: nat, id: nat)
    requires forall m <- ms :: m.id <= n
    ensures id <= n ==> Of(id, ms + Left(loop, n)) == Of(id, ms)
    ensures id == n + 1 && loop.sendOk ==> Of(id, ms + Left(loop, n)) == After(loop.spec, loop.replies)
  {
    OfAppend(id, ms, Left(loop, n));
    LeftBetween(loop, n);
    if id <= n {
      RestNone(loop.spec, id, Left(loop, n));
      assert Of(id, ms) + [] == Of(id, ms);
    } else if id == n + 1 && loop.sendOk {
      var left := BodyLeft(loop.spec, loop.replies, loop.body, id);
      BodyLeftBetween(loop.spec, loop.replies, loop.body, id);
      RestNone(loop.spec, id, ms);
      RestOfMsgs(loop.spec, id, After(loop.spec, loop.replies), left);
    }
  }

  /** The connection did not fail and identifiers have not wrapped. */
  ghost predicate Alive(c: Client)
    reads c, c.reader
  {
    !c.reader.dead && c.requests < WORD_LIMIT
  }

  /** Every pending response is to a request that was sent. */
  ghost predicate Fresh(c: Client)
    reads c
  {
    UpTo(c.Pending(), c.requests)
  }

  predicate UpTo(ms: seq<Msg>, n: nat)
  {
    forall m <- ms :: m.id <= n
  }

  /** `left` was added to the pending responses by `k` requests, the first `n` having been sent. */
  predicate Added(before: seq<Msg>, n: nat, after: seq<Msg>, m: nat, left: seq<Msg>, k: nat)
  {
    after == before + left && m == n + k && Between(left, n, m)
  }

  lemma {:induction false} AddedFresh(before: seq<Msg>, n: nat, after: seq<Msg>, m: nat, left: seq<Msg>, k: nat)
    requires Added(before, n, after, m, left, k) && UpTo(before, n)
    ensures UpTo(after, m)
  {
  }

  lemma {:induction false} AddedTwice(before: seq<Msg>, n: nat, mid: seq<Msg>, m: nat, after: seq<Msg>, o: nat,
                                      loops: Loops)
    requires loops.Run? && Added(before, n, mid, m, Left(loops.first, n), Count(loops.first))
    requires Added(mid, m, after, o, LoopsLeft(loops.rest, m), LoopsCount(loops.rest))
    ensures Added(before, n, after, o, LoopsLeft(loops, n), LoopsCount(loops))
  {
    Regroup(before, Left(loops.first, n), LoopsLeft(loops.rest, m));
  }

  /** The loop for request `id` under way, with `before` pending when it began: `rs` is left of its stream, `extra` of
      the loops that its body ran, it has seen `seen` and will do `body` next. */
  predicate Running(loop: Loop, id: nat, before: seq<Msg>, now: seq<Msg>, requests: nat, seen: seq<seq<Byte>>,
                    rs: seq<Reply>, extra: seq<Msg>, body: Body)
  {
    && now == before + (Msgs(id, rs) + extra) && id <= requests && Between(extra, id, requests)
    && Owed(loop.spec, loop.replies, rs)
    && seen + Seen(loop.spec, rs, body) == Seen(loop.spec, loop.replies, loop.body)
    && extra + BodyLeft(loop.spec, rs, body, requests) == BodyLeft(loop.spec, loop.replies, loop.body, id)
    && requests + BodyCount(loop.spec, rs, body) == id + BodyCount(loop.spec, loop.replies, loop.body)
  }

  /** What a loop returns, and what its body saw. */
  predicate Result(loop: Loop, ret: int, seen: seq<seq<Byte>>)
  {
    if loop.sendOk then
      seen == Seen(loop.spec, loop.replies, loop.body) && Returns(ret, Code(loop.spec, loop.replies))
    else seen == [] && ret < 0
  }

  /** The loop is over: it met the end of its stream or, if it was left, still owes a drain. */
  predicate Over(loop: Loop, id: nat, before: seq<Msg>, now: seq<Msg>, requests: nat, seen: seq<seq<Byte>>,
                 rs: seq<Reply>, done: bool, ret: int)
  {
    && now == before + (Msgs(id, rs) + BodyLeft(loop.spec, loop.replies, loop.body, id))
    && requests == id + BodyCount(loop.spec, loop.replies, loop.body)
    && seen == Seen(loop.spec, loop.replies, loop.body)
    && if done then rs == After(loop.spec, loop.replies) && Returns(ret, Code(loop.spec, loop.replies))
       else Owed(loop.spec, loop.replies, rs)
  }

  lemma {:induction false} FirstBetween(front: seq<Msg>, m: Msg, back: seq<Msg>)
    requires forall x <- front :: x.id != m.id
    ensures var ms, k := front + ([m] + back), |front|;
            FirstFor(m.id, ms) == k && ms[k] == m && ms[..k] + ms[k + 1..] == front + back
  {
    FirstForIs(m.id, front + ([m] + back), |front|);
  }

  /** A receive in a loop takes the next answer of its stream. */
  lemma {:induction false} TookNext(spec: Option<Spec>, id: nat, before: seq<Msg>, rs: seq<Reply>, extra: seq<Msg>,
                                    after: seq<Msg>, a: Answer)
    requires (forall m <- before :: m.id != id) && (forall m <- extra :: m.id != id)
    requires Took(spec, id, before + (Msgs(id, rs) + extra), after, a)
    ensures if rs == [] then a.ret < 0 && a.rx == [] && after == before + (Msgs(id, rs) + extra)
            else a == Judge(rs[0], spec).(fd := -1) && after == before + (Msgs(id, rs[1..]) + extra)
  {
    if rs != [] {
      FirstBetween(before, Msg(id, rs[0]), Msgs(id, rs[1..]) + extra);
      assert Msgs(id, rs) + extra == [Msg(id, rs[0])] + (Msgs(id, rs[1..]) + extra);
    } else {
      FirstForIs(id, before + (Msgs(id, rs) + extra), |before| + |extra|);
    }
  }

  lemma {:induction false} RunningFresh(id: nat, before: seq<Msg>, rs: seq<Reply>, extra: seq<Msg>, requests: nat)
    requires 0 < id <= requests && UpTo(before, id - 1) && Between(extra, id, requests)
    ensures UpTo(before + (Msgs(id, rs) + extra), requests)
  {
  }

  /** One round of the loop, up to the loops in its body. */
  lemma {:induction false} Round(loop: Loop, id: nat, before: seq<Msg>, now: seq<Msg>, after: seq<Msg>, requests: nat,
                                 seen: seq<seq<Byte>>, rs: seq<Reply>, extra: seq<Msg>, body: Body, a: Answer)
    requires Running(loop, id, before, now, requests, seen, rs, extra, body) && Took(loop.spec, id, now, after, a)
    requires forall m <- before :: m.id != id
    ensures a.rx == [] ==> Over(loop, id, before, after, requests, seen, After(loop.spec, rs), true, a.ret)
    ensures a.rx != [] ==>
              && 0 < a.ret && rs != [] && !Ends(loop.spec, rs[0]) && a.rx == rs[0].payload
              && after == before + (Msgs(id, rs[1..]) + extra)
    ensures a.rx != [] && body.Last? ==>
              Running(loop, id, before, after, requests, seen + [a.rx], rs[1..], extra, body)
  {
    TookNext(loop.spec, id, before, rs, extra, after, a);
  }

  /** The loops in the body ran. */
  lemma {:induction false} Inner(loop: Loop, id: nat, before: seq<Msg>, now: seq<Msg>, requests: nat,
                                 seen: seq<seq<Byte>>, rs: seq<Reply>, extra: seq<Msg>, body: Body, after: seq<Msg>,
                                 total: nat, ret: int)
    requires Running(loop, id, before, now, requests, seen, rs, extra, body) && body.Iteration?
    requires rs != [] && !Ends(loop.spec, rs[0])
    requires Added(before + (Msgs(id, rs[1..]) + extra), requests, after, total, LoopsLeft(body.inner, requests),
                   LoopsCount(body.inner))
    ensures var left := extra + LoopsLeft(body.inner, requests);
            if body.leave then Over(loop, id, before, after, total, seen + [rs[0].payload], rs[1..], false, ret)
            else Running(loop, id, before, after, total, seen + [rs[0].payload], rs[1..], left, body.next)
  {
    var left := LoopsLeft(body.inner, requests);
    assert after == before + (Msgs(id, rs[1..]) + (extra + left));
    var more := if body.leave then []
                else BodyLeft(loop.spec, rs[1..], body.next, requests + LoopsCount(body.inner));
    assert extra + (left + more) == (extra + left) + more;
  }

  /** A loop that ended by itself, or was left and drained. */
  lemma {:induction false} Finished(loop: Loop, id: nat, before: seq<Msg>, mid: seq<Msg>, after: seq<Msg>,
                                    requests: nat, seen: seq<seq<Byte>>, rs: seq<Reply>, done: bool, r: int, ret: int)
    requires 0 < id && UpTo(before, id - 1) && loop.sendOk
    requires Over(loop, id, before, mid, requests, seen, rs, done, r)
    requires if done then after == mid && ret == r else Drained(loop.spec, id, mid, after, ret)
    ensures Added(before, id - 1, after, requests, Left(loop, id - 1), Count(loop))
    ensures Result(loop, ret, seen)
  {
    var left := BodyLeft(loop.spec, loop.replies, loop.body, id);
    BodyLeftBetween(loop.spec, loop.replies, loop.body, id);
    LeftBetween(loop, id - 1);
    if !done {
      RestAppend(loop.spec, id, before, Msgs(id, rs) + left);
      RestOfMsgs(loop.spec, id, rs, left);
      OfAppend(id, before, Msgs(id, rs) + left);
      RestNone(loop.spec, id, before);
      assert Of(id, mid) == [] + rs == rs;
    }
  }

  /** gr_api_client_recv. */
  method RecvNext(c: Client, spec: Option<Spec>, id: nat) returns (a: Answer)
    requires c.Valid()
    modifies c`responses, c`kept, c`inflight, c`handed, c`dropped, c.reader, c.reader.recvBuf
    ensures c.Valid() && c.reader.Lasts(old(c.reader.dead)) && (a.rx != [] ==> c.Size() < old(c.Size()))
    ensures !c.reader.dead ==> Took(spec, id, old(c.Pending()), c.Pending(), a)
  {
    a := c.RecvFd(spec, id, false);
  }

  /** __gr_api_client_stream_drain: takes the answers to `id` up to the first ending one and nothing else. */
  method Drain(c: Client, spec: Option<Spec>, id: nat) returns (ret: int)
    requires c.Valid()
    modifies c`responses, c`kept, c`inflight, c`handed, c`dropped, c.reader, c.reader.recvBuf
    ensures c.Valid() && c.reader.Lasts(old(c.reader.dead))
    ensures !c.reader.dead ==> Drained(spec, id, old(c.Pending()), c.Pending(), ret)
  {
    ghost var before := c.Pending();
    var more := true;
    ret := 0;
    while more
      invariant c.Valid() && c.reader.Lasts(old(c.reader.dead))
      invariant !c.reader.dead && more ==>
                  && Rest(spec, id, c.Pending()) == Rest(spec, id, before)
                  && Code(spec, Of(id, c.Pending())) == Code(spec, Of(id, before))
      invariant !c.reader.dead && !more ==> Drained(spec, id, before, c.Pending(), ret)
      decreases more, c.Size()
    {
      ghost var now := c.Pending();
      var a := RecvNext(c, spec, id);
      if !c.reader.dead {
        DrainStep(spec, id, now, c.Pending(), a);
      }
      ret, more := a.ret, a.rx != [];
    }
  }

  /** Send a request; its identifier is new as long as identifiers have not wrapped. */
  method Request(c: Client, replies: seq<Reply>, sendOk: bool) returns (id: int)
    requires c.Valid() && forall r <- replies :: Short(r)
    modifies c`requests, c`inflight, c.reader`net
    ensures c.Valid() && c.reader.dead == old(c.reader.dead) && c.requests == old(c.requests) + 1
    ensures 0 <= id <==> sendOk
    ensures id < 0 ==> c.Pending() == old(c.Pending())
    ensures 0 <= id && c.requests < WORD_LIMIT ==>
              id == c.requests && c.Pending() == old(c.Pending()) + Msgs(id, replies)
  {
    id := c.Send(replies, sendOk);
  }

  /** The request was just sent, and its answers are the last of the pending responses. */
  ghost predicate Begun(c: Client, loop: Loop, id: nat, before: seq<Msg>)
    reads c
  {
    0 < id == c.requests && UpTo(before, id - 1) && c.Pending() == before + Msgs(id, loop.replies)
  }

  /** gr_api_client_stream_foreach. Leaving the loop, early or not, leaves of its stream what the server sent after
      the first ending answer, then what the loops in its body left of theirs, and everything that was pending. */
  method Foreach(c: Client, loop: Loop) returns (ret: int, seen: seq<seq<Byte>>)
    requires c.Valid() && AllShort(loop)
    modifies c, c.reader, c.reader.recvBuf
    ensures c.Valid() && c.reader.Lasts(old(c.reader.dead)) && old(c.requests) < c.requests
    ensures loop.body.Last? ==> c.requests == old(c.requests) + 1
    ensures Alive(c) && old(Fresh(c)) ==>
              && Added(old(c.Pending()), old(c.requests), c.Pending(), c.requests,
                       Left(loop, old(c.requests)), Count(loop))
              && (c.Pending() == old(c.Pending()) <==> Neat(loop))
              && Result(loop, ret, seen)
    decreases loop, 3
  {
    seen := [];
    ret := Request(c, loop.replies, loop.sendOk);
    if 0 <= ret {
      ret, seen := Serve(c, loop, ret, old(c.Pending()));
    }
    LeftExactly(loop, old(c.requests));
  }

  /** The loop, once its request was sent. */
  method Serve(c: Client, loop: Loop, id: nat, ghost before: seq<Msg>) returns (ret: int, seen: seq<seq<Byte>>)
    requires c.Valid() && AllShort(loop)
    modifies c, c.reader, c.reader.recvBuf
    ensures c.Valid() && c.reader.Lasts(old(c.reader.dead)) && old(c.requests) <= c.requests
    ensures loop.body.Last? ==> c.requests == old(c.requests)
    ensures Alive(c) && loop.sendOk && old(Begun(c, loop, id, before)) ==>
              && Added(before, id - 1, c.Pending(), c.requests, Left(loop, id - 1), Count(loop))
              && Result(loop, ret, seen)
    decreases loop, 2
  {
    var done, r; ghost var rs;
    done, r, seen, rs := Iterate(c, loop, id, before);
    ghost var mid := c.Pending();
    ret := r;
    if !done {
      ret := Drain(c, loop.spec, id);
    }
    if Alive(c) && loop.sendOk && old(Begun(c, loop, id, before)) {
      Finished(loop, id, before, mid, c.Pending(), c.requests, seen, rs, done, r, ret);
    }
  }

  /** One round of the inner loop: a receive, then the loops in the body. */
  method Turn(c: Client, loop: Loop, id: nat, ghost before: seq<Msg>, was: seq<seq<Byte>>, ghost rs: seq<Reply>,
              ghost extra: seq<Msg>, body: Body)
    returns (done: bool, ret: int, seen: seq<seq<Byte>>, ghost left: seq<Msg>)
    requires c.Valid() && BodyShort(body) && (loop decreases to body)
    modifies c, c.reader, c.reader.recvBuf
    ensures c.Valid() && c.reader.Lasts(old(c.reader.dead)) && old(c.requests) <= c.requests
    ensures !body.Iteration? ==> c.requests == old(c.requests) && (done || c.Size() < old(c.Size()))
    ensures Alive(c) && 0 < id && UpTo(before, id - 1)
            && Running(loop, id, before, old(c.Pending()), old(c.requests), was, rs, extra, body) ==>
              if done then Over(loop, id, before, c.Pending(), c.requests, seen, After(loop.spec, rs), true, ret)
              else if body.Iteration? && body.leave then
                rs != [] && Over(loop, id, before, c.Pending(), c.requests, seen, rs[1..], false, ret)
              else rs != [] && Running(loop, id, before, c.Pending(), c.requests, seen, rs[1..], left, Next(body))
    decreases loop, 0
  {
    ghost var now, n := c.Pending(), c.requests;
    ghost var live := 0 < id && UpTo(before, id - 1) && Running(loop, id, before, now, n, was, rs, extra, body);
    var a := RecvNext(c, loop.spec, id);
    if Alive(c) && live {
      Round(loop, id, before, now, c.Pending(), n, was, rs, extra, body, a);
    }
    done, ret, seen, left := a.ret < 0 || a.rx == [], a.ret, was, extra;
    if !done {
      seen := was + [a.rx];
      if body.Iteration? {
        if Alive(c) && live {
          RunningFresh(id, before, rs[1..], extra, n);
        }
        RunAll(c, body.inner);
        left := extra + LoopsLeft(body.inner, n);
        if Alive(c) && live {
          Inner(loop, id, before, now, n, was, rs, extra, body, c.Pending(), c.requests, ret);
        }
      }
    }
  }

  /** The inner for loop of gr_api_client_stream_foreach; `done` is false when the body left it. */
  method Iterate(c: Client, loop: Loop, id: nat, ghost before: seq<Msg>)
    returns (done: bool, ret: int, seen: seq<seq<Byte>>, ghost rs: seq<Reply>)
    requires c.Valid() && AllShort(loop)
    modifies c, c.reader, c.reader.recvBuf
    ensures c.Valid() && c.reader.Lasts(old(c.reader.dead)) && old(c.requests) <= c.requests
    ensures loop.body.Last? ==> c.requests == old(c.requests)
    ensures Alive(c) && old(Begun(c, loop, id, before)) ==>
              Over(loop, id, before, c.Pending(), c.requests, seen, rs, done, ret)
    decreases loop, 1
  {
    var body, running := loop.body, true;
    done, ret, seen := false, 0, [];
    rs := loop.replies;
    ghost var extra: seq<Msg> := [];
    while running
      invariant c.Valid() && c.reader.Lasts(old(c.reader.dead)) && old(c.requests) <= c.requests
      invariant (running ==> !done) && (loop decreases to body) && BodyShort(body)
      invariant loop.body.Last? ==> body.Last? && c.requests == old(c.requests)
      invariant Alive(c) && old(Begun(c, loop, id, before)) ==>
                  if running then Running(loop, id, before, c.Pending(), c.requests, seen, rs, extra, body)
                  else Over(loop, id, before, c.Pending(), c.requests, seen, rs, done, ret)
      decreases running, body, c.Size()
    {
      done, ret, seen, extra := Turn(c, loop, id, before, seen, rs, extra, body);
      rs := if done then After(loop.spec, rs) else if rs == [] then [] else rs[1..];
      running, body := !done && !(body.Iteration? && body.leave), Next(body);
    }
  }

  /** Loops run one after the other in the body of another. */
  method RunAll(c: Client, loops: Loops)
    requires c.Valid() && LoopsShort(loops)
    modifies c, c.reader, c.reader.recvBuf
    ensures c.Valid() && c.reader.Lasts(old(c.reader.dead)) && old(c.requests) <= c.requests
    ensures Alive(c) && old(Fresh(c)) ==>
              Added(old(c.Pending()), old(c.requests), c.Pending(), c.requests,
                    LoopsLeft(loops, old(c.requests)), LoopsCount(loops))
    decreases loops, 0
  {
    if loops.Run? {
      ghost var before, n := c.Pending(), c.requests;
      var _, _ := Foreach(c, loops.first);
      ghost var mid, m := c.Pending(), c.requests;
      if Alive(c) && old(Fresh(c)) {
        AddedFresh(before, n, mid, m, Left(loops.first, n), Count(loops.first));
      }
      RunAll(c, loops.rest);
      if Alive(c) && old(Fresh(c)) {
        AddedTwice(before, n, mid, m, c.Pending(), c.requests, loops);
      }
    }
  }

  function ShortFirst(): seq<Reply>
  {
    [Reply(0, [7], -1), Reply(0, [1, 2, 3, 4], -1), Reply(0, [], -1)]
  }

  lemma {:induction false} AfterShort()
    ensures After(Some(Spec(4, true)), ShortFirst()) == [Reply(0, [1, 2, 3, 4], -1), Reply(0, [], -1)]
    ensures AllShort(Loop(Some(Spec(4, true)), true, ShortFirst(), Last))
  {
  }

  /** An inner loop that meets such an answer leaves the rest of its own stream, and the outer one goes on. */
  lemma {:induction false} NestedShortAnswer()
    ensures var spec := Some(Spec(4, true));
            var two := [Reply(0, [1, 2, 3, 4], -1), Reply(0, [5, 6, 7, 8], -1), Reply(0, [], -1)];
            var body := Iteration(Run(Loop(spec, true, ShortFirst(), Last), Done), false, Last);
            && Left(Loop(spec, true, two, body), 0) == Msgs(2, After(spec, ShortFirst()))
            && Seen(spec, two, body) == [[1, 2, 3, 4], [5, 6, 7, 8]] && Code(spec, two) == Some(0)
  {
    var spec := Some(Spec(4, true));
    var last := [Reply(0, [], -1)];
    var one := [Reply(0, [5, 6, 7, 8], -1)] + last;
    var two := [Reply(0, [1, 2, 3, 4], -1)] + one;
    assert two == [Reply(0, [1, 2, 3, 4], -1), Reply(0, [5, 6, 7, 8], -1), Reply(0, [], -1)];
    assert two[1..] == one && one[1..] == last;
    AfterShort();
  }

  /** An answer below the minimum size ends the loop early, and what the server sent after it stays behind. */
  method ShortAnswerLeavesRest() returns (c: Client)
    ensures c.Valid() && Alive(c)
    ensures c.Pending() == Msgs(1, [Reply(0, [1, 2, 3, 4], -1), Reply(0, [], -1)])
  {
    c := new Client(0, true);
    AfterShort();
    var _, _ := Foreach(c, Loop(Some(Spec(4, true)), true, ShortFirst(), Last));
  }
}
