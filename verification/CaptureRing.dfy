/** The multi-producer single-consumer capture ring (modules/infra/control/capture.h,
    modules/infra/api/gr_capture.h).

    Positions are natural numbers here; `Tests32` shows that the 32-bit comparisons of the source decide the same
    as long as producers stay less than 2^32 positions ahead of the consumer. */
module CaptureRing {
  import opened Arithmetic

  /** One word of a slot: a header field or a piece of packet data. */
  type Cell = nat

  datatype Slot = Slot(sequence: nat, cells: seq<Cell>)

  /** The consumer between the loads of gr_capture_ring_dequeue. The ghost `late` has the cells that the next
      producer of the slot had already written when they were copied. */
  datatype Consumer =
    | Outside
    | SawHead(prod: nat)
    | Copying(pos: nat, out: seq<Cell>, late: set<nat>)

  /** A dequeue that returned true, with the value of prod_head at the re-check. */
  datatype Delivery = Delivery(pos: nat, out: seq<Cell>, late: set<nat>, prodAt: nat)

  /** `frames` (what the producer of each position wants to write) and `delivered` are ghosts. `inflight` gives,
      for each position reserved and not yet published, how many cells have been written. */
  datatype State = State(
    width: nat,
    slots: seq<Slot>,
    prodHead: nat,
    consHead: nat,
    inflight: map<nat, nat>,
    consumer: Consumer,
    frames: seq<seq<Cell>>,
    delivered: seq<Delivery>
  )

  datatype Action =
    | Reserve(frame: seq<Cell>)
    | Write(q: nat)
    | Publish(q: nat)
    | LoadHead
    | CheckSequence
    | CopyCell
    | Recheck

  /** What the step functions need: indices in range. */
  ghost predicate Shape(s: State)
  {
    && 0 < |s.slots| && |s.frames| == s.prodHead && s.consHead <= s.prodHead
    && (forall j | 0 <= j < |s.slots| :: |s.slots[j].cells| == s.width && s.slots[j].sequence <= s.prodHead)
    && (forall q <- s.inflight :: q < s.prodHead && s.inflight[q] <= |s.frames[q]|)
    && (forall q | 0 <= q < |s.frames| :: |s.frames[q]| <= s.width)
    && ConsumerShape(s)
  }

  predicate ConsumerShape(s: State)
  {
    match s.consumer
    case Outside => true
    case SawHead(prod) => s.consHead < prod <= s.prodHead
    case Copying(pos, out, _) => pos == s.consHead < s.prodHead && |out| <= s.width
  }

  /** The slot of position `q` in a ring of `n`: the remainder, as `WrapIsMod` shows. */
  function Wrap(q: nat, n: nat): (j: nat)
    requires 0 < n
    ensures j < n
  {
    if q < n then q else Wrap(q - n, n)
  }

  lemma {:induction false} WrapIsMod(q: nat, n: nat)
    requires 0 < n
    ensures Wrap(q, n) == q % n
  {
    if n <= q {
      WrapIsMod(q - n, n);
      ModUnique(q, n, (q - n) / n + 1, (q - n) % n);
    }
  }

  function SlotOf(s: State, q: nat): nat
    requires 0 < |s.slots|
  {
    Wrap(q, |s.slots|)
  }

  /** The producer one turn after `pos` is in flight and has written cell `i`. */
  predicate Overwritten(s: State, pos: nat, i: nat)
  {
    var next := pos + |s.slots|;
    next in s.inflight && i < s.inflight[next]
  }

  predicate Enabled(s: State, a: Action)
  {
    match a
    case Reserve(frame) => |frame| <= s.width
    case Write(q) => q in s.inflight && q < |s.frames| && s.inflight[q] < |s.frames[q]|
    case Publish(q) => q in s.inflight && q < |s.frames| && s.inflight[q] == |s.frames[q]|
    case LoadHead => s.consumer.Outside?
    case CheckSequence => s.consumer.SawHead?
    case CopyCell => s.consumer.Copying? && |s.consumer.out| < s.width
    case Recheck => s.consumer.Copying? && |s.consumer.out| == s.width
  }

  function Step(s: State, a: Action): State
    requires Shape(s) && Enabled(s, a)
  {
    match a
    case Reserve(frame) =>
      s.(prodHead := s.prodHead + 1, inflight := s.inflight[s.prodHead := 0], frames := s.frames + [frame])
    case Write(q) =>
      var j, k := SlotOf(s, q), s.inflight[q];
      s.(slots := s.slots[j := s.slots[j].(cells := s.slots[j].cells[k := s.frames[q][k]])],
         inflight := s.inflight[q := k + 1])
    case Publish(q) =>
      var j := SlotOf(s, q);
      s.(slots := s.slots[j := s.slots[j].(sequence := q + 1)], inflight := s.inflight - {q})
    case LoadHead =>
      s.(consumer := if s.consHead == s.prodHead then Outside else SawHead(s.prodHead))
    case CheckSequence =>
      var pos, prod := s.consHead, s.consumer.prod;
      if s.slots[SlotOf(s, pos)].sequence != pos + 1 then
        s.(consumer := Outside, consHead := if prod - pos > |s.slots| then prod - |s.slots| else pos)
      else
        s.(consumer := Copying(pos, [], {}))
    case CopyCell =>
      var Copying(pos, out, late) := s.consumer;
      s.(consumer := Copying(pos, out + [s.slots[SlotOf(s, pos)].cells[|out|]],
                             if Overwritten(s, pos, |out|) then late + {|out|} else late))
    case Recheck =>
      var Copying(pos, out, late) := s.consumer;
      var s' := s.(consumer := Outside, consHead := pos + 1);
      if s.slots[SlotOf(s, pos)].sequence != pos + 1 then s'
      else s'.(delivered := s.delivered + [Delivery(pos, out, late, s.prodHead)])
  }

  /** capture_session_start: a zeroed ring. */
  ghost predicate Init(s: State)
  {
    && 0 < |s.slots| && s.prodHead == s.consHead == 0 && s.inflight == map[] && s.consumer == Outside
    && s.frames == [] && s.delivered == []
    && forall j | 0 <= j < |s.slots| :: |s.slots[j].cells| == s.width && s.slots[j].sequence == 0
  }

  datatype Trace = Start(init: State) | Then(prefix: Trace, a: Action)

  ghost function End(run: Trace): State
    requires Legal(run)
    decreases run, 1
  {
    match run
    case Start(s) => s
    case Then(prefix, a) => Step(End(prefix), a)
  }

  ghost predicate Legal(run: Trace)
    decreases run, 0
  {
    match run
    case Start(s) => Init(s)
    case Then(prefix, a) => Legal(prefix) && Shape(End(prefix)) && Enabled(End(prefix), a)
  }

  lemma {:induction false} StepShape(s: State, a: Action)
    requires Shape(s) && Enabled(s, a)
    ensures Shape(Step(s, a))
  {
  }

  // ----- Every run -----

  /** Deliveries have strictly increasing positions, all below cons_head. */
  ghost predicate Ordered(s: State)
  {
    && (forall i, j | 0 <= i < j < |s.delivered| :: s.delivered[i].pos < s.delivered[j].pos)
    && (forall i | 0 <= i < |s.delivered| :: s.delivered[i].pos < s.consHead)
  }

  /** In every run, whatever producers do, the consumer delivers each position at most once, in increasing
      order, and never one that was not reserved. */
  lemma {:induction false} DeliversInOrder(run: Trace)
    requires Legal(run)
    ensures Shape(End(run)) && Ordered(End(run))
  {
    match run
    case Start(s) =>
    case Then(prefix, a) =>
      DeliversInOrder(prefix);
      StepShape(End(prefix), a);
      StepOrdered(End(prefix), a);
  }

  lemma {:induction false} StepOrdered(s: State, a: Action)
    requires Shape(s) && Enabled(s, a) && Ordered(s)
    ensures Ordered(Step(s, a))
  {
  }

  // ----- Runs without lapped producers -----

  /** No producer still writing has been overtaken by a full turn of the ring. */
  ghost predicate NotLapped(s: State)
  {
    forall q <- s.inflight :: s.prodHead <= q + |s.slots|
  }

  ghost predicate Unlapped(run: Trace)
    requires Legal(run)
    decreases run
  {
    NotLapped(End(run)) && (run.Then? ==> Unlapped(run.prefix))
  }

  /** `q` is the last position reserved in its slot. */
  predicate Latest(s: State, q: nat)
  {
    q < s.prodHead <= q + |s.slots|
  }

  /** The cells `from` to `to` are those of the frame, as far as it goes. */
  predicate Holds(cells: seq<Cell>, frame: seq<Cell>, from: nat, to: nat)
  {
    forall i | from <= i < to && i < |frame| :: i < |cells| && cells[i] == frame[i]
  }

  /** What the slot of its latest position holds: the frame once it is published; while it is written, the sequence
      number and the remaining cells of the position a turn before. */
  ghost predicate SlotHolds(s: State, q: nat)
    requires Shape(s) && Latest(s, q)
  {
    var slot, n := s.slots[SlotOf(s, q)], |s.slots|;
    if q !in s.inflight then
      slot.sequence == q + 1 && Holds(slot.cells, s.frames[q], 0, s.width)
    else
      && Holds(slot.cells, s.frames[q], 0, s.inflight[q])
      && if q < n then slot.sequence == 0
         else slot.sequence == q - n + 1 && Holds(slot.cells, s.frames[q - n], s.inflight[q], s.width)
  }

  ghost predicate SlotsHold(s: State)
    requires Shape(s)
  {
    && (forall q: nat | Latest(s, q) :: SlotHolds(s, q))
    && forall j | s.prodHead <= j < |s.slots| :: s.slots[j].sequence == 0
  }

  /** Cells copied at position `pos`: those of `late` come from the frame a turn later, the others from its own. */
  ghost predicate Copied(frames: seq<seq<Cell>>, n: nat, pos: nat, out: seq<Cell>, late: set<nat>)
    requires pos < |frames|
  {
    && (forall i <- late :: i < |out| && pos + n < |frames| && i < |frames[pos + n]|)
    && forall i | 0 <= i < |out| && i < |frames[pos]| ::
         out[i] == if i in late then frames[pos + n][i] else frames[pos][i]
  }

  /** What the consumer has copied, as long as the sequence number stays. */
  ghost predicate CopyHolds(s: State)
    requires Shape(s)
  {
    s.consumer.Copying? ==>
      var Copying(pos, out, late) := s.consumer;
      && pos !in s.inflight
      && (s.slots[SlotOf(s, pos)].sequence == pos + 1 ==> Copied(s.frames, |s.slots|, pos, out, late))
  }

  /** What every delivery holds, and that it has cells of a later frame only if that was reserved. */
  ghost predicate DeliveriesHold(s: State)
    requires Shape(s)
  {
    forall d <- s.delivered ::
      && d.pos < |s.frames| && |d.out| == s.width && Copied(s.frames, |s.slots|, d.pos, d.out, d.late)
      && (d.late != {} ==> d.pos + |s.slots| < d.prodAt)
  }

  /** The consumer has moved past a position only by delivering it or after its slot was reserved again. */
  ghost predicate NothingLost(s: State)
  {
    forall q: nat | q < s.consHead :: WasDelivered(s, q) || q + |s.slots| < s.prodHead
  }

  ghost predicate WasDelivered(s: State, q: nat)
  {
    exists i :: 0 <= i < |s.delivered| && s.delivered[i].pos == q
  }

  ghost predicate Sound(s: State)
  {
    Shape(s) && SlotsHold(s) && CopyHolds(s) && DeliveriesHold(s) && NothingLost(s)
  }

  /** Two positions less than a turn apart do not share a slot. */
  lemma {:induction false} SameSlot(n: nat, a: nat, b: nat)
    requires 0 < n && Wrap(a, n) == Wrap(b, n) && a < b + n && b < a + n
    ensures a == b
  {
    if n <= a && n <= b {
      SameSlot(n, a - n, b - n);
    }
  }

  /** The latest position in the slot of `pos`. */
  lemma {:induction false} LatestIn(n: nat, pos: nat, head: nat) returns (q: nat)
    requires 0 < n && pos < head
    ensures pos <= q < head <= q + n && Wrap(q, n) == Wrap(pos, n) && (q == pos || pos + n <= q)
    decreases head - pos
  {
    q := pos;
    if pos + n < head {
      q := LatestIn(n, pos + n, head);
    }
  }

  /** If the slot of `pos` has its sequence number, `pos` is the latest there, or the next one is and in flight. */
  lemma {:induction false} Unpublished(s: State, pos: nat)
    requires Shape(s) && SlotsHold(s) && NotLapped(s) && pos < s.prodHead
    requires s.slots[SlotOf(s, pos)].sequence == pos + 1
    ensures pos !in s.inflight
    ensures if s.prodHead <= pos + |s.slots| then SlotHolds(s, pos)
            else var next := pos + |s.slots|;
                 next in s.inflight && SlotOf(s, next) == SlotOf(s, pos) && Latest(s, next) && SlotHolds(s, next)
  {
    var q := LatestIn(|s.slots|, pos, s.prodHead);
    assert SlotHolds(s, q);
  }

  lemma {:induction false} ReserveSound(s: State, frame: seq<Cell>)
    requires Shape(s) && SlotsHold(s) && |frame| <= s.width && NotLapped(Step(s, Reserve(frame)))
    ensures Shape(Step(s, Reserve(frame))) && SlotsHold(Step(s, Reserve(frame)))
  {
    var s', p, n := Step(s, Reserve(frame)), s.prodHead, |s.slots|;
    StepShape(s, Reserve(frame));
    if n <= p {
      assert p - n in s.inflight ==> p - n in s'.inflight;
      assert SlotHolds(s, p - n);
      assert SlotOf(s, p - n) == SlotOf(s, p);
    }
    forall q: nat | Latest(s', q)
      ensures SlotHolds(s', q)
    {
      if q < p {
        assert SlotHolds(s, q);
      }
    }
  }

  /** A producer in flight that is not lapped changes no slot but its own. */
  lemma {:induction false} OnlyItsSlot(s: State, q: nat, r: nat)
    requires Shape(s) && NotLapped(s) && q in s.inflight && Latest(s, r) && r != q
    ensures SlotOf(s, r) != SlotOf(s, q)
  {
    if SlotOf(s, r) == SlotOf(s, q) {
      SameSlot(|s.slots|, q, r);
    }
  }

  lemma {:induction false} WriteSound(s: State, q: nat)
    requires Shape(s) && SlotsHold(s) && NotLapped(s) && Enabled(s, Write(q))
    ensures Shape(Step(s, Write(q))) && SlotsHold(Step(s, Write(q)))
  {
    StepShape(s, Write(q));
    var s' := Step(s, Write(q));
    forall r: nat | Latest(s', r)
      ensures SlotHolds(s', r)
    {
      assert SlotHolds(s, r);
      if r != q {
        OnlyItsSlot(s, q, r);
      }
    }
  }

  lemma {:induction false} PublishSound(s: State, q: nat)
    requires Shape(s) && SlotsHold(s) && NotLapped(s) && Enabled(s, Publish(q))
    ensures Shape(Step(s, Publish(q))) && SlotsHold(Step(s, Publish(q)))
  {
    StepShape(s, Publish(q));
    var s' := Step(s, Publish(q));
    forall r: nat | Latest(s', r)
      ensures SlotHolds(s', r)
    {
      assert SlotHolds(s, r);
      if r != q {
        OnlyItsSlot(s, q, r);
      }
    }
  }

  lemma {:induction false} StepSlots(s: State, a: Action)
    requires Shape(s) && SlotsHold(s) && NotLapped(s) && Enabled(s, a) && NotLapped(Step(s, a))
    ensures Shape(Step(s, a)) && SlotsHold(Step(s, a))
  {
    StepShape(s, a);
    match a
    case Reserve(frame) => ReserveSound(s, frame);
    case Write(q) => WriteSound(s, q);
    case Publish(q) => PublishSound(s, q);
    case _ => SameSlots(s, Step(s, a));
  }

  lemma {:induction false} SameSlots(s: State, s': State)
    requires Shape(s) && SlotsHold(s) && Shape(s')
    requires (s'.width, s'.slots, s'.prodHead) == (s.width, s.slots, s.prodHead)
    requires (s'.inflight, s'.frames) == (s.inflight, s.frames)
    ensures SlotsHold(s')
  {
    forall q: nat | Latest(s', q)
      ensures SlotHolds(s', q)
    {
      assert Latest(s, q);
      assert SlotHolds(s, q);
    }
  }

  /** The next cell that the consumer copies. */
  lemma {:induction false} NextCell(s: State, pos: nat, i: nat)
    requires Shape(s) && SlotsHold(s) && NotLapped(s) && pos < s.prodHead
    requires s.slots[SlotOf(s, pos)].sequence == pos + 1 && i < |s.frames[pos]|
    ensures var cell := s.slots[SlotOf(s, pos)].cells[i];
            if Overwritten(s, pos, i) then
              pos + |s.slots| < |s.frames| && i < |s.frames[pos + |s.slots|]| && cell == s.frames[pos + |s.slots|][i]
            else cell == s.frames[pos][i]
  {
    Unpublished(s, pos);
  }

  lemma {:induction false} CopySound(s: State)
    requires Shape(s) && SlotsHold(s) && NotLapped(s) && CopyHolds(s) && Enabled(s, CopyCell)
    ensures Shape(Step(s, CopyCell)) && CopyHolds(Step(s, CopyCell))
  {
    StepShape(s, CopyCell);
    var Copying(pos, out, late) := s.consumer;
    if s.slots[SlotOf(s, pos)].sequence == pos + 1 && |out| < |s.frames[pos]| {
      NextCell(s, pos, |out|);
    }
  }

  /** A producer that publishes in the slot of `pos` changes its sequence number. */
  lemma {:induction false} StepCopy(s: State, a: Action)
    requires Shape(s) && SlotsHold(s) && NotLapped(s) && CopyHolds(s) && Enabled(s, a)
    ensures Shape(Step(s, a)) && CopyHolds(Step(s, a))
  {
    StepShape(s, a);
    match a
    case CopyCell => CopySound(s);
    case CheckSequence =>
      if s.slots[SlotOf(s, s.consHead)].sequence == s.consHead + 1 {
        Unpublished(s, s.consHead);
      }
    case _ =>
  }

  lemma {:induction false} StepDeliveries(s: State, a: Action)
    requires Shape(s) && CopyHolds(s) && DeliveriesHold(s) && Enabled(s, a)
    ensures Shape(Step(s, a)) && DeliveriesHold(Step(s, a))
  {
    StepShape(s, a);
    var s' := Step(s, a);
    forall d <- s'.delivered
      ensures d.pos < |s'.frames| && |d.out| == s'.width && Copied(s'.frames, |s'.slots|, d.pos, d.out, d.late)
      ensures d.late != {} ==> d.pos + |s'.slots| < d.prodAt
    {
      if d in s.delivered {
        CopiedGrows(s.frames, s'.frames, |s.slots|, d.pos, d.out, d.late);
      }
    }
  }

  lemma {:induction false} CopiedGrows(frames: seq<seq<Cell>>, more: seq<seq<Cell>>, n: nat, pos: nat, out: seq<Cell>,
                                       late: set<nat>)
    requires frames <= more && pos < |frames| && Copied(frames, n, pos, out, late)
    ensures Copied(more, n, pos, out, late)
  {
  }

  /** Without lapped producers, every cell of a delivery is the one of its frame or, if the producer a turn later had
      already written it when it was copied, the one of that frame. */
  lemma {:induction false} DeliversFrames(run: Trace)
    requires Legal(run) && Unlapped(run)
    ensures Sound(End(run))
  {
    match run
    case Start(s) =>
    case Then(prefix, a) =>
      DeliversFrames(prefix);
      StepSlots(End(prefix), a);
      StepCopy(End(prefix), a);
      StepDeliveries(End(prefix), a);
      StepLoss(End(prefix), a);
  }

  /** Without lapped producers, a delivery is exactly the frame that the producer of its position wrote if and only if
      no cell in which the two frames differ was written before it was copied; none was if the slot had not been
      reserved again at the re-check. */
  lemma {:induction false} IntactExactly(run: Trace, d: Delivery)
    requires Legal(run) && Unlapped(run) && d in End(run).delivered
    ensures var frames, next := End(run).frames, d.pos + |End(run).slots|;
            && d.pos < |frames| && (forall i <- d.late :: next < |frames| && i < |frames[next]|)
            && (frames[d.pos] <= d.out <==>
                forall i <- d.late | i < |frames[d.pos]| :: frames[next][i] == frames[d.pos][i])
            && (d.prodAt <= next ==> d.late == {} && frames[d.pos] <= d.out)
  {
    DeliversFrames(run);
  }

  lemma {:induction false} StepLoss(s: State, a: Action)
    requires Shape(s) && SlotsHold(s) && NotLapped(s) && CopyHolds(s) && NothingLost(s) && Enabled(s, a)
    ensures NothingLost(Step(s, a))
  {
    var s' := Step(s, a);
    forall q: nat | q < s'.consHead
      ensures WasDelivered(s', q) || q + |s'.slots| < s'.prodHead
    {
      if q < s.consHead && WasDelivered(s, q) {
        var i :| 0 <= i < |s.delivered| && s.delivered[i].pos == q;
        assert s'.delivered[i].pos == q;
      } else if a.Recheck? && q == s.consHead {
        if Latest(s, q) {
          assert SlotHolds(s, q);
          assert s'.delivered[|s.delivered|].pos == q;
        }
      }
    }
  }

  // ----- Why the hypotheses are needed -----

  /** The run ends in `s`, without a lapped producer if `strict`. */
  ghost predicate Leads(run: Trace, s: State, strict: bool)
  {
    Legal(run) && End(run) == s && (strict ==> Unlapped(run))
  }

  /** A ring of one slot of two cells. */
  function Tiny(sequence: nat, a: Cell, b: Cell, prodHead: nat, consHead: nat, inflight: map<nat, nat>,
                consumer: Consumer, frames: seq<seq<Cell>>, delivered: seq<Delivery>): State
  {
    State(2, [Slot(sequence, [a, b])], prodHead, consHead, inflight, consumer, frames, delivered)
  }

  ghost predicate Same(x: State, y: State)
  {
    && x.width == y.width && |x.slots| == |y.slots| == 1
    && x.slots[0].sequence == y.slots[0].sequence && x.slots[0].cells == y.slots[0].cells
    && x.prodHead == y.prodHead && x.consHead == y.consHead && x.inflight == y.inflight
    && SameConsumer(x.consumer, y.consumer)
    && x.frames == y.frames && x.delivered == y.delivered
  }

  ghost predicate SameConsumer(x: Consumer, y: Consumer)
  {
    if x.Copying? then y.Copying? && x.pos == y.pos && x.out == y.out && x.late == y.late else x == y
  }

  lemma {:induction false} Go(run: Trace, s: State, a: Action, s': State, strict: bool) returns (run': Trace)
    requires Leads(run, s, strict) && Enabled(s, a) && (Shape(s) ==> Same(s', Step(s, a)))
    requires strict ==> NotLapped(s')
    ensures Leads(run', s', strict)
  {
    DeliversInOrder(run);
    run' := Then(run, a);
    assert s'.slots == Step(s, a).slots;
  }

  /** A producer writes its next cell. */
  lemma {:induction false} GoWrite(run: Trace, s: State, q: nat, k: nat, cell: Cell, s': State, strict: bool)
    returns (run': Trace)
    requires Leads(run, s, strict) && |s.slots| == 1 && |s.slots[0].cells| == 2
    requires q in s.inflight && s.inflight[q] == k && q < |s.frames| && k < |s.frames[q]| <= 2 && s.frames[q][k] == cell
    requires |s'.slots| == 1 && s'.slots[0].sequence == s.slots[0].sequence
    requires s'.slots[0].cells == (if k == 0 then [cell, s.slots[0].cells[1]] else [s.slots[0].cells[0], cell])
    requires s'.inflight == s.inflight[q := k + 1] && (strict ==> NotLapped(s'))
    requires (s'.width, s'.prodHead, s'.consHead, s'.consumer) == (s.width, s.prodHead, s.consHead, s.consumer)
    requires (s'.frames, s'.delivered) == (s.frames, s.delivered)
    ensures Leads(run', s', strict)
  {
    WrapIsMod(q, 1);
    run' := Go(run, s, Write(q), s', strict);
  }

  /** The consumer copies its next cell. */
  lemma {:induction false} GoCopy(run: Trace, s: State, cell: Cell, s': State, strict: bool) returns (run': Trace)
    requires Leads(run, s, strict) && |s.slots| == 1 && |s.slots[0].cells| == s.width == 2
    requires s.consumer.Copying? && |s.consumer.out| < 2 && s.slots[0].cells[|s.consumer.out|] == cell
    requires s'.consumer.Copying? && s'.consumer.pos == s.consumer.pos
    requires s'.consumer.out == s.consumer.out + [cell]
    requires var i := |s.consumer.out|;
             s'.consumer.late == s.consumer.late + if Overwritten(s, s.consumer.pos, i) then {i} else {}
    requires (s'.width, s'.slots, s'.prodHead, s'.consHead) == (s.width, s.slots, s.prodHead, s.consHead)
    requires (s'.inflight, s'.frames, s'.delivered) == (s.inflight, s.frames, s.delivered)
    requires strict ==> NotLapped(s')
    ensures Leads(run', s', strict)
  {
    WrapIsMod(s.consumer.pos, 1);
    run' := Go(run, s, CopyCell, s', strict);
  }

  lemma {:induction false} FirstReserve(strict: bool) returns (run: Trace)
    ensures Leads(run, Tiny(0, 0, 0, 1, 0, map[0 := 0], Outside, [[1, 1]], []), strict)
  {
    var s0 := Tiny(0, 0, 0, 0, 0, map[], Outside, [], []);
    run := Go(Start(s0), s0, Reserve([1, 1]), Tiny(0, 0, 0, 1, 0, map[0 := 0], Outside, [[1, 1]], []), strict);
  }

  /** The first frame is reserved and its first cell written. */
  lemma {:induction false} FirstCell(strict: bool) returns (run: Trace)
    ensures Leads(run, Tiny(0, 1, 0, 1, 0, map[0 := 1], Outside, [[1, 1]], []), strict)
  {
    var s1 := Tiny(0, 0, 0, 1, 0, map[0 := 0], Outside, [[1, 1]], []);
    run := FirstReserve(strict);
    run := GoWrite(run, s1, 0, 0, 1, Tiny(0, 1, 0, 1, 0, map[0 := 1], Outside, [[1, 1]], []), strict);
  }

  /** The first frame is published. */
  lemma {:induction false} FirstFrame() returns (run: Trace)
    ensures Leads(run, Tiny(1, 1, 1, 1, 0, map[], Outside, [[1, 1]], []), true)
  {
    var s2 := Tiny(0, 1, 0, 1, 0, map[0 := 1], Outside, [[1, 1]], []);
    var s3 := Tiny(0, 1, 1, 1, 0, map[0 := 2], Outside, [[1, 1]], []);
    run := FirstCell(true);
    run := GoWrite(run, s2, 0, 1, 1, s3, true);
    run := Go(run, s3, Publish(0), Tiny(1, 1, 1, 1, 0, map[], Outside, [[1, 1]], []), true);
  }

  /** The consumer is about to copy it. */
  lemma {:induction false} TornReadChecked() returns (run: Trace)
    ensures Leads(run, Tiny(1, 1, 1, 1, 0, map[], Copying(0, [], {}), [[1, 1]], []), true)
  {
    var s4 := Tiny(1, 1, 1, 1, 0, map[], Outside, [[1, 1]], []);
    var s5 := Tiny(1, 1, 1, 1, 0, map[], SawHead(1), [[1, 1]], []);
    run := FirstFrame();
    run := Go(run, s4, LoadHead, s5, true);
    run := Go(run, s5, CheckSequence, Tiny(1, 1, 1, 1, 0, map[], Copying(0, [], {}), [[1, 1]], []), true);
  }

  lemma {:induction false} TornReadReserved() returns (run: Trace)
    ensures Leads(run, Tiny(1, 1, 1, 2, 0, map[1 := 0], Copying(0, [], {}), [[1, 1], [2]], []), true)
  {
    var s6 := Tiny(1, 1, 1, 1, 0, map[], Copying(0, [], {}), [[1, 1]], []);
    run := TornReadChecked();
    run := Go(run, s6, Reserve([2]), Tiny(1, 1, 1, 2, 0, map[1 := 0], Copying(0, [], {}), [[1, 1], [2]], []), true);
  }

  /** The next producer writes its only cell. */
  lemma {:induction false} TornReadWritten() returns (run: Trace)
    ensures Leads(run, Tiny(1, 2, 1, 2, 0, map[1 := 1], Copying(0, [], {}), [[1, 1], [2]], []), true)
  {
    var s7 := Tiny(1, 1, 1, 2, 0, map[1 := 0], Copying(0, [], {}), [[1, 1], [2]], []);
    run := TornReadReserved();
    run := GoWrite(run, s7, 1, 0, 2, Tiny(1, 2, 1, 2, 0, map[1 := 1], Copying(0, [], {}), [[1, 1], [2]], []), true);
  }

  lemma {:induction false} TornReadCopied() returns (run: Trace)
    ensures Leads(run, Tiny(1, 2, 1, 2, 0, map[1 := 1], Copying(0, [2, 1], {0}), [[1, 1], [2]], []), true)
  {
    var s8 := Tiny(1, 2, 1, 2, 0, map[1 := 1], Copying(0, [], {}), [[1, 1], [2]], []);
    var s9 := Tiny(1, 2, 1, 2, 0, map[1 := 1], Copying(0, [2], {0}), [[1, 1], [2]], []);
    run := TornReadWritten();
    run := GoCopy(run, s8, 2, s9, true);
    run := GoCopy(run, s9, 1, Tiny(1, 2, 1, 2, 0, map[1 := 1], Copying(0, [2, 1], {0}), [[1, 1], [2]], []), true);
  }

  /** A producer that has reserved the slot again but not published yet leaves the sequence number as it was: the
      re-check passes and a torn frame is delivered, though no producer is lapped. */
  lemma {:induction false} TornRead() returns (run: Trace)
    ensures Legal(run) && Unlapped(run)
    ensures End(run).frames == [[1, 1], [2]] && End(run).delivered == [Delivery(0, [2, 1], {0}, 2)]
  {
    var s10 := Tiny(1, 2, 1, 2, 0, map[1 := 1], Copying(0, [2, 1], {0}), [[1, 1], [2]], []);
    run := TornReadCopied();
    run := Go(run, s10, Recheck,
              Tiny(1, 2, 1, 2, 1, map[1 := 1], Outside, [[1, 1], [2]], [Delivery(0, [2, 1], {0}, 2)]), true);
  }

  /** Producer 0 stops after one cell, and producer 1 reserves the same slot. */
  lemma {:induction false} LappedReserved() returns (run: Trace)
    ensures Leads(run, Tiny(0, 1, 0, 2, 0, map[0 := 1, 1 := 0], Outside, [[1, 1], [2, 2]], []), false)
  {
    var s1 := Tiny(0, 1, 0, 1, 0, map[0 := 1], Outside, [[1, 1]], []);
    run := FirstCell(false);
    run := Go(run, s1, Reserve([2, 2]),
              Tiny(0, 1, 0, 2, 0, map[0 := 1, 1 := 0], Outside, [[1, 1], [2, 2]], []), false);
  }

  lemma {:induction false} LappedWritten() returns (run: Trace)
    ensures Leads(run, Tiny(0, 2, 2, 2, 0, map[0 := 1, 1 := 2], Outside, [[1, 1], [2, 2]], []), false)
  {
    var s2 := Tiny(0, 1, 0, 2, 0, map[0 := 1, 1 := 0], Outside, [[1, 1], [2, 2]], []);
    var s3 := Tiny(0, 2, 0, 2, 0, map[0 := 1, 1 := 1], Outside, [[1, 1], [2, 2]], []);
    run := LappedReserved();
    run := GoWrite(run, s2, 1, 0, 2, s3, false);
    run := GoWrite(run, s3, 1, 1, 2, Tiny(0, 2, 2, 2, 0, map[0 := 1, 1 := 2], Outside, [[1, 1], [2, 2]], []), false);
  }

  /** Producer 1 publishes. */
  lemma {:induction false} LappedPublished() returns (run: Trace)
    ensures Leads(run, Tiny(2, 2, 2, 2, 0, map[0 := 1], Outside, [[1, 1], [2, 2]], []), false)
  {
    var s4 := Tiny(0, 2, 2, 2, 0, map[0 := 1, 1 := 2], Outside, [[1, 1], [2, 2]], []);
    run := LappedWritten();
    run := Go(run, s4, Publish(1), Tiny(2, 2, 2, 2, 0, map[0 := 1], Outside, [[1, 1], [2, 2]], []), false);
  }

  /** The consumer skips to position 1 and checks its sequence number. */
  lemma {:induction false} LappedChecked() returns (run: Trace)
    ensures Leads(run, Tiny(2, 2, 2, 2, 1, map[0 := 1], Copying(1, [], {}), [[1, 1], [2, 2]], []), false)
  {
    var frames := [[1, 1], [2, 2]];
    var s5 := Tiny(2, 2, 2, 2, 0, map[0 := 1], Outside, frames, []);
    var s6 := Tiny(2, 2, 2, 2, 0, map[0 := 1], SawHead(2), frames, []);
    var s7 := Tiny(2, 2, 2, 2, 1, map[0 := 1], Outside, frames, []);
    var s8 := Tiny(2, 2, 2, 2, 1, map[0 := 1], SawHead(2), frames, []);
    run := LappedPublished();
    run := Go(run, s5, LoadHead, s6, false);
    run := Go(run, s6, CheckSequence, s7, false);
    run := Go(run, s7, LoadHead, s8, false);
    run := Go(run, s8, CheckSequence, Tiny(2, 2, 2, 2, 1, map[0 := 1], Copying(1, [], {}), frames, []), false);
  }

  /** Producer 0 goes on. */
  lemma {:induction false} LappedResumed() returns (run: Trace)
    ensures Leads(run, Tiny(2, 2, 1, 2, 1, map[0 := 2], Copying(1, [], {}), [[1, 1], [2, 2]], []), false)
  {
    var s9 := Tiny(2, 2, 2, 2, 1, map[0 := 1], Copying(1, [], {}), [[1, 1], [2, 2]], []);
    run := LappedChecked();
    run := GoWrite(run, s9, 0, 1, 1,
                   Tiny(2, 2, 1, 2, 1, map[0 := 2], Copying(1, [], {}), [[1, 1], [2, 2]], []), false);
  }

  /** The consumer copies the slot. */
  lemma {:induction false} LappedCopied() returns (run: Trace)
    ensures Leads(run, Tiny(2, 2, 1, 2, 1, map[0 := 2], Copying(1, [2, 1], {}), [[1, 1], [2, 2]], []), false)
  {
    var frames := [[1, 1], [2, 2]];
    var s10 := Tiny(2, 2, 1, 2, 1, map[0 := 2], Copying(1, [], {}), frames, []);
    var s11 := Tiny(2, 2, 1, 2, 1, map[0 := 2], Copying(1, [2], {}), frames, []);
    run := LappedResumed();
    run := GoCopy(run, s10, 2, s11, false);
    run := GoCopy(run, s11, 1, Tiny(2, 2, 1, 2, 1, map[0 := 2], Copying(1, [2, 1], {}), frames, []), false);
  }

  /** A producer that was lapped while writing tears a frame whose slot was not reserved again. */
  lemma {:induction false} LappedWrite() returns (run: Trace)
    ensures Legal(run) && !Unlapped(run) && |End(run).slots| == 1
    ensures End(run).frames == [[1, 1], [2, 2]] && End(run).delivered == [Delivery(1, [2, 1], {}, 2)]
  {
    var s12 := Tiny(2, 2, 1, 2, 1, map[0 := 2], Copying(1, [2, 1], {}), [[1, 1], [2, 2]], []);
    var s13 := Tiny(2, 2, 1, 2, 2, map[0 := 2], Outside, [[1, 1], [2, 2]], [Delivery(1, [2, 1], {}, 2)]);
    run := LappedCopied();
    run := Go(run, s12, Recheck, s13, false);
    assert 0 in s13.inflight && 0 + |s13.slots| < s13.prodHead;
  }

  // ----- 32-bit positions -----

  const U32: nat := 0x1_0000_0000

  /** The tests of gr_capture_ring_dequeue on 32-bit positions decide as on the positions themselves. */
  predicate Decided(pos: nat, prod: nat, sequence: nat)
  {
    && (pos % U32 == prod % U32 <==> pos == prod)
    && (prod % U32 - pos % U32) % U32 == prod - pos
    && (sequence % U32 == (pos % U32 + 1) % U32 <==> sequence == pos + 1)
  }

  lemma {:induction false} Window32(pos: nat, prod: nat, sequence: nat)
    requires pos < prod < pos + U32 && sequence <= prod && pos + 1 < sequence + U32
    ensures Decided(pos, prod, sequence)
  {
  }

  /** How far the sequence number of a slot can be behind. */
  lemma {:induction false} SequenceNear(s: State, pos: nat)
    requires Shape(s) && SlotsHold(s) && pos < s.prodHead
    ensures pos + 1 <= s.slots[SlotOf(s, pos)].sequence + |s.slots|
  {
    var q := LatestIn(|s.slots|, pos, s.prodHead);
    assert SlotHolds(s, q);
  }

  /** In a run without lapped producers, in a ring of fewer than 2^32 slots, the tests that the consumer makes on
      32-bit positions decide as on the positions, as long as it is less than 2^32 positions behind. */
  lemma {:induction false} Tests32(run: Trace, s: State)
    requires Legal(run) && Unlapped(run) && s == End(run)
    requires |s.slots| < U32 && s.consHead < s.prodHead < s.consHead + U32
    ensures Shape(s) && Decided(s.consHead, s.prodHead, s.slots[SlotOf(s, s.consHead)].sequence)
  {
    DeliversFrames(run);
    SequenceNear(s, s.consHead);
    Window32(s.consHead, s.prodHead, s.slots[SlotOf(s, s.consHead)].sequence);
  }

  /** Whole turns do not change the slot. */
  lemma {:induction false} WrapTurns(q: nat, n: nat, turns: nat)
    requires 0 < n && n * turns <= q
    ensures Wrap(q - n * turns, n) == Wrap(q, n)
  {
    if 0 < turns {
      MulDist(n, turns - 1, 1);
      WrapTurns(q, n, turns - 1);
    }
  }

  /** The slot of a 32-bit position is the slot of the position, for a slot count that divides 2^32. */
  lemma {:induction false} Slot32(pos: nat, count: nat)
    requires 0 < count && U32 % count == 0
    ensures Wrap(pos % U32, count) == Wrap(pos, count)
  {
    var turns, x := U32 / count, pos / U32;
    assert U32 == count * turns;
    MulAssoc(count, turns, x);
    WrapTurns(pos, count, turns * x);
  }
}
