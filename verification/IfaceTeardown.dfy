/** Destroying an interface while workers use it (modules/infra/control/iface.c, main/control_queue.c):
    unpublish, wait for an RCU grace period, drain the control queue a bounded number of times, free. */
module IfaceTeardown {
  import opened Common

  type Iface = nat
  type Worker = nat

  /** Where the control thread stands. `items` are the queue items it has popped and not yet handed to their
      callbacks; `drained` is the variable of that name in control_queue_poll and `full` says whether the last
      burst was a full one. */
  datatype Control =
    | Waiting
    | Polling(items: seq<Iface>)
    | Unpublished(i: Iface)
    | Grace(i: Iface, behind: set<Worker>)
    | Draining(i: Iface, drained: nat, items: seq<Iface>, full: bool)

  /** One callback: the interface its item refers to, the interface the drain announces as deleted, and whether
      the former was published or freed at that time. */
  datatype Call = Call(iface: Iface, drain: Option<Iface>, published: bool, freed: bool)

  /** `burst` is RTE_GRAPH_BURST_SIZE, a build-time constant of DPDK; `pushed`, every item ever pushed, is a
      ghost. */
  datatype State = State(
    burst: nat,
    created: set<Iface>,
    published: set<Iface>,
    freed: set<Iface>,
    held: map<Worker, set<Iface>>,
    queue: seq<Iface>,
    control: Control,
    pushed: seq<Iface>,
    calls: seq<Call>
  )

  datatype Action =
    | Create(i: Iface)
    | Acquire(w: Worker, i: Iface)
    | Push(w: Worker, i: Iface)
    | Quiesce(w: Worker)
    | Poll
    | Callback
    | EndPoll
    | Destroy(i: Iface)
    | StartGrace
    | EndGrace
    | Burst
    | Free

  /** CONTROL_QUEUE_SIZE. */
  function QueueSize(s: State): nat { 4 * s.burst }

  predicate Enabled(s: State, a: Action)
  {
    match a
    case Create(i) => s.control.Waiting? && i !in s.created
    case Acquire(w, i) => w in s.held && i in s.published
    case Push(w, i) => w in s.held && i in s.held[w] && |s.queue| < QueueSize(s)
    case Quiesce(w) => w in s.held
    case Poll => s.control.Waiting?
    case Callback => (s.control.Polling? || s.control.Draining?) && s.control.items != []
    case EndPoll => s.control == Polling([])
    case Destroy(i) => s.control.Waiting? && i in s.published
    case StartGrace => s.control.Unpublished?
    case EndGrace => s.control.Grace? && s.control.behind == {}
    case Burst => s.control.Draining? && s.control.items == [] && Again(s)
    case Free => s.control.Draining? && s.control.items == [] && !Again(s)
  }

  /** The `goto again` test of control_queue_poll, and its first pass. */
  predicate Again(s: State)
    requires s.control.Draining?
  {
    s.control.drained == 0 || (s.control.full && s.control.drained < QueueSize(s))
  }

  function BurstLen(s: State): nat
  {
    if |s.queue| < s.burst then |s.queue| else s.burst
  }

  function Announced(c: Control): Option<Iface>
  {
    if c.Draining? then Some(c.i) else None
  }

  function Step(s: State, a: Action): State
    requires Enabled(s, a)
  {
    match a
    case Create(i) => s.(created := s.created + {i}, published := s.published + {i})
    case Acquire(w, i) => s.(held := s.held[w := s.held[w] + {i}])
    case Push(w, i) => s.(queue := s.queue + [i], pushed := s.pushed + [i])
    case Quiesce(w) =>
      s.(held := s.held[w := {}],
         control := if s.control.Grace? then s.control.(behind := s.control.behind - {w}) else s.control)
    case Poll => s.(control := Polling(s.queue[..BurstLen(s)]), queue := s.queue[BurstLen(s)..])
    case Callback =>
      var i := s.control.items[0];
      s.(control := s.control.(items := s.control.items[1..]),
         calls := s.calls + [Call(i, Announced(s.control), i in s.published, i in s.freed)])
    case EndPoll => s.(control := Waiting)
    case Destroy(i) => s.(published := s.published - {i}, control := Unpublished(i))
    case StartGrace => s.(control := Grace(s.control.i, s.held.Keys))
    case EndGrace => s.(control := Draining(s.control.i, 0, [], true))
    case Burst =>
      var n := BurstLen(s);
      s.(control := Draining(s.control.i, s.control.drained + s.burst, s.queue[..n], n == s.burst),
         queue := s.queue[n..])
    case Free => s.(freed := s.freed + {s.control.i}, control := Waiting)
  }

  ghost predicate Init(s: State)
  {
    && 0 < s.burst && s.created == s.published == s.freed == {} && s.queue == [] && s.control == Waiting
    && s.pushed == [] && s.calls == []
    && forall w <- s.held :: s.held[w] == {}
  }

  datatype Trace = Start(init: State) | Then(prefix: Trace, a: Action)

  ghost function End(run: Trace): State
    requires Legal(run)
    decreases run, 1
  {
    match run
    case Start(s) => s
    case Then(prefix, a) => Step(End(prefix), a)
  }

  ghost predicate Legal(run: Trace)
    decreases run, 0
  {
    match run
    case Start(s) => Init(s)
    case Then(prefix, a) => Legal(prefix) && Enabled(End(prefix), a)
  }

  /** The interface being torn down, if any. */
  function Dying(c: Control): set<Iface>
  {
    if c.Waiting? || c.Polling? then {} else {c.i}
  }

  function Popped(c: Control): seq<Iface>
  {
    if c.Polling? || c.Draining? then c.items else []
  }

  /** Everything a worker, the queue or the control thread can still reach is published or being torn down. */
  ghost predicate Reachable(s: State)
  {
    var live := s.published + Dying(s.control);
    && live <= s.created && s.freed <= s.created && live !! s.freed && s.published !! Dying(s.control)
    && (forall w <- s.held :: s.held[w] <= live)
    && (forall i <- s.queue :: i in live)
    && (forall i <- Popped(s.control) :: i in live)
  }

  /** Workers that have passed a quiescent state since the grace period began no longer hold the interface. */
  ghost predicate LetGo(s: State)
  {
    && (s.control.Grace? ==> forall w <- s.held | w !in s.control.behind :: s.control.i !in s.held[w])
    && (s.control.Draining? ==> forall w <- s.held :: s.control.i !in s.held[w])
  }

  /** How far from the head of the queue an item of the interface can still be. */
  ghost predicate Drained(s: State)
  {
    && 0 < s.burst && |s.queue| <= QueueSize(s)
    && (s.control.Draining? ==>
          forall k | 0 <= k < |s.queue| && s.queue[k] == s.control.i ::
            s.control.drained == 0 || (s.control.full && s.control.drained + k < QueueSize(s)))
  }

  /** No callback ever saw a freed interface, and one that saw an unpublished interface was told so. */
  ghost predicate CallsSafe(s: State)
  {
    forall c <- s.calls :: !c.freed && (c.published || c.drain == Some(c.iface))
  }

  function Called(calls: seq<Call>): (r: seq<Iface>)
    ensures |r| == |calls|
  {
    seq(|calls|, k requires 0 <= k < |calls| => calls[k].iface)
  }

  /** Every item pushed has been handed to its callback once, is about to be, or is queued, in order. */
  ghost predicate OnceEach(s: State)
  {
    s.pushed == Called(s.calls) + Popped(s.control) + s.queue
  }

  ghost predicate Safe(s: State)
  {
    Reachable(s) && LetGo(s) && Drained(s) && CallsSafe(s) && OnceEach(s)
  }

  lemma {:induction false} StepReachable(s: State, a: Action)
    requires Safe(s) && Enabled(s, a)
    ensures Reachable(Step(s, a))
  {
  }

  lemma {:induction false} StepLetGo(s: State, a: Action)
    requires Reachable(s) && LetGo(s) && Enabled(s, a)
    ensures LetGo(Step(s, a))
  {
  }

  lemma {:induction false} StepDrained(s: State, a: Action)
    requires LetGo(s) && Drained(s) && Enabled(s, a)
    ensures Drained(Step(s, a))
  {
  }

  lemma {:induction false} StepCalls(s: State, a: Action)
    requires Reachable(s) && CallsSafe(s) && Enabled(s, a)
    ensures CallsSafe(Step(s, a))
  {
  }

  lemma {:induction false} StepOnce(s: State, a: Action)
    requires OnceEach(s) && Enabled(s, a)
    ensures OnceEach(Step(s, a))
  {
    var c, q := Called(s.calls), s.queue;
    match a {
      case Push(w, i) => Enqueued(c, Popped(s.control), q, i);
      case Poll => Dequeued(c, q, BurstLen(s));
      case Burst => Dequeued(c, q, BurstLen(s));
      case Callback => HandedOver(s.calls, s.control.items, q, Step(s, a).calls[|s.calls|]);
      case _ =>
    }
  }

  lemma {:induction false} Enqueued(c: seq<Iface>, p: seq<Iface>, q: seq<Iface>, i: Iface)
    ensures (c + p + q) + [i] == c + p + (q + [i])
  {
  }

  lemma {:induction false} Dequeued(c: seq<Iface>, q: seq<Iface>, n: nat)
    requires n <= |q|
    ensures c + [] + q == c + q[..n] + q[n..]
  {
  }

  lemma {:induction false} HandedOver(calls: seq<Call>, p: seq<Iface>, q: seq<Iface>, call: Call)
    requires p != [] && call.iface == p[0]
    ensures Called(calls) + p + q == Called(calls + [call]) + p[1..] + q
  {
  }

  /** For every interleaving of workers and the control thread. */
  lemma {:induction false} NoCallbackSeesFreed(run: Trace)
    requires Legal(run)
    ensures Safe(End(run))
  {
    match run
    case Start(s) =>
    case Then(prefix, a) =>
      NoCallbackSeesFreed(prefix);
      StepReachable(End(prefix), a);
      StepLetGo(End(prefix), a);
      StepDrained(End(prefix), a);
      StepCalls(End(prefix), a);
      StepOnce(End(prefix), a);
  }
}
