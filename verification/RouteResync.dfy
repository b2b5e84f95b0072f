/** The zebra plugin's resynchronisation with grout (frr/zebra_dplane_grout.c).

    Event handlers are atomic steps. Each handler may fail, and a disconnection may be noticed at any time; both
    lead to a full reconnection. The RIB's early-route queue is a FIFO that something else drains. */
module RouteResync {
  import opened Common

  /** An entry of the early-route queue or of the RIB: a route replayed from a VRF in some generation, the drain
      marker, or a route of another origin. */
  datatype Entry = Route(gen: nat, vrf: nat, n: nat) | Marker | Other(n: nat)

  datatype DplaneEvent = SyncIfaces | SyncAddrs(vrf: nat)
  datatype ZebraEvent = SyncFdb | SyncNhs(vrf: nat) | SyncGroups | SyncRoutes(vrf: nat) | Reconnect
  datatype SyncEvent = Startup | Connect
  datatype MarkerCallback = RouterStarted | ReconnectFinish

  /** What a handler does on behalf of a generation. */
  datatype Visit = Ifaces | Fdb | Addrs(vrf: nat) | Nhs(vrf: nat) | Groups | Routes(vrf: nat) | Sweep

  /** The work recorded for one generation, and the VRFs it found. */
  datatype Record = Record(vrfs: set<nat>, max: nat, log: seq<Visit>)

  /** The event pointers and marker state of grout_ctx, the queue and the RIB; and as ghosts the generation (the
      number of successful connections), its record, those of earlier generations, the routes it has enqueued
      and whether they were all attached at each sweep. */
  datatype State = State(
    sync: Option<SyncEvent>,
    dplaneSync: Option<DplaneEvent>,
    zebraSync: Option<ZebraEvent>,
    reconnect: bool,
    poll: bool,
    markerCb: Option<MarkerCallback>,
    startupDone: bool,
    aborted: bool,
    queue: seq<Entry>,
    rib: multiset<Entry>,
    gen: nat,
    record: Record,
    earlier: seq<Record>,
    replayed: seq<Entry>,
    sweeps: seq<bool>
  )

  /** The search loops over `sync_vrf`: the first VRF to sync at or after `from`. */
  function Next(vrfs: set<nat>, from: nat, max: nat): (next: Option<nat>)
    ensures next.Some? ==> next.value in vrfs && from <= next.value < max
    decreases max - from
  {
    if from >= max then None
    else if from in vrfs then Some(from)
    else Next(vrfs, from + 1, max)
  }

  /** All VRFs to sync at or after `from`, in increasing order. */
  function From(vrfs: set<nat>, from: nat, max: nat): (vs: seq<nat>)
    decreases max - from
  {
    if from >= max then []
    else (if from in vrfs then [from] else []) + From(vrfs, from + 1, max)
  }

  /** The VRFs are visited in increasing order, each that is to be synced exactly once. */
  lemma {:induction false} FromIsIncreasing(vrfs: set<nat>, from: nat, max: nat)
    ensures var vs := From(vrfs, from, max);
            && (forall i, j | 0 <= i < j < |vs| :: vs[i] < vs[j])
            && (forall v :: v in vs <==> v in vrfs && from <= v < max)
    decreases max - from
  {
    if from < max {
      FromIsIncreasing(vrfs, from + 1, max);
      var vs := From(vrfs, from + 1, max);
      forall i | 0 <= i < |vs|
        ensures from < vs[i]
      {
        assert vs[i] in vs;
      }
    }
  }

  lemma {:induction false} NextIsFirst(vrfs: set<nat>, from: nat, max: nat)
    ensures match Next(vrfs, from, max)
            case None => From(vrfs, from, max) == []
            case Some(v) => From(vrfs, from, max) == From(vrfs, v, max) == [v] + From(vrfs, v + 1, max)
    decreases max - from
  {
    if from < max && from !in vrfs {
      NextIsFirst(vrfs, from + 1, max);
    }
  }

  // ----- What a complete generation does -----

  datatype Pass = AddrPass | NhPass | RoutePass

  function Each(pass: Pass, vs: seq<nat>): seq<Visit>
  {
    if vs == [] then [] else [Of(pass, vs[0])] + Each(pass, vs[1..])
  }

  function Of(pass: Pass, v: nat): Visit
  {
    match pass
    case AddrPass => Addrs(v)
    case NhPass => Nhs(v)
    case RoutePass => Routes(v)
  }

  function All(r: Record): seq<nat> { From(r.vrfs, 0, r.max) }

  function RoutesLeft(vs: seq<nat>): seq<Visit> { Each(RoutePass, vs) + [Sweep] }

  function GroupsLeft(all: seq<nat>): seq<Visit> { [Groups] + RoutesLeft(all) }

  function NhsLeft(all: seq<nat>, vs: seq<nat>): seq<Visit> { Each(NhPass, vs) + GroupsLeft(all) }

  function AddrsLeft(all: seq<nat>, vs: seq<nat>): seq<Visit> { Each(AddrPass, vs) + NhsLeft(all, all) }

  function FdbLeft(all: seq<nat>): seq<Visit>
  {
    [Fdb] + (if all == [] then [Sweep] else AddrsLeft(all, all))
  }

  /** Interfaces, forwarding entries, then three passes over the VRFs in increasing order (addresses, nexthops,
      routes) with the nexthop groups before the routes, and last the arming of the sweep. */
  function Complete(r: Record): seq<Visit> { [Ifaces] + FdbLeft(All(r)) }

  // ----- The handlers -----

  function Add<T>(slot: Option<T>, event: T): Option<T>
  {
    if slot.None? then Some(event) else slot
  }

  function Log(s: State, v: Visit): State
  {
    s.(record := s.record.(log := s.record.log + [v]))
  }

  function WithoutMarkers(q: seq<Entry>): (r: seq<Entry>)
    ensures forall e :: e in r <==> e in q && e != Marker
  {
    if q == [] then []
    else (if q[0] == Marker then [] else [q[0]]) + WithoutMarkers(q[1..])
  }

  /** grout_sync_cleanup_marker. */
  function CleanupMarker(s: State): State
  {
    s.(queue := WithoutMarkers(s.queue), rib := s.rib[Marker := 0])
  }

  /** grout_sync_inject_marker. */
  function InjectMarker(s: State): State
  {
    s.(queue := s.queue + [Marker], poll := true)
  }

  /** grout_main_router_started. */
  ghost function StartRouter(s: State): State
  {
    var s' := Log(CleanupMarker(s), Sweep);
    s'.(sweeps := s.sweeps + [forall e <- s.replayed :: e in s.rib])
  }

  /** The last handler of a failed pass: a reconnection timer. */
  function Fail(s: State): State
  {
    s.(zebraSync := Add(s.zebraSync, Reconnect))
  }

  function RunSync(s: State, connected: bool, max: nat): State
    requires s.sync.Some?
  {
    if s.sync.value == Startup && !s.startupDone then s
    else if !connected then s.(sync := Some(Connect))
    else
      s.(sync := None, gen := s.gen + 1, record := Record({}, max, []), earlier := s.earlier + [s.record],
         replayed := [], dplaneSync := Add(s.dplaneSync, SyncIfaces))
  }

  function RunIfaces(s: State, ok: bool, vrfs: set<nat>): State
  {
    var s' := Log(s.(dplaneSync := None, record := s.record.(vrfs := vrfs)), Ifaces);
    if ok then s'.(zebraSync := Add(s.zebraSync, SyncFdb)) else Fail(s')
  }

  ghost function RunFdb(s: State): State
  {
    var s' := Log(s.(zebraSync := None), Fdb);
    match Next(s.record.vrfs, 0, s.record.max)
    case Some(v) => s'.(dplaneSync := Add(s.dplaneSync, SyncAddrs(v)))
    case None => StartRouter(s')
  }

  function RunAddrs(s: State, v: nat, ok: bool): State
  {
    var s' := Log(s.(dplaneSync := None), Addrs(v));
    if !ok then Fail(s')
    else match Next(s.record.vrfs, v + 1, s.record.max)
      case Some(w) => s'.(dplaneSync := Some(SyncAddrs(w)))
      case None =>
        match Next(s.record.vrfs, 0, s.record.max)
        case Some(w) => s'.(zebraSync := Add(s.zebraSync, SyncNhs(w)))
        case None => s'
  }

  function RunNhs(s: State, v: nat, ok: bool): State
  {
    var s' := Log(s.(zebraSync := None), Nhs(v));
    if !ok then Fail(s')
    else match Next(s.record.vrfs, v + 1, s.record.max)
      case Some(w) => s'.(zebraSync := Some(SyncNhs(w)))
      case None => s'.(zebraSync := Some(SyncGroups))
  }

  function RunGroups(s: State, ok: bool): State
  {
    var s' := Log(s.(zebraSync := None), Groups);
    if !ok then Fail(s')
    else match Next(s.record.vrfs, 0, s.record.max)
      case Some(w) => s'.(zebraSync := Some(SyncRoutes(w)))
      case None => s'
  }

  function Replay(gen: nat, v: nat, count: nat): (routes: seq<Entry>)
    ensures forall e <- routes :: e.Route? && e.gen == gen
  {
    seq(count, n requires 0 <= n => Route(gen, v, n))
  }

  /** `count` routes are replayed before the handler ends or fails. */
  function RunRoutes(s: State, v: nat, ok: bool, count: nat): State
  {
    var routes := Replay(s.gen, v, count);
    var s' := Log(s.(zebraSync := None, queue := s.queue + routes, replayed := s.replayed + routes), Routes(v));
    if !ok then Fail(s')
    else match Next(s.record.vrfs, v + 1, s.record.max)
      case Some(w) => s'.(zebraSync := Some(SyncRoutes(w)))
      case None => InjectMarker(s'.(markerCb := Some(RouterStarted)))
  }

  /** grout_reconnect. */
  function RunReconnect(s: State): State
  {
    var s' := s.(sync := None, dplaneSync := None, zebraSync := None, reconnect := false, poll := false);
    InjectMarker(CleanupMarker(s').(markerCb := Some(ReconnectFinish)))
  }

  /** grout_sync_poll_marker. */
  ghost function RunPoll(s: State): State
  {
    if s.rib[Marker] == 0 then s
    else if s.markerCb.None? then s.(aborted := true)
    else
      var s' := s.(poll := false, markerCb := None);
      if s.markerCb.value == RouterStarted then StartRouter(s')
      else s'.(rib := multiset{}, sync := Add(s.sync, Connect))
  }

  datatype Action =
    | NamespaceReset
    | DoSync(connected: bool, max: nat)
    | DoIfaces(ok: bool, vrfs: set<nat>)
    | DoFdb
    | DoAddrs(ok: bool)
    | DoNhs(ok: bool)
    | DoGroups(ok: bool)
    | DoRoutes(ok: bool, count: nat)
    | DoReconnect
    | DoPoll
    | Drain
    | Enqueue(n: nat)
    | Disconnect

  predicate Enabled(s: State, a: Action)
  {
    match a
    case NamespaceReset => !s.startupDone
    case DoSync(_, _) => s.sync.Some?
    case DoIfaces(_, vrfs) => s.dplaneSync == Some(SyncIfaces) && forall v <- vrfs :: v < s.record.max
    case DoFdb => s.zebraSync == Some(SyncFdb)
    case DoAddrs(_) => s.dplaneSync.Some? && s.dplaneSync.value.SyncAddrs?
    case DoNhs(_) => s.zebraSync.Some? && s.zebraSync.value.SyncNhs?
    case DoGroups(_) => s.zebraSync == Some(SyncGroups)
    case DoRoutes(_, _) => s.zebraSync.Some? && s.zebraSync.value.SyncRoutes?
    case DoReconnect => s.reconnect || s.zebraSync == Some(Reconnect)
    case DoPoll => s.poll
    case Drain => s.queue != []
    case Enqueue(_) => true
    case Disconnect => 0 < s.gen
  }

  ghost function Step(s: State, a: Action): State
    requires Enabled(s, a)
  {
    match a
    case NamespaceReset => s.(rib := multiset{}, startupDone := true)
    case DoSync(connected, max) => RunSync(s, connected, max)
    case DoIfaces(ok, vrfs) => RunIfaces(s, ok, vrfs)
    case DoFdb => RunFdb(s)
    case DoAddrs(ok) => RunAddrs(s, s.dplaneSync.value.vrf, ok)
    case DoNhs(ok) => RunNhs(s, s.zebraSync.value.vrf, ok)
    case DoGroups(ok) => RunGroups(s, ok)
    case DoRoutes(ok, count) => RunRoutes(s, s.zebraSync.value.vrf, ok, count)
    case DoReconnect => RunReconnect(s)
    case DoPoll => RunPoll(s)
    case Drain => s.(queue := s.queue[1..], rib := s.rib + multiset{s.queue[0]})
    case Enqueue(n) => s.(queue := s.queue + [Other(n)])
    case Disconnect => s.(reconnect := true)
  }

  ghost predicate Init(s: State)
  {
    && s.sync == Some(Startup) && s.dplaneSync.None? && s.zebraSync.None? && !s.reconnect && !s.poll
    && s.markerCb.None? && !s.startupDone && !s.aborted && s.queue == [] && s.rib == multiset{} && s.gen == 0
    && s.record == Record({}, 0, []) && s.earlier == [] && s.replayed == [] && s.sweeps == []
  }

  datatype Trace = Start(init: State) | Then(prefix: Trace, a: Action)

  ghost function End(run: Trace): State
    requires Legal(run)
    decreases run, 1
  {
    match run
    case Start(s) => s
    case Then(prefix, a) => Step(End(prefix), a)
  }

  ghost predicate Legal(run: Trace)
    decreases run, 0
  {
    match run
    case Start(s) => Init(s)
    case Then(prefix, a) => Legal(prefix) && Enabled(End(prefix), a)
  }

  // ----- The invariant -----

  /** At most one event of the chain is pending, the marker callback is set exactly while polling, and the
      assertion of grout_sync_dispatch_marker_cb has not failed. */
  predicate OneToken(s: State)
  {
    && Weight(s.sync.Some?) + Weight(s.dplaneSync.Some?) + Weight(s.zebraSync.Some?) + Weight(s.poll) <= 1
    && s.poll == s.markerCb.Some? && !s.aborted
    && (!s.startupDone ==> s.sync == Some(Startup) && s.gen == 0 && !s.reconnect)
  }

  function Weight(b: bool): nat { if b then 1 else 0 }

  function Markers(q: seq<Entry>, rib: multiset<Entry>): nat
  {
    multiset(q)[Marker] + rib[Marker]
  }

  /** A poll has exactly one live marker, queued or attached; otherwise there is none. */
  ghost predicate MarkerLive(q: seq<Entry>, rib: multiset<Entry>, poll: bool)
  {
    Markers(q, rib) == Weight(poll)
  }

  /** Nothing replayed stands behind a marker. */
  ghost predicate Barrier(q: seq<Entry>, rib: multiset<Entry>)
  {
    && (forall j, k | 0 <= j < k < |q| && q[j] == Marker :: !q[k].Route?)
    && (Marker in rib ==> forall e <- q :: !e.Route?)
  }

  /** What the generation has done, followed by `left`, is all it has to do. */
  ghost predicate Track(r: Record, left: seq<Visit>)
  {
    r.log + left == Complete(r)
  }

  ghost predicate DplaneTrack(r: Record, e: DplaneEvent)
  {
    match e
    case SyncIfaces => r.log == []
    case SyncAddrs(v) => v in r.vrfs && v < r.max && Track(r, AddrsLeft(All(r), From(r.vrfs, v, r.max)))
  }

  ghost predicate ZebraTrack(r: Record, e: ZebraEvent)
  {
    match e
    case SyncFdb => Track(r, FdbLeft(All(r)))
    case SyncNhs(v) => v in r.vrfs && v < r.max && Track(r, NhsLeft(All(r), From(r.vrfs, v, r.max)))
    case SyncGroups => All(r) != [] && Track(r, GroupsLeft(All(r)))
    case SyncRoutes(v) => v in r.vrfs && v < r.max && Track(r, RoutesLeft(From(r.vrfs, v, r.max)))
    case Reconnect => r.log <= Complete(r)
  }

  /** Whatever is pending finds the work of its generation done up to there, and nothing is pending only once all
      of it is done. */
  ghost predicate OnTrack(s: State)
  {
    && (s.sync.Some? ==> s.record.log <= Complete(s.record))
    && (s.dplaneSync.Some? ==> DplaneTrack(s.record, s.dplaneSync.value))
    && (s.zebraSync.Some? ==> ZebraTrack(s.record, s.zebraSync.value))
    && (s.markerCb == Some(RouterStarted) ==> Track(s.record, [Sweep]))
    && (s.markerCb == Some(ReconnectFinish) ==> s.record.log <= Complete(s.record))
    && (s.sync.None? && s.dplaneSync.None? && s.zebraSync.None? && !s.poll ==> Track(s.record, []))
    && (forall e <- s.earlier :: e.log <= Complete(e))
  }

  /** Every replayed route queued or attached is of the current generation; none is left before a connection. */
  ghost predicate NoneStale(q: seq<Entry>, rib: multiset<Entry>, gen: nat, connecting: bool)
  {
    && (forall e <- q | e.Route? :: e.gen == gen && !connecting)
    && (forall e <- rib | e.Route? :: e.gen == gen && !connecting)
  }

  /** The replayed routes are queued or attached. */
  ghost predicate Attached(q: seq<Entry>, rib: multiset<Entry>, replayed: seq<Entry>)
  {
    forall e <- replayed :: e.Route? && (e in q || e in rib)
  }

  ghost predicate RibSound(s: State)
  {
    && MarkerLive(s.queue, s.rib, s.poll) && Barrier(s.queue, s.rib)
    && NoneStale(s.queue, s.rib, s.gen, s.sync.Some?)
    && (s.sync.None? && s.markerCb != Some(ReconnectFinish) ==> Attached(s.queue, s.rib, s.replayed))
    && (s.dplaneSync == Some(SyncIfaces) || s.zebraSync == Some(SyncFdb) ==> s.replayed == [])
    && (forall b <- s.sweeps :: b)
  }

  ghost predicate Sound(s: State)
  {
    OneToken(s) && RibSound(s) && OnTrack(s)
  }

  /** The handlers on the way to the routes. */
  predicate Early(a: Action)
  {
    a.DoSync? || a.DoIfaces? || a.DoFdb? || a.DoAddrs? || a.DoNhs? || a.DoGroups?
  }

  lemma {:induction false} EarlyToken(s: State, a: Action)
    requires OneToken(s) && Enabled(s, a) && Early(a)
    ensures OneToken(Step(s, a))
  {
  }

  lemma {:induction false} LateToken(s: State, a: Action)
    requires OneToken(s) && Enabled(s, a) && !Early(a)
    ensures OneToken(Step(s, a))
  {
  }

  lemma {:induction false} StepToken(s: State, a: Action)
    requires OneToken(s) && Enabled(s, a)
    ensures OneToken(Step(s, a))
  {
    if Early(a) {
      EarlyToken(s, a);
    } else {
      LateToken(s, a);
    }
  }

  // ----- The queue and the RIB -----

  lemma {:induction false} Cleaned(q: seq<Entry>, rib: multiset<Entry>)
    requires Barrier(q, rib)
    ensures var q', rib' := WithoutMarkers(q), rib[Marker := 0];
            && Markers(q', rib') == 0 && Barrier(q', rib')
            && (forall e | e != Marker :: (e in q' <==> e in q) && (e in rib' <==> e in rib))
  {
    assert Marker !in WithoutMarkers(q);
    assert Marker !in multiset(WithoutMarkers(q));
  }

  lemma {:induction false} Injected(q: seq<Entry>, rib: multiset<Entry>)
    requires Markers(q, rib) == 0
    ensures Markers(q + [Marker], rib) == 1 && Barrier(q + [Marker], rib)
  {
  }

  lemma {:induction false} DrainSound(q: seq<Entry>, rib: multiset<Entry>, poll: bool)
    requires q != [] && MarkerLive(q, rib, poll) && Barrier(q, rib)
    ensures MarkerLive(q[1..], rib + multiset{q[0]}, poll) && Barrier(q[1..], rib + multiset{q[0]})
  {
    assert q == [q[0]] + q[1..];
  }

  lemma {:induction false} ReplaySound(q: seq<Entry>, rib: multiset<Entry>, gen: nat, v: nat, count: nat)
    requires Markers(q, rib) == 0
    ensures Markers(q + Replay(gen, v, count), rib) == 0 && Barrier(q + Replay(gen, v, count), rib)
  {
  }

  /** A step that leaves queue, RIB and marker alone. */
  lemma {:induction false} QuietRib(s: State, s': State)
    requires RibSound(s)
    requires (s'.queue, s'.rib, s'.poll, s'.markerCb, s'.sweeps) == (s.queue, s.rib, s.poll, s.markerCb, s.sweeps)
    requires s.sync.Some? || (s'.sync, s'.gen, s'.replayed) == (s.sync, s.gen, s.replayed)
    requires s.sync.Some? ==> s'.sync.Some? || s'.replayed == []
    requires s'.dplaneSync == Some(SyncIfaces) || s'.zebraSync == Some(SyncFdb) ==> s'.replayed == []
    ensures RibSound(s')
  {
  }

  predicate Quiet(a: Action)
  {
    a.DoSync? || a.DoIfaces? || a.DoAddrs? || a.DoNhs? || a.DoGroups? || a.Disconnect?
  }

  lemma {:induction false} QuietDplane(s: State, a: Action)
    requires OneToken(s) && RibSound(s) && Enabled(s, a) && (a.DoIfaces? || a.DoAddrs?)
    ensures RibSound(Step(s, a))
  {
    QuietRib(s, Step(s, a));
  }

  lemma {:induction false} QuietZebra(s: State, a: Action)
    requires OneToken(s) && RibSound(s) && Enabled(s, a) && (a.DoNhs? || a.DoGroups?)
    ensures RibSound(Step(s, a))
  {
    QuietRib(s, Step(s, a));
  }

  lemma {:induction false} QuietEnds(s: State, a: Action)
    requires OneToken(s) && RibSound(s) && Enabled(s, a) && (a.DoSync? || a.Disconnect?)
    ensures RibSound(Step(s, a))
  {
    QuietRib(s, Step(s, a));
  }

  lemma {:induction false} QuietStep(s: State, a: Action)
    requires OneToken(s) && RibSound(s) && Enabled(s, a) && Quiet(a)
    ensures RibSound(Step(s, a))
  {
    if a.DoIfaces? || a.DoAddrs? {
      QuietDplane(s, a);
    } else if a.DoNhs? || a.DoGroups? {
      QuietZebra(s, a);
    } else {
      QuietEnds(s, a);
    }
  }

  lemma {:induction false} RoutesRib(s: State, ok: bool, count: nat)
    requires OneToken(s) && RibSound(s) && Enabled(s, DoRoutes(ok, count))
    ensures RibSound(Step(s, DoRoutes(ok, count)))
  {
    var routes := Replay(s.gen, s.zebraSync.value.vrf, count);
    ReplaySound(s.queue, s.rib, s.gen, s.zebraSync.value.vrf, count);
    Injected(s.queue + routes, s.rib);
  }

  lemma {:induction false} ReconnectRib(s: State)
    requires OneToken(s) && RibSound(s) && Enabled(s, DoReconnect)
    ensures RibSound(Step(s, DoReconnect))
  {
    Cleaned(s.queue, s.rib);
    Injected(WithoutMarkers(s.queue), s.rib[Marker := 0]);
  }

  /** Observing the marker in the RIB means that everything replayed before it is attached. */
  lemma {:induction false} MarkerSeen(q: seq<Entry>, rib: multiset<Entry>, replayed: seq<Entry>)
    requires Barrier(q, rib) && Attached(q, rib, replayed) && Marker in rib
    ensures forall e <- replayed :: e in rib
  {
  }

  lemma {:induction false} StartRouterRib(s: State)
    requires s.sync.None? && s.dplaneSync.None? && s.zebraSync.None? && !s.poll && s.markerCb.None?
    requires Barrier(s.queue, s.rib) && NoneStale(s.queue, s.rib, s.gen, false)
    requires Attached(s.queue, s.rib, s.replayed) && (forall e <- s.replayed :: e in s.rib)
    requires forall b <- s.sweeps :: b
    ensures RibSound(StartRouter(s))
  {
    Cleaned(s.queue, s.rib);
  }

  lemma {:induction false} PollRib(s: State)
    requires OneToken(s) && RibSound(s) && Enabled(s, DoPoll)
    ensures RibSound(Step(s, DoPoll))
  {
    if s.rib[Marker] != 0 {
      match s.markerCb.value
      case RouterStarted =>
        assert s.markerCb == Some(RouterStarted);
        MarkerSeen(s.queue, s.rib, s.replayed);
        StartRouterRib(s.(poll := false, markerCb := None));
      case ReconnectFinish =>
    }
  }

  lemma {:induction false} FdbRib(s: State)
    requires OneToken(s) && RibSound(s) && Enabled(s, DoFdb)
    ensures RibSound(Step(s, DoFdb))
  {
    var s' := Log(s.(zebraSync := None), Fdb);
    if Next(s.record.vrfs, 0, s.record.max).None? {
      StartRouterRib(s');
    } else {
      QuietRib(s, Step(s, DoFdb));
    }
  }

  lemma {:induction false} DrainRib(s: State)
    requires OneToken(s) && RibSound(s) && Enabled(s, Drain)
    ensures RibSound(Step(s, Drain))
  {
    DrainSound(s.queue, s.rib, s.poll);
  }

  lemma {:induction false} ResetRib(s: State)
    requires OneToken(s) && RibSound(s) && Enabled(s, NamespaceReset)
    ensures RibSound(Step(s, NamespaceReset))
  {
  }

  lemma {:induction false} EnqueueRib(s: State, n: nat)
    requires OneToken(s) && RibSound(s) && Enabled(s, Enqueue(n))
    ensures RibSound(Step(s, Enqueue(n)))
  {
  }

  lemma {:induction false} OutsideRib(s: State, a: Action)
    requires OneToken(s) && RibSound(s) && Enabled(s, a) && (a.Drain? || a.NamespaceReset? || a.Enqueue?)
    ensures RibSound(Step(s, a))
  {
    match a {
      case Drain => DrainRib(s);
      case NamespaceReset => ResetRib(s);
      case Enqueue(n) => EnqueueRib(s, n);
    }
  }

  lemma {:induction false} StepRib(s: State, a: Action)
    requires OneToken(s) && RibSound(s) && Enabled(s, a)
    ensures RibSound(Step(s, a))
  {
    if Quiet(a) {
      QuietStep(s, a);
    } else {
      match a
      case DoRoutes(ok, count) => RoutesRib(s, ok, count);
      case DoReconnect => ReconnectRib(s);
      case DoPoll => PollRib(s);
      case DoFdb => FdbRib(s);
      case _ => OutsideRib(s, a);
    }
  }

  // ----- The order of the work -----

  function Logged(r: Record, v: Visit): Record { r.(log := r.log + [v]) }

  /** One visit done: what was left minus its head is left now. */
  lemma {:induction false} Advance(r: Record, v: Visit, rest: seq<Visit>)
    requires Track(r, [v] + rest)
    ensures Track(Logged(r, v), rest) && Logged(r, v).log <= Complete(r) == Complete(Logged(r, v))
  {
  }

  /** One VRF of a pass done. */
  lemma {:induction false} AdvancePass(pass: Pass, r: Record, v: nat, rest: seq<Visit>)
    requires v in r.vrfs && v < r.max && Track(r, Each(pass, From(r.vrfs, v, r.max)) + rest)
    ensures var vs := From(r.vrfs, v + 1, r.max);
            && Track(Logged(r, Of(pass, v)), Each(pass, vs) + rest)
            && Logged(r, Of(pass, v)).log <= Complete(Logged(r, Of(pass, v)))
  {
  }

  lemma {:induction false} SomeVrf(vrfs: set<nat>, from: nat, v: nat, max: nat)
    requires v in vrfs && from <= v < max
    ensures Next(vrfs, from, max).Some? && From(vrfs, from, max) != []
    decreases v - from
  {
    if from !in vrfs {
      SomeVrf(vrfs, from + 1, v, max);
    }
  }

  lemma {:induction false} AfterFdb(r: Record)
    requires ZebraTrack(r, SyncFdb)
    ensures var r' := Logged(r, Fdb);
            match Next(r.vrfs, 0, r.max)
            case Some(w) => DplaneTrack(r', SyncAddrs(w))
            case None => Track(Logged(r', Sweep), [])
  {
    var all := All(r);
    NextIsFirst(r.vrfs, 0, r.max);
    if all == [] {
      Advance(r, Fdb, [Sweep]);
      assert [Sweep] + [] == [Sweep];
      Advance(Logged(r, Fdb), Sweep, []);
    } else {
      Advance(r, Fdb, AddrsLeft(all, all));
    }
  }

  lemma {:induction false} AfterAddrs(r: Record, v: nat)
    requires DplaneTrack(r, SyncAddrs(v))
    ensures var r' := Logged(r, Addrs(v));
            && r'.log <= Complete(r')
            && match Next(r.vrfs, v + 1, r.max)
               case Some(w) => DplaneTrack(r', SyncAddrs(w))
               case None => Next(r.vrfs, 0, r.max).Some? && ZebraTrack(r', SyncNhs(Next(r.vrfs, 0, r.max).value))
  {
    var all := All(r);
    AdvancePass(AddrPass, r, v, NhsLeft(all, all));
    NextIsFirst(r.vrfs, v + 1, r.max);
    NextIsFirst(r.vrfs, 0, r.max);
    SomeVrf(r.vrfs, 0, v, r.max);
    assert Each(AddrPass, []) + NhsLeft(all, all) == NhsLeft(all, all);
  }

  lemma {:induction false} AfterNhs(r: Record, v: nat)
    requires ZebraTrack(r, SyncNhs(v))
    ensures var r' := Logged(r, Nhs(v));
            && r'.log <= Complete(r')
            && match Next(r.vrfs, v + 1, r.max)
               case Some(w) => ZebraTrack(r', SyncNhs(w))
               case None => ZebraTrack(r', SyncGroups)
  {
    var all := All(r);
    AdvancePass(NhPass, r, v, GroupsLeft(all));
    NextIsFirst(r.vrfs, v + 1, r.max);
    SomeVrf(r.vrfs, 0, v, r.max);
    assert Each(NhPass, []) + GroupsLeft(all) == GroupsLeft(all);
  }

  lemma {:induction false} AfterGroups(r: Record)
    requires ZebraTrack(r, SyncGroups)
    ensures var r' := Logged(r, Groups);
            && r'.log <= Complete(r') && Next(r.vrfs, 0, r.max).Some?
            && ZebraTrack(r', SyncRoutes(Next(r.vrfs, 0, r.max).value))
  {
    NextIsFirst(r.vrfs, 0, r.max);
    Advance(r, Groups, RoutesLeft(All(r)));
  }

  lemma {:induction false} AfterRoutes(r: Record, v: nat)
    requires ZebraTrack(r, SyncRoutes(v))
    ensures var r' := Logged(r, Routes(v));
            && r'.log <= Complete(r')
            && match Next(r.vrfs, v + 1, r.max)
               case Some(w) => ZebraTrack(r', SyncRoutes(w))
               case None => Track(r', [Sweep])
  {
    AdvancePass(RoutePass, r, v, [Sweep]);
    NextIsFirst(r.vrfs, v + 1, r.max);
    assert Each(RoutePass, []) + [Sweep] == [Sweep];
  }

  lemma {:induction false} TrackFdb(s: State)
    requires OneToken(s) && OnTrack(s) && Enabled(s, DoFdb)
    ensures OnTrack(Step(s, DoFdb))
  {
    AfterFdb(s.record);
  }

  /** The work left is that of the pending event, in one thread or the other. */
  lemma {:induction false} OnDplane(s: State)
    requires s.dplaneSync.Some? && s.zebraSync.None? && s.markerCb.None?
    requires DplaneTrack(s.record, s.dplaneSync.value) && s.record.log <= Complete(s.record)
    requires forall e <- s.earlier :: e.log <= Complete(e)
    ensures OnTrack(s)
  {
  }

  lemma {:induction false} OnZebra(s: State)
    requires s.zebraSync.Some? && s.dplaneSync.None? && s.markerCb.None?
    requires ZebraTrack(s.record, s.zebraSync.value) && s.record.log <= Complete(s.record)
    requires forall e <- s.earlier :: e.log <= Complete(e)
    ensures OnTrack(s)
  {
  }

  lemma {:induction false} TrackAddrsNext(s: State, s': State, v: nat, w: nat)
    requires OneToken(s) && OnTrack(s) && s.dplaneSync == Some(SyncAddrs(v))
    requires Next(s.record.vrfs, v + 1, s.record.max) == Some(w)
    requires s' == Log(s.(dplaneSync := None), Addrs(v)).(dplaneSync := Some(SyncAddrs(w)))
    ensures OnTrack(s')
  {
    AfterAddrs(s.record, v);
    OnDplane(s');
  }

  lemma {:induction false} TrackAddrsLast(s: State, s': State, v: nat, w: nat)
    requires OneToken(s) && OnTrack(s) && s.dplaneSync == Some(SyncAddrs(v))
    requires Next(s.record.vrfs, v + 1, s.record.max) == None && Next(s.record.vrfs, 0, s.record.max) == Some(w)
    requires s' == Log(s.(dplaneSync := None), Addrs(v)).(zebraSync := Some(SyncNhs(w)))
    ensures OnTrack(s')
  {
    AfterAddrs(s.record, v);
    OnZebra(s');
  }

  lemma {:induction false} TrackAddrsDone(s: State)
    requires OneToken(s) && OnTrack(s) && Enabled(s, DoAddrs(true))
    ensures OnTrack(Step(s, DoAddrs(true)))
  {
    var r, v := s.record, s.dplaneSync.value.vrf;
    AfterAddrs(r, v);
    match Next(r.vrfs, v + 1, r.max)
    case Some(w) => TrackAddrsNext(s, Step(s, DoAddrs(true)), v, w);
    case None => TrackAddrsLast(s, Step(s, DoAddrs(true)), v, Next(r.vrfs, 0, r.max).value);
  }

  lemma {:induction false} TrackAddrs(s: State, ok: bool)
    requires OneToken(s) && OnTrack(s) && Enabled(s, DoAddrs(ok))
    ensures OnTrack(Step(s, DoAddrs(ok)))
  {
    if ok {
      TrackAddrsDone(s);
    }
  }

  lemma {:induction false} TrackNhsDone(s: State)
    requires OneToken(s) && OnTrack(s) && Enabled(s, DoNhs(true))
    ensures OnTrack(Step(s, DoNhs(true)))
  {
    AfterNhs(s.record, s.zebraSync.value.vrf);
    OnZebra(Step(s, DoNhs(true)));
  }

  lemma {:induction false} TrackNhs(s: State, ok: bool)
    requires OneToken(s) && OnTrack(s) && Enabled(s, DoNhs(ok))
    ensures OnTrack(Step(s, DoNhs(ok)))
  {
    if ok {
      TrackNhsDone(s);
    }
  }

  lemma {:induction false} TrackGroups(s: State, ok: bool)
    requires OneToken(s) && OnTrack(s) && Enabled(s, DoGroups(ok))
    ensures OnTrack(Step(s, DoGroups(ok)))
  {
    AfterGroups(s.record);
  }

  lemma {:induction false} TrackRoutes(s: State, ok: bool, count: nat)
    requires OneToken(s) && OnTrack(s) && Enabled(s, DoRoutes(ok, count))
    ensures OnTrack(Step(s, DoRoutes(ok, count)))
  {
    AfterRoutes(s.record, s.zebraSync.value.vrf);
  }

  lemma {:induction false} TrackPoll(s: State)
    requires OneToken(s) && OnTrack(s) && Enabled(s, DoPoll)
    ensures OnTrack(Step(s, DoPoll))
  {
  }

  lemma {:induction false} Unfinished(r: Record, e: ZebraEvent)
    requires ZebraTrack(r, e)
    ensures r.log <= Complete(r)
  {
  }

  lemma {:induction false} UnfinishedDplane(r: Record, e: DplaneEvent)
    requires DplaneTrack(r, e)
    ensures r.log <= Complete(r)
  {
  }

  lemma {:induction false} TrackPrefix(r: Record, left: seq<Visit>)
    requires Track(r, left)
    ensures r.log <= Complete(r)
  {
  }

  lemma {:induction false} TrackReconnect(s: State)
    requires OneToken(s) && OnTrack(s) && Enabled(s, DoReconnect)
    ensures OnTrack(Step(s, DoReconnect))
  {
    if s.zebraSync.Some? {
      Unfinished(s.record, s.zebraSync.value);
    } else if s.dplaneSync.Some? {
      UnfinishedDplane(s.record, s.dplaneSync.value);
    } else if s.poll {
      match s.markerCb.value
      case RouterStarted =>
        assert s.markerCb == Some(RouterStarted);
        TrackPrefix(s.record, [Sweep]);
      case ReconnectFinish =>
        assert s.markerCb == Some(ReconnectFinish);
    } else if s.sync.None? {
      TrackPrefix(s.record, []);
    }
  }

  lemma {:induction false} TrackSync(s: State, connected: bool, max: nat)
    requires OneToken(s) && OnTrack(s) && Enabled(s, DoSync(connected, max))
    ensures OnTrack(Step(s, DoSync(connected, max)))
  {
  }

  lemma {:induction false} AfterIfaces(r: Record, vrfs: set<nat>)
    requires r.log == []
    ensures var r' := Logged(r.(vrfs := vrfs), Ifaces); ZebraTrack(r', SyncFdb) && r'.log <= Complete(r')
  {
  }

  lemma {:induction false} TrackIfaces(s: State, ok: bool, vrfs: set<nat>)
    requires OneToken(s) && OnTrack(s) && Enabled(s, DoIfaces(ok, vrfs))
    ensures OnTrack(Step(s, DoIfaces(ok, vrfs)))
  {
    AfterIfaces(s.record, vrfs);
  }

  lemma {:induction false} TrackOther(s: State, a: Action)
    requires OneToken(s) && OnTrack(s) && Enabled(s, a)
    requires a.NamespaceReset? || a.Drain? || a.Enqueue? || a.Disconnect?
    ensures OnTrack(Step(s, a))
  {
  }

  lemma {:induction false} StepTrack(s: State, a: Action)
    requires OneToken(s) && OnTrack(s) && Enabled(s, a)
    ensures OnTrack(Step(s, a))
  {
    match a
    case DoFdb => TrackFdb(s);
    case DoAddrs(ok) => TrackAddrs(s, ok);
    case DoNhs(ok) => TrackNhs(s, ok);
    case DoGroups(ok) => TrackGroups(s, ok);
    case DoRoutes(ok, count) => TrackRoutes(s, ok, count);
    case DoPoll => TrackPoll(s);
    case DoReconnect => TrackReconnect(s);
    case DoSync(connected, max) => TrackSync(s, connected, max);
    case DoIfaces(ok, vrfs) => TrackIfaces(s, ok, vrfs);
    case _ => TrackOther(s, a);
  }

  /** Over all runs, with failures and reconnections at any point: one pending event at most, a live marker and a
      callback exactly while polling, every generation doing its work in order up to where it stopped, no route
      of an earlier generation left in the queue or the RIB, and every sweep armed only once all routes replayed
      by its generation are attached. */
  lemma {:induction false} ResyncIsSound(run: Trace)
    requires Legal(run)
    ensures Sound(End(run))
  {
    match run
    case Start(s) =>
    case Then(prefix, a) =>
      ResyncIsSound(prefix);
      StepToken(End(prefix), a);
      StepRib(End(prefix), a);
      StepTrack(End(prefix), a);
  }
}
