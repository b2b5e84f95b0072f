/** The id allocator under any interleaving of the atomic operations of any number of threads
    (main/id_pool.h). Ids are counted from 0 here: `k` stands for the id `min_id + k`. */
module IdPoolThreads {
  import opened Common
  import opened Words
  import opened IdPool

  type Tid = nat

  /** How a scan picks a one bit: the lowest, or a random position when it happens to be one. */
  datatype Pick = Lowest | Random(bit: nat)
  {
    function Choose(w: Word): (b: nat)
      requires w != {}
      ensures b in w
    {
      if Random? && bit in w then bit else Ctz(w)
    }
  }

  /** Where a thread stands in a call: the next atomic operation it will perform. */
  datatype Pc =
    | Idle
    | LoadSummary(pick: Pick, l0: nat, tries: nat)
    | LoadWord(pick: Pick, l0: nat, tries: nat, bit0: nat)
    | CasWord(pick: Pick, l0: nat, tries: nat, bit0: nat, seen: Word)
    | BookBit(k: nat)
    | ClearSummary(k: nat, w: nat)
    | CountUp(k: nat)
    | PutBit(k: nat)
    | SetSummary(k: nat, w: nat)
    | CountDown

  /** Shared memory, the threads, and two ghosts: the ids each thread holds, and for each word
      whether its summary bit was right just after the last write to it. */
  datatype State = State(
    range: nat,
    level0: seq<Word>,
    level1: seq<Word>,
    used: int,
    pcs: map<Tid, Pc>,
    held: set<(Tid, nat)>,
    agreed: seq<bool>
  )

  datatype Action =
    | Get
    | GetRandom(l0: nat, bit: nat)
    | Book(k: nat)
    | Put(k: nat)
    | HandOver(k: nat, to: Tid)
    | Next(spurious: bool)

  predicate Enabled(s: State, t: Tid, a: Action)
  {
    && t in s.pcs
    && match a
       case Get => s.pcs[t].Idle?
       case GetRandom(l0, bit) => s.pcs[t].Idle? && l0 < |s.level0| && bit < 64
       case Book(k) => s.pcs[t].Idle? && k < s.range
       case Put(k) => s.pcs[t].Idle? && (t, k) in s.held && k < s.range
       case HandOver(k, to) => s.pcs[t].Idle? && (t, k) in s.held && to in s.pcs
       case Next(_) => !s.pcs[t].Idle?
  }

  /** What every state has: sizes that match, and program counters that point inside the bitmaps. */
  ghost predicate Shape(s: State)
  {
    && Sizes(s.range, |s.level0|, |s.level1|) && |s.agreed| == |s.level1|
    && (forall w <- Ones(s.level0) :: w < |s.level1|) && (forall k <- Ones(s.level1) :: k < s.range)
    && PcsInside(s.range, |s.level0|, |s.level1|, s.pcs)
  }

  /** The ranges that id_pool_create accepts and whose word count does not wrap. */
  predicate Sizes(range: nat, n0: nat, n1: nat)
  {
    0 < range && n1 == WordCount(range) < U16 && n0 == WordCount(n1)
  }

  /** The bit that book and put address for id `k`: the offset is a uint16_t. */
  function Aim(k: nat): (j: nat)
    ensures j <= k && (k < 0x1_0000 ==> j == k)
  {
    k % 0x1_0000
  }

  ghost predicate PcsInside(range: nat, n0: nat, n1: nat, pcs: map<Tid, Pc>)
  {
    forall t <- pcs :: Inside(range, n0, n1, pcs[t])
  }

  predicate Inside(range: nat, n0: nat, n1: nat, pc: Pc)
  {
    match pc
    case Idle => true
    case LoadSummary(pick, l0, tries) =>
      tries <= n0 && (tries < n0 ==> l0 < n0) && (pick.Lowest? ==> l0 == tries)
    case LoadWord(pick, l0, tries, bit0) => InsideScan(n0, n1, pick, l0, tries, bit0)
    case CasWord(pick, l0, tries, bit0, seen) => InsideScan(n0, n1, pick, l0, tries, bit0) && seen != {}
    case CountDown => true
    case ClearSummary(k, w) => k < range && w < n1
    case SetSummary(k, w) => k < range && w < n1
    case _ => pc.k < range
  }

  predicate InsideScan(n0: nat, n1: nat, pick: Pick, l0: nat, tries: nat, bit0: nat)
  {
    l0 < n0 && l0 * 64 + bit0 < n1 && tries < n0 && (pick.Lowest? ==> l0 == tries)
  }

  /** The slab visited after `l0`: upwards for id_pool_get, backwards and wrapping for id_pool_get_random. */
  function NextSlab(pick: Pick, l0: nat, n: nat): nat
  {
    if pick.Lowest? then l0 + 1 else if l0 > 0 then l0 - 1 else if n > 0 then n - 1 else 0
  }

  function At(s: State, t: Tid, pc: Pc): State
  {
    s.(pcs := s.pcs[t := pc])
  }

  /** A successful clear of bit `b` of word `w`: from here on the thread takes id `k` to be its own. */
  function Acquire(s: State, t: Tid, w: nat, b: nat, k: nat): State
    requires w < |s.level1| && b < 64
  {
    var level1 := ClearBit(s.level1, w, b);
    At(s.(level1 := level1, held := s.held + {(t, k)}), t, if level1[w] == {} then ClearSummary(k, w) else CountUp(k))
  }

  function Release(s: State, t: Tid, w: nat, b: nat, k: nat): State
    requires w < |s.level1| && b < 64
  {
    At(s.(level1 := SetBit(s.level1, w, b), held := s.held - {(t, k)}), t, SetSummary(k, w))
  }

  /** A write to the summary bit of word `w`. */
  ghost function WriteSummary(s: State, t: Tid, w: nat, one: bool, pc: Pc): State
    requires w < |s.level1| == |s.agreed| && w / 64 < |s.level0|
  {
    var level0 := if one then SetBit(s.level0, w / 64, w % 64)
                  else ClearBit(s.level0, w / 64, w % 64);
    At(s.(level0 := level0, agreed := s.agreed[w := SummaryAt(level0, s.level1, w)]), t, pc)
  }

  /** What a thread does with the summary word it loads. */
  function Scanned(s: State, pick: Pick, l0: nat, tries: nat): Pc
    requires tries < |s.level0| ==> l0 < |s.level0|
  {
    if tries >= |s.level0| then Idle
    else if s.level0[l0] == {} then LoadSummary(pick, NextSlab(pick, l0, |s.level0|), tries + 1)
    else LoadWord(pick, l0, tries, pick.Choose(s.level0[l0]))
  }

  predicate Committed(pc: Pc) { pc.ClearSummary? || pc.CountUp? || pc.PutBit? }

  predicate CountingUp(pc: Pc) { pc.ClearSummary? || pc.CountUp? }

  predicate CountingDown(pc: Pc) { pc.SetSummary? || pc.CountDown? }

  function Weight(b: bool): int { if b then 1 else 0 }

  predicate Clearing(pc: Pc, w: nat) { pc.ClearSummary? && pc.w == w }

  predicate Setting(pc: Pc, w: nat) { pc.SetSummary? && pc.w == w }

  /** What an atomic operation does to the shared memory: nothing but the counter, or it reserves an id, gives one
      back, or writes a summary bit. */
  datatype Op =
    | Move(pc: Pc, used: int)
    | Take(w: nat, b: nat, k: nat)
    | Give(w: nat, b: nat, k: nat)
    | Write(w: nat, one: bool, pc: Pc)

  /** The next atomic operation of thread `t`. */
  ghost function NextOp(s: State, t: Tid, spurious: bool): Op
    requires Shape(s) && t in s.pcs && !s.pcs[t].Idle?
  {
    assert Inside(s.range, |s.level0|, |s.level1|, s.pcs[t]);
    match s.pcs[t]
    case LoadSummary(pick, l0, tries) =>
      Move(Scanned(s, pick, l0, tries), s.used)
    case LoadWord(pick, l0, tries, bit0) =>
      var seen := s.level1[l0 * 64 + bit0];
      Move(if seen == {} then LoadSummary(pick, l0, tries) else CasWord(pick, l0, tries, bit0, seen), s.used)
    case CasWord(pick, l0, tries, bit0, seen) =>
      var w := l0 * 64 + bit0;
      if spurious || s.level1[w] != seen then Move(LoadWord(pick, l0, tries, bit0), s.used)
      else Take(w, pick.Choose(seen), w * 64 + pick.Choose(seen))
    case BookBit(k) =>
      var w, b := Aim(k) / 64, Aim(k) % 64;
      if b in s.level1[w] then Take(w, b, k) else Move(Idle, s.used)
    case ClearSummary(k, w) => Write(w, false, CountUp(k))
    case CountUp(_) => Move(Idle, s.used + 1)
    case PutBit(k) =>
      var w, b := Aim(k) / 64, Aim(k) % 64;
      if b in s.level1[w] then Move(Idle, s.used) else Give(w, b, k)
    case SetSummary(_, w) => Write(w, true, CountDown)
    case CountDown => Move(Idle, s.used - 1)
  }

  /** What the place of a thread in its call says about the operation it performs next. */
  ghost predicate Fits(s: State, t: Tid, op: Op)
    requires t in s.pcs
  {
    match op
    case Move(pc, used) =>
      && Inside(s.range, |s.level0|, |s.level1|, pc) && !Committed(pc) && !CountingDown(pc)
      && !s.pcs[t].ClearSummary? && !s.pcs[t].SetSummary?
      && used == s.used + Weight(CountingUp(s.pcs[t])) - Weight(CountingDown(s.pcs[t]))
    case Take(w, b, k) =>
      && w < |s.level1| && b in s.level1[w] && (s.pcs[t].CasWord? || s.pcs[t].BookBit?)
      && k < s.range && (s.range <= U16 ==> k == w * 64 + b)
    case Give(w, b, k) =>
      && w < |s.level1| && b < 64 && b !in s.level1[w] && s.pcs[t] == PutBit(k)
      && k < s.range && w * 64 + b < s.range && (s.range <= U16 ==> k == w * 64 + b)
    case Write(w, one, pc) =>
      && w < |s.level1| == |s.agreed| && w / 64 < |s.level0| && Inside(s.range, |s.level0|, |s.level1|, pc)
      && if one then Setting(s.pcs[t], w) && pc == CountDown else Clearing(s.pcs[t], w) && pc == CountUp(s.pcs[t].k)
  }

  lemma {:induction false} ScanFits(s: State, t: Tid)
    requires Shape(s) && t in s.pcs && (s.pcs[t].LoadSummary? || s.pcs[t].LoadWord?)
    ensures Fits(s, t, NextOp(s, t, false))
  {
    var pc := s.pcs[t];
    assert Inside(s.range, |s.level0|, |s.level1|, pc);
    if pc.LoadSummary? && pc.tries < |s.level0| && s.level0[pc.l0] != {} {
      OnesAt(s.level0, pc.l0, pc.pick.Choose(s.level0[pc.l0]));
    }
  }

  lemma {:induction false} CasFits(s: State, t: Tid, spurious: bool)
    requires Shape(s) && t in s.pcs && s.pcs[t].CasWord?
    ensures Fits(s, t, NextOp(s, t, spurious))
  {
    var pc := s.pcs[t];
    assert Inside(s.range, |s.level0|, |s.level1|, pc);
    if s.level1[pc.l0 * 64 + pc.bit0] == pc.seen {
      OnesAt(s.level1, pc.l0 * 64 + pc.bit0, pc.pick.Choose(pc.seen));
    }
  }

  lemma {:induction false} AimFits(s: State, t: Tid)
    requires Shape(s) && t in s.pcs && (s.pcs[t].BookBit? || s.pcs[t].PutBit?)
    ensures Fits(s, t, NextOp(s, t, false))
  {
    assert Inside(s.range, |s.level0|, |s.level1|, s.pcs[t]);
    BitIndex(Aim(s.pcs[t].k) / 64, Aim(s.pcs[t].k) % 64, Aim(s.pcs[t].k));
  }

  lemma {:induction false} NextFits(s: State, t: Tid, spurious: bool)
    requires Shape(s) && t in s.pcs && !s.pcs[t].Idle?
    ensures Fits(s, t, NextOp(s, t, spurious))
  {
    var pc := s.pcs[t];
    assert Inside(s.range, |s.level0|, |s.level1|, pc);
    if pc.LoadSummary? || pc.LoadWord? {
      ScanFits(s, t);
    } else if pc.CasWord? {
      CasFits(s, t, spurious);
    } else if pc.BookBit? || pc.PutBit? {
      AimFits(s, t);
    }
  }

  ghost function Apply(s: State, t: Tid, op: Op): State
    requires t in s.pcs && Fits(s, t, op)
  {
    match op
    case Move(pc, used) => At(s.(used := used), t, pc)
    case Take(w, b, k) => Acquire(s, t, w, b, k)
    case Give(w, b, k) => Release(s, t, w, b, k)
    case Write(w, one, pc) => WriteSummary(s, t, w, one, pc)
  }

  /** Thread `t` goes one atomic operation further. */
  ghost function Run(s: State, t: Tid, spurious: bool): State
    requires Shape(s) && t in s.pcs && !s.pcs[t].Idle?
  {
    NextFits(s, t, spurious);
    Apply(s, t, NextOp(s, t, spurious))
  }

  ghost function Step(s: State, t: Tid, a: Action): State
    requires Shape(s) && Enabled(s, t, a)
  {
    match a
    case Get => At(s, t, LoadSummary(Lowest, 0, 0))
    case GetRandom(l0, bit) => At(s, t, LoadSummary(Random(bit), l0, 0))
    case Book(k) => At(s, t, BookBit(k))
    case Put(k) => At(s, t, PutBit(k))
    case HandOver(k, to) => s.(held := s.held - {(t, k)} + {(to, k)})
    case Next(spurious) => Run(s, t, spurious)
  }

  ghost predicate Init(s: State)
  {
    && Shape(s) && Consistent(s.range, s.level0, s.level1)
    && s.used == 0 && s.held == {} && (forall t <- s.pcs :: s.pcs[t] == Idle)
    && (forall k | 0 <= k < s.range :: HasBit(s.level1, k))
    && (forall w | 0 <= w < |s.agreed| :: s.agreed[w])
  }

  lemma {:induction false} PcsMoved(range: nat, n0: nat, n1: nat, pcs: map<Tid, Pc>, t: Tid, pc: Pc)
    requires PcsInside(range, n0, n1, pcs) && Inside(range, n0, n1, pc)
    ensures PcsInside(range, n0, n1, pcs[t := pc])
  {
  }

  lemma {:induction false} ApplyShape(s: State, t: Tid, op: Op)
    requires Shape(s) && t in s.pcs && Fits(s, t, op)
    ensures Shape(Apply(s, t, op))
  {
    PcsMoved(s.range, |s.level0|, |s.level1|, s.pcs, t, Apply(s, t, op).pcs[t]);
    match op
    case Move(_, _) =>
    case Take(w, b, _) => ClearedOnes(s.level1, w, b);
    case Give(w, b, _) => SettedOnes(s.level1, w, b);
    case Write(w, _, _) =>
      ClearedOnes(s.level0, w / 64, w % 64);
      SettedOnes(s.level0, w / 64, w % 64);
  }

  lemma {:induction false} StepShape(s: State, t: Tid, a: Action)
    requires Shape(s) && Enabled(s, t, a)
    ensures Shape(Step(s, t, a))
  {
    match a
    case Next(spurious) => NextFits(s, t, spurious); ApplyShape(s, t, NextOp(s, t, spurious));
    case HandOver(_, _) =>
    case _ => PcsMoved(s.range, |s.level0|, |s.level1|, s.pcs, t, Step(s, t, a).pcs[t]);
  }

  lemma {:induction false} SameSizes(s: State, t: Tid, a: Action)
    requires Shape(s) && Enabled(s, t, a)
    ensures var s' := Step(s, t, a);
            && |s'.level0| == |s.level0| && |s'.level1| == |s.level1| && |s'.agreed| == |s.agreed|
            && s'.range == s.range
  {
  }

  /** A run: an initial state and the steps taken since, by any threads in any order. */
  datatype Trace = Start(init: State) | Then(prefix: Trace, t: Tid, a: Action)

  /** The state a run has reached. */
  ghost function End(run: Trace): State
    requires Legal(run)
    decreases run, 1
  {
    match run
    case Start(s) => s
    case Then(prefix, t, a) => Step(End(prefix), t, a)
  }

  ghost predicate Legal(run: Trace)
    decreases run, 0
  {
    match run
    case Start(s) => Init(s)
    case Then(prefix, t, a) => Legal(prefix) && Shape(End(prefix)) && Enabled(End(prefix), t, a)
  }

  lemma {:induction false} LegalShape(run: Trace)
    requires Legal(run)
    ensures Shape(End(run))
  {
    if run.Then? {
      StepShape(End(run.prefix), run.t, run.a);
    }
  }

  // ----- Mutual exclusion and counting -----

  /** An id is held by at most one thread, is held exactly when its bit is clear, and lies in the pool. */
  ghost predicate Exclusive(range: nat, free: set<nat>, held: set<(Tid, nat)>)
  {
    && (forall t, u, k | (t, k) in held && (u, k) in held :: t == u)
    && (forall t, k | (t, k) in held :: k < range && k !in free)
    && (forall k <- free :: k < range)
    && (forall k | 0 <= k < range :: k in free || HeldBySome(held, k))
  }

  ghost predicate HeldBySome(held: set<(Tid, nat)>, k: nat)
  {
    exists t :: (t, k) in held
  }

  /** A thread that has reserved an id it has not counted yet, or is about to release one, holds it. */
  ghost predicate Holders(pcs: map<Tid, Pc>, held: set<(Tid, nat)>)
  {
    forall t <- pcs :: Committed(pcs[t]) ==> (t, pcs[t].k) in held
  }

  function Ups(pcs: map<Tid, Pc>): set<Tid>
  {
    set t | t in pcs && CountingUp(pcs[t])
  }

  function Downs(pcs: map<Tid, Pc>): set<Tid>
  {
    set t | t in pcs && CountingDown(pcs[t])
  }

  /** The counter lags the ids held by exactly the increments and decrements still to come. */
  ghost predicate Counted(used: int, pcs: map<Tid, Pc>, held: set<(Tid, nat)>)
  {
    used + |Ups(pcs)| == |held| + |Downs(pcs)|
  }

  ghost predicate Safe(s: State)
  {
    && Shape(s) && s.range <= U16 && Exclusive(s.range, Ones(s.level1), s.held)
    && Holders(s.pcs, s.held) && Counted(s.used, s.pcs, s.held)
  }

  lemma {:induction false} MovedUps(pcs: map<Tid, Pc>, t: Tid, pc: Pc)
    requires t in pcs
    ensures |Ups(pcs[t := pc])| - |Ups(pcs)| == Weight(CountingUp(pc)) - Weight(CountingUp(pcs[t]))
  {
    assert Ups(pcs[t := pc]) == Ups(pcs) - {t} + (if CountingUp(pc) then {t} else {});
  }

  lemma {:induction false} MovedDowns(pcs: map<Tid, Pc>, t: Tid, pc: Pc)
    requires t in pcs
    ensures |Downs(pcs[t := pc])| - |Downs(pcs)| == Weight(CountingDown(pc)) - Weight(CountingDown(pcs[t]))
  {
    assert Downs(pcs[t := pc]) == Downs(pcs) - {t} + (if CountingDown(pc) then {t} else {});
  }

  /** How one thread moving on changes the balance of `Counted`. */
  lemma {:induction false} Moved(pcs: map<Tid, Pc>, t: Tid, pc: Pc, used: int, held: set<(Tid, nat)>,
                                 used': int, held': set<(Tid, nat)>)
    requires t in pcs && Counted(used, pcs, held)
    requires used' - used + Weight(CountingUp(pc)) - Weight(CountingUp(pcs[t]))
          == |held'| - |held| + Weight(CountingDown(pc)) - Weight(CountingDown(pcs[t]))
    ensures Counted(used', pcs[t := pc], held')
  {
    MovedUps(pcs, t, pc);
    MovedDowns(pcs, t, pc);
  }

  lemma {:induction false} ExclusiveAcquire(range: nat, free: set<nat>, held: set<(Tid, nat)>, t: Tid, k: nat)
    requires Exclusive(range, free, held) && k in free
    ensures Exclusive(range, free - {k}, held + {(t, k)}) && (t, k) !in held
  {
  }

  lemma {:induction false} ExclusiveRelease(range: nat, free: set<nat>, held: set<(Tid, nat)>, t: Tid, k: nat)
    requires Exclusive(range, free, held) && (t, k) in held
    ensures Exclusive(range, free + {k}, held - {(t, k)})
  {
  }

  lemma {:induction false} ExclusiveHandOver(range: nat, free: set<nat>, held: set<(Tid, nat)>, t: Tid, k: nat, to: Tid)
    requires Exclusive(range, free, held) && (t, k) in held
    ensures Exclusive(range, free, held - {(t, k)} + {(to, k)})
    ensures |held - {(t, k)} + {(to, k)}| == |held|
  {
  }

  lemma {:induction false} HoldersAcquire(pcs: map<Tid, Pc>, held: set<(Tid, nat)>, t: Tid, pc: Pc)
    requires Holders(pcs, held) && CountingUp(pc)
    ensures Holders(pcs[t := pc], held + {(t, pc.k)})
  {
  }

  lemma {:induction false} HoldersRelease(pcs: map<Tid, Pc>, held: set<(Tid, nat)>, t: Tid, k: nat, w: nat)
    requires Holders(pcs, held)
    ensures Holders(pcs[t := SetSummary(k, w)], held - {(t, k)})
  {
  }

  /** Handing a free id to a thread. */
  lemma {:induction false} TakeSafe(s: State, t: Tid, k: nat, s': State)
    requires Safe(s) && t in s.pcs && !CountingUp(s.pcs[t]) && !CountingDown(s.pcs[t]) && k in Ones(s.level1)
    requires |s'.level1| == |s.level1| && Ones(s'.level1) == Ones(s.level1) - {k} && s'.held == s.held + {(t, k)}
    requires t in s'.pcs && s'.pcs == s.pcs[t := s'.pcs[t]] && CountingUp(s'.pcs[t]) && s'.pcs[t].k == k
    requires Inside(s.range, |s.level0|, |s.level1|, s'.pcs[t])
    requires (s'.range, s'.level0, s'.used, s'.agreed) == (s.range, s.level0, s.used, s.agreed)
    ensures Safe(s')
  {
    ExclusiveAcquire(s.range, Ones(s.level1), s.held, t, k);
    PcsMoved(s.range, |s.level0|, |s.level1|, s.pcs, t, s'.pcs[t]);
    HoldersAcquire(s.pcs, s.held, t, s'.pcs[t]);
    Moved(s.pcs, t, s'.pcs[t], s.used, s.held, s'.used, s'.held);
  }

  /** Clearing a set bit hands the id to a thread when nobody else has it. */
  lemma {:induction false} AcquireSafe(s: State, t: Tid, w: nat, b: nat, k: nat)
    requires Safe(s) && t in s.pcs && !CountingUp(s.pcs[t]) && !CountingDown(s.pcs[t])
    requires w < |s.level1| && b in s.level1[w] && k == w * 64 + b
    ensures Safe(Acquire(s, t, w, b, k))
  {
    OnesAt(s.level1, w, b);
    ClearedOnes(s.level1, w, b);
    TakeSafe(s, t, k, Acquire(s, t, w, b, k));
  }

  /** Taking an id back from a thread. */
  lemma {:induction false} GiveSafe(s: State, t: Tid, k: nat, w: nat, s': State)
    requires Safe(s) && t in s.pcs && s.pcs[t] == PutBit(k) && k < s.range && w < |s.level1|
    requires |s'.level1| == |s.level1| && Ones(s'.level1) == Ones(s.level1) + {k} && s'.held == s.held - {(t, k)}
    requires s'.pcs == s.pcs[t := SetSummary(k, w)]
    requires (s'.range, s'.level0, s'.used, s'.agreed) == (s.range, s.level0, s.used, s.agreed)
    ensures Safe(s')
  {
    ExclusiveRelease(s.range, Ones(s.level1), s.held, t, k);
    PcsMoved(s.range, |s.level0|, |s.level1|, s.pcs, t, SetSummary(k, w));
    HoldersRelease(s.pcs, s.held, t, k, w);
    Moved(s.pcs, t, SetSummary(k, w), s.used, s.held, s'.used, s'.held);
  }

  lemma {:induction false} ReleaseSafe(s: State, t: Tid, w: nat, b: nat, k: nat)
    requires Safe(s) && t in s.pcs && s.pcs[t] == PutBit(k) && k < s.range
    requires w < |s.level1| && b < 64 && k == w * 64 + b
    ensures Safe(Release(s, t, w, b, k))
  {
    SettedOnes(s.level1, w, b);
    GiveSafe(s, t, k, w, Release(s, t, w, b, k));
  }

  lemma {:induction false} WriteSummarySafe(s: State, t: Tid, w: nat, one: bool, pc: Pc)
    requires Safe(s) && t in s.pcs && w < |s.level1|
    requires Inside(s.range, |s.level0|, |s.level1|, pc) && (Committed(pc) ==> (t, pc.k) in s.held)
    requires CountingUp(s.pcs[t]) == CountingUp(pc) && CountingDown(s.pcs[t]) == CountingDown(pc)
    ensures Safe(WriteSummary(s, t, w, one, pc))
  {
    ClearedOnes(s.level0, w / 64, w % 64);
    SettedOnes(s.level0, w / 64, w % 64);
    Moved(s.pcs, t, pc, s.used, s.held, s.used, s.held);
  }

  /** Loads, failed compare-and-swaps, counter updates and the start of a call. */
  lemma {:induction false} LocalSafe(s: State, t: Tid, pc: Pc, used: int)
    requires Safe(s) && t in s.pcs
    requires Inside(s.range, |s.level0|, |s.level1|, pc) && !CountingUp(pc) && !CountingDown(pc)
    requires used == s.used + Weight(CountingUp(s.pcs[t])) - Weight(CountingDown(s.pcs[t]))
    requires pc.PutBit? ==> (t, pc.k) in s.held
    ensures Safe(At(s.(used := used), t, pc))
  {
    Moved(s.pcs, t, pc, s.used, s.held, used, s.held);
  }

  lemma {:induction false} ApplySafe(s: State, t: Tid, op: Op)
    requires Safe(s) && t in s.pcs && Fits(s, t, op)
    ensures Safe(Apply(s, t, op))
  {
    match op
    case Move(pc, used) => LocalSafe(s, t, pc, used);
    case Take(w, b, k) => AcquireSafe(s, t, w, b, k);
    case Give(w, b, k) => ReleaseSafe(s, t, w, b, k);
    case Write(w, one, pc) => WriteSummarySafe(s, t, w, one, pc);
  }

  lemma {:induction false} StepSafe(s: State, t: Tid, a: Action)
    requires Safe(s) && Enabled(s, t, a)
    ensures Safe(Step(s, t, a))
  {
    match a
    case Next(spurious) => NextFits(s, t, spurious); ApplySafe(s, t, NextOp(s, t, spurious));
    case HandOver(k, to) => ExclusiveHandOver(s.range, Ones(s.level1), s.held, t, k, to);
    case _ => LocalSafe(s, t, Step(s, t, a).pcs[t], s.used);
  }

  lemma {:induction false} InitSafe(s: State)
    requires Init(s) && s.range <= U16
    ensures Safe(s)
  {
  }

  /** The number of ids of the pool. */
  function Pool(run: Trace): nat
  {
    match run
    case Start(s) => s.range
    case Then(prefix, _, _) => Pool(prefix)
  }

  lemma {:induction false} SamePool(run: Trace)
    requires Legal(run)
    ensures End(run).range == Pool(run)
  {
    if run.Then? {
      SamePool(run.prefix);
      SameSizes(End(run.prefix), run.t, run.a);
    }
  }

  /** Safety over all runs of a pool of at most 65536 ids: any threads, any interleaving, however stale the
      summary. */
  lemma {:induction false} RunsAreSafe(run: Trace)
    requires Legal(run) && Pool(run) <= U16
    ensures Safe(End(run))
  {
    match run
    case Start(s) => InitSafe(s);
    case Then(prefix, t, a) =>
      RunsAreSafe(prefix);
      StepSafe(End(prefix), t, a);
  }

  /** No id has two owners at once, and every id handed out lies in the pool. */
  lemma {:induction false} OneOwner(run: Trace, t: Tid, u: Tid, k: nat)
    requires Legal(run) && Pool(run) <= U16 && (t, k) in End(run).held
    ensures k < End(run).range && ((u, k) in End(run).held ==> u == t)
  {
    RunsAreSafe(run);
  }

  /** An id that a get or a book hands out had no owner. */
  lemma {:induction false} HandsOutFreeIds(s: State, v: Tid, a: Action, t: Tid, k: nat, u: Tid)
    requires Safe(s) && Enabled(s, v, a) && !a.HandOver?
    requires (t, k) !in s.held && (t, k) in Step(s, v, a).held
    ensures v == t && k in Ones(s.level1) && (u, k) !in s.held
  {
    NextFits(s, v, a.spurious);
    var op := NextOp(s, v, a.spurious);
    OnesAt(s.level1, op.w, op.b);
  }

  // ----- Larger pools -----

  /** Two threads and a fresh pool. */
  ghost function Full(range: nat): State
    requires 0 < range && WordCount(range) < U16
  {
    var n1 := WordCount(range);
    var n0 := WordCount(n1);
    State(range, seq(n0, w requires 0 <= w < n0 => OnesWord(n1, w)),
          seq(n1, w requires 0 <= w < n1 => OnesWord(range, w)), 0, map[0 := Idle, 1 := Idle], {}, seq(n1, _ => true))
  }

  lemma {:induction false} FullInit(range: nat)
    requires 0 < range && WordCount(range) < U16
    ensures Init(Full(range))
  {
    var s := Full(range);
    AllFree(0, range, s.level0, s.level1);
    forall k | 0 <= k < range
      ensures HasBit(s.level1, k)
    {
      assert k in FreeIds(0, range, s.level1);
    }
    assert forall w: nat :: w in Ones(s.level0) ==> HasBit(s.level0, w);
    assert forall k: nat :: k in Ones(s.level1) ==> HasBit(s.level1, k);
  }

  lemma {:induction false} Goes(run: Trace, s: State, t: Tid, a: Action)
    requires Legal(run) && End(run) == s && Enabled(s, t, a)
    ensures Shape(s) && Legal(Then(run, t, a)) && End(Then(run, t, a)) == Step(s, t, a)
  {
    LegalShape(run);
  }

  lemma {:induction false} GoesOn(run: Trace, s: State, t: Tid, op: Op) returns (run': Trace)
    requires Legal(run) && End(run) == s && Shape(s) && t in s.pcs && !s.pcs[t].Idle? && NextOp(s, t, false) == op
    ensures Pool(run') == Pool(run) && Legal(run') && Fits(s, t, op) && End(run') == Apply(s, t, op)
  {
    Goes(run, s, t, Next(false));
    NextFits(s, t, false);
    run' := Then(run, t, Next(false));
  }

  /** Thread 0 books id 65536 of a larger pool, and so reserves id 0. */
  lemma {:induction false} BookedElsewhere(range: nat) returns (run: Trace, s: State)
    requires U16 < range && WordCount(range) < U16
    ensures Legal(run) && Pool(run) == range == s.range && End(run) == s && Shape(s)
    ensures (0, 0x1_0000) in s.held && 1 in s.pcs && s.pcs[1] == Idle
    ensures HasBit(s.level0, 1024) && HasBit(s.level1, 0x1_0000)
  {
    var s0 := Full(range);
    FullInit(range);
    run := Start(s0);
    Goes(run, s0, 0, Book(0x1_0000));
    var s1 := Step(s0, 0, Book(0x1_0000));
    run := Then(run, 0, Book(0x1_0000));
    LegalShape(run);
    assert HasBit(s0.level1, 0) && HasBit(s0.level1, 0x1_0000) && SummaryAt(s0.level0, s0.level1, 1024);
    run := GoesOn(run, s1, 0, Take(0, 0, 0x1_0000));
    s := Acquire(s1, 0, 0, 0, 0x1_0000);
    LegalShape(run);
    ClearBitHas(s1.level1, 0, 0, 0x1_0000);
  }

  /** Thread 1 draws the word of id 65536, which is still free there. */
  lemma {:induction false} DrawnSlab(run: Trace, s: State) returns (run': Trace)
    requires Legal(run) && End(run) == s && 1 in s.pcs && s.pcs[1] == LoadSummary(Random(0), 16, 0)
    requires HasBit(s.level0, 1024)
    ensures Pool(run') == Pool(run) && Legal(run') && End(run') == At(s, 1, LoadWord(Random(0), 16, 0, 0))
  {
    LegalShape(run);
    run' := GoesOn(run, s, 1, Move(LoadWord(Random(0), 16, 0, 0), s.used));
  }

  lemma {:induction false} DrawnWord(run: Trace, s: State) returns (run': Trace)
    requires Legal(run) && End(run) == s && 1 in s.pcs && s.pcs[1] == LoadWord(Random(0), 16, 0, 0)
    requires HasBit(s.level1, 0x1_0000)
    ensures Pool(run') == Pool(run) && Legal(run')
    ensures End(run') == At(s, 1, CasWord(Random(0), 16, 0, 0, s.level1[1024]))
  {
    LegalShape(run);
    run' := GoesOn(run, s, 1, Move(CasWord(Random(0), 16, 0, 0, s.level1[1024]), s.used));
  }

  lemma {:induction false} DrawnId(run: Trace, s: State) returns (run': Trace)
    requires Legal(run) && End(run) == s && 1 in s.pcs && HasBit(s.level1, 0x1_0000)
    requires s.pcs[1] == CasWord(Random(0), 16, 0, 0, s.level1[1024])
    ensures Pool(run') == Pool(run) && Legal(run') && End(run').held == s.held + {(1, 0x1_0000)}
  {
    LegalShape(run);
    run' := GoesOn(run, s, 1, Take(1024, 0, 0x1_0000));
  }

  /** In every pool of more than 65536 ids that can be laid out, two threads can come to hold the same id. */
  lemma {:induction false} TwoOwners(range: nat) returns (run: Trace)
    requires U16 < range && WordCount(range) < U16
    ensures Legal(run) && Pool(run) == range
    ensures (0, 0x1_0000) in End(run).held && (1, 0x1_0000) in End(run).held
  {
    var s;
    run, s := BookedElsewhere(range);
    Goes(run, s, 1, GetRandom(16, 0));
    run := Then(run, 1, GetRandom(16, 0));
    run := DrawnSlab(run, End(run));
    run := DrawnWord(run, End(run));
    run := DrawnId(run, End(run));
  }

  /** Ids have one owner in all runs of a pool exactly when it has at most 65536 of them. */
  lemma {:induction false} OneOwnerExactly(range: nat)
    requires 0 < range && WordCount(range) < U16
    ensures (forall run, t: Tid, u: Tid, k: nat |
               Legal(run) && Pool(run) == range && (t, k) in End(run).held && (u, k) in End(run).held :: t == u)
            <==> range <= U16
  {
    if range <= U16 {
      forall run, t: Tid, u: Tid, k: nat
        | Legal(run) && Pool(run) == range && (t, k) in End(run).held && (u, k) in End(run).held
        ensures t == u
      {
        OneOwner(run, t, u, k);
      }
    } else {
      var run := TwoOwners(range);
      assert (0, 0x1_0000) in End(run).held && (1, 0x1_0000) in End(run).held;
    }
  }

  // ----- The counter -----

  lemma {:induction false} UpsHold(ups: set<Tid>, pcs: map<Tid, Pc>, held: set<(Tid, nat)>)
    requires Holders(pcs, held) && ups <= Ups(pcs)
    ensures |ups| <= |held|
    decreases ups
  {
    if t :| t in ups {
      var pair := (t, pcs[t].k);
      var rest := map u | u in pcs && u != t :: pcs[u];
      assert ups - {t} <= Ups(rest);
      UpsHold(ups - {t}, rest, held - {pair});
    }
  }

  /** The counter never drops below zero, and is exact whenever no call is in progress. */
  lemma {:induction false} UsedIsExact(run: Trace)
    requires Legal(run) && Pool(run) <= U16
    ensures var s := End(run); 0 <= s.used <= |s.held| + |Downs(s.pcs)|
    ensures var s := End(run); AllIdle(s) ==> s.used == |s.held|
  {
    var s := End(run);
    RunsAreSafe(run);
    UpsHold(Ups(s.pcs), s.pcs, s.held);
    if AllIdle(s) {
      assert Ups(s.pcs) == {} && Downs(s.pcs) == {};
    }
  }

  ghost predicate AllIdle(s: State)
  {
    forall t <- s.pcs :: s.pcs[t].Idle?
  }

  // ----- The summary -----

  /** The thread is about to write the summary bit of word `w`. */
  predicate Writing(pc: Pc, w: nat)
  {
    (pc.ClearSummary? || pc.SetSummary?) && pc.w == w
  }

  ghost predicate Pending(pcs: map<Tid, Pc>, w: nat)
  {
    exists t :: t in pcs && Writing(pcs[t], w)
  }

  /** Where no summary write is pending, the summary bit is right exactly if the last write left it right. */
  ghost predicate SettledAt(s: State, w: nat)
    requires w < |s.level1| == |s.agreed|
  {
    Pending(s.pcs, w) || (s.agreed[w] <==> SummaryAt(s.level0, s.level1, w))
  }

  lemma {:induction false} PendingMoved(pcs: map<Tid, Pc>, t: Tid, pc: Pc, w: nat)
    requires t in pcs && !Writing(pcs[t], w)
    ensures Pending(pcs[t := pc], w) == (Pending(pcs, w) || Writing(pc, w))
  {
    assert t in pcs[t := pc];
    if Pending(pcs, w) {
      var u :| u in pcs && Writing(pcs[u], w);
      assert u in pcs[t := pc] && Writing(pcs[t := pc][u], w);
    }
  }

  lemma {:induction false} WriteSettled(s: State, t: Tid, v: nat, one: bool, pc: Pc, w: nat)
    requires v < |s.level1| == |s.agreed| && v / 64 < |s.level0| && t in s.pcs && Writing(s.pcs[t], v)
    requires w < |s.level1| && SettledAt(s, w) && !Writing(pc, w)
    ensures SettledAt(WriteSummary(s, t, v, one, pc), w)
  {
    if v != w {
      PendingMoved(s.pcs, t, pc, w);
      ClearBitHas(s.level0, v / 64, v % 64, w);
      SetBitHas(s.level0, v / 64, v % 64, w);
    }
  }

  lemma {:induction false} AcquireSettled(s: State, t: Tid, v: nat, b: nat, k: nat, w: nat)
    requires v < |s.level1| == |s.agreed| && b in s.level1[v] && t in s.pcs && !Writing(s.pcs[t], w)
    requires w < |s.level1| && SettledAt(s, w)
    ensures SettledAt(Acquire(s, t, v, b, k), w)
  {
    PendingMoved(s.pcs, t, Acquire(s, t, v, b, k).pcs[t], w);
  }

  lemma {:induction false} ReleaseSettled(s: State, t: Tid, v: nat, b: nat, k: nat, w: nat)
    requires v < |s.level1| == |s.agreed| && b < 64 && t in s.pcs && !Writing(s.pcs[t], w)
    requires w < |s.level1| && SettledAt(s, w)
    ensures SettledAt(Release(s, t, v, b, k), w)
  {
    PendingMoved(s.pcs, t, SetSummary(k, v), w);
  }

  lemma {:induction false} ApplySettled(s: State, t: Tid, op: Op, w: nat)
    requires Shape(s) && t in s.pcs && Fits(s, t, op) && w < |s.level1| && SettledAt(s, w)
    ensures var s' := Apply(s, t, op); |s'.level1| == |s.level1| == |s'.agreed| && SettledAt(s', w)
  {
    match op
    case Move(pc, used) => PendingMoved(s.pcs, t, pc, w);
    case Take(v, b, k) => AcquireSettled(s, t, v, b, k, w);
    case Give(v, b, k) => ReleaseSettled(s, t, v, b, k, w);
    case Write(v, one, pc) => WriteSettled(s, t, v, one, pc, w);
  }

  lemma {:induction false} StepSettled(s: State, t: Tid, a: Action, w: nat)
    requires Shape(s) && Enabled(s, t, a) && w < |s.level1| && SettledAt(s, w)
    ensures var s' := Step(s, t, a); |s'.level1| == |s.level1| == |s'.agreed| && SettledAt(s', w)
  {
    match a
    case Next(spurious) => NextFits(s, t, spurious); ApplySettled(s, t, NextOp(s, t, spurious), w);
    case HandOver(_, _) =>
    case _ => PendingMoved(s.pcs, t, Step(s, t, a).pcs[t], w);
  }

  /** In every run: a summary bit that no thread is about to write tells whether its word has a free id
      exactly if the last write to it found the word in the state it announced. */
  lemma {:induction false} SummaryIsRight(run: Trace, w: nat)
    requires Legal(run) && w < |End(run).level1|
    ensures var s := End(run);
            && |s.level1| == |s.agreed|
            && (!Pending(s.pcs, w) ==> (SummaryAt(s.level0, s.level1, w) <==> s.agreed[w]))
  {
    match run
    case Start(s) =>
    case Then(prefix, t, a) =>
      SummaryIsRight(prefix, w);
      StepSettled(End(prefix), t, a, w);
  }

  /** What the `agreed` history records: clearing the bit is right for a full word, setting it for another. */
  lemma {:induction false} AgreedWhen(s: State, t: Tid, spurious: bool)
    requires Shape(s) && t in s.pcs && (s.pcs[t].ClearSummary? || s.pcs[t].SetSummary?)
    ensures var w := s.pcs[t].w;
            && w < |s.level1|
            && Run(s, t, spurious).agreed[w] == (s.pcs[t].ClearSummary? <==> s.level1[w] == {})
  {
  }

  // ----- When the summary is right -----

  /** One thread is about to clear the summary bit of word `w` and another about to set it. */
  ghost predicate Crossed(pcs: map<Tid, Pc>, w: nat)
  {
    exists t, u :: t in pcs && u in pcs && Clearing(pcs[t], w) && Setting(pcs[u], w)
  }

  /** No state of the run has crossed writes to the summary bit of word `w`. */
  ghost predicate NeverCrossed(run: Trace, w: nat)
    requires Legal(run)
  {
    !Crossed(End(run).pcs, w) && (run.Then? ==> NeverCrossed(run.prefix, w))
  }

  /** Whoever is about to write the summary bit of word `w` will write what the word says, and where nobody is, the
      bit is right. */
  ghost predicate Announced(l0: seq<Word>, l1: seq<Word>, pcs: map<Tid, Pc>, w: nat)
    requires w < |l1|
  {
    && (forall t <- pcs :: (Clearing(pcs[t], w) ==> l1[w] == {}) && (Setting(pcs[t], w) ==> l1[w] != {}))
    && (Pending(pcs, w) || SummaryAt(l0, l1, w))
  }

  lemma {:induction false} AnnouncedMoved(l0: seq<Word>, l1: seq<Word>, pcs: map<Tid, Pc>, t: Tid, pc: Pc, w: nat)
    requires w < |l1| && t in pcs && Announced(l0, l1, pcs, w) && !Writing(pcs[t], w) && !Writing(pc, w)
    ensures Announced(l0, l1, pcs[t := pc], w)
  {
    PendingMoved(pcs, t, pc, w);
  }

  /** A write to the summary bit of word `v`. */
  lemma {:induction false} WriteAnnounced(s: State, t: Tid, v: nat, one: bool, pc: Pc, w: nat)
    requires v < |s.level1| == |s.agreed| && v / 64 < |s.level0| && w < |s.level1|
    requires t in s.pcs && (if one then Setting(s.pcs[t], v) else Clearing(s.pcs[t], v)) && !Writing(pc, w)
    requires Announced(s.level0, s.level1, s.pcs, w)
    ensures var s' := WriteSummary(s, t, v, one, pc); Announced(s'.level0, s'.level1, s'.pcs, w)
  {
    if v != w {
      PendingMoved(s.pcs, t, pc, w);
      ClearBitHas(s.level0, v / 64, v % 64, w);
      SetBitHas(s.level0, v / 64, v % 64, w);
    }
  }

  /** A bit of word `v` is cleared. If that leaves the word empty, a pending set of its summary bit is crossed. */
  lemma {:induction false} AcquireAnnounced(s: State, t: Tid, v: nat, b: nat, k: nat, w: nat)
    requires v < |s.level1| && w < |s.level1| && b in s.level1[v] && t in s.pcs && !Writing(s.pcs[t], w)
    requires Announced(s.level0, s.level1, s.pcs, w) && !Crossed(Acquire(s, t, v, b, k).pcs, w)
    ensures var s' := Acquire(s, t, v, b, k); Announced(s'.level0, s'.level1, s'.pcs, w)
  {
    var pcs' := Acquire(s, t, v, b, k).pcs;
    PendingMoved(s.pcs, t, pcs'[t], w);
    if v == w && pcs'[t].ClearSummary? {
      assert Clearing(pcs'[t], w);
      assert forall u <- s.pcs :: u != t ==> pcs'[u] == s.pcs[u];
    }
  }

  /** A bit of word `v` is set, which crosses a pending clear of its summary bit. */
  lemma {:induction false} ReleaseAnnounced(s: State, t: Tid, v: nat, b: nat, k: nat, w: nat)
    requires v < |s.level1| && b < 64 && w < |s.level1| && t in s.pcs && !Writing(s.pcs[t], w)
    requires Announced(s.level0, s.level1, s.pcs, w) && !Crossed(Release(s, t, v, b, k).pcs, w)
    ensures var s' := Release(s, t, v, b, k); Announced(s'.level0, s'.level1, s'.pcs, w)
  {
    var pcs' := Release(s, t, v, b, k).pcs;
    PendingMoved(s.pcs, t, SetSummary(k, v), w);
    if v == w {
      assert Setting(pcs'[t], w);
      assert forall u <- s.pcs :: u != t ==> pcs'[u] == s.pcs[u];
    }
  }

  lemma {:induction false} ApplyAnnounced(s: State, t: Tid, op: Op, w: nat)
    requires Shape(s) && t in s.pcs && Fits(s, t, op) && w < |s.level1|
    requires Announced(s.level0, s.level1, s.pcs, w) && !Crossed(Apply(s, t, op).pcs, w)
    ensures var s' := Apply(s, t, op); |s'.level1| == |s.level1| && Announced(s'.level0, s'.level1, s'.pcs, w)
  {
    match op
    case Move(pc, used) => AnnouncedMoved(s.level0, s.level1, s.pcs, t, pc, w);
    case Take(v, b, k) => AcquireAnnounced(s, t, v, b, k, w);
    case Give(v, b, k) => ReleaseAnnounced(s, t, v, b, k, w);
    case Write(v, one, pc) => WriteAnnounced(s, t, v, one, pc, w);
  }

  lemma {:induction false} StepAnnounced(s: State, t: Tid, a: Action, w: nat)
    requires Shape(s) && Enabled(s, t, a) && w < |s.level1|
    requires Announced(s.level0, s.level1, s.pcs, w) && !Crossed(Step(s, t, a).pcs, w)
    ensures var s' := Step(s, t, a); |s'.level1| == |s.level1| && Announced(s'.level0, s'.level1, s'.pcs, w)
  {
    match a
    case Next(spurious) => NextFits(s, t, spurious); ApplyAnnounced(s, t, NextOp(s, t, spurious), w);
    case HandOver(_, _) =>
    case _ => AnnouncedMoved(s.level0, s.level1, s.pcs, t, Step(s, t, a).pcs[t], w);
  }

  /** In every run that never has a clear and a set of the same summary bit pending together, a bit that nobody is
      about to write tells whether its word has a free id. */
  lemma {:induction false} UncrossedIsRight(run: Trace, w: nat)
    requires Legal(run) && NeverCrossed(run, w) && w < |End(run).level1|
    ensures var s := End(run);
            Announced(s.level0, s.level1, s.pcs, w) && (Pending(s.pcs, w) || SummaryAt(s.level0, s.level1, w))
  {
    match run
    case Start(s) =>
    case Then(prefix, t, a) =>
      SameSizes(End(prefix), t, a);
      UncrossedIsRight(prefix, w);
      StepAnnounced(End(prefix), t, a, w);
  }

  /** A pending write is performed: the word stays, and the bit is right exactly if the write fits the word. */
  lemma {:induction false} PerformWrite(run: Trace, v: Tid, w: nat)
    requires Legal(run) && v in End(run).pcs && Writing(End(run).pcs[v], w)
    ensures var run', s := Then(run, v, Next(false)), End(run);
            && Legal(run') && w < |s.level1| && End(run').level1 == s.level1
            && !Writing(End(run').pcs[v], w) && End(run').pcs == s.pcs[v := End(run').pcs[v]]
            && (SummaryAt(End(run').level0, s.level1, w) <==> (Setting(s.pcs[v], w) <==> s.level1[w] != {}))
  {
    LegalShape(run);
    assert Inside(End(run).range, |End(run).level0|, |End(run).level1|, End(run).pcs[v]);
  }

  ghost function Writers(pcs: map<Tid, Pc>, w: nat, t: Tid, u: Tid): set<Tid>
  {
    set v | v in pcs && v != t && v != u && Writing(pcs[v], w)
  }

  /** Every thread but two performs its pending write. */
  lemma {:induction false} Flush(run: Trace, w: nat, t: Tid, u: Tid) returns (run': Trace)
    requires Legal(run) && w < |End(run).level1| && t in End(run).pcs && u in End(run).pcs
    ensures Legal(run') && End(run').level1 == End(run).level1 && Writers(End(run').pcs, w, t, u) == {}
    ensures t in End(run').pcs && End(run').pcs[t] == End(run).pcs[t]
    ensures u in End(run').pcs && End(run').pcs[u] == End(run).pcs[u]
    decreases Writers(End(run).pcs, w, t, u)
  {
    var pcs := End(run).pcs;
    if v :| v in Writers(pcs, w, t, u) {
      PerformWrite(run, v, w);
      var next := Then(run, v, Next(false));
      assert Writers(End(next).pcs, w, t, u) == Writers(pcs, w, t, u) - {v};
      run' := Flush(next, w, t, u);
    } else {
      run' := run;
    }
  }

  /** The last two writers of a summary bit perform their writes. */
  lemma {:induction false} PerformTwo(run: Trace, w: nat, t: Tid, u: Tid) returns (run': Trace)
    requires Legal(run) && w < |End(run).level1| && t in End(run).pcs && u in End(run).pcs && t != u
    requires Writing(End(run).pcs[t], w) && Writing(End(run).pcs[u], w)
    requires Writers(End(run).pcs, w, t, u) == {} || Writers(End(run).pcs, w, u, t) == {}
    ensures Legal(run') && End(run').level1 == End(run).level1 && !Pending(End(run').pcs, w)
    ensures SummaryAt(End(run').level0, End(run').level1, w)
            <==> (Setting(End(run).pcs[u], w) <==> End(run).level1[w] != {})
  {
    PerformWrite(run, t, w);
    var next := Then(run, t, Next(false));
    PerformWrite(next, u, w);
    run' := Then(next, u, Next(false));
    NobodyWrites(End(run).pcs, End(run').pcs, w, t, u);
  }

  lemma {:induction false} NobodyWrites(pcs: map<Tid, Pc>, pcs': map<Tid, Pc>, w: nat, t: Tid, u: Tid)
    requires Writers(pcs, w, t, u) == {} || Writers(pcs, w, u, t) == {}
    requires t in pcs' && u in pcs' && pcs' == pcs[t := pcs'[t]][u := pcs'[u]]
    requires !Writing(pcs'[t], w) && !Writing(pcs'[u], w)
    ensures !Pending(pcs', w)
  {
    forall v | v in pcs'
      ensures !Writing(pcs'[v], w)
    {
      assert v !in Writers(pcs, w, t, u) || v !in Writers(pcs, w, u, t);
    }
  }

  /** Conversely, once a clear and a set of a summary bit are pending together, the run can go on to a state in
      which nobody is about to write the bit and it is wrong. */
  lemma {:induction false} CrossedGoesWrong(run: Trace, w: nat) returns (run': Trace)
    requires Legal(run) && w < |End(run).level1| && Crossed(End(run).pcs, w)
    ensures Legal(run') && w < |End(run').level1|
    ensures var s := End(run'); !Pending(s.pcs, w) && !SummaryAt(s.level0, s.level1, w)
  {
    var t, u :| t in End(run).pcs && u in End(run).pcs && Clearing(End(run).pcs[t], w) && Setting(End(run).pcs[u], w);
    run' := Flush(run, w, t, u);
    if End(run).level1[w] == {} {
      run' := PerformTwo(run', w, t, u);
    } else {
      run' := PerformTwo(run', w, u, t);
    }
  }

  // ----- What a get returns -----

  /** Thread `t` goes one operation further, if it is in a call. */
  ghost function Advance(s: State, t: Tid): State
  {
    if Shape(s) && Busy(s, t) then Run(s, t, false) else s
  }

  predicate Busy(s: State, t: Tid)
  {
    t in s.pcs && !s.pcs[t].Idle?
  }

  /** `n` operations of thread `t` alone, or fewer if that ends its call. */
  ghost function Solo(s: State, t: Tid, n: nat): State
  {
    Iterate(x => Advance(x, t), s, n)
  }

  /** Undisturbed, thread `t` finishes its call, with the ids `held` held in the end. */
  ghost predicate Returns(s: State, t: Tid, held: set<(Tid, nat)>)
  {
    exists n: nat :: Finished(Solo(s, t, n), t, held)
  }

  predicate Finished(s: State, t: Tid, held: set<(Tid, nat)>)
  {
    t in s.pcs && s.pcs[t].Idle? && s.held == held
  }

  /** Undisturbed, thread `t` never finishes its call. */
  ghost predicate Spins(s: State, t: Tid)
  {
    forall n: nat :: Busy(Solo(s, t, n), t)
  }

  lemma {:induction false} ReturnsLater(s: State, t: Tid, n: nat, held: set<(Tid, nat)>)
    requires Returns(Solo(s, t, n), t, held)
    ensures Returns(s, t, held)
  {
    var m: nat :| Finished(Solo(Solo(s, t, n), t, m), t, held);
    IterateAdd(x => Advance(x, t), s, n, m);
    assert Solo(s, t, n + m) == Solo(Solo(s, t, n), t, m);
  }

  lemma {:induction false} SpinsLater(s: State, t: Tid, n: nat)
    requires Spins(Solo(s, t, n), t)
    ensures Spins(s, t)
  {
    var f := x => Advance(x, t);
    assert Busy(Solo(Solo(s, t, n), t, 0), t);
    forall m: nat
      ensures Busy(Solo(s, t, m), t)
    {
      if n <= m {
        IterateAdd(f, s, n, m - n);
        assert Solo(s, t, m) == Solo(Solo(s, t, n), t, m - n);
      } else if !Busy(Solo(s, t, m), t) {
        IterateAdd(f, s, m, n - m);
        IterateFixed(f, Solo(s, t, m), n - m);
      }
    }
  }

  lemma {:induction false} SoloOne(s: State, t: Tid)
    ensures Solo(s, t, 1) == Advance(s, t)
  {
  }

  lemma {:induction false} SoloOp(s: State, t: Tid, op: Op)
    requires Shape(s) && Busy(s, t) && NextOp(s, t, false) == op
    ensures Fits(s, t, op) && Solo(s, t, 1) == Apply(s, t, op)
  {
    NextFits(s, t, false);
    SoloOne(s, t);
  }

  /** Where a scan that nobody disturbs stops looking at the summary: at its end, or at the first word with a one. */
  ghost function Stop(l0: seq<Word>, pick: Pick, at: nat, tries: nat): Pc
    requires tries <= |l0| && (tries < |l0| ==> at < |l0|) && (pick.Lowest? ==> at == tries)
    decreases |l0| - tries
  {
    if tries == |l0| then Idle
    else if l0[at] == {} then Stop(l0, pick, NextSlab(pick, at, |l0|), tries + 1)
    else LoadWord(pick, at, tries, pick.Choose(l0[at]))
  }

  /** A look at the summary moves the thread and nothing else. */
  lemma {:induction false} Looks(s: State, t: Tid, pick: Pick, at: nat, tries: nat)
    requires Shape(s) && t in s.pcs && s.pcs[t] == LoadSummary(pick, at, tries)
    ensures tries <= |s.level0| && (tries < |s.level0| ==> at < |s.level0|) && (pick.Lowest? ==> at == tries)
    ensures Advance(s, t) == At(s, t, Scanned(s, pick, at, tries)) && Shape(Advance(s, t))
  {
    NextFits(s, t, false);
    assert Inside(s.range, |s.level0|, |s.level1|, s.pcs[t]);
  }

  lemma {:induction false} ScanStops(s: State, t: Tid, pick: Pick, at: nat, tries: nat) returns (n: nat)
    requires Shape(s) && t in s.pcs && s.pcs[t] == LoadSummary(pick, at, tries)
    ensures tries <= |s.level0| && (tries < |s.level0| ==> at < |s.level0|) && (pick.Lowest? ==> at == tries)
    ensures Solo(s, t, n) == At(s, t, Stop(s.level0, pick, at, tries))
    decreases |s.level0| - tries
  {
    Looks(s, t, pick, at, tries);
    SoloOne(s, t);
    n := 1;
    if tries < |s.level0| && s.level0[at] == {} {
      var m := ScanStops(Advance(s, t), t, pick, NextSlab(pick, at, |s.level0|), tries + 1);
      IterateAdd(x => Advance(x, t), s, 1, m);
      n := 1 + m;
      assert Solo(s, t, n) == Solo(Advance(s, t), t, m);
    }
  }

  /** The scan keeps choosing a word that is full. */
  ghost predicate Spinning(s: State, t: Tid)
  {
    && Shape(s) && t in s.pcs && (s.pcs[t].LoadSummary? || s.pcs[t].LoadWord?)
    && var pc := s.pcs[t];
    && pc.l0 < |s.level0| && pc.tries < |s.level0| && s.level0[pc.l0] != {}
    && var bit0 := pc.pick.Choose(s.level0[pc.l0]);
    && (pc.LoadWord? ==> pc.bit0 == bit0)
    && pc.l0 * 64 + bit0 < |s.level1| && s.level1[pc.l0 * 64 + bit0] == {}
  }

  lemma {:induction false} SpinStep(s: State, t: Tid)
    requires Spinning(s, t)
    ensures Spinning(Advance(s, t), t)
  {
  }

  lemma {:induction false} SpinsOn(s: State, t: Tid, n: nat)
    requires Spinning(s, t)
    ensures Busy(Solo(s, t, n), t)
    decreases n
  {
    if 0 < n {
      SpinStep(s, t);
      SpinsOn(Advance(s, t), t, n - 1);
    }
  }

  /** Once it spins, a scan that nobody disturbs never returns. */
  lemma {:induction false} SpinsForever(s: State, t: Tid)
    requires Spinning(s, t)
    ensures Spins(s, t)
  {
    forall n: nat
      ensures Busy(Solo(s, t, n), t)
    {
      SpinsOn(s, t, n);
    }
  }

  /** Some run ends in this state. */
  ghost predicate Reachable(s: State)
  {
    exists run :: Legal(run) && End(run) == s
  }

  lemma {:induction false} ReachableShape(s: State)
    requires Reachable(s)
    ensures Shape(s)
  {
    var run :| Legal(run) && End(run) == s;
    LegalShape(run);
  }

  lemma {:induction false} ReachableStep(s: State, t: Tid, a: Action)
    requires Reachable(s) && Shape(s) && Enabled(s, t, a)
    ensures Reachable(Step(s, t, a))
  {
    var run :| Legal(run) && End(run) == s;
    assert Legal(Then(run, t, a));
  }

  lemma {:induction false} ReachableSolo(s: State, t: Tid, n: nat)
    requires Reachable(s)
    ensures Reachable(Solo(s, t, n))
    decreases n
  {
    ReachableShape(s);
    if 0 < n {
      if Busy(s, t) {
        ReachableStep(s, t, Next(false));
      }
      ReachableSolo(Advance(s, t), t, n - 1);
    }
  }

  lemma {:induction false} CountUpReturns(s: State, t: Tid, held: set<(Tid, nat)>)
    requires Reachable(s) && t in s.pcs && s.pcs[t].CountUp? && s.held == held
    ensures Returns(s, t, held)
  {
    ReachableShape(s);
    assert Finished(Solo(s, t, 1), t, held);
  }

  lemma {:induction false} ClearsSummary(s: State, t: Tid)
    requires Reachable(s) && t in s.pcs && s.pcs[t].ClearSummary?
    ensures var r := Solo(s, t, 1); t in r.pcs && r.pcs[t].CountUp? && r.held == s.held
  {
    ReachableShape(s);
    SoloOne(s, t);
  }

  /** What is left of a get once it has an id. */
  lemma {:induction false} TakenReturns(s: State, t: Tid, held: set<(Tid, nat)>)
    requires Reachable(s) && t in s.pcs && CountingUp(s.pcs[t]) && s.held == held
    ensures Returns(s, t, held)
  {
    if s.pcs[t].ClearSummary? {
      ClearsSummary(s, t);
      ReachableSolo(s, t, 1);
      CountUpReturns(Solo(s, t, 1), t, held);
      ReturnsLater(s, t, 1, held);
    } else {
      CountUpReturns(s, t, held);
    }
  }

  lemma {:induction false} Takes(s: State, t: Tid, w: nat, b: nat)
    requires Reachable(s) && t in s.pcs && s.pcs[t].CasWord? && w < |s.level1| && s.level1[w] != {}
    requires s.pcs[t].l0 * 64 + s.pcs[t].bit0 == w && s.pcs[t].seen == s.level1[w]
    requires b == s.pcs[t].pick.Choose(s.level1[w])
    ensures var r := Solo(s, t, 1);
            t in r.pcs && CountingUp(r.pcs[t]) && r.held == s.held + {(t, w * 64 + b)}
  {
    ReachableShape(s);
    SoloOp(s, t, Take(w, b, w * 64 + b));
  }

  lemma {:induction false} CasReturns(s: State, t: Tid, pc: Pc, w: nat, k: nat, held: set<(Tid, nat)>)
    requires Reachable(s) && t in s.pcs && pc.LoadWord? && w == pc.l0 * 64 + pc.bit0 < |s.level1| && s.level1[w] != {}
    requires s.pcs[t] == CasWord(pc.pick, pc.l0, pc.tries, pc.bit0, s.level1[w])
    requires k == w * 64 + pc.pick.Choose(s.level1[w]) && held == s.held + {(t, k)}
    ensures Returns(s, t, held)
  {
    Takes(s, t, w, pc.pick.Choose(s.level1[w]));
    ReachableSolo(s, t, 1);
    TakenReturns(Solo(s, t, 1), t, held);
    ReturnsLater(s, t, 1, held);
  }

  /** A read of a word with a free id. */
  lemma {:induction false} ReadsWord(s: State, t: Tid, pc: Pc, w: nat) returns (r: State)
    requires Reachable(s) && t in s.pcs && s.pcs[t] == pc && pc.LoadWord?
    requires w == pc.l0 * 64 + pc.bit0 < |s.level1| && s.level1[w] != {}
    ensures Reachable(r) && Solo(s, t, 1) == r && r.level1 == s.level1 && r.held == s.held
    ensures t in r.pcs && r.pcs[t] == CasWord(pc.pick, pc.l0, pc.tries, pc.bit0, s.level1[w])
  {
    r := Solo(s, t, 1);
    ReachableSolo(s, t, 1);
    ReachableShape(s);
    SoloOp(s, t, Move(CasWord(pc.pick, pc.l0, pc.tries, pc.bit0, s.level1[w]), s.used));
  }

  /** A thread that looks at a word with a free id gets one. */
  lemma {:induction false} WordReturns(s: State, t: Tid, pc: Pc, w: nat, k: nat)
    requires Reachable(s) && t in s.pcs && s.pcs[t] == pc && pc.LoadWord?
    requires w == pc.l0 * 64 + pc.bit0 < |s.level1| && s.level1[w] != {}
    requires k == w * 64 + pc.pick.Choose(s.level1[w])
    ensures Returns(s, t, s.held + {(t, k)})
  {
    var r := ReadsWord(s, t, pc, w);
    CasReturns(r, t, pc, w, k, s.held + {(t, k)});
    ReturnsLater(s, t, 1, s.held + {(t, k)});
  }

  lemma {:induction false} WordSpins(s: State, t: Tid, pc: Pc, w: nat)
    requires Reachable(s) && t in s.pcs && s.pcs[t] == pc && pc.LoadWord? && pc.tries < |s.level0|
    requires pc.l0 < |s.level0| && s.level0[pc.l0] != {} && pc.bit0 == pc.pick.Choose(s.level0[pc.l0])
    requires w == pc.l0 * 64 + pc.bit0 < |s.level1| && s.level1[w] == {}
    ensures Spins(s, t)
  {
    ReachableShape(s);
    SpinsForever(s, t);
  }

  /** How a call that nobody disturbs ends: it returns 0, it never returns, or it hands out an id. */
  datatype Outcome = Zero | Never | Id(k: nat)

  /** The thread ends its call so, if the ids `held` were held when it began. */
  ghost predicate Ends(s: State, t: Tid, held: set<(Tid, nat)>, o: Outcome)
  {
    match o
    case Zero => Returns(s, t, held)
    case Never => Spins(s, t)
    case Id(k) => Returns(s, t, held + {(t, k)})
  }

  function WordOutcome(l1: seq<Word>, pick: Pick, w: nat): Outcome
    requires w < |l1|
  {
    if l1[w] == {} then Never else Id(w * 64 + pick.Choose(l1[w]))
  }

  lemma {:induction false} WordEnds(s: State, t: Tid, pc: Pc, w: nat)
    requires Reachable(s) && t in s.pcs && s.pcs[t] == pc && pc.LoadWord? && pc.tries < |s.level0|
    requires pc.l0 < |s.level0| && s.level0[pc.l0] != {} && pc.bit0 == pc.pick.Choose(s.level0[pc.l0])
    requires w == pc.l0 * 64 + pc.bit0 < |s.level1|
    ensures Ends(s, t, s.held, WordOutcome(s.level1, pc.pick, w))
  {
    match WordOutcome(s.level1, pc.pick, w)
    case Never => WordSpins(s, t, pc, w);
    case Id(k) => WordReturns(s, t, pc, w, k);
  }

  /** The slab a get starts with: the first one, or a random one. */
  predicate Starts(pick: Pick, at: nat, n0: nat)
  {
    at < n0 && (pick.Lowest? ==> at == 0)
  }

  /** How a get ends that starts with slab `at`: the first summary word with a one decides, whether or not the word
      that one stands for has a free id. */
  ghost function GetOutcome(l0: seq<Word>, l1: seq<Word>, pick: Pick, at: nat): Outcome
    requires Starts(pick, at, |l0|) && forall w <- Ones(l0) :: w < |l1|
  {
    var pc := Stop(l0, pick, at, 0);
    if pc.Idle? then Zero
    else WordOutcome(l1, pick, StopWord(l0, pick, at, 0))
  }

  ghost function StopWord(l0: seq<Word>, pick: Pick, at: nat, tries: nat): (w: nat)
    requires tries <= |l0| && (tries < |l0| ==> at < |l0|) && (pick.Lowest? ==> at == tries)
    requires Stop(l0, pick, at, tries) != Idle
    ensures w in Ones(l0)
    ensures var pc := Stop(l0, pick, at, tries);
            pc.LoadWord? && pc.pick == pick && pc.l0 < |l0| && pc.tries < |l0| && l0[pc.l0] != {}
            && pc.bit0 == pick.Choose(l0[pc.l0]) && w == pc.l0 * 64 + pc.bit0
    decreases |l0| - tries
  {
    if l0[at] == {} then StopWord(l0, pick, NextSlab(pick, at, |l0|), tries + 1)
    else OnesAt(l0, at, pick.Choose(l0[at])); at * 64 + pick.Choose(l0[at])
  }

  lemma {:induction false} StopEnds(s: State, t: Tid, pick: Pick, at: nat, pc: Pc)
    requires Reachable(s) && Shape(s) && Starts(pick, at, |s.level0|)
    requires pc == Stop(s.level0, pick, at, 0) != Idle && t in s.pcs && s.pcs[t] == pc
    ensures Ends(s, t, s.held, GetOutcome(s.level0, s.level1, pick, at))
  {
    var w := StopWord(s.level0, pick, at, 0);
    WordEnds(s, t, pc, w);
  }

  /** A get that nobody disturbs ends as `GetOutcome` says, from every state a run can reach. */
  lemma {:induction false} GetEnds(s: State, t: Tid, pick: Pick, at: nat)
    requires Reachable(s) && Shape(s) && t in s.pcs && Starts(pick, at, |s.level0|)
    requires s.pcs[t] == LoadSummary(pick, at, 0)
    ensures Ends(s, t, s.held, GetOutcome(s.level0, s.level1, pick, at))
  {
    var o := GetOutcome(s.level0, s.level1, pick, at);
    var n := ScanStops(s, t, pick, at, 0);
    ReachableSolo(s, t, n);
    var r := Solo(s, t, n);
    ReachableShape(r);
    if r.pcs[t].Idle? {
      assert Finished(Solo(s, t, n), t, s.held);
    } else {
      StopEnds(r, t, pick, at, r.pcs[t]);
      match o
      case Never => SpinsLater(s, t, n);
      case Id(k) => ReturnsLater(s, t, n, s.held + {(t, k)});
    }
  }

  /** The slab a get visits after `j` others. */
  function Slab(pick: Pick, at: nat, j: nat, n: nat): int
  {
    if pick.Lowest? then at + j else if j <= at then at - j else at + n - j
  }

  /** The first summary word with a one, in the order of the visits, is where the scan stops. */
  lemma {:induction false} StopsAtFirst(l0: seq<Word>, pick: Pick, at: nat, tries: nat, j: nat)
    requires tries + j <= |l0| && (tries < |l0| ==> at < |l0|) && (pick.Lowest? ==> at == tries)
    requires forall i | 0 <= i < j :: l0[Slab(pick, at, i, |l0|)] == {}
    requires tries + j < |l0| ==> l0[Slab(pick, at, j, |l0|)] != {}
    ensures tries + j == |l0| ==> Stop(l0, pick, at, tries) == Idle
    ensures tries + j < |l0| ==>
              var v := Slab(pick, at, j, |l0|);
              Stop(l0, pick, at, tries) == LoadWord(pick, v, tries + j, pick.Choose(l0[v]))
    decreases j
  {
    if 0 < j {
      var next := NextSlab(pick, at, |l0|);
      assert l0[Slab(pick, at, 0, |l0|)] == {};
      assert forall i | 0 <= i < |l0| - 1 :: Slab(pick, next, i, |l0|) == Slab(pick, at, i + 1, |l0|);
      StopsAtFirst(l0, pick, next, tries + 1, j - 1);
    }
  }

  lemma {:induction false} FirstVisit(l0: seq<Word>, pick: Pick, at: nat, j: nat) returns (first: nat)
    requires Starts(pick, at, |l0|) && j < |l0| && l0[Slab(pick, at, j, |l0|)] != {}
    ensures first <= j && l0[Slab(pick, at, first, |l0|)] != {}
    ensures forall i | 0 <= i < first :: l0[Slab(pick, at, i, |l0|)] == {}
  {
    first := 0;
    while l0[Slab(pick, at, first, |l0|)] == {}
      invariant first <= j && forall i | 0 <= i < first :: l0[Slab(pick, at, i, |l0|)] == {}
      decreases j - first
    {
      first := first + 1;
    }
  }

  /** A get returns 0 exactly when no summary word has a one. */
  lemma {:induction false} ZeroExactly(l0: seq<Word>, l1: seq<Word>, pick: Pick, at: nat)
    requires Starts(pick, at, |l0|) && forall w <- Ones(l0) :: w < |l1|
    ensures GetOutcome(l0, l1, pick, at) == Zero <==> forall i | 0 <= i < |l0| :: l0[i] == {}
  {
    var n := |l0|;
    if forall i | 0 <= i < n :: l0[i] == {} {
      StopsAtFirst(l0, pick, at, 0, n);
    } else if GetOutcome(l0, l1, pick, at) == Zero {
      var i :| 0 <= i < n && l0[i] != {};
      var j := if pick.Lowest? then i else if i <= at then at - i else at + n - i;
      var first := FirstVisit(l0, pick, at, j);
      StopsAtFirst(l0, pick, at, 0, first);
    }
  }

  /** A call has one end. */
  lemma {:induction false} OneEnd(s: State, t: Tid, held: set<(Tid, nat)>, held': set<(Tid, nat)>)
    requires Returns(s, t, held)
    ensures !Spins(s, t) && (Returns(s, t, held') ==> held == held')
  {
    var n: nat :| Finished(Solo(s, t, n), t, held);
    if Returns(s, t, held') {
      var m: nat :| Finished(Solo(s, t, m), t, held');
      var f := x => Advance(x, t);
      IterateAdd(f, s, n, m);
      IterateAdd(f, s, m, n);
      IterateFixed(f, Solo(s, t, n), m);
      IterateFixed(f, Solo(s, t, m), n);
      assert n + m == m + n;
    }
  }

  lemma {:induction false} OutcomeAtFirst(l0: seq<Word>, l1: seq<Word>, f: nat)
    requires l0 != [] && forall w <- Ones(l0) :: w < |l1|
    requires f <= |l0| && (forall i | 0 <= i < f :: l0[i] == {}) && (f < |l0| ==> l0[f] != {})
    ensures f == |l0| ==> GetOutcome(l0, l1, Lowest, 0) == Zero
    ensures f < |l0| ==>
              var w := f * 64 + Ctz(l0[f]);
              w < |l1| && GetOutcome(l0, l1, Lowest, 0) == WordOutcome(l1, Lowest, w)
  {
    StopsAtFirst(l0, Lowest, 0, 0, f);
    if f < |l0| {
      assert StopWord(l0, Lowest, 0, 0) in Ones(l0);
    }
  }

  /** id_pool_get that nobody disturbs, from every state a run can reach: it returns 0 if no summary word has a one.
      Else the lowest one of the first that has stands for a word, and the call hands out the lowest free id of that
      word, or never returns if there is none. */
  lemma {:induction false} GetExactly(s: State, t: Tid, f: nat)
    requires Reachable(s) && t in s.pcs && s.pcs[t] == LoadSummary(Lowest, 0, 0)
    requires f <= |s.level0| && (forall i | 0 <= i < f :: s.level0[i] == {}) && (f < |s.level0| ==> s.level0[f] != {})
    ensures f == |s.level0| ==> Returns(s, t, s.held)
    ensures f < |s.level0| ==>
              var w := f * 64 + Ctz(s.level0[f]);
              w < |s.level1| && Ends(s, t, s.held, WordOutcome(s.level1, Lowest, w))
  {
    ReachableShape(s);
    OutcomeAtFirst(s.level0, s.level1, f);
    GetEnds(s, t, Lowest, 0);
  }

  lemma {:induction false} LowestIsFirst(range: nat, l0: seq<Word>, l1: seq<Word>, f: nat, k: nat)
    requires Consistent(range, l0, l1) && f <= |l0|
    requires (forall i | 0 <= i < f :: l0[i] == {}) && (f < |l0| ==> l0[f] != {})
    ensures f == |l0| <==> Ones(l1) == {}
    ensures f < |l0| && k in Ones(l1) && (forall j <- Ones(l1) :: k <= j) ==>
              var w := f * 64 + Ctz(l0[f]);
              w < |l1| && WordOutcome(l1, Lowest, w) == Id(k)
  {
    if f < |l0| {
      var w := f * 64 + Ctz(l0[f]);
      FirstFree(0, range, l0, l1, f);
      OnesAt(l1, w, Ctz(l1[w]));
      assert k in Ones(l1) ==> IdFree(0, l1, k) && k in FreeIds(0, range, l1);
    } else {
      NoneFree(0, range, l0, l1);
      forall j: nat | j in Ones(l1)
        ensures j in FreeIds(0, range, l1)
      {
        assert IdFree(0, l1, j);
      }
    }
  }

  lemma {:induction false} UncrossedConsistent(run: Trace)
    requires Legal(run) && AllIdle(End(run))
    requires forall w | 0 <= w < |End(run).level1| :: NeverCrossed(run, w)
    ensures var s := End(run); Consistent(s.range, s.level0, s.level1)
  {
    var s := End(run);
    LegalShape(run);
    forall w | 0 <= w < |s.level1|
      ensures SummaryAt(s.level0, s.level1, w)
    {
      UncrossedIsRight(run, w);
    }
    forall k: nat | HasBit(s.level1, k)
      ensures k < s.range
    {
      assert k in Ones(s.level1);
    }
    forall w: nat | HasBit(s.level0, w)
      ensures w < |s.level1|
    {
      assert w in Ones(s.level0);
    }
  }

  lemma {:induction false} FirstOne(l0: seq<Word>) returns (f: nat)
    ensures f <= |l0| && (forall i | 0 <= i < f :: l0[i] == {}) && (f < |l0| ==> l0[f] != {})
  {
    f := 0;
    while f < |l0| && l0[f] == {}
      invariant f <= |l0| && forall i | 0 <= i < f :: l0[i] == {}
    {
      f := f + 1;
    }
  }

  lemma {:induction false} ConsistentGet(s: State, t: Tid, k: nat)
    requires Reachable(s) && Consistent(s.range, s.level0, s.level1)
    requires t in s.pcs && s.pcs[t] == LoadSummary(Lowest, 0, 0)
    ensures Ones(s.level1) == {} ==> Returns(s, t, s.held)
    ensures k in Ones(s.level1) && (forall j <- Ones(s.level1) :: k <= j) ==> Returns(s, t, s.held + {(t, k)})
  {
    var f := FirstOne(s.level0);
    GetExactly(s, t, f);
    LowestIsFirst(s.range, s.level0, s.level1, f, k);
  }

  /** In a run that never has a clear and a set of the same summary bit pending together, once every call is
      finished, id_pool_get hands out the lowest free id, and returns 0 only if none is free. */
  lemma {:induction false} UncrossedGet(run: Trace, t: Tid, k: nat)
    requires Legal(run) && AllIdle(End(run)) && t in End(run).pcs
    requires forall w | 0 <= w < |End(run).level1| :: NeverCrossed(run, w)
    ensures Legal(Then(run, t, Get))
    ensures var s, r := End(run), End(Then(run, t, Get));
            && (Ones(s.level1) == {} ==> Returns(r, t, s.held))
            && (k in Ones(s.level1) && (forall j <- Ones(s.level1) :: k <= j) ==> Returns(r, t, s.held + {(t, k)}))
  {
    UncrossedConsistent(run);
    LegalShape(run);
    assert Legal(Then(run, t, Get));
    ConsistentGet(End(Then(run, t, Get)), t, k);
  }

  /** The run ends in `s`, and all ids live in a single word. */
  ghost predicate Leads(run: Trace, s: State)
  {
    Legal(run) && End(run) == s && |s.level0| == |s.level1| == |s.agreed| == 1
  }

  lemma {:induction false} Go(run: Trace, s: State, t: Tid, a: Action)
    requires Leads(run, s) && Enabled(s, t, a)
    ensures Shape(s) && Leads(Then(run, t, a), Step(s, t, a))
  {
    LegalShape(run);
    SameSizes(s, t, a);
  }

  lemma {:induction false} WriteOneWord(s: State, t: Tid, one: bool, pc: Pc)
    requires |s.level0| == |s.level1| == |s.agreed| == 1
    ensures WriteSummary(s, t, 0, one, pc)
         == At(s.(level0 := [if one then s.level0[0] + {0} else s.level0[0] - {0}],
                  agreed := [one <==> s.level1[0] != {}]), t, pc)
  {
  }

  /** Thread `t` books a free id, up to the write of the summary bit or of the counter. */
  lemma {:induction false} StartBook(run: Trace, s: State, t: Tid, k: nat, s': State) returns (run': Trace)
    requires Leads(run, s) && t in s.pcs && s.pcs[t].Idle? && k < s.range && k < 64 && k in s.level1[0]
    requires |s'.level1| == 1 && s'.level1[0] == s.level1[0] - {k} && s'.held == s.held + {(t, k)}
    requires s'.pcs == s.pcs[t := if s.level1[0] == {k} then ClearSummary(k, 0) else CountUp(k)]
    requires (s'.range, s'.level0, s'.used, s'.agreed) == (s.range, s.level0, s.used, s.agreed)
    ensures Leads(run', s')
  {
    Go(run, s, t, Book(k));
    var s1 := At(s, t, BookBit(k));
    Go(Then(run, t, Book(k)), s1, t, Next(false));
    run' := Then(Then(run, t, Book(k)), t, Next(false));
    assert s'.pcs == s1.pcs[t := s'.pcs[t]];
    assert ClearBit(s.level1, 0, k) == s'.level1;
    assert Step(s1, t, Next(false)) == s';
  }

  /** Thread `t` gives back an id, up to the write of the summary bit. */
  lemma {:induction false} StartPut(run: Trace, s: State, t: Tid, k: nat, s': State) returns (run': Trace)
    requires Leads(run, s) && t in s.pcs && s.pcs[t].Idle? && k < 64 && (t, k) in s.held && k < s.range
    requires k !in s.level1[0]
    requires |s'.level1| == 1 && s'.level1[0] == s.level1[0] + {k} && s'.held == s.held - {(t, k)}
    requires s'.pcs == s.pcs[t := SetSummary(k, 0)]
    requires (s'.range, s'.level0, s'.used, s'.agreed) == (s.range, s.level0, s.used, s.agreed)
    ensures Leads(run', s')
  {
    Go(run, s, t, Put(k));
    var s1 := At(s, t, PutBit(k));
    Go(Then(run, t, Put(k)), s1, t, Next(false));
    run' := Then(Then(run, t, Put(k)), t, Next(false));
    assert s'.pcs == s1.pcs[t := SetSummary(k, 0)];
    assert SetBit(s.level1, 0, k) == s'.level1;
    assert Step(s1, t, Next(false)) == s';
  }

  lemma {:induction false} WriteBit(run: Trace, s: State, t: Tid, one: bool, pc: Pc, s': State)
    requires Leads(run, s) && t in s.pcs && s.pcs[t] != Idle && Shape(s) && NextOp(s, t, false) == Write(0, one, pc)
    requires |s'.level0| == 1 && s'.level0[0] == (if one then s.level0[0] + {0} else s.level0[0] - {0})
    requires s'.agreed == [one <==> s.level1[0] != {}] && s'.pcs == s.pcs[t := pc]
    requires (s'.range, s'.level1, s'.held, s'.used) == (s.range, s.level1, s.held, s.used)
    ensures Leads(Then(run, t, Next(false)), s')
  {
    Go(run, s, t, Next(false));
    NextFits(s, t, false);
    WriteOneWord(s, t, one, pc);
    assert s'.level0 == [s'.level0[0]];
  }

  /** The end of a call that writes the summary bit and then the counter. */
  lemma {:induction false} Finish(run: Trace, s: State, t: Tid, k: nat, s': State) returns (run': Trace)
    requires Leads(run, s) && t in s.pcs && s.pcs[t] in {ClearSummary(k, 0), SetSummary(k, 0)} && k < 64
    requires |s'.level0| == 1 && s'.pcs == s.pcs[t := Idle]
    requires (s'.range, s'.level1, s'.held) == (s.range, s.level1, s.held)
    requires s.pcs[t].ClearSummary? ==>
               s'.level0[0] == s.level0[0] - {0} && s'.agreed == [s.level1[0] == {}] && s'.used == s.used + 1
    requires s.pcs[t].SetSummary? ==>
               s'.level0[0] == s.level0[0] + {0} && s'.agreed == [s.level1[0] != {}] && s'.used == s.used - 1
    ensures Leads(run', s')
  {
    LegalShape(run);
    var pc := if s.pcs[t].ClearSummary? then CountUp(k) else CountDown;
    var s1 := s'.(used := s.used, pcs := s.pcs[t := pc]);
    WriteBit(run, s, t, s.pcs[t].SetSummary?, pc, s1);
    run' := Then(run, t, Next(false));
    Go(run', s1, t, Next(false));
    run' := Then(run', t, Next(false));
    assert s1.pcs[t := Idle] == s'.pcs;
  }

  /** Two idle threads and a fresh pool of fewer than 64 ids. */
  function Fresh(range: nat): State
    requires range < 64
  {
    Pair(range, {0}, LowOnes(range), 0, Idle, Idle, {}, true)
  }

  /** Two threads sharing one word of ids. */
  function Pair(range: nat, level0: Word, level1: Word, used: int, pc0: Pc, pc1: Pc,
                held: set<(Tid, nat)>, agreed: bool): State
  {
    State(range, [level0], [level1], used, map[0 := pc0, 1 := pc1], held, [agreed])
  }

  lemma {:induction false} FreshLeads(range: nat)
    requires 0 < range < 64
    ensures Leads(Start(Fresh(range)), Fresh(range))
  {
  }

  lemma {:induction false} StaleOneHalf() returns (run: Trace)
    ensures Leads(run, Pair(1, {}, {0}, 1, SetSummary(0, 0), Idle, {}, true))
  {
    FreshLeads(1);
    var s1 := Pair(1, {0}, {}, 0, ClearSummary(0, 0), Idle, {(0, 0)}, true);
    var s2 := Pair(1, {}, {}, 1, Idle, Idle, {(0, 0)}, true);
    run := StartBook(Start(Fresh(1)), Fresh(1), 0, 0, s1);
    run := Finish(run, s1, 0, 0, s2);
    run := StartPut(run, s2, 0, 0, Pair(1, {}, {0}, 1, SetSummary(0, 0), Idle, {}, true));
  }

  lemma {:induction false} StaleOneAlmost() returns (run: Trace)
    ensures Leads(run, Pair(1, {}, {}, 2, SetSummary(0, 0), Idle, {(1, 0)}, true))
  {
    var s4 := Pair(1, {}, {}, 1, SetSummary(0, 0), ClearSummary(0, 0), {(1, 0)}, true);
    run := StaleOneHalf();
    run := StartBook(run, Pair(1, {}, {0}, 1, SetSummary(0, 0), Idle, {}, true), 1, 0, s4);
    run := Finish(run, s4, 1, 0, Pair(1, {}, {}, 2, SetSummary(0, 0), Idle, {(1, 0)}, true));
  }

  lemma {:induction false} StaleOne() returns (run: Trace)
    ensures Leads(run, Pair(1, {0}, {}, 1, Idle, Idle, {(1, 0)}, false))
  {
    run := StaleOneAlmost();
    run := Finish(run, Pair(1, {}, {}, 2, SetSummary(0, 0), Idle, {(1, 0)}, true), 0, 0,
                  Pair(1, {0}, {}, 1, Idle, Idle, {(1, 0)}, false));
  }

  /** Thread 0 gives back the only id, and thread 1 books it before thread 0 sets the summary bit. With every
      call finished, the next id_pool_get never returns. */
  lemma {:induction false} StaleOneMakesGetSpin() returns (run: Trace)
    ensures Legal(run) && AllIdle(End(run)) && Legal(Then(run, 0, Get))
    ensures var s := End(Then(run, 0, Get)); Shape(s) && 0 in s.pcs && Spins(s, 0)
  {
    run := StaleOne();
    var s := Pair(1, {0}, {}, 1, Idle, Idle, {(1, 0)}, false);
    Go(run, s, 0, Get);
    LegalShape(Then(run, 0, Get));
    GetEnds(Step(s, 0, Get), 0, Lowest, 0);
  }

  lemma {:induction false} StaleZeroStart() returns (run: Trace)
    ensures Leads(run, Pair(2, {0}, {1}, 1, Idle, Idle, {(0, 0)}, true))
  {
    FreshLeads(2);
    var s1 := Pair(2, {0}, {1}, 0, CountUp(0), Idle, {(0, 0)}, true);
    var s2 := Pair(2, {0}, {1}, 1, Idle, Idle, {(0, 0)}, true);
    run := StartBook(Start(Fresh(2)), Fresh(2), 0, 0, s1);
    Go(run, s1, 0, Next(false));
    run := Then(run, 0, Next(false));
    assert s2.pcs == s1.pcs[0 := Idle];
  }

  lemma {:induction false} StaleZeroHalf() returns (run: Trace)
    ensures Leads(run, Pair(2, {0}, {}, 1, Idle, ClearSummary(1, 0), {(0, 0), (1, 1)}, true))
  {
    run := StaleZeroStart();
    run := StartBook(run, Pair(2, {0}, {1}, 1, Idle, Idle, {(0, 0)}, true), 1, 1,
                     Pair(2, {0}, {}, 1, Idle, ClearSummary(1, 0), {(0, 0), (1, 1)}, true));
  }

  lemma {:induction false} StaleZeroPut() returns (run: Trace)
    ensures Leads(run, Pair(2, {0}, {0}, 1, SetSummary(0, 0), ClearSummary(1, 0), {(1, 1)}, true))
  {
    var s3 := Pair(2, {0}, {}, 1, Idle, ClearSummary(1, 0), {(0, 0), (1, 1)}, true);
    run := StaleZeroHalf();
    run := StartPut(run, s3, 0, 0, Pair(2, {0}, {0}, 1, SetSummary(0, 0), ClearSummary(1, 0), {(1, 1)}, true));
  }

  lemma {:induction false} StaleZeroAlmost() returns (run: Trace)
    ensures Leads(run, Pair(2, {0}, {0}, 0, Idle, ClearSummary(1, 0), {(1, 1)}, true))
  {
    var s4 := Pair(2, {0}, {0}, 1, SetSummary(0, 0), ClearSummary(1, 0), {(1, 1)}, true);
    run := StaleZeroPut();
    run := Finish(run, s4, 0, 0, Pair(2, {0}, {0}, 0, Idle, ClearSummary(1, 0), {(1, 1)}, true));
  }

  lemma {:induction false} StaleZero() returns (run: Trace)
    ensures Leads(run, Pair(2, {}, {0}, 1, Idle, Idle, {(1, 1)}, false))
  {
    run := StaleZeroAlmost();
    run := Finish(run, Pair(2, {0}, {0}, 0, Idle, ClearSummary(1, 0), {(1, 1)}, true), 1, 1,
                  Pair(2, {}, {0}, 1, Idle, Idle, {(1, 1)}, false));
  }

  /** Thread 1 books the last free id, and thread 0 gives one back before thread 1 clears the summary bit. With
      every call finished, id_pool_get reports a full pool while an id is free. */
  lemma {:induction false} StaleZeroHidesFreeId() returns (run: Trace)
    ensures Legal(run) && AllIdle(End(run)) && 0 in Ones(End(run).level1)
    ensures Legal(Then(run, 0, Get))
    ensures var s := End(Then(run, 0, Get)); Shape(s) && 0 in s.pcs && Returns(s, 0, End(run).held)
  {
    run := StaleZero();
    var s := Pair(2, {}, {0}, 1, Idle, Idle, {(1, 1)}, false);
    OnesAt(s.level1, 0, 0);
    Go(run, s, 0, Get);
    LegalShape(Then(run, 0, Get));
    GetEnds(Step(s, 0, Get), 0, Lowest, 0);
  }
}
