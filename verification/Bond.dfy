/** Bonds (modules/infra/control/bond.c) and the LACP state of their members (modules/infra/control/lacp.c,
    clause 6.4 of IEEE 802.1AX-2014). */
module Bond {
  import opened Arithmetic
  import opened Common

  datatype Mode = ActiveBackup | Lacp

  /** The bits of an LACP state. */
  datatype Flag = Active | Fast | Aggregatable | Synchronized | Collecting | Distributing | Defaulted | Expired

  datatype Member = Member(
    iface: nat,
    active: bool,
    needTx: bool,
    nextTx: nat,
    lastRx: nat,
    local: set<Flag>,
    remote: set<Flag>
  )

  const MAX_MEMBERS: nat := 8
  const TABLE_LEN: nat := 256
  const NO_MEMBER: nat := 255
  const SECOND: nat := 1_000_000_000

  function Timeout(flags: set<Flag>): nat
  {
    if Fast in flags then 3 * SECOND else 90 * SECOND
  }

  /** What an active member went through: its partner was heard, synchronized and collecting, and is not timed
      out, and the member is synchronized, collecting and distributing. */
  predicate Agreed(m: Member)
  {
    m.active ==>
      && m.lastRx != 0 && {Synchronized, Collecting} <= m.remote
      && {Synchronized, Collecting, Distributing} <= m.local
      && Expired !in m.local && Defaulted !in m.local
  }

  predicate Distinct(ms: seq<Member>)
  {
    forall i, j | 0 <= i < j < |ms| :: ms[i].iface != ms[j].iface
  }

  predicate AllAgreed(ms: seq<Member>)
  {
    forall i | 0 <= i < |ms| :: Agreed(ms[i])
  }

  predicate Up(ms: seq<Member>, up: set<nat>, i: nat)
  {
    i < |ms| && ms[i].iface in up
  }

  /** The members that may carry traffic. In active-backup mode that is the primary member if its link is up,
      and otherwise the first whose link is. */
  predicate Eligible(mode: Mode, primary: nat, ms: seq<Member>, up: set<nat>, i: nat)
  {
    && Up(ms, up, i)
    && match mode
       case ActiveBackup => i == primary || (!Up(ms, up, primary) && forall j: nat | j < i :: !Up(ms, up, j))
       case Lacp => ms[i].active
  }

  /** How many slots of the table name `v`. */
  function Count(t: seq<nat>, v: nat): nat
  {
    if t == [] then 0 else Count(t[..|t| - 1], v) + if t[|t| - 1] == v then 1 else 0
  }

  /** A table over the eligible members `ids`: only these, in shares that differ by at most one slot. */
  predicate Shared(t: seq<nat>, ids: seq<nat>)
  {
    if ids == [] then forall k | 0 <= k < |t| :: t[k] == NO_MEMBER
    else
      && (forall k | 0 <= k < |t| :: t[k] in ids)
      && (forall v, w | v in ids && w in ids :: Count(t, v) <= Count(t, w) + 1)
  }

  /** `ids` lists the eligible members, once each. */
  ghost predicate Lists(ids: seq<nat>, mode: Mode, primary: nat, ms: seq<Member>, up: set<nat>)
  {
    && (forall i: nat :: i in ids <==> Eligible(mode, primary, ms, up, i))
    && (forall i, j | 0 <= i < j < |ids| :: ids[i] < ids[j])
  }

  /** Turns that index `j` gets in the first `n` when `k` take turns. */
  function Turns(n: nat, k: nat, j: nat): nat
    requires j < k
  {
    n / k + if j < n % k then 1 else 0
  }

  lemma {:induction false} TurnsNext(n: nat, k: nat, j: nat)
    requires j < k
    ensures Turns(n + 1, k, j) == Turns(n, k, j) + if n % k == j then 1 else 0
  {
    var q, r := n / k, n % k;
    if r + 1 < k {
      ModUnique(n + 1, k, q, r + 1);
    } else {
      assert n + 1 == k * (q + 1) + 0;
      ModUnique(n + 1, k, q + 1, 0);
    }
  }

  /** Filling a table in turn gives each entry its share. */
  lemma {:induction false} RoundRobin(t: seq<nat>, ids: seq<nat>, j: nat)
    requires j < |ids| && (forall a, b | 0 <= a < b < |ids| :: ids[a] < ids[b])
    requires forall i | 0 <= i < |t| :: t[i] == ids[i % |ids|]
    ensures Count(t, ids[j]) == Turns(|t|, |ids|, j)
    decreases |t|
  {
    if t == [] {
      ModUnique(0, |ids|, 0, 0);
    } else {
      var n := |t| - 1;
      RoundRobin(t[..n], ids, j);
      TurnsNext(n, |ids|, j);
      var r := n % |ids|;
      assert t[n] == ids[r];
      assert ids[r] == ids[j] <==> r == j;
    }
  }

  lemma {:induction false} FairTable(t: seq<nat>, ids: seq<nat>)
    requires ids != [] && (forall a, b | 0 <= a < b < |ids| :: ids[a] < ids[b])
    requires forall i | 0 <= i < |t| :: t[i] == ids[i % |ids|]
    ensures Shared(t, ids)
  {
    forall v, w | v in ids && w in ids
      ensures Count(t, v) <= Count(t, w) + 1
    {
      var i :| 0 <= i < |ids| && ids[i] == v;
      var j :| 0 <= j < |ids| && ids[j] == w;
      RoundRobin(t, ids, i);
      RoundRobin(t, ids, j);
    }
  }

  /** The LACP state of a member whose partner was never heard. */
  function Reset(m: Member): Member
  {
    if m.lastRx != 0 then m
    else m.(local := {Active, Aggregatable, Fast, Defaulted, Expired}, active := false, needTx := true, nextTx := 0)
  }

  /** The members after an update of the active ones. */
  function Refreshed(mode: Mode, ms: seq<Member>): (r: seq<Member>)
    ensures |r| == |ms|
  {
    seq(|ms|, i requires 0 <= i < |ms| => if mode == Lacp then Reset(ms[i]) else ms[i])
  }

  lemma {:induction false} RefreshedSound(mode: Mode, ms: seq<Member>)
    requires Distinct(ms) && AllAgreed(ms)
    ensures Distinct(Refreshed(mode, ms)) && AllAgreed(Refreshed(mode, ms))
    ensures Ifaces(Refreshed(mode, ms)) == Ifaces(ms)
  {
    SameIfaces(Refreshed(mode, ms), ms);
  }

  /** A member as it is attached. */
  function NewMember(iface: nat): Member
  {
    Member(iface, false, false, 0, 0, {}, {})
  }

  /** The LACP state of a member after a PDU with the partner flags `remote`. */
  function Heard(m: Member, remote: set<Flag>, now: nat): Member
  {
    var sync, collect := Synchronized in remote, Collecting in remote;
    var local := m.local + {Synchronized} - {Expired, Defaulted};
    var local' := if sync then local + {Collecting} else local;
    m.(remote := remote, lastRx := now, active := sync && collect, needTx := true,
       local := if sync && collect then local' + {Distributing} else local')
  }

  /** The LACP state of a member after the time-out check of a periodic tick. */
  function Checked(m: Member, now: nat): Member
  {
    if m.lastRx != 0 && now > m.lastRx + Timeout(m.local) && m.active then
      m.(active := false, needTx := true,
         local := m.local - {Synchronized, Collecting, Distributing} + {Expired, Defaulted})
    else m
  }

  /** Whether a tick sends a PDU on a member, and the member afterwards. */
  predicate Sends(m: Member, now: nat, up: set<nat>)
  {
    (m.needTx || m.nextTx <= now || m.lastRx == 0) && m.iface in up
  }

  function Transmitted(m: Member, now: nat, up: set<nat>, ok: bool): Member
  {
    if !Sends(m, now, up) then m
    else if !ok then m.(needTx := true)
    else m.(needTx := false, nextTx := now + Timeout(m.remote))
  }

  function Ticked(m: Member, now: nat, up: set<nat>, sendable: set<nat>): Member
  {
    Transmitted(Checked(m, now), now, up, m.iface in sendable)
  }

  function TickedAll(ms: seq<Member>, now: nat, up: set<nat>, sendable: set<nat>): (r: seq<Member>)
    ensures |r| == |ms|
  {
    seq(|ms|, i requires 0 <= i < |ms| => Ticked(ms[i], now, up, sendable))
  }

  /** After a tick the active members are those that were active and in time. */
  predicate InTime(before: seq<Member>, after: seq<Member>, now: nat)
    requires |before| == |after|
  {
    forall i | 0 <= i < |after| ::
      && after[i].iface == before[i].iface
      && after[i].active == (before[i].active && now <= before[i].lastRx + Timeout(before[i].local))
      && (after[i].active ==> now <= after[i].lastRx + Timeout(after[i].local))
  }

  lemma {:induction false} TickedSound(ms: seq<Member>, now: nat, up: set<nat>, sendable: set<nat>)
    requires Distinct(ms) && AllAgreed(ms) && forall i | 0 <= i < |ms| :: ms[i].lastRx <= now
    ensures var r := TickedAll(ms, now, up, sendable);
            && Distinct(r) && AllAgreed(r) && (forall i | 0 <= i < |r| :: r[i].lastRx <= now)
            && InTime(ms, r, now) && InTime(ms, Refreshed(Lacp, r), now)
  {
  }

  function Ifaces(ms: seq<Member>): set<nat>
  {
    set i | 0 <= i < |ms| :: ms[i].iface
  }

  lemma {:induction false} SameIfaces(a: seq<Member>, b: seq<Member>)
    requires |a| == |b| && forall i | 0 <= i < |a| :: a[i].iface == b[i].iface
    ensures Ifaces(a) == Ifaces(b)
  {
  }

  /** Members without the one at `i`, whose place the last one takes. */
  function Removed(ms: seq<Member>, i: nat): seq<Member>
    requires i < |ms|
  {
    var last := |ms| - 1;
    (if i < last then ms[i := ms[last]] else ms)[..last]
  }

  lemma {:induction false} RemovedIfaces(ms: seq<Member>, i: nat)
    requires i < |ms| && Distinct(ms)
    ensures Distinct(Removed(ms, i)) && Ifaces(Removed(ms, i)) == Ifaces(ms) - {ms[i].iface}
  {
    var rest, last := Removed(ms, i), |ms| - 1;
    assert forall j | 0 <= j < last :: rest[j] == if j == i then ms[last] else ms[j];
    forall x | x in Ifaces(ms) - {ms[i].iface}
      ensures x in Ifaces(rest)
    {
      var j :| 0 <= j < |ms| && ms[j].iface == x;
      assert rest[if j == last then i else j].iface == x;
    }
  }

  class Bond {
    var mode: Mode
    var primary: nat
    var activeMember: nat
    var members: seq<Member>
    /** The interfaces whose link is up and running. */
    var up: set<nat>
    const table: array<nat>
    /** The mode in which the active members were last updated, if they were. */
    ghost var tableMode: Option<Mode>
    /** Time of the last event. */
    var clock: nat

    constructor (now: nat)
      requires 0 < now
      ensures Valid() && members == [] && mode == ActiveBackup && up == {} && clock == now && fresh(table)
    {
      mode, primary, activeMember, members, up := ActiveBackup, 0, 0, [], {};
      table := new nat[TABLE_LEN](_ => 0);
      tableMode, clock := None, now;
    }

    /** What every operation keeps of the members. */
    ghost predicate Sound()
      reads this
    {
      && table.Length == TABLE_LEN && |members| <= MAX_MEMBERS && Distinct(members) && AllAgreed(members)
      && (members != [] ==> primary < |members|) && 0 < clock
      && (forall i | 0 <= i < |members| :: members[i].lastRx <= clock)
    }

    /** The table names members only, and in LACP mode active ones only. */
    ghost predicate Pointed()
      reads this, table
    {
      forall k | 0 <= k < table.Length :: table[k] != NO_MEMBER ==>
        table[k] < |members| && (mode == Lacp ==> members[table[k]].active)
    }

    /** What the table holds: zeros before the first update, the active member after one in active-backup mode,
        and active members after one in LACP mode. */
    ghost predicate Written()
      reads this, table
    {
      match tableMode
      case None => members == [] && forall k | 0 <= k < table.Length :: table[k] == 0
      case Some(ActiveBackup) =>
        (activeMember == NO_MEMBER || activeMember < |members|)
        && forall k | 0 <= k < table.Length :: table[k] == activeMember
      case Some(Lacp) =>
        forall k | 0 <= k < table.Length :: table[k] != NO_MEMBER ==>
          table[k] < |members| && members[table[k]].active
    }

    ghost predicate Valid()
      reads this, table
    {
      Sound() && Written()
    }

    /** The bond was updated, and if its mode changed to LACP since, the member that was active is so for LACP. */
    ghost predicate UpToDate()
      requires Valid()
      reads this, table
    {
      && tableMode.Some?
      && (mode == Lacp && tableMode == Some(ActiveBackup) ==>
            activeMember == NO_MEMBER || members[activeMember].active)
    }

    /** Exactly when the table names what it should. */
    lemma {:induction false} PointedExactly()
      requires Valid()
      ensures Pointed() <==> UpToDate()
    {
      if tableMode.None? || tableMode == Some(ActiveBackup) {
        assert table[0] == if tableMode.None? then 0 else activeMember;
      }
    }

    /** The table is shared fairly among exactly the eligible members. */
    ghost predicate Fair()
      reads this, table
    {
      exists ids :: Lists(ids, mode, primary, members, up) && Shared(table[..], ids)
    }

    /** The primary member's interface. */
    ghost function Primary(): nat
      requires primary < |members|
      reads this
    {
      members[primary].iface
    }

    method FillTable(ids: seq<nat>)
      requires forall a, b | 0 <= a < b < |ids| :: ids[a] < ids[b]
      modifies table
      ensures Shared(table[..], ids)
    {
      var i := 0;
      while i < table.Length
        invariant 0 <= i <= table.Length
        invariant forall k | 0 <= k < i :: table[k] == if ids == [] then NO_MEMBER else ids[k % |ids|]
      {
        table[i] := if |ids| > 0 then ids[i % |ids|] else NO_MEMBER;
        i := i + 1;
      }
      if ids != [] {
        FairTable(table[..], ids);
      }
    }

    /** The active-backup case of bond_update_active_members. */
    method PickBackup() returns (ids: seq<nat>)
      requires mode == ActiveBackup && |members| <= MAX_MEMBERS
      modifies this`activeMember
      ensures Lists(ids, mode, primary, members, up)
      ensures ids == if activeMember == NO_MEMBER then [] else [activeMember]
      ensures activeMember == NO_MEMBER || activeMember < |members|
    {
      var active: nat := NO_MEMBER;
      var i := 0;
      while i < |members|
        invariant 0 <= i <= |members|
        invariant active == NO_MEMBER <==> forall j: nat | j < i :: !Up(members, up, j)
        invariant active != NO_MEMBER ==>
                    && active < i && Up(members, up, active)
                    && (active == primary ||
                        (!(primary < i && Up(members, up, primary))
                         && forall j: nat | j < active :: !Up(members, up, j)))
      {
        assert Up(members, up, i) == (members[i].iface in up);
        if members[i].iface in up && (active == NO_MEMBER || i == primary) {
          active := i;
        }
        i := i + 1;
      }
      ids := if active == NO_MEMBER then [] else [active];
      activeMember := active;
    }

    /** The LACP case of bond_update_active_members. */
    method PickLacp() returns (ids: seq<nat>)
      requires mode == Lacp && |members| <= MAX_MEMBERS
      modifies this`members
      ensures members == Refreshed(mode, old(members))
      ensures Lists(ids, mode, primary, members, up)
    {
      ids := [];
      var i := 0;
      while i < |members|
        invariant 0 <= i <= |members| == |old(members)|
        invariant forall j | 0 <= j < i :: members[j] == Reset(old(members)[j])
        invariant forall j | i <= j < |members| :: members[j] == old(members)[j]
        invariant forall j: nat :: j in ids <==> j < i && Eligible(mode, primary, members, up, j)
        invariant forall a, b | 0 <= a < b < |ids| :: ids[a] < ids[b]
        invariant forall a | 0 <= a < |ids| :: ids[a] in ids && ids[a] < i
      {
        ghost var was := members;
        members := members[i := Reset(members[i])];
        assert forall j: nat | j < i :: Eligible(mode, primary, members, up, j) == Eligible(mode, primary, was, up, j);
        if members[i].iface in up && members[i].active {
          ids := ids + [i];
        }
        i := i + 1;
      }
    }

    /** bond_update_active_members. */
    method UpdateActive()
      requires Sound()
      modifies this`members, this`activeMember, this`tableMode, table
      ensures Valid() && tableMode == Some(mode) && UpToDate()
      ensures members == Refreshed(mode, old(members)) && Fair()
      ensures mode == ActiveBackup ==> forall i: nat ::
                Eligible(mode, primary, members, up, i) <==> i == activeMember && activeMember != NO_MEMBER
    {
      RefreshedSound(mode, members);
      var ids;
      match mode {
        case ActiveBackup => ids := PickBackup();
        case Lacp => ids := PickLacp();
      }
      FillTable(ids);
      tableMode := Some(mode);
      assert forall k | 0 <= k < table.Length :: table[..][k] == table[k];
    }

    /** bond_attach_member. `setUp` tells whether the address filters and promiscuous mode could be set on the
        interface, `macSet` whether the bond address could, and `plugged` whether the port could be plugged again
        at the end. A failure of the last leaves the interface attached; any other changes nothing. */
    method Attach(iface: nat, isPort: bool, setUp: bool, macSet: bool, plugged: bool) returns (ok: bool)
      requires Valid()
      modifies this`members, this`primary, this`activeMember, this`tableMode, table
      ensures Valid()
      ensures var known := iface in Ifaces(old(members));
              var joins := isPort && !known && |old(members)| < MAX_MEMBERS && setUp && macSet;
              && ok == ((isPort && known) || (joins && plugged))
              && if joins then members == Refreshed(mode, old(members) + [NewMember(iface)]) && Fair()
                 else members == old(members) && table[..] == old(table[..])
      ensures old(members) != [] ==> primary == old(primary)
    {
      if !isPort {
        return false;
      }
      var k := Find(iface);
      if k < |members| {
        return true;
      }
      if |members| == MAX_MEMBERS || !setUp {
        return false;
      }
      if members == [] {
        primary := 0;
      }
      if !macSet {
        return false;
      }
      Join(iface);
      return plugged;
    }

    /** The new member is appended and the active members are updated. */
    method Join(iface: nat)
      requires Sound() && iface !in Ifaces(members) && |members| < MAX_MEMBERS && (members == [] ==> primary == 0)
      modifies this`members, this`activeMember, this`tableMode, table
      ensures Valid() && members == Refreshed(mode, old(members) + [NewMember(iface)]) && Fair()
    {
      assert forall i | 0 <= i < |members| :: members[i].iface in Ifaces(members);
      members := members + [NewMember(iface)];
      UpdateActive();
    }

    method Find(iface: nat) returns (k: nat)
      ensures k <= |members| && (k < |members| ==> members[k].iface == iface)
      ensures k < |members| <==> iface in Ifaces(members)
      ensures forall i | 0 <= i < k :: members[i].iface != iface
    {
      k := 0;
      while k < |members| && members[k].iface != iface
        invariant k <= |members| && forall i | 0 <= i < k :: members[i].iface != iface
      {
        k := k + 1;
      }
    }

    /** bond_detach_member: the last member takes the place of the one that leaves. */
    method Detach(iface: nat)
      requires Valid()
      modifies this`members, this`primary, this`activeMember, this`tableMode, table
      ensures Valid()
      ensures Ifaces(members) == Ifaces(old(members)) - {iface}
      ensures iface !in Ifaces(old(members)) ==> members == old(members) && primary == old(primary)
      ensures forall i | 0 <= i < |old(members)| && old(members)[i].iface == iface ::
                members == Refreshed(mode, Removed(old(members), i)) && Fair()
      ensures old(members) != [] && old(Primary()) != iface ==> members != [] && Primary() == old(Primary())
    {
      var i := Find(iface);
      if i < |members| {
        RemovedIfaces(members, i);
        RefreshedSound(mode, Removed(members, i));
        Leave(i);
      }
    }

    /** The member at `i` leaves and the active members are updated. */
    method Leave(i: nat)
      requires Sound() && i < |members| && Distinct(Removed(members, i))
      modifies this`members, this`primary, this`activeMember, this`tableMode, table
      ensures Valid() && members == Refreshed(mode, Removed(old(members), i)) && Fair()
      ensures old(primary) != i ==> members != [] && Primary() == old(Primary())
    {
      var last := |members| - 1;
      if i < last {
        if primary == last {
          primary := i;
        }
        members := members[i := members[last]];
      }
      members := members[..last];
      if primary >= |members| {
        primary := if primary == 0 then 255 else primary - 1;
      }
      assert members == Removed(old(members), i);
      UpdateActive();
    }

    /** The primary member part of bond_reconfig. */
    method SetPrimary(k: nat) returns (ok: bool)
      requires Valid()
      modifies this`members, this`primary, this`activeMember, this`tableMode, table
      ensures Valid() && ok == (k < |old(members)|)
      ensures ok ==> primary == k && members == Refreshed(mode, old(members)) && Fair()
      ensures !ok ==> primary == old(primary) && members == old(members)
    {
      ok := k < |members|;
      if ok {
        primary := k;
        UpdateActive();
      }
    }

    /** The mode part of bond_reconfig, which does not update the active members. A table that was right stays
        so exactly when the mode does not become LACP, or the active member is none or active for LACP too. */
    method SetMode(m: Mode)
      requires Valid()
      modifies this`mode
      ensures Valid() && mode == m
      ensures Pointed() <==> UpToDate()
      ensures old(tableMode) == Some(ActiveBackup) && m == Lacp ==>
                (Pointed() <==> activeMember == NO_MEMBER || (activeMember < |members| && members[activeMember].active))
    {
      mode := m;
      PointedExactly();
    }

    /** The link of an interface changes, and bond_event runs if it is a member. */
    method LinkEvent(iface: nat, isUp: bool)
      requires Valid()
      modifies this`up, this`members, this`activeMember, this`tableMode, table
      ensures Valid() && up == if isUp then old(up) + {iface} else old(up) - {iface}
      ensures if iface in Ifaces(old(members))
              then tableMode == Some(mode) && Fair() && members == Refreshed(mode, old(members))
              else members == old(members) && table[..] == old(table[..]) && tableMode == old(tableMode)
    {
      up := if isUp then up + {iface} else up - {iface};
      var k := Find(iface);
      if k < |members| {
        UpdateActive();
      }
    }

    /** lacp_input_cb for a PDU that arrived on `iface` at `now` with the actor flags `remote`. */
    method LacpInput(iface: nat, remote: set<Flag>, now: nat)
      requires Valid() && clock <= now
      modifies this`members, this`activeMember, this`tableMode, this`clock, table
      ensures Valid() && clock == now && |members| == |old(members)|
      ensures forall i | 0 <= i < |members| ::
                var m := if mode == Lacp && old(members)[i].iface == iface then Heard(old(members)[i], remote, now)
                         else old(members)[i];
                members[i] == m || (mode == Lacp && members[i] == Reset(m))
      ensures forall i | 0 <= i < |members| && mode == Lacp && members[i].iface == iface ::
                && members[i].active == (Synchronized in remote && Collecting in remote)
                && members[i].lastRx == now && members[i].needTx
    {
      clock := now;
      if mode != Lacp {
        return;
      }
      var k := Find(iface);
      if k == |members| {
        return;
      }
      var m := Heard(members[k], remote, now);
      var changed := m.active != members[k].active;
      members := members[k := m];
      if changed {
        UpdateActive();
      }
    }

    /** lacp_periodic for this bond at `now`; sending works on the interfaces in `sendable`. */
    method Tick(now: nat, sendable: set<nat>)
      requires Valid() && clock <= now
      modifies this`members, this`activeMember, this`tableMode, this`clock, table
      ensures Valid() && clock == now && |members| == |old(members)|
      ensures var ticked := TickedAll(old(members), now, up, sendable);
              if mode == Lacp then members == ticked || members == Refreshed(mode, ticked) else members == old(members)
      ensures mode == Lacp ==> InTime(old(members), members, now)
      ensures Pointed() <==> UpToDate()
      ensures mode == Lacp && (exists i | 0 <= i < |members| :: members[i].active != old(members)[i].active) ==>
                Pointed()
    {
      clock := now;
      if mode == Lacp {
        TickedSound(members, now, up, sendable);
        var changed := TickMembers(now, sendable);
        if changed {
          UpdateActive();
        }
      }
      PointedExactly();
    }

    /** The loop of lacp_periodic over the members; the result tells whether one timed out. */
    method TickMembers(now: nat, sendable: set<nat>) returns (changed: bool)
      modifies this`members
      ensures members == TickedAll(old(members), now, up, sendable)
      ensures !changed ==> forall j | 0 <= j < |members| :: members[j].active == old(members)[j].active
    {
      changed := false;
      var i := 0;
      while i < |members|
        invariant 0 <= i <= |members| == |old(members)|
        invariant forall j | 0 <= j < i :: members[j] == Ticked(old(members)[j], now, up, sendable)
        invariant forall j | i <= j < |members| :: members[j] == old(members)[j]
        invariant !changed ==> forall j | 0 <= j < i :: members[j].active == old(members)[j].active
      {
        var m := Checked(members[i], now);
        changed := changed || m.active != members[i].active;
        members := members[i := Transmitted(m, now, up, m.iface in sendable)];
        i := i + 1;
      }
    }
  }

  /** Everything that happens to a bond; times are given as the delay since the previous event. */
  datatype Event =
    | Attached(iface: nat, isPort: bool, setUp: bool, macSet: bool, plugged: bool)
    | Detached(iface: nat)
    | PrimarySet(k: nat)
    | ModeSet(mode: Mode)
    | LinkChanged(iface: nat, isUp: bool)
    | PduReceived(iface: nat, remote: set<Flag>, delay: nat)
    | TimerFired(delay: nat, sendable: set<nat>)
    | BondUp

  /** Every run keeps the bond valid, and after a tick no active member is past its time-out. The table names only
      members, and in LACP mode only active ones, exactly when the bond was updated and, if that was in
      active-backup mode and the mode is LACP now, the active member is none or active for LACP. */
  method Play(b: Bond, events: seq<Event>)
    requires b.Valid()
    modifies b, b.table
    ensures b.Valid() && (b.Pointed() <==> b.UpToDate())
    ensures events != [] && events[|events| - 1].TimerFired? && b.mode == Lacp ==> forall i | 0 <= i < |b.members| ::
              b.members[i].active ==> b.clock <= b.members[i].lastRx + Timeout(b.members[i].local)
  {
    for n := 0 to |events|
      invariant b.Valid()
      invariant 0 < n && events[n - 1].TimerFired? && b.mode == Lacp ==> forall i | 0 <= i < |b.members| ::
                  b.members[i].active ==> b.clock <= b.members[i].lastRx + Timeout(b.members[i].local)
    {
      match events[n] {
        case Attached(iface, isPort, setUp, macSet, plugged) =>
          var _ := b.Attach(iface, isPort, setUp, macSet, plugged);
        case Detached(iface) => b.Detach(iface);
        case PrimarySet(k) => var _ := b.SetPrimary(k);
        case ModeSet(mode) => b.SetMode(mode);
        case LinkChanged(iface, isUp) => b.LinkEvent(iface, isUp);
        case PduReceived(iface, remote, delay) => b.LacpInput(iface, remote, b.clock + delay);
        case TimerFired(delay, sendable) => b.Tick(b.clock + delay, sendable);
        case BondUp => b.UpdateActive();
      }
    }
    b.PointedExactly();
  }

  /** Switching a bond to LACP keeps a table that names a member no partner was heard on. */
  method ModeSwitchKeepsTable() returns (b: Bond)
    ensures b.Valid() && b.mode == Lacp && b.members != [] && !b.members[0].active && b.table[0] == 0 && !b.Pointed()
  {
    b := new Bond(1);
    b.LinkEvent(7, true);
    var ok := b.Attach(7, true, true, true, true);
    assert b.up == {7};
    assert b.members[0] == NewMember(7);
    ghost var ids :| Lists(ids, b.mode, b.primary, b.members, b.up) && Shared(b.table[..], ids);
    assert Eligible(b.mode, b.primary, b.members, b.up, 0);
    assert b.table[..][0] in ids;
    b.SetMode(Lacp);
  }
}
