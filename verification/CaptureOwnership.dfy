/** Which capture session owns which interface (modules/infra/control/capture.c), with the promiscuous mode counter
    of iface_set_promisc (modules/infra/control/iface.c). Calls that change promiscuous mode succeed on interface
    types that support it. */
module CaptureOwnership {
  import opened Common

  /** An interface: whether "any" captures include it, whether its type supports promiscuous mode, its capture
      flag and its promiscuous mode counter. */
  datatype Iface = Iface(inAny: bool, canPromisc: bool, flagged: bool, promisc: nat)

  /** A session on one interface, or on any. */
  datatype Session = Session(id: nat, target: Option<nat>, promisc: bool)

  /** The interfaces that a session covers. */
  predicate Selected(target: Option<nat>, i: nat, f: Iface)
  {
    match target
    case Some(t) => i == t
    case None => f.inAny
  }

  predicate Distinct(sessions: seq<Session>)
  {
    forall i, j | 0 <= i < j < |sessions| :: sessions[i].id != sessions[j].id
  }

  /** Who owns an interface according to its slot: nobody, or a live session that covers it. The counter is above
      `base`, what others asked for, exactly when that session asked for promiscuous mode. */
  ghost predicate Sound(i: nat, f: Iface, owner: Option<nat>, base: nat, sessions: seq<Session>)
  {
    match owner
    case None => !f.flagged && f.promisc == base
    case Some(id) =>
      f.flagged && exists k :: 0 <= k < |sessions| && OwnedBy(i, f, id, base, sessions[k])
  }

  predicate OwnedBy(i: nat, f: Iface, id: nat, base: nat, s: Session)
  {
    s.id == id && Selected(s.target, i, f) && f.promisc == base + if s.promisc && f.canPromisc then 1 else 0
  }

  function Slot(owner: map<nat, nat>, i: nat): Option<nat>
  {
    if i in owner then Some(owner[i]) else None
  }

  /** A further session does not disturb those that own something. */
  lemma {:induction false} SoundMore(i: nat, f: Iface, owner: Option<nat>, base: nat, sessions: seq<Session>,
                                     s: Session)
    requires Sound(i, f, owner, base, sessions)
    ensures Sound(i, f, owner, base, sessions + [s])
  {
    if owner.Some? {
      var k :| 0 <= k < |sessions| && OwnedBy(i, f, owner.value, base, sessions[k]);
      assert (sessions + [s])[k] == sessions[k];
    }
  }

  /** Neither does the end of one that does not own the interface. */
  lemma {:induction false} SoundLess(i: nat, f: Iface, owner: Option<nat>, base: nat, sessions: seq<Session>, j: nat)
    requires Sound(i, f, owner, base, sessions) && j < |sessions| && (owner.Some? ==> owner.value != sessions[j].id)
    ensures Sound(i, f, owner, base, sessions[..j] + sessions[j + 1..])
  {
    if owner.Some? {
      var k :| 0 <= k < |sessions| && OwnedBy(i, f, owner.value, base, sessions[k]);
      var rest := sessions[..j] + sessions[j + 1..];
      assert rest[if k < j then k else k - 1] == sessions[k];
    }
  }

  function Promisc(f: Iface, enabled: bool): Iface
  {
    if !f.canPromisc || (!enabled && f.promisc == 0) then f
    else f.(promisc := if enabled then f.promisc + 1 else f.promisc - 1)
  }

  function Marked(f: Iface, promisc: bool): Iface
  {
    var g := f.(flagged := true);
    if promisc then Promisc(g, true) else g
  }

  function Unmarked(f: Iface, promisc: bool): Iface
  {
    var g := f.(flagged := false);
    if promisc then Promisc(g, false) else g
  }

  lemma {:induction false} MarkedSound(i: nat, f: Iface, base: nat, sessions: seq<Session>, s: Session)
    requires Sound(i, f, None, base, sessions) && Selected(s.target, i, f)
    ensures Sound(i, Marked(f, s.promisc), Some(s.id), base, sessions + [s])
  {
    assert (sessions + [s])[|sessions|] == s;
    assert OwnedBy(i, Marked(f, s.promisc), s.id, base, s);
  }

  lemma {:induction false} UnmarkedSound(i: nat, f: Iface, base: nat, sessions: seq<Session>, j: nat,
                                         rest: seq<Session>)
    requires Distinct(sessions) && j < |sessions| && Sound(i, f, Some(sessions[j].id), base, sessions)
    ensures Selected(sessions[j].target, i, f) && Sound(i, Unmarked(f, sessions[j].promisc), None, base, rest)
  {
  }

  /** The interface exists and is free, or every interface that an "any" capture includes is free. */
  predicate CanStart(target: Option<nat>, ifaces: map<nat, Iface>, owner: map<nat, nat>)
  {
    match target
    case Some(i) => i in ifaces && i !in owner
    case None => forall i <- ifaces :: ifaces[i].inAny ==> i !in owner
  }

  class Captures {
    /** Interface identifiers are below this. */
    const max: nat
    var ifaces: map<nat, Iface>
    /** The session that captures each interface. */
    var owner: map<nat, nat>
    var sessions: seq<Session>
    var lastId: nat
    /** How often others asked for promiscuous mode. */
    var base: map<nat, nat>

    constructor (n: nat)
      ensures Valid() && ifaces == map[] && sessions == [] && max == n
    {
      max, ifaces, owner, sessions, lastId, base := n, map[], map[], [], 0, map[];
    }

    ghost predicate Shape()
      reads this
    {
      && owner.Keys <= ifaces.Keys && base.Keys == ifaces.Keys && (forall i <- ifaces :: i < max)
      && Distinct(sessions) && (forall k | 0 <= k < |sessions| :: sessions[k].id <= lastId)
    }

    ghost predicate Valid()
      reads this
    {
      Shape() && forall i <- ifaces :: Sound(i, ifaces[i], Slot(owner, i), base[i], sessions)
    }

    /** capture_promisc and iface_set_promisc. */
    method SetPromisc(i: nat, enabled: bool)
      requires i in ifaces
      modifies this`ifaces
      ensures ifaces == old(ifaces)[i := Promisc(old(ifaces)[i], enabled)]
    {
      var f := ifaces[i];
      if f.canPromisc {
        if enabled {
          ifaces := ifaces[i := f.(promisc := f.promisc + 1)];
        } else if f.promisc != 0 {
          ifaces := ifaces[i := f.(promisc := f.promisc - 1)];
        }
      }
    }

    /** Hand an interface to a session. */
    method Mark(i: nat, s: Session)
      requires i in ifaces
      modifies this`ifaces, this`owner
      ensures ifaces == old(ifaces)[i := Marked(old(ifaces)[i], s.promisc)] && owner == old(owner)[i := s.id]
    {
      ifaces := ifaces[i := ifaces[i].(flagged := true)];
      owner := owner[i := s.id];
      if s.promisc {
        SetPromisc(i, true);
      }
    }

    /** Take an interface from the session that owns it. */
    method Unmark(i: nat, s: Session)
      requires i in ifaces
      modifies this`ifaces, this`owner
      ensures ifaces == old(ifaces)[i := Unmarked(old(ifaces)[i], s.promisc)] && owner == old(owner) - {i}
    {
      ifaces := ifaces[i := ifaces[i].(flagged := false)];
      owner := owner - {i};
      if s.promisc {
        SetPromisc(i, false);
      }
    }

    /** capture_set_flags. */
    method SetFlags(s: Session)
      requires Shape() && (s.target.Some? ==> s.target.value in ifaces)
      modifies this`ifaces, this`owner
      ensures ifaces.Keys == old(ifaces).Keys
      ensures forall i <- ifaces ::
                if Selected(s.target, i, old(ifaces)[i])
                then ifaces[i] == Marked(old(ifaces)[i], s.promisc) && Slot(owner, i) == Some(s.id)
                else ifaces[i] == old(ifaces)[i] && Slot(owner, i) == Slot(old(owner), i)
      ensures owner.Keys <= ifaces.Keys
    {
      if s.target.Some? {
        Mark(s.target.value, s);
        return;
      }
      for i := 0 to max
        invariant ifaces.Keys == old(ifaces).Keys && owner.Keys <= ifaces.Keys
        invariant forall j <- ifaces ::
                    if j < i && old(ifaces)[j].inAny
                    then ifaces[j] == Marked(old(ifaces)[j], s.promisc) && Slot(owner, j) == Some(s.id)
                    else ifaces[j] == old(ifaces)[j] && Slot(owner, j) == Slot(old(owner), j)
      {
        if i in ifaces && ifaces[i].inAny {
          Mark(i, s);
        }
      }
    }

    /** capture_clear_flags: only interfaces that the session still owns are released. */
    method ClearFlags(s: Session)
      requires Shape() && forall i <- owner :: owner[i] == s.id ==> Selected(s.target, i, ifaces[i])
      modifies this`ifaces, this`owner
      ensures ifaces.Keys == old(ifaces).Keys && owner.Keys <= ifaces.Keys
      ensures forall i <- ifaces ::
                if Slot(old(owner), i) == Some(s.id)
                then ifaces[i] == Unmarked(old(ifaces)[i], s.promisc) && Slot(owner, i) == None
                else ifaces[i] == old(ifaces)[i] && Slot(owner, i) == Slot(old(owner), i)
    {
      if s.target.Some? {
        var i := s.target.value;
        if i in ifaces && Slot(owner, i) == Some(s.id) {
          Unmark(i, s);
        }
        return;
      }
      ClearAll(s);
    }

    /** The loop of capture_clear_flags over all interfaces. */
    method ClearAll(s: Session)
      requires Shape()
      modifies this`ifaces, this`owner
      ensures ifaces.Keys == old(ifaces).Keys && owner.Keys <= ifaces.Keys
      ensures forall i <- ifaces ::
                if Slot(old(owner), i) == Some(s.id)
                then ifaces[i] == Unmarked(old(ifaces)[i], s.promisc) && Slot(owner, i) == None
                else ifaces[i] == old(ifaces)[i] && Slot(owner, i) == Slot(old(owner), i)
    {
      for i := 0 to max
        invariant ifaces.Keys == old(ifaces).Keys && owner.Keys <= ifaces.Keys
        invariant forall j <- ifaces ::
                    if j < i && Slot(old(owner), j) == Some(s.id)
                    then ifaces[j] == Unmarked(old(ifaces)[j], s.promisc) && Slot(owner, j) == None
                    else ifaces[j] == old(ifaces)[j] && Slot(owner, j) == Slot(old(owner), j)
      {
        if i in ifaces && Slot(owner, i) == Some(s.id) {
          Unmark(i, s);
        }
      }
    }

    /** The test for a busy interface. */
    method IsFree(target: Option<nat>) returns (free: bool)
      requires Shape()
      ensures free <==> CanStart(target, ifaces, owner)
    {
      match target {
        case Some(i) =>
          return i in ifaces && i !in owner;
        case None =>
          for i := 0 to max
            invariant forall j | 0 <= j < i && j in ifaces :: ifaces[j].inAny ==> j !in owner
          {
            if i in ifaces && ifaces[i].inAny && i in owner {
              return false;
            }
          }
          return true;
      }
    }

    /** capture_session_start. */
    method Start(target: Option<nat>, promisc: bool) returns (r: Option<nat>)
      requires Valid()
      modifies this`ifaces, this`owner, this`sessions, this`lastId
      ensures Valid() && (r.Some? <==> CanStart(target, old(ifaces), old(owner)))
      ensures r.None? ==> ifaces == old(ifaces) && owner == old(owner) && sessions == old(sessions)
      ensures r.Some? ==> sessions == old(sessions) + [Session(r.value, target, promisc)]
      ensures r.Some? ==> ifaces.Keys == old(ifaces).Keys
      ensures r.Some? ==> forall i <- ifaces ::
                if Selected(target, i, old(ifaces)[i])
                then Slot(owner, i) == r && ifaces[i] == Marked(old(ifaces)[i], promisc)
                else Slot(owner, i) == Slot(old(owner), i) && ifaces[i] == old(ifaces)[i]
    {
      var free := IsFree(target);
      if !free {
        return None;
      }
      lastId := lastId + 1;
      var s := Session(lastId, target, promisc);
      SetFlags(s);
      forall i | i in ifaces
        ensures Sound(i, ifaces[i], Slot(owner, i), base[i], sessions + [s])
      {
        var f := old(ifaces)[i];
        if Selected(target, i, f) {
          MarkedSound(i, f, base[i], sessions, s);
        } else {
          SoundMore(i, f, Slot(old(owner), i), base[i], sessions, s);
        }
      }
      sessions := sessions + [s];
      return Some(s.id);
    }

    method Find(id: nat) returns (k: nat)
      ensures k <= |sessions| && (k < |sessions| ==> sessions[k].id == id)
      ensures forall i | 0 <= i < k :: sessions[i].id != id
    {
      k := 0;
      while k < |sessions| && sessions[k].id != id
        invariant k <= |sessions| && forall i | 0 <= i < k :: sessions[i].id != id
      {
        k := k + 1;
      }
    }

    /** capture_session_stop: every interface the session owned is free again, with its counter as others left it. */
    method Stop(id: nat)
      requires Valid()
      modifies this`ifaces, this`owner, this`sessions
      ensures Valid() && ifaces.Keys == old(ifaces).Keys
      ensures forall k | 0 <= k < |sessions| :: sessions[k].id != id && sessions[k] in old(sessions)
      ensures forall i <- ifaces ::
                if Slot(old(owner), i) == Some(id)
                then Slot(owner, i) == None && ifaces[i] == old(ifaces)[i].(flagged := false, promisc := base[i])
                else Slot(owner, i) == Slot(old(owner), i) && ifaces[i] == old(ifaces)[i]
    {
      var k := Find(id);
      if k == |sessions| {
        return;
      }
      var s := sessions[k];
      ghost var rest := sessions[..k] + sessions[k + 1..];
      forall i | i in ifaces && Slot(owner, i) == Some(id)
        ensures Selected(s.target, i, ifaces[i]) && Sound(i, Unmarked(ifaces[i], s.promisc), None, base[i], rest)
      {
        UnmarkedSound(i, ifaces[i], base[i], sessions, k, rest);
      }
      ClearFlags(s);
      forall i | i in ifaces
        ensures Sound(i, ifaces[i], Slot(owner, i), base[i], rest)
      {
        if Slot(old(owner), i) != Some(id) {
          SoundLess(i, ifaces[i], Slot(owner, i), base[i], sessions, k);
        }
      }
      sessions := sessions[..k] + sessions[k + 1..];
    }

    /** An interface is created and iface_add_callback runs: the oldest "any" session takes it if it is included. */
    method AddIface(i: nat, inAny: bool, canPromisc: bool)
      requires Valid() && i !in ifaces && i < max
      modifies this`ifaces, this`owner, this`base
      ensures Valid() && ifaces.Keys == old(ifaces).Keys + {i}
      ensures i in owner <==> inAny && exists k | 0 <= k < |sessions| :: sessions[k].target.None?
      ensures forall j <- old(ifaces) :: ifaces[j] == old(ifaces)[j] && Slot(owner, j) == Slot(old(owner), j)
    {
      Insert(i, inAny, canPromisc);
      if inAny {
        var k := FindAny();
        if k < |sessions| {
          Adopt(i, k);
        }
      }
    }

    /** A session takes an interface that has just been created. */
    method Adopt(i: nat, k: nat)
      requires Valid() && i in ifaces && i !in owner && ifaces[i].promisc == base[i] && k < |sessions|
      requires Selected(sessions[k].target, i, ifaces[i])
      modifies this`ifaces, this`owner
      ensures Valid() && owner == old(owner)[i := sessions[k].id]
      ensures ifaces == old(ifaces)[i := Marked(old(ifaces)[i], sessions[k].promisc)]
    {
      Mark(i, sessions[k]);
      assert OwnedBy(i, ifaces[i], sessions[k].id, base[i], sessions[k]);
    }

    method Insert(i: nat, inAny: bool, canPromisc: bool)
      requires Valid() && i !in ifaces && i < max
      modifies this`ifaces, this`base
      ensures Valid() && ifaces == old(ifaces)[i := Iface(inAny, canPromisc, false, 0)] && base == old(base)[i := 0]
      ensures i !in owner
    {
      ifaces := ifaces[i := Iface(inAny, canPromisc, false, 0)];
      base := base[i := 0];
    }

    /** Index of the oldest "any" session, or the length. */
    method FindAny() returns (k: nat)
      ensures k <= |sessions| && (k < |sessions| ==> sessions[k].target.None?)
      ensures forall j | 0 <= j < k :: sessions[j].target.Some?
    {
      k := 0;
      while k < |sessions| && sessions[k].target.Some?
        invariant k <= |sessions| && forall j | 0 <= j < k :: sessions[j].target.Some?
      {
        k := k + 1;
      }
    }

    /** iface_del_callback runs and an interface is removed, after which its identifier can be used again. */
    method RemoveIface(i: nat)
      requires Valid() && i in ifaces
      modifies this`ifaces, this`owner, this`base
      ensures Valid() && ifaces == old(ifaces) - {i} && owner == old(owner) - {i}
    {
      if i in owner {
        ifaces := ifaces[i := ifaces[i].(flagged := false)];
        owner := owner - {i};
      }
      ifaces := ifaces - {i};
      base := base - {i};
      assert owner == old(owner) - {i} && ifaces == old(ifaces) - {i};
    }

    /** Another user of promiscuous mode turns it on or off. */
    method OtherPromisc(i: nat, enabled: bool)
      requires Valid() && i in ifaces && (!enabled && ifaces[i].canPromisc ==> base[i] > 0)
      modifies this`ifaces, this`base
      ensures Valid()
    {
      var f, b := ifaces[i], base[i];
      SetPromisc(i, enabled);
      if f.canPromisc {
        base := base[i := if enabled then b + 1 else b - 1];
      }
      if i in owner {
        ghost var k :| 0 <= k < |sessions| && OwnedBy(i, f, owner[i], b, sessions[k]);
        assert OwnedBy(i, ifaces[i], owner[i], base[i], sessions[k]);
      }
    }
  }

  /** Everything that happens to captures and interfaces. */
  datatype Event =
    | Started(target: Option<nat>, promisc: bool)
    | Stopped(id: nat)
    | Added(iface: nat, inAny: bool, canPromisc: bool)
    | Removed(iface: nat)
    | PromiscSet(iface: nat, enabled: bool)

  /** Every run keeps each slot naming a live session on an existing, flagged interface, and every counter exact. */
  method Play(c: Captures, events: seq<Event>)
    requires c.Valid()
    modifies c
    ensures c.Valid()
  {
    for n := 0 to |events|
      invariant c.Valid()
    {
      match events[n] {
        case Started(target, promisc) =>
          var _ := c.Start(target, promisc);
        case Stopped(id) =>
          c.Stop(id);
        case Added(i, inAny, canPromisc) =>
          if i !in c.ifaces && i < c.max {
            c.AddIface(i, inAny, canPromisc);
          }
        case Removed(i) =>
          if i in c.ifaces {
            c.RemoveIface(i);
          }
        case PromiscSet(i, enabled) =>
          if i in c.ifaces && (enabled || c.base[i] > 0) {
            c.OtherPromisc(i, enabled);
          }
      }
    }
  }
}
