/** Reference-counted address filters of interfaces (modules/infra/control/iface.c) and the references that a bond
    holds on its members (modules/infra/control/bond.c). Primary addresses are fixed and driver hooks succeed in
    the bond operations. */
module MacRefs {
  import opened Common

  /** A 48-bit Ethernet address; 0 is no address. */
  type Mac = nat

  const NO_MAC: Mac := 0
  const MAX_REFS: nat := 255

  datatype Entry = Entry(mac: Mac, refs: nat)

  /** The group bit of the first byte. */
  predicate Multicast(mac: Mac)
  {
    mac / 0x100_0000_0000 % 2 == 1
  }

  function Refs(list: seq<Entry>, mac: Mac): nat
  {
    if list == [] then 0 else if list[0].mac == mac then list[0].refs else Refs(list[1..], mac)
  }

  predicate Distinct(list: seq<Entry>)
  {
    forall i, j | 0 <= i < j < |list| :: list[i].mac != list[j].mac
  }

  predicate Counted(list: seq<Entry>)
  {
    Distinct(list) && forall i | 0 <= i < |list| :: 0 < list[i].refs <= MAX_REFS
  }

  function Macs(list: seq<Entry>): set<Mac>
  {
    set i | 0 <= i < |list| :: list[i].mac
  }

  lemma {:induction false} RefsAbsent(list: seq<Entry>, mac: Mac)
    requires forall i | 0 <= i < |list| :: list[i].mac != mac
    ensures Refs(list, mac) == 0
  {
    if list != [] {
      RefsAbsent(list[1..], mac);
    }
  }

  lemma {:induction false} RefsAt(list: seq<Entry>, k: nat)
    requires k < |list| && Distinct(list)
    ensures Refs(list, list[k].mac) == list[k].refs
  {
    if 0 < k {
      RefsAt(list[1..], k - 1);
    }
  }

  lemma {:induction false} RefsPositive(list: seq<Entry>, mac: Mac)
    requires Counted(list)
    ensures 0 < Refs(list, mac) <==> mac in Macs(list)
  {
    if mac in Macs(list) {
      var k :| 0 <= k < |list| && list[k].mac == mac;
      RefsAt(list, k);
    } else {
      assert forall i | 0 <= i < |list| :: list[i].mac in Macs(list);
      RefsAbsent(list, mac);
    }
  }

  lemma {:induction false} RefsSet(list: seq<Entry>, k: nat, n: nat, mac: Mac)
    requires k < |list| && Distinct(list)
    ensures Refs(list[k := Entry(list[k].mac, n)], mac) == if mac == list[k].mac then n else Refs(list, mac)
  {
    if 0 < k {
      assert list[k := Entry(list[k].mac, n)][1..] == list[1..][k - 1 := Entry(list[k].mac, n)];
      RefsSet(list[1..], k - 1, n, mac);
    }
  }

  lemma {:induction false} RefsAppend(list: seq<Entry>, e: Entry, mac: Mac)
    requires Refs(list, e.mac) == 0
    requires forall i | 0 <= i < |list| :: list[i].mac != e.mac
    ensures Refs(list + [e], mac) == if mac == e.mac then e.refs else Refs(list, mac)
  {
    if list != [] {
      assert (list + [e])[1..] == list[1..] + [e];
      RefsAbsent(list[1..], e.mac);
      RefsAppend(list[1..], e, mac);
    }
  }

  lemma {:induction false} RefsDrop(list: seq<Entry>, k: nat, mac: Mac)
    requires k < |list| && Distinct(list)
    ensures Refs(list[..k] + list[k + 1..], mac) == if mac == list[k].mac then 0 else Refs(list, mac)
  {
    var rest := list[..k] + list[k + 1..];
    if k == 0 {
      assert rest == list[1..];
      if mac == list[0].mac {
        RefsAbsent(list[1..], mac);
      }
    } else {
      assert rest[1..] == list[1..][..k - 1] + list[1..][k..];
      RefsDrop(list[1..], k - 1, mac);
    }
  }

  lemma {:induction false} MacsSet(list: seq<Entry>, k: nat, n: nat)
    requires k < |list|
    ensures Macs(list[k := Entry(list[k].mac, n)]) == Macs(list)
  {
    var other := list[k := Entry(list[k].mac, n)];
    assert forall i | 0 <= i < |list| ::
        other[i].mac == list[i].mac && other[i].mac in Macs(list) && list[i].mac in Macs(other);
  }

  lemma {:induction false} MacsAppend(list: seq<Entry>, e: Entry)
    ensures Macs(list + [e]) == Macs(list) + {e.mac}
  {
    var all := list + [e];
    assert all[|list|] == e;
    assert forall i | 0 <= i < |list| :: all[i] == list[i] && all[i].mac in Macs(all);
  }

  predicate NeedsFilter(prim: Mac, mac: Mac)
  {
    !Multicast(mac) && mac != prim
  }

  /** One reference more to `mac`, if it needs a filter. */
  ghost predicate Raised(before: seq<Entry>, after: seq<Entry>, prim: Mac, mac: Mac)
  {
    forall a :: Refs(after, a) == Refs(before, a) + if a == mac && NeedsFilter(prim, mac) then 1 else 0
  }

  /** One reference less to `mac`, if it needs a filter and there was one. */
  ghost predicate Lowered(before: seq<Entry>, after: seq<Entry>, prim: Mac, mac: Mac)
  {
    forall a :: Refs(after, a)
                == Refs(before, a) - if a == mac && NeedsFilter(prim, mac) && 0 < Refs(before, mac) then 1 else 0
  }

  /** An account: how many references to each address, with no entry for none. */
  type Account = map<Mac, int>

  function At(acc: Account, mac: Mac): int
  {
    if mac in acc then acc[mac] else 0
  }

  ghost predicate Positive(acc: Account)
  {
    forall a <- acc :: 0 < acc[a]
  }

  function Plus(acc: Account, mac: Mac, n: int): Account
  {
    if At(acc, mac) + n == 0 then acc - {mac} else acc[mac := At(acc, mac) + n]
  }

  /** The account of the bond after it took a reference, and after it gave one back: if there is none of its own,
      one of another owner goes. */
  function Given(acc: Account, prim: Mac, mac: Mac): Account
  {
    if NeedsFilter(prim, mac) then Plus(acc, mac, 1) else acc
  }

  function Taken(acc: Account, others: Account, prim: Mac, mac: Mac): Account
  {
    if NeedsFilter(prim, mac) && 0 < At(acc, mac) + At(others, mac) then Plus(acc, mac, -1) else acc
  }

  /** The account of a bond with the address `mac` on a member: one reference, if it needs a filter. */
  function Own(prim: Mac, mac: Mac): Account
  {
    if mac != NO_MAC && NeedsFilter(prim, mac) then map[mac := 1] else map[]
  }

  /** The account after the bond address went from `was` to `now`, if that was `added`. */
  function Moved(acc: Account, others: Account, prim: Mac, was: Mac, now: Mac, added: bool): Account
  {
    var t := if was == NO_MAC then acc else Taken(acc, others, prim, was);
    if added then Given(t, prim, now) else t
  }

  class Iface {
    const prim: Mac
    var macs: seq<Entry>
    /** Addresses the driver was asked to accept, and how often a hook was called. */
    var driver: set<Mac>
    ghost var hooks: nat
    /** References of the bond, which can be negative when it gave back too many, and of others. */
    ghost var bond: Account
    var others: Account

    constructor (primary: Mac)
      requires primary != NO_MAC
      ensures Valid() && prim == primary && bond == map[] && others == map[]
    {
      prim, macs, driver, hooks, bond, others := primary, [], {}, 0, map[], map[];
    }

    ghost predicate Listed()
      reads this
    {
      Counted(macs) && driver == Macs(macs) && prim != NO_MAC
    }

    /** The list holds the references of the bond and of others, and no more. */
    ghost predicate Valid()
      reads this
    {
      Listed() && Positive(others) && forall a {:trigger Refs(macs, a)} :: Refs(macs, a) == Total(a)
    }

    ghost function Total(mac: Mac): int
      reads this
    {
      At(bond, mac) + At(others, mac)
    }

    /** Whether an address needs a filter: not the primary one and not a group address. */
    predicate Filtered(mac: Mac)
    {
      NeedsFilter(prim, mac)
    }

    function Count(mac: Mac): nat
      reads this
    {
      Refs(macs, mac)
    }

    /** There is room for `now` once the bond gave back `was`. */
    ghost predicate RoomAfter(was: Mac, now: Mac)
      reads this
    {
      Filtered(now) ==> At(Moved(bond, others, prim, was, now, false), now) + At(others, now) < MAX_REFS
    }

    /** Frames to `mac` are accepted. */
    ghost predicate Accepts(mac: Mac)
      reads this
    {
      Filtered(mac) ==> mac in driver
    }

    ghost predicate Room(mac: Mac)
      reads this
    {
      Filtered(mac) ==> Total(mac) < MAX_REFS
    }

    method Find(mac: Mac) returns (k: nat)
      requires Counted(macs)
      ensures k <= |macs| && (k < |macs| ==> macs[k].mac == mac && macs[k].refs == Count(mac))
      ensures k == |macs| ==> Count(mac) == 0 && forall i | 0 <= i < |macs| :: macs[i].mac != mac
    {
      k := 0;
      while k < |macs| && macs[k].mac != mac
        invariant k <= |macs| && forall i | 0 <= i < k :: macs[i].mac != mac
      {
        k := k + 1;
      }
      if k < |macs| {
        RefsAt(macs, k);
      } else {
        RefsAbsent(macs, mac);
      }
    }

    /** iface_add_eth_addr; `hookOk` tells whether the driver accepts a new address. */
    method Add(mac: Mac, hookOk: bool) returns (ok: bool)
      requires Listed()
      modifies this`macs, this`driver, this`hooks
      ensures Listed()
      ensures ok == (!Filtered(mac) || (if old(Count(mac)) == 0 then hookOk else old(Count(mac)) < MAX_REFS))
      ensures if ok then Raised(old(macs), macs, prim, mac) else macs == old(macs)
      ensures hooks == old(hooks) + if Filtered(mac) && old(Count(mac)) == 0 then 1 else 0
    {
      if !Filtered(mac) {
        return true;
      }
      var k := Find(mac);
      if k < |macs| {
        if macs[k].refs == MAX_REFS {
          return false;
        }
        forall m {
          RefsSet(macs, k, macs[k].refs + 1, m);
        }
        MacsSet(macs, k, macs[k].refs + 1);
        macs := macs[k := Entry(mac, macs[k].refs + 1)];
        return true;
      }
      hooks := hooks + 1;
      if !hookOk {
        return false;
      }
      forall m {
        RefsAppend(macs, Entry(mac, 1), m);
      }
      MacsAppend(macs, Entry(mac, 1));
      driver := driver + {mac};
      macs := macs + [Entry(mac, 1)];
      return true;
    }

    /** iface_del_eth_addr; false for ENOENT. */
    method Del(mac: Mac) returns (found: bool)
      requires Listed()
      modifies this`macs, this`driver, this`hooks
      ensures Listed()
      ensures found == (!Filtered(mac) || old(Count(mac)) > 0)
      ensures Lowered(old(macs), macs, prim, mac)
      ensures hooks == old(hooks) + if Filtered(mac) && old(Count(mac)) == 1 then 1 else 0
    {
      if !Filtered(mac) {
        return true;
      }
      var k := Find(mac);
      if k == |macs| {
        return false;
      }
      if macs[k].refs > 1 {
        forall m {
          RefsSet(macs, k, macs[k].refs - 1, m);
        }
        MacsSet(macs, k, macs[k].refs - 1);
        macs := macs[k := Entry(mac, macs[k].refs - 1)];
      } else {
        forall m {
          RefsDrop(macs, k, m);
        }
        hooks := hooks + 1;
        driver := driver - {mac};
        macs := macs[..k] + macs[k + 1..];
        forall m
          ensures m in driver <==> m in Macs(macs)
        {
          RefsPositive(old(macs), m);
          RefsPositive(macs, m);
        }
      }
      return true;
    }

    /** The bond takes a reference, or gives one back. */
    method Give(mac: Mac) returns (ok: bool)
      requires Valid()
      modifies this
      ensures Valid() && others == old(others) && ok == old(Room(mac))
      ensures bond == if ok then Given(old(bond), prim, mac) else old(bond)
      ensures ok ==> Accepts(mac)
    {
      assert Refs(macs, mac) == Total(mac);
      ok := Add(mac, true);
      if ok {
        bond := Given(bond, prim, mac);
        RefsPositive(macs, mac);
      }
    }

    method Take(mac: Mac)
      requires Valid()
      modifies this
      ensures Valid() && others == old(others) && bond == Taken(old(bond), others, prim, mac)
    {
      assert Refs(macs, mac) == Total(mac);
      var _ := Del(mac);
      bond := Taken(bond, others, prim, mac);
    }

    /** Another owner takes a reference. */
    method Acquire(mac: Mac) returns (ok: bool)
      requires Valid()
      modifies this
      ensures Valid() && bond == old(bond) && ok == old(Room(mac))
      ensures others == if ok then Given(old(others), prim, mac) else old(others)
    {
      assert Refs(macs, mac) == Total(mac);
      ok := Add(mac, true);
      if ok {
        others := Given(others, prim, mac);
      }
    }

    /** Another owner gives back a reference that it took, which may be gone already. */
    method Release(mac: Mac)
      requires Valid() && Filtered(mac) && 0 < At(others, mac)
      modifies this
      ensures Valid() && others == Plus(old(others), mac, -1)
      ensures bond == if old(Total(mac)) == 0 then Plus(old(bond), mac, 1) else old(bond)
    {
      assert Refs(macs, mac) == Total(mac);
      bond := if Total(mac) == 0 then Plus(bond, mac, 1) else bond;
      var _ := Del(mac);
      others := Plus(others, mac, -1);
    }
  }

  /** An interface accepts an address exactly when it needs no filter or someone has a reference. */
  lemma {:induction false} AcceptsExactly(x: Iface, mac: Mac)
    requires x.Valid()
    ensures x.Accepts(mac) <==> (x.Filtered(mac) ==> 0 < x.Total(mac))
  {
    RefsPositive(x.macs, mac);
  }

  /** Nobody but the bond has a reference to `mac` that a deletion could take. */
  predicate Spared(others: Account, prim: Mac, mac: Mac)
  {
    mac == NO_MAC || At(others, mac) == 0 || !NeedsFilter(prim, mac)
  }

  /** A change of address from `was` to `now` that reached a member, or failed before, does no harm: it needs no filter
      for either, or both are the same. */
  predicate Unharmed(prim: Mac, was: Mac, now: Mac, reached: bool)
  {
    if reached then was == now || (!NeedsFilter(prim, was) && !NeedsFilter(prim, now)) else !NeedsFilter(prim, was)
  }

  /** A member that had the bond's reference to `was` has it to `now`; one that did not has it exactly when no
      reference of someone else was taken. */
  lemma {:induction false} MovedOwn(others: Account, prim: Mac, was: Mac, now: Mac)
    requires now != NO_MAC && 0 <= At(others, was)
    ensures Moved(Own(prim, was), others, prim, was, now, true) == Own(prim, now)
    ensures was != NO_MAC ==> (Own(prim, now) == Own(prim, was) <==> Unharmed(prim, was, now, true))
    ensures Moved(map[], others, prim, was, now, true) == Own(prim, now) <==> Spared(others, prim, was)
  {
    var m := Moved(map[], others, prim, was, now, true);
    assert At(Own(prim, now), now) == if NeedsFilter(prim, now) then 1 else 0;
    assert was != NO_MAC ==> At(Own(prim, was), was) == if NeedsFilter(prim, was) then 1 else 0;
    if !Spared(others, prim, was) {
      assert At(m, was) == (if now == was then 0 else -1) != At(Own(prim, now), was);
    }
  }

  /** A member that had the bond's reference to `was` has it after a change that failed exactly when it is unharmed; one
      that had none, and was not reached, has none exactly when no reference of someone else was taken. */
  lemma {:induction false} MovedFails(others: Account, prim: Mac, was: Mac, now: Mac, reached: bool)
    requires now != NO_MAC && 0 <= At(others, was)
    ensures was != NO_MAC ==> (Moved(Own(prim, was), others, prim, was, now, reached) == Own(prim, was)
                               <==> Unharmed(prim, was, now, reached))
    ensures Moved(map[], others, prim, was, now, false) == map[] <==> Spared(others, prim, was)
  {
    if reached {
      MovedOwn(others, prim, was, now);
    } else if was != NO_MAC {
      assert Moved(Own(prim, was), others, prim, was, now, false) == map[];
      assert At(Own(prim, was), was) == if NeedsFilter(prim, was) then 1 else 0;
    }
    if !Spared(others, prim, was) {
      assert At(Moved(map[], others, prim, was, now, false), was) == -1;
    }
  }

  /** What is left of the old address when a change of address fails. */
  lemma {:induction false} MovedLeaves(acc: Account, others: Account, prim: Mac, was: Mac, now: Mac, added: bool)
    requires was != NO_MAC && NeedsFilter(prim, was) && 0 <= At(acc, was) + At(others, was)
    ensures 0 < At(Moved(acc, others, prim, was, now, added), was) + At(others, was)
            <==> 2 <= At(acc, was) + At(others, was) || (added && now == was)
  {
  }

  /** The list without its element at `k`, whose place the last one takes. */
  function Dropped<T>(list: seq<T>, k: nat): (rest: seq<T>)
    requires k < |list|
    ensures |rest| == |list| - 1
  {
    list[k := list[|list| - 1]][..|list| - 1]
  }

  lemma DroppedHas<T>(list: seq<T>, k: nat, y: T)
    requires k < |list| && list[k] != y
    ensures y in list <==> y in Dropped(list, k)
  {
    if y in list {
      var i :| 0 <= i < |list| && list[i] == y;
      assert Dropped(list, k)[if i == |list| - 1 then k else i] == y;
    }
  }

  /** Distinct interfaces. */
  ghost predicate Roster(ms: seq<Iface>)
    reads ms
  {
    (forall k | 0 <= k < |ms| :: ms[k].Valid()) && forall i, j | 0 <= i < j < |ms| :: ms[i] != ms[j]
  }

  ghost predicate AllAccept(ms: seq<Iface>, mac: Mac)
    reads ms
  {
    forall k | 0 <= k < |ms| :: ms[k].Accepts(mac)
  }

  /** The bond has one reference to `mac` on each of them, and has taken none of others. */
  ghost predicate AllOwn(ms: seq<Iface>, mac: Mac)
    reads ms
  {
    forall k | 0 <= k < |ms| :: ms[k].bond == Own(ms[k].prim, mac)
  }

  /** One more interface. */
  lemma {:induction false} Extended(ms: seq<Iface>, x: Iface, mac: Mac)
    requires Roster(ms) && x !in ms && x.Valid()
    ensures Roster(ms + [x]) && (AllAccept(ms + [x], mac) <==> AllAccept(ms, mac) && x.Accepts(mac))
    ensures AllOwn(ms + [x], mac) <==> AllOwn(ms, mac) && x.bond == Own(x.prim, mac)
  {
    var all := ms + [x];
    assert all[|ms|] == x && forall k | 0 <= k < |ms| :: all[k] == ms[k];
  }

  /** The accounts of the bond on some interfaces. */
  ghost function Accounts(ms: seq<Iface>): (accs: seq<Account>)
    reads ms
    ensures |accs| == |ms| && forall k | 0 <= k < |ms| :: accs[k] == ms[k].bond
  {
    seq(|ms|, k requires 0 <= k < |ms| reads ms => ms[k].bond)
  }

  /** The accounts, which were `accs`, after the bond address went from `was` to `now` on the first `n` of them. */
  ghost predicate Shifted(ms: seq<Iface>, accs: seq<Account>, was: Mac, now: Mac, n: nat)
    reads ms
  {
    |accs| == |ms| && forall k | 0 <= k < |ms| ::
      ms[k].bond == Moved(accs[k], ms[k].others, ms[k].prim, was, now, k < n)
  }

  /** A change of address that reached the first `n` members did no harm. */
  predicate AllUnharmed(members: seq<Iface>, was: Mac, now: Mac, n: nat)
  {
    forall k | 0 <= k < |members| :: Unharmed(members[k].prim, was, now, k < n)
  }

  /** After a change that failed the bond has its references exactly when that did no harm. */
  lemma {:induction false} HarmExactly(ms: seq<Iface>, accs: seq<Account>, was: Mac, now: Mac, n: nat)
    requires Roster(ms) && was != NO_MAC && now != NO_MAC && Shifted(ms, accs, was, now, n)
    requires forall k | 0 <= k < |ms| :: accs[k] == Own(ms[k].prim, was)
    ensures AllOwn(ms, was) <==> AllUnharmed(ms, was, now, n)
  {
    forall k | 0 <= k < |ms|
      ensures ms[k].bond == Own(ms[k].prim, was) <==> Unharmed(ms[k].prim, was, now, k < n)
    {
      MovedFails(ms[k].others, ms[k].prim, was, now, k < n);
    }
  }

  /** After a change that succeeded the bond has its references exactly when no one else's was taken on the interface
      that had none. */
  lemma {:induction false} Joined(ms: seq<Iface>, accs: seq<Account>, x: Iface, was: Mac, now: Mac)
    requires Roster(ms) && x.Valid() && now != NO_MAC && Shifted(ms, accs, was, now, |ms|)
    requires forall k | 0 <= k < |ms| :: accs[k] == Own(ms[k].prim, was)
    requires x.bond == Moved(map[], x.others, x.prim, was, now, true)
    ensures AllOwn(ms + [x], now) <==> Spared(x.others, x.prim, was)
  {
    MovedOwn(x.others, x.prim, was, now);
    forall k | 0 <= k < |ms|
      ensures ms[k].bond == Own(ms[k].prim, now)
    {
      MovedOwn(ms[k].others, ms[k].prim, was, now);
    }
    assert (ms + [x])[|ms|] == x;
  }

  /** Each of them has room for `now` once the bond gave back `was`. */
  ghost predicate AllRoom(ms: seq<Iface>, was: Mac, now: Mac)
    reads ms
  {
    forall k | 0 <= k < |ms| :: ms[k].RoomAfter(was, now)
  }

  /** Nobody but the bond took or gave back a reference. */
  twostate predicate OthersKept(ms: seq<Iface>)
    reads ms
  {
    forall k | 0 <= k < |ms| :: ms[k].others == old(ms[k].others)
  }

  /** Nothing happened to them. */
  twostate predicate Idle(ms: seq<Iface>)
    reads ms
  {
    forall k | 0 <= k < |ms| :: ms[k].bond == old(ms[k].bond) && ms[k].driver == old(ms[k].driver)
  }

  /** A bond, as far as addresses go. */
  class Bond {
    var members: seq<Iface>
    var primary: nat
    var mac: Mac
    /** The address was configured and is not derived from the primary member. */
    var explicit: bool

    constructor ()
      ensures Shape() && members == [] && mac == NO_MAC && !explicit
    {
      members, primary, mac, explicit := [], 0, NO_MAC, false;
    }

    ghost predicate Shape()
      reads this, members
    {
      Roster(members) && (members != [] ==> primary < |members|)
    }

    /** Every member accepts the address of the bond. */
    ghost predicate Heard()
      reads this, members
    {
      AllAccept(members, mac)
    }

    /** The bond has one reference to its address on each member, and has taken none of others. */
    ghost predicate Balanced()
      reads this, members
    {
      AllOwn(members, mac)
    }

    method GiveAt(n: nat, m: Mac) returns (ok: bool)
      requires Shape() && n < |members|
      modifies members[n]
      ensures Shape() && ok == old(members[n].Room(m)) && members[n].others == old(members[n].others)
      ensures members[n].bond == if ok then Given(old(members[n].bond), members[n].prim, m) else old(members[n].bond)
      ensures ok ==> members[n].Accepts(m)
    {
      ok := members[n].Give(m);
    }

    /** bond_all_member_add_mac: the first `n` members get a reference, all of them unless a counter is full. */
    method AddAll(m: Mac) returns (n: nat)
      requires Shape()
      modifies members
      ensures Shape() && n <= |members| && unchanged(this)
      ensures forall k | 0 <= k < n ::
                members[k].bond == Given(old(members[k].bond), members[k].prim, m) && members[k].Accepts(m)
      ensures forall k | n <= k < |members| :: members[k].bond == old(members[k].bond)
      ensures forall k | 0 <= k < |members| :: members[k].others == old(members[k].others)
      ensures (forall k | 0 <= k < n :: old(members[k].Room(m))) && (n < |members| ==> !old(members[n].Room(m)))
    {
      n := 0;
      while n < |members|
        invariant 0 <= n <= |members| && Shape()
        invariant forall k | 0 <= k < n ::
                    members[k].bond == Given(old(members[k].bond), members[k].prim, m) && members[k].Accepts(m)
        invariant forall k | n <= k < |members| :: unchanged(members[k])
        invariant forall k | 0 <= k < n :: members[k].others == old(members[k].others) && old(members[k].Room(m))
      {
        var ok := GiveAt(n, m);
        if !ok {
          return;
        }
        n := n + 1;
      }
    }

    /** bond_all_member_del_mac: a reference of anyone is taken for the bond's own. */
    method DelAll(m: Mac)
      requires Shape()
      modifies members
      ensures Shape() && unchanged(this)
      ensures forall k | 0 <= k < |members| ::
                members[k].bond == Taken(old(members[k].bond), members[k].others, members[k].prim, m)
      ensures forall k | 0 <= k < |members| :: members[k].others == old(members[k].others)
    {
      var i := 0;
      while i < |members|
        invariant 0 <= i <= |members| && Shape()
        invariant forall k | 0 <= k < i ::
                    members[k].bond == Taken(old(members[k].bond), members[k].others, members[k].prim, m)
        invariant forall k | i <= k < |members| :: members[k].bond == old(members[k].bond)
        invariant forall k | 0 <= k < |members| :: members[k].others == old(members[k].others)
      {
        members[i].Take(m);
        i := i + 1;
      }
    }

    /** The address that is derived when none is configured. */
    function Derived(random: Mac): Mac
      reads this
    {
      if primary < |members| then members[primary].prim else random
    }

    /** The address that is derived once `x` is a member. */
    function Lead(x: Iface): Mac
      reads this
    {
      if members != [] && primary < |members| then members[primary].prim else x.prim
    }

    /** Whether a configured address changes nothing. */
    predicate Same(m: Mac)
      reads this
    {
      m != NO_MAC && m == mac
    }

    /** bond_mac_set; `random` is the address drawn when there is nothing to derive it from. Every member loses a
        reference to the old address and the first `n` get one to the new one, which is all of them when the call
        succeeds. When it fails, the bond keeps the old address, which a member accepts exactly when it needs no
        filter, someone else had a reference to it, or it was given a new one. */
    method SetMac(m: Mac, random: Mac) returns (ok: bool, n: nat)
      requires Shape() && random != NO_MAC
      modifies this`mac, members
      ensures Shape() && OthersKept(members) && n <= |members| && ok == (n == |members|)
      ensures unchanged(`members, `primary, `explicit)
      ensures old(Same(m)) ==> ok && mac == m && Idle(members)
      ensures var e := if m == NO_MAC then Derived(random) else m;
              !old(Same(m)) ==>
                && mac == (if ok then e else old(mac)) && (ok ==> Heard())
                && Shifted(members, old(Accounts(members)), old(mac), e, n)
                && (ok <==> old(AllRoom(members, mac, e)))
                && (forall k | 0 <= k < n :: old(members[k].RoomAfter(mac, e)))
                && (!ok ==> !old(members[n].RoomAfter(mac, e)))
      ensures !ok && mac != NO_MAC ==> forall k | 0 <= k < |members| ::
                members[k].Accepts(mac) <==>
                !members[k].Filtered(mac) || 2 <= old(members[k].Total(mac))
                || (k < n && m == NO_MAC && Derived(random) == mac)
    {
      var e := m;
      if m == NO_MAC {
        e := if primary < |members| then members[primary].prim else random;
      } else if m == mac {
        return true, |members|;
      }
      n := Replace(e);
      ok := n == |members|;
      if ok {
        mac := e;
      }
    }

    /** The old address is deleted everywhere, then the new one added. */
    method Replace(e: Mac) returns (n: nat)
      requires Shape()
      modifies members
      ensures Shape() && n <= |members|
      ensures OthersKept(members) && Shifted(members, old(Accounts(members)), mac, e, n) && unchanged(this)
      ensures n == |members| ==> forall k | 0 <= k < |members| :: members[k].Accepts(e)
      ensures forall k | 0 <= k < n :: old(members[k].RoomAfter(mac, e))
      ensures n < |members| ==> !old(members[n].RoomAfter(mac, e))
      ensures mac != NO_MAC ==> forall k | 0 <= k < |members| ::
                members[k].Accepts(mac) <==>
                !members[k].Filtered(mac) || 2 <= old(members[k].Total(mac)) || (k < n && e == mac)
    {
      forall k | 0 <= k < |members|
        ensures 0 <= members[k].Total(mac)
      {
        assert Refs(members[k].macs, mac) == members[k].Total(mac);
      }
      if mac != NO_MAC {
        DelAll(mac);
      }
      n := AddAll(e);
      forall k | 0 <= k < |members| && mac != NO_MAC
        ensures members[k].Accepts(mac) <==>
                !members[k].Filtered(mac) || 2 <= old(members[k].Total(mac)) || (k < n && e == mac)
      {
        AcceptsExactly(members[k], mac);
        if members[k].Filtered(mac) {
          MovedLeaves(old(members[k].bond), members[k].others, members[k].prim, mac, e, k < n);
        }
      }
    }

    /** bond_mac_set without an address, on the members `ms` and the new one. */
    method Rederive(ghost ms: seq<Iface>, x: Iface, ghost lead: Mac, random: Mac) returns (ok: bool, n: nat)
      requires Shape() && random != NO_MAC && members == ms + [x] && lead == Derived(random)
      modifies this`mac, members
      ensures Shape() && Roster(ms) && x.Valid() && OthersKept(ms) && x.others == old(x.others)
      ensures unchanged(`members, `primary, `explicit)
      ensures if ok then n == |members| && mac == lead && Heard() else n <= |ms| && mac == old(mac)
      ensures Shifted(ms, old(Accounts(ms)), old(mac), lead, n)
      ensures x.bond == Moved(old(x.bond), x.others, x.prim, old(mac), lead, ok)
      ensures ok <==> old(AllRoom(ms, mac, lead) && x.RoomAfter(mac, lead))
      ensures ok && old(AllOwn(ms, mac)) && old(x.bond) == map[] ==>
                (Balanced() <==> Spared(x.others, x.prim, old(mac)))
    {
      assert members[|ms|] == x && forall k | 0 <= k < |ms| :: members[k] == ms[k];
      ok, n := SetMac(NO_MAC, random);
      if ok && old(AllOwn(ms, mac)) && old(x.bond) == map[] {
        Joined(ms, old(Accounts(ms)), x, old(mac), mac);
      }
    }

    method Enlist(x: Iface)
      requires Shape() && x !in members && x.Valid() && (members == [] ==> primary == 0)
      modifies this`members
      ensures Shape() && members == old(members) + [x] && members[primary].prim == old(Lead(x))
    {
      Extended(members, x, mac);
      members := members + [x];
    }

    method Append(x: Iface)
      requires Shape() && x !in members && x.Valid() && (members == [] ==> primary == 0)
      modifies this`members
      ensures Shape() && members == old(members) + [x]
      ensures Heard() <==> old(Heard()) && x.Accepts(mac)
      ensures Balanced() <==> old(Balanced()) && x.bond == Own(x.prim, mac)
    {
      Extended(members, x, mac);
      Enlist(x);
    }

    method Unlist(ghost was: seq<Iface>)
      requires Roster(was) && |members| == |was| + 1 && (was != [] ==> primary < |was|)
      requires forall k | 0 <= k < |was| :: members[k] == was[k]
      modifies this`members
      ensures Shape() && members == was
    {
      members := members[..|members| - 1];
    }

    /** The new member is listed and the address derived. */
    method EnlistDerived(x: Iface, random: Mac) returns (ok: bool, n: nat)
      requires Shape() && x !in members && x.Valid() && random != NO_MAC && (members == [] ==> primary == 0)
      modifies this`members, this`mac, members, x
      ensures Shape() && Roster(old(members)) && x.Valid() && members == old(members) + [x]
      ensures x.others == old(x.others) && OthersKept(old(members))
      ensures if ok then n == |members| && mac == old(Lead(x)) && Heard() else n < |members| && mac == old(mac)
      ensures x.bond == Moved(old(x.bond), x.others, x.prim, old(mac), old(Lead(x)), ok)
      ensures Shifted(old(members), old(Accounts(members)), old(mac), old(Lead(x)), n)
      ensures ok && old(Balanced()) && old(x.bond) == map[] ==> (Balanced() <==> Spared(x.others, x.prim, old(mac)))
      ensures ok <==> old(AllRoom(members, mac, Lead(x)) && x.RoomAfter(mac, Lead(x)))
    {
      ghost var lead := Lead(x);
      Enlist(x);
      assert Derived(random) == lead;
      ok, n := Rederive(old(members), x, lead, random);
    }

    /** With a derived address every member, old and new, loses the old one and gets the new one. */
    method AttachDerived(x: Iface, random: Mac) returns (ok: bool, n: nat)
      requires Shape() && x !in members && x.Valid() && random != NO_MAC && (members == [] ==> primary == 0)
      modifies this`members, this`mac, members, x
      ensures Shape() && x.Valid() && x.others == old(x.others) && OthersKept(old(members))
      ensures if ok then n == |members| && members == old(members) + [x] && mac == old(Lead(x)) && Heard()
              else n <= |members| && members == old(members) && mac == old(mac)
      ensures x.bond == Moved(old(x.bond), x.others, x.prim, old(mac), old(Lead(x)), ok)
      ensures Shifted(old(members), old(Accounts(members)), old(mac), old(Lead(x)), n)
      ensures ok && old(Balanced()) && old(x.bond) == map[] ==> (Balanced() <==> Spared(x.others, x.prim, old(mac)))
      ensures ok <==> old(AllRoom(members, mac, Lead(x)) && x.RoomAfter(mac, Lead(x)))
    {
      ok, n := EnlistDerived(x, random);
      assert members[|members| - 1] == x;
      if !ok {
        Unlist(old(members));
      }
    }

    /** A reference to the bond address on an interface that is no member. */
    method GiveTo(x: Iface) returns (ok: bool)
      requires Shape() && x !in members && x.Valid()
      modifies x
      ensures Shape() && (Heard() <==> old(Heard())) && (Balanced() <==> old(Balanced())) && unchanged(this)
      ensures x.Valid() && x.others == old(x.others) && ok == old(x.Room(mac)) && (ok ==> x.Accepts(mac))
      ensures x.bond == if ok then Given(old(x.bond), x.prim, mac) else old(x.bond)
      ensures ok && old(x.bond) == map[] && mac != NO_MAC ==> x.bond == Own(x.prim, mac)
    {
      ok := x.Give(mac);
    }

    /** With a configured address only the new member gets a reference. */
    method AttachExplicit(x: Iface) returns (ok: bool)
      requires Shape() && x !in members && x.Valid() && (members == [] ==> primary == 0)
      modifies this`members, x
      ensures Shape() && x.Valid() && x.others == old(x.others) && ok == old(x.Room(mac))
      ensures members == if ok then old(members) + [x] else old(members)
      ensures if ok then x.bond == Given(old(x.bond), x.prim, mac) && (Heard() <==> old(Heard()))
              else x.bond == old(x.bond)
      ensures ok && old(Balanced()) && old(x.bond) == map[] && mac != NO_MAC ==> Balanced()
    {
      ok := GiveTo(x);
      if ok {
        Append(x);
      }
    }

    /** The address part of bond_attach_member. Afterwards every member accepts the bond address exactly when it is
        derived or all did before. A bond whose accounts were right keeps them right exactly when the address is
        configured or nobody else uses the old one on the new member. When a derived address cannot be added
        everywhere, the first `n` members have it, the others and `x` have lost the old one. */
    method Attach(x: Iface, random: Mac) returns (ok: bool, n: nat)
      requires Shape() && x !in members && x.Valid() && random != NO_MAC
      modifies this`members, this`primary, this`mac, members, x
      ensures Shape() && x.Valid() && x.others == old(x.others)
      ensures OthersKept(old(members))
      ensures explicit ==> forall k | 0 <= k < |old(members)| :: unchanged(old(members)[k])
      ensures if ok then members == old(members) + [x] else members == old(members) && mac == old(mac)
      ensures ok ==> mac == if explicit then old(mac) else old(Lead(x))
      ensures ok ==> (Heard() <==> !explicit || old(Heard()))
      ensures ok && old(Balanced()) && old(x.bond) == map[] && (explicit ==> mac != NO_MAC) ==>
                (Balanced() <==> explicit || Spared(x.others, x.prim, old(mac)))
      ensures ok ==> x.bond == if explicit then Given(old(x.bond), x.prim, mac)
                               else Moved(old(x.bond), x.others, x.prim, old(mac), mac, true)
      ensures if explicit then ok == old(x.Room(mac)) && (!ok ==> x.bond == old(x.bond)) else ok ==> n == |members|
      ensures !ok && !explicit ==>
                && n <= |members| && x.bond == Moved(old(x.bond), x.others, x.prim, old(mac), old(Lead(x)), false)
                && Shifted(members, old(Accounts(members)), mac, old(Lead(x)), n)
      ensures !explicit ==> (ok <==> old(AllRoom(members, mac, Lead(x)) && x.RoomAfter(mac, Lead(x))))
    {
      if members == [] {
        primary := 0;
      }
      n := 0;
      if explicit {
        ok := AttachExplicit(x);
      } else {
        ok, n := AttachDerived(x, random);
      }
    }

    /** The address part of bond_detach_member. */
    method Detach(k: nat)
      requires Shape() && k < |members|
      modifies this`members, this`primary, members[k]
      ensures Shape() && members == Dropped(old(members), k) && old(members)[k] !in members
      ensures old(members)[k].Valid() && old(members)[k].others == old(members[k].others)
      ensures old(members)[k].bond == Taken(old(members[k].bond), old(members)[k].others, old(members)[k].prim, mac)
      ensures (old(Heard()) ==> Heard()) && (old(Balanced()) ==> Balanced())
    {
      var x := members[k];
      Forget(k);
      x.Take(mac);
    }

    /** The list part of bond_detach_member. */
    method Forget(k: nat)
      requires Shape() && k < |members|
      modifies this`members, this`primary
      ensures Shape() && members == Dropped(old(members), k) && old(members)[k] !in members
      ensures forall i | 0 <= i < |members| :: members[i] in old(members)
    {
      var last := |members| - 1;
      if k < last && primary == last {
        primary := k;
      }
      members := Dropped(members, k);
      if primary >= |members| {
        primary := if primary == 0 then 255 else primary - 1;
      }
      assert forall i | 0 <= i < last :: members[i] == if i == k then old(members)[last] else old(members)[i];
    }

    /** After a successful change every member that had the bond's reference to the old address has it to the new. */
    lemma {:induction false} Kept(accs: seq<Account>, was: Mac)
      requires Shape() && mac != NO_MAC && Shifted(members, accs, was, mac, |members|)
      ensures (forall k | 0 <= k < |members| :: accs[k] == Own(members[k].prim, was)) ==> Balanced()
    {
      forall k | 0 <= k < |members|
        ensures accs[k] == Own(members[k].prim, was) ==> members[k].bond == Own(members[k].prim, mac)
      {
        MovedOwn(members[k].others, members[k].prim, was, mac);
      }
    }

    /** The address part of bond_reconfig; `now` is the address that is to be set. */
    method Configure(m: Mac, random: Mac) returns (ok: bool, n: nat, now: Mac)
      requires Shape() && random != NO_MAC
      modifies this`mac, members
      ensures Shape() && OthersKept(members) && n <= |members| && ok == (n == |members|)
      ensures unchanged(`members, `primary, `explicit)
      ensures if old(Same(m)) then ok && now == mac == old(mac) && Idle(members)
              else
                && now == (if m == NO_MAC then Derived(random) else m) && now != NO_MAC
                && mac == (if ok then now else old(mac)) && (ok ==> Heard())
                && Shifted(members, old(Accounts(members)), old(mac), now, n)
                && (ok <==> old(AllRoom(members, mac, now)))
      ensures ok && old(Balanced()) ==> Balanced()
    {
      now := if m != NO_MAC then m else if primary < |members| then members[primary].prim else random;
      ok, n := SetMac(m, random);
      if ok && !old(Same(m)) {
        Kept(old(Accounts(members)), old(mac));
      }
    }

    /** The primary member part of bond_reconfig. */
    method Promote(k: nat) returns (ok: bool)
      requires Shape()
      modifies this`primary
      ensures Shape() && ok == (k < |members|) && primary == if ok then k else old(primary)
    {
      ok := k < |members|;
      if ok {
        primary := k;
      }
    }
  }

  /** The interfaces of a run, of which some are members. */
  ghost predicate World(b: Bond, ifaces: set<Iface>)
    reads b, b.members, ifaces
  {
    && b.Shape() && (forall y | y in ifaces :: y.Valid())
    && forall k | 0 <= k < |b.members| :: b.members[k] in ifaces
  }

  /** The bond has its one reference on each member and none elsewhere. */
  ghost predicate Clean(b: Bond, ifaces: set<Iface>)
    reads b, b.members, ifaces
  {
    && (b.members != [] || b.explicit ==> b.mac != NO_MAC) && AllOwn(b.members, b.mac)
    && forall y | y in ifaces && y !in b.members :: y.bond == map[]
  }

  lemma {:induction false} CleanHeard(b: Bond, ifaces: set<Iface>)
    requires World(b, ifaces) && Clean(b, ifaces)
    ensures b.Balanced() && b.Heard()
  {
    forall k | 0 <= k < |b.members|
      ensures b.members[k].Accepts(b.mac)
    {
      AcceptsExactly(b.members[k], b.mac);
    }
  }

  /** A bond is as clean after an attachment as it was exactly when the address is configured, or nobody else uses the
      old one on the new member and, if the attachment fails, no member was harmed. */
  method RunAttach(b: Bond, ghost ifaces: set<Iface>, x: Iface, random: Mac) returns (ok: bool, n: nat)
    requires World(b, ifaces) && x in ifaces && x !in b.members && random != NO_MAC
    modifies b, ifaces
    ensures World(b, ifaces) && b.explicit == old(b.explicit)
    ensures old(Clean(b, ifaces)) ==>
              (Clean(b, ifaces) <==>
               || b.explicit
               || (&& Spared(old(x.others), x.prim, old(b.mac))
                   && (ok || AllUnharmed(b.members, b.mac, old(b.Lead(x)), n))))
  {
    ok, n := b.Attach(x, random);
    forall y | y in ifaces
      ensures y.Valid()
    {
      if y in old(b.members) {
        var k :| 0 <= k < |old(b.members)| && old(b.members)[k] == y;
        assert b.members[k] == y;
      }
    }
    if old(Clean(b, ifaces)) && !ok && !b.explicit {
      MovedFails(x.others, x.prim, old(b.mac), old(b.Lead(x)), false);
      if b.members != [] {
        HarmExactly(b.members, old(Accounts(b.members)), b.mac, old(b.Lead(x)), n);
      }
    }
  }

  method RunDetach(b: Bond, ghost ifaces: set<Iface>, k: nat)
    requires World(b, ifaces) && k < |b.members|
    modifies b, ifaces
    ensures World(b, ifaces) && (old(Clean(b, ifaces)) ==> Clean(b, ifaces))
  {
    var x := b.members[k];
    b.Detach(k);
    forall y | y in ifaces && y != x
      ensures y in old(b.members) <==> y in b.members
    {
      DroppedHas(old(b.members), k, y);
    }
    assert old(x.bond) == Own(x.prim, b.mac) && b.mac != NO_MAC && 0 <= At(x.others, b.mac) ==> x.bond == map[];
  }

  /** A bond is as clean after its address was set as it was exactly when that succeeds or no member was harmed. */
  method RunAddress(b: Bond, ghost ifaces: set<Iface>, m: Mac, random: Mac) returns (ok: bool, n: nat, now: Mac)
    requires World(b, ifaces) && random != NO_MAC
    modifies b`mac, ifaces
    ensures World(b, ifaces) && (ok || b.members != []) && (ok ==> b.mac != NO_MAC)
    ensures old(Clean(b, ifaces)) ==> (Clean(b, ifaces) <==> ok || AllUnharmed(b.members, b.mac, now, n))
  {
    ok, n, now := b.Configure(m, random);
    if old(Clean(b, ifaces)) && !ok {
      HarmExactly(b.members, old(Accounts(b.members)), b.mac, now, n);
    }
  }

  method RunSet(b: Bond, ghost ifaces: set<Iface>, setMac: bool, m: Mac, random: Mac)
    returns (ok: bool, n: nat, now: Mac)
    requires World(b, ifaces) && random != NO_MAC
    modifies b, ifaces
    ensures World(b, ifaces) && b.members == old(b.members) && b.primary == old(b.primary)
    ensures b.explicit == if setMac then m != NO_MAC else old(b.explicit)
    ensures old(Clean(b, ifaces)) ==> (Clean(b, ifaces) <==> ok || AllUnharmed(b.members, b.mac, now, n))
  {
    ok, n, now := RunAddress(b, ifaces, m, random);
    if setMac {
      b.explicit := m != NO_MAC;
    }
  }

  /** bond_reconfig: a new primary member `k`, if any, and the address `m` if `setMac`, which is also used when the
      primary member of a bond changes whose address is derived. */
  method RunConfigure(b: Bond, ghost ifaces: set<Iface>, k: Option<nat>, setMac: bool, m: Mac, random: Mac)
    returns (ok: bool, n: nat, now: Mac)
    requires World(b, ifaces) && random != NO_MAC
    modifies b, ifaces
    ensures World(b, ifaces) && b.members == old(b.members)
    ensures if k.Some? && |b.members| <= k.value then
              !ok && b.primary == old(b.primary) && b.explicit == old(b.explicit)
            else b.primary == (if k.Some? then k.value else old(b.primary))
                 && b.explicit == (if setMac then m != NO_MAC else old(b.explicit))
    ensures old(Clean(b, ifaces)) ==> (Clean(b, ifaces) <==> ok || AllUnharmed(b.members, b.mac, now, n))
  {
    n, now := |b.members|, b.mac;
    if k.Some? {
      ok := b.Promote(k.value);
      if !ok {
        return;
      }
    }
    ok := true;
    if setMac || (k.Some? && !b.explicit) {
      ok, n, now := RunSet(b, ifaces, setMac, m, random);
    }
  }

  /** Everything that happens to the addresses of a bond and its interfaces; `random` is the address drawn. */
  datatype Event =
    | Attached(x: Iface, random: Mac)
    | Detached(k: nat)
    | Configured(primary: Option<nat>, setMac: bool, mac: Mac, random: Mac)
    | Acquired(x: Iface, mac: Mac)
    | Released(x: Iface, mac: Mac)

  predicate InRun(e: Event, ifaces: set<Iface>)
  {
    match e
    case Attached(x, random) => x in ifaces && random != NO_MAC
    case Configured(_, _, _, random) => random != NO_MAC
    case Acquired(x, _) => x in ifaces
    case Released(x, _) => x in ifaces
    case Detached(_) => true
  }

  /** One event; what the caller may not do is skipped. A clean bond stays clean exactly when the step is good: no
      call failed half way with harm, and no member on which another owner uses the old address was attached to a bond
      with a derived one. */
  method Step(b: Bond, ghost ifaces: set<Iface>, e: Event) returns (good: bool)
    requires World(b, ifaces) && InRun(e, ifaces)
    modifies b, ifaces
    ensures World(b, ifaces) && (old(Clean(b, ifaces)) ==> (good <==> Clean(b, ifaces)))
    ensures good <== e.Detached? || e.Acquired? || e.Released?
  {
    good := true;
    match e {
      case Attached(x, random) =>
        if x !in b.members {
          var spared, lead := Spared(x.others, x.prim, b.mac), b.Lead(x);
          var ok, n := RunAttach(b, ifaces, x, random);
          good := b.explicit || (spared && (ok || AllUnharmed(b.members, b.mac, lead, n)));
        }
      case Detached(k) =>
        if k < |b.members| {
          RunDetach(b, ifaces, k);
        }
      case Configured(k, setMac, mac, random) =>
        var ok, n, now := RunConfigure(b, ifaces, k, setMac, mac, random);
        good := ok || AllUnharmed(b.members, b.mac, now, n);
      case Acquired(x, mac) =>
        var _ := x.Acquire(mac);
      case Released(x, mac) =>
        if x.Filtered(mac) && 0 < At(x.others, mac) {
          assert old(Clean(b, ifaces)) ==> x.bond == Own(x.prim, b.mac) || x.bond == map[];
          x.Release(mac);
        }
    }
  }

  /** A run up to the first step that is not good, or to its end: the bond is clean, so that every member accepts its
      address on exactly one reference of the bond, if and only if all steps were good. */
  method Play(b: Bond, ghost ifaces: set<Iface>, events: seq<Event>) returns (n: nat)
    requires World(b, ifaces) && Clean(b, ifaces) && forall e | e in events :: InRun(e, ifaces)
    modifies b, ifaces
    ensures World(b, ifaces) && n <= |events| && (Clean(b, ifaces) <==> n == |events|)
    ensures n == |events| ==> b.Heard() && b.Balanced()
  {
    n := 0;
    while n < |events|
      invariant n <= |events| && World(b, ifaces) && Clean(b, ifaces)
    {
      var good := Step(b, ifaces, events[n]);
      if !good {
        return;
      }
      n := n + 1;
    }
    CleanHeard(b, ifaces);
  }

  /** A bond with one member, whose address it derives. */
  method FirstMember() returns (b: Bond)
    ensures fresh(b) && fresh(b.members) && b.Shape()
    ensures !b.explicit && b.mac == 2 && |b.members| == 1 && b.members[0].prim == 2 && AllRoom(b.members, 2, 2)
  {
    b := new Bond();
    var p := new Iface(2);
    var ok, _ := b.Attach(p, 10);
  }

  /** An interface on which another owner uses the address 2. */
  method UsedElsewhere() returns (x: Iface)
    ensures fresh(x) && x.Valid() && x.prim == 4 && x.bond == map[] && x.others == map[2 := 1] && x.RoomAfter(2, 2)
  {
    x := new Iface(4);
    var _ := x.Acquire(2);
  }

  lemma {:induction false} TakesForeign()
    ensures Moved(map[], map[2 := 1], 4, 2, 2, true) == map[]
  {
    assert Taken(map[], map[2 := 1], 4, 2) == map[2 := -1];
  }

  /** The bond takes the reference that another owner has on its second member. */
  method ForeignReference() returns (b: Bond, x: Iface)
    ensures fresh(b) && fresh(b.members) && b.Shape() && |b.members| == 2 && b.members[1] == x && b.mac == 2
    ensures x.prim == 4 && x.bond == map[] && x.others == map[2 := 1]
  {
    b := FirstMember();
    x := UsedElsewhere();
    TakesForeign();
    var ok, _ := b.Attach(x, 10);
    assert ok;
  }

  /** Once that owner is gone the member no longer accepts the address, which is then configured. */
  method ReferenceGone() returns (b: Bond, x: Iface)
    ensures fresh(b) && fresh(b.members) && b.Shape() && |b.members| == 2 && b.members[1] == x && b.mac == 2
    ensures b.explicit && !x.Accepts(2)
  {
    b, x := ForeignReference();
    x.Release(2);
    AcceptsExactly(x, 2);
    b.explicit := true;
    var _, _, _ := b.Configure(2, 10);
  }

  /** A third member joins without an error. */
  method ForeignReferenceTaken() returns (b: Bond, x: Iface)
    ensures b.Shape() && |b.members| == 3 && b.explicit && x == b.members[1] && !x.Accepts(b.mac) && !b.Heard()
  {
    b, x := ReferenceGone();
    var y := new Iface(6);
    var ok, _ := b.Attach(y, 10);
    assert b.members[1] == x;
  }
}
