/** The index of L3 nexthops by address (modules/infra/control/l3_nexthop.c, with the callers nexthop_update and
    nexthop_destroy of modules/infra/control/nexthop.c). The hash is a finite map. */
module L3Index {
  import opened Common

  datatype Family = Unspec | Ip4 | Ip6 | Other(value: Byte)

  /** The types of nexthops; `Unset` is that of a nexthop that was just allocated, and no valid one. */
  datatype Type = Unset | L3 | Sr6Output | Sr6Local | Dnat | Blackhole | Reject | Group

  /** How a call ends. `Abort` stops the program; `Refused` stands for the errors of other types. */
  datatype Errno =
    Ok | Abort | ESOCKTNOSUPPORT | EBUSY | ENODEV | EDESTADDRREQ | EINVAL | ENOPROTOOPT | EADDRINUSE | ENOSPC | Refused

  /** Storage for an address: an IPv4 address is its first four bytes. */
  type Addr = s: seq<Byte> | |s| == 16 witness seq(16, _ => 0)

  const ZERO: Addr := [0, 0, 0, 0, 0, 0, 0, 0, 0, 0, 0, 0, 0, 0, 0, 0]
  const ZERO_TAIL: seq<Byte> := [0, 0, 0, 0, 0, 0, 0, 0, 0, 0, 0, 0]

  datatype Key = Key(af: Family, vrf: nat, addr: Addr)

  /** Interface ids have 16 bits. */
  type IfaceId = n: nat | n < 0x1_0000

  /** Where a nexthop lives, and what its info area holds when it is read as that of an L3 nexthop, which is an address
      only if the nexthop is one. */
  datatype Base = Base(vrf: nat, iface: IfaceId)
  datatype Info = Info(af: Family, addr: Addr, hasMac: bool)
  datatype Nexthop = Nexthop(ty: Type, base: Base, info: Info)

  const NO_INFO: Info := Info(Unspec, ZERO, false)
  const VRF_UNDEF: nat := 0

  /** fe80::/10 */
  predicate LinkLocal(a: Addr)
  {
    a[0] == 0xfe && 0x80 <= a[1] < 0xc0
  }

  /** set_nexthop_key: a link-local address is scoped by its interface in bytes 2 and 3. A family that is neither of
      the two leaves the address zero. */
  function MakeKey(af: Family, b: Base, a: Addr): Key
  {
    if af == Ip4 then Key(af, b.vrf, a[..4] + ZERO_TAIL)
    else if af != Ip6 then Key(af, b.vrf, ZERO)
    else if LinkLocal(a) then Key(af, b.vrf, a[..2] + [b.iface / 256 % 256, b.iface % 256] + a[4..])
    else Key(af, b.vrf, a)
  }

  function KeyOf(nh: Nexthop): Key
  {
    MakeKey(nh.info.af, nh.base, nh.info.addr)
  }

  predicate HasAddr(i: Info)
  {
    i.addr != ZERO
  }

  /** set_nexthop_key stops the program for an address without a family. */
  predicate Fatal(i: Info)
  {
    HasAddr(i) && i.af == Unspec
  }

  predicate Acceptable(pub: Info)
  {
    match pub.af
    case Ip4 => pub.addr[..4] != [0, 0, 0, 0]
    case Ip6 => pub.addr != ZERO
    case Unspec => pub.addr == ZERO && !pub.hasMac
    case Other(_) => false
  }

  lemma {:induction false} KeyBytes(b: Base, a: Addr)
    ensures var k := MakeKey(Ip6, b, a).addr;
            && k[..2] == a[..2] && k[4..] == a[4..]
            && k[2] == (if LinkLocal(a) then b.iface / 256 % 256 else a[2])
            && k[3] == (if LinkLocal(a) then b.iface % 256 else a[3])
  {
  }

  /** Two places between which the key of an address does not change: the same VRF and, for a link-local address,
      the same interface. */
  predicate SameScope(i: Info, a: Base, b: Base)
  {
    a.vrf == b.vrf && (i.af == Ip6 && LinkLocal(i.addr) ==> a.iface == b.iface)
  }

  lemma {:induction false} ScopeKey(i: Info, a: Base, b: Base)
    ensures MakeKey(i.af, a, i.addr) == MakeKey(i.af, b, i.addr) <==> SameScope(i, a, b)
  {
    if i.af == Ip6 && LinkLocal(i.addr) {
      KeyBytes(a, i.addr);
      KeyBytes(b, i.addr);
      assert a.iface == 256 * (a.iface / 256 % 256) + a.iface % 256;
      assert b.iface == 256 * (b.iface / 256 % 256) + b.iface % 256;
    }
  }

  /** When the move changes the key of the old address, no address at the new place has that old key. */
  lemma {:induction false} KeyMoves(was: Info, a: Base, now: Info, b: Base)
    requires !SameScope(was, a, b)
    ensures MakeKey(now.af, b, now.addr) != MakeKey(was.af, a, was.addr)
  {
    if a.vrf == b.vrf && now.af == Ip6 {
      var x, z := MakeKey(was.af, a, was.addr).addr, MakeKey(now.af, b, now.addr).addr;
      KeyBytes(a, was.addr);
      KeyBytes(b, now.addr);
      assert x[..2][0] == was.addr[0] && x[..2][1] == was.addr[1];
      assert z[..2][0] == now.addr[0] && z[..2][1] == now.addr[1];
      assert a.iface == 256 * (a.iface / 256 % 256) + a.iface % 256;
      assert b.iface == 256 * (b.iface / 256 % 256) + b.iface % 256;
    }
  }

  /** An L3 nexthop with an address, which the index should find. */
  predicate Indexed(nh: Nexthop)
  {
    nh.ty == L3 && HasAddr(nh.info)
  }

  /** The keys of the L3 nexthops that have an address. */
  ghost function Carried(nhs: map<nat, Nexthop>): map<nat, Key>
  {
    map id | id in nhs && Indexed(nhs[id]) :: KeyOf(nhs[id])
  }

  /** Two maps that are each other's inverse. */
  ghost predicate Inverse(hash: map<Key, nat>, keys: map<nat, Key>)
  {
    && (forall k <- hash :: hash[k] in keys && keys[hash[k]] == k)
    && (forall id <- keys :: keys[id] in hash && hash[keys[id]] == id)
  }

  lemma {:induction false} CarriedUpdate(nhs: map<nat, Nexthop>, id: nat, nh: Nexthop)
    ensures Carried(nhs[id := nh]) == if Indexed(nh) then Carried(nhs)[id := KeyOf(nh)] else Carried(nhs) - {id}
  {
  }

  /** The hash after an update of `id` to `key`, if `some`, when the key to delete, if `had`, is taken to be `guess`. */
  function Reindexed(hash: map<Key, nat>, id: nat, had: bool, some: bool, key: Key, guess: Key): map<Key, nat>
  {
    var h := if some then hash[key := id] else hash;
    if had && (!some || guess != key) then h - {guess} else h
  }

  /** The index stays right exactly when the guess is the key that `id` had. */
  lemma {:induction false} Reindex(hash: map<Key, nat>, keys: map<nat, Key>, id: nat, some: bool, key: Key, guess: Key)
    requires Inverse(hash, keys) && (some && key in hash ==> hash[key] == id)
    requires id in keys && guess != keys[id] ==> !some || key != keys[id]
    ensures Inverse(Reindexed(hash, id, id in keys, some, key, guess), if some then keys[id := key] else keys - {id})
            <==> id !in keys || guess == keys[id]
  {
    var h := Reindexed(hash, id, id in keys, some, key, guess);
    var ks := if some then keys[id := key] else keys - {id};
    if id in keys && guess != keys[id] {
      assert keys[id] in h && h[keys[id]] == id;
    } else {
      forall k | k in h
        ensures h[k] in ks && ks[h[k]] == k
      {
      }
      forall i | i in ks
        ensures ks[i] in h && h[ks[i]] == i
      {
      }
    }
  }

  /** An index that did not hold `id` stays right exactly when the guess is nobody's key. */
  lemma {:induction false} Joins(hash: map<Key, nat>, keys: map<nat, Key>, id: nat, had: bool, some: bool, key: Key,
                                 guess: Key)
    requires Inverse(hash, keys) && id !in keys && (some && key in hash ==> hash[key] == id)
    ensures Inverse(Reindexed(hash, id, had, some, key, guess), if some then keys[id := key] else keys - {id})
            <==> !(had && guess in hash)
  {
    var h := Reindexed(hash, id, had, some, key, guess);
    var ks := if some then keys[id := key] else keys - {id};
    if had && guess in hash {
      assert hash[guess] in ks && ks[hash[guess]] == guess && guess !in h;
    } else {
      forall k | k in h
        ensures h[k] in ks && ks[h[k]] == k
      {
      }
      forall i | i in ks
        ensures ks[i] in h && h[ks[i]] == i
      {
      }
    }
  }

  /** The hash after l3_import_info, which computes the key of the old address at the new place. */
  function Imported(hash: map<Key, nat>, nhs: map<nat, Nexthop>, id: nat, base: Base, pub: Info): map<Key, nat>
    requires id in nhs
  {
    var was := nhs[id].info;
    Reindexed(hash, id, HasAddr(was), HasAddr(pub), MakeKey(pub.af, base, pub.addr), MakeKey(was.af, base, was.addr))
  }

  /** A nexthop that moves keeps its key exactly within the scope of its address, if it has one. */
  predicate Stays(was: Nexthop, base: Base)
  {
    HasAddr(was.info) ==> SameScope(was.info, was.base, base)
  }

  /** A nexthop becomes, or stays, an L3 one. If it was one, the index stays right exactly when the old address has the
      same key at both places. If it was not, what its info area held is taken for an address, and the index stays
      right exactly when that one has no key. */
  lemma {:induction false} ImportAgrees(hash: map<Key, nat>, nhs: map<nat, Nexthop>, id: nat, base: Base, pub: Info)
    requires Inverse(hash, Carried(nhs)) && id in nhs
    requires var key := MakeKey(pub.af, base, pub.addr); HasAddr(pub) && key in hash ==> hash[key] == id
    ensures var was := nhs[id];
            Inverse(Imported(hash, nhs, id, base, pub), Carried(nhs[id := Nexthop(L3, base, pub)]))
            <==> if was.ty == L3 then Stays(was, base)
                 else !(HasAddr(was.info) && MakeKey(was.info.af, base, was.info.addr) in hash)
  {
    var was := nhs[id];
    var key, guess := MakeKey(pub.af, base, pub.addr), MakeKey(was.info.af, base, was.info.addr);
    CarriedUpdate(nhs, id, Nexthop(L3, base, pub));
    if was.ty == L3 {
      ScopeKey(was.info, was.base, base);
      if !Stays(was, base) {
        KeyMoves(was.info, was.base, pub, base);
      }
      Reindex(hash, Carried(nhs), id, HasAddr(pub), key, guess);
    } else {
      Joins(hash, Carried(nhs), id, HasAddr(was.info), HasAddr(pub), key, guess);
    }
  }

  /** A nexthop that is and was an L3 one stays in scope, and one that becomes or ceases to be one has no address. */
  predicate Steady(was: Nexthop, ty: Type, base: Base)
  {
    if was.ty == L3 && ty == L3 then Stays(was, base) else was.ty == L3 || ty == L3 ==> !HasAddr(was.info)
  }

  /** The same for an update that leaves the hash as it is. */
  lemma {:induction false} StoreAgrees(hash: map<Key, nat>, nhs: map<nat, Nexthop>, id: nat, now: Nexthop)
    requires Inverse(hash, Carried(nhs)) && id in nhs
    requires now.ty == L3 ==> now.info == nhs[id].info
    ensures Inverse(hash, Carried(nhs[id := now])) <==> Steady(nhs[id], now.ty, now.base)
  {
    var was, keys, next := nhs[id], Carried(nhs), Carried(nhs[id := now]);
    CarriedUpdate(nhs, id, now);
    ScopeKey(was.info, was.base, now.base);
    if Indexed(was) {
      assert keys[id] == KeyOf(was) && hash[KeyOf(was)] == id;
    }
    if Indexed(now) {
      assert next[id] == KeyOf(now);
    }
    if Steady(was, now.ty, now.base) {
      assert next == keys;
    }
  }

  /** What an update asks for: a type, a place and, for an L3 nexthop, the address of `info`. And what it meets: `vrf`
      is the VRF of the interface, or the one asked for if there is no interface, if it exists; `own` is what the
      info area reads as once another type has filled it in, if that succeeds; `idOk` tells whether an id is found
      for the nexthop and `room` whether the hash can take a new key. */
  datatype Ask = Ask(ty: Type, base: Base, info: Info, vrf: Option<nat>, own: Option<Info>, idOk: bool, room: bool)

  /** Where an accepted update puts the nexthop. */
  function Place(a: Ask): Option<Base>
  {
    if a.ty == Group then Some(Base(VRF_UNDEF, a.base.iface))
    else if a.vrf.Some? then Some(Base(a.vrf.value, a.base.iface))
    else None
  }

  /** Types that have no callback to import their info. */
  predicate Bare(ty: Type)
  {
    ty == Blackhole || ty == Reject
  }

  /** What the info area reads as after an accepted update. */
  function InfoAfter(was: Info, a: Ask): Info
  {
    if a.ty == L3 then a.info else if Bare(a.ty) || a.own.None? then was else a.own.value
  }

  /** The index and the nexthops, by their identity. */
  datatype State = State(hash: map<Key, nat>, nhs: map<nat, Nexthop>)

  /** A key leads to a nexthop exactly when that is an L3 nexthop that carries an address with that key. */
  ghost predicate Right(s: State)
  {
    Inverse(s.hash, Carried(s.nhs))
  }

  /** A nexthop that was just allocated. */
  const BLANK: Nexthop := Nexthop(Unset, Base(0, 0), NO_INFO)

  /** Nobody but `id` has the key of this address, if it is one. */
  predicate Unclaimed(hash: map<Key, nat>, id: nat, base: Base, pub: Info)
  {
    var key := MakeKey(pub.af, base, pub.addr);
    HasAddr(pub) && key in hash ==> hash[key] == id
  }

  /** The key of this address, if it is one, is in the hash or can be added. */
  predicate Fits(hash: map<Key, nat>, base: Base, pub: Info, room: bool)
  {
    HasAddr(pub) && MakeKey(pub.af, base, pub.addr) !in hash ==> room
  }

  /** An update that finds an id and a place. */
  predicate Placed(a: Ask)
  {
    a.ty != Unset && a.idOk && Place(a).Some?
  }

  /** Which updates of `was` are accepted, and which stop the program. */
  predicate Accepts(hash: map<Key, nat>, was: Nexthop, id: nat, a: Ask)
  {
    && Placed(a)
    && if a.ty == L3 then
         && Acceptable(a.info) && Unclaimed(hash, id, Place(a).value, a.info) && !Fatal(was.info)
         && Fits(hash, Place(a).value, a.info, a.room)
       else Bare(a.ty) || a.own.Some?
  }

  predicate Aborts(hash: map<Key, nat>, was: Nexthop, id: nat, a: Ask)
  {
    Placed(a) && a.ty == L3 && Acceptable(a.info) && Unclaimed(hash, id, Place(a).value, a.info) && Fatal(was.info)
  }

  /** An accepted update: types other than L3 do not touch the hash. */
  function Accepted(s: State, id: nat, a: Ask): State
    requires id in s.nhs && Place(a).Some?
  {
    var place := Place(a).value;
    State(if a.ty == L3 then Imported(s.hash, s.nhs, id, place, a.info) else s.hash,
          s.nhs[id := Nexthop(a.ty, place, InfoAfter(s.nhs[id].info, a))])
  }

  /** An update without an id: type and place are stored all the same. */
  function Stored(s: State, id: nat, a: Ask): State
    requires id in s.nhs
  {
    s.(nhs := s.nhs[id := Nexthop(a.ty, a.base, s.nhs[id].info)])
  }

  /** What nexthop_update does. Any other rejection changes nothing. */
  function Changed(s: State, id: nat, a: Ask): State
    requires id in s.nhs
  {
    if a.ty != Unset && !a.idOk then Stored(s, id, a)
    else if Accepts(s.hash, s.nhs[id], id, a) then Accepted(s, id, a)
    else s
  }

  /** When an update that stores `ty` and `base` keeps the index right; `accepted` tells it from one without an id. */
  predicate Keeps(hash: map<Key, nat>, was: Nexthop, ty: Type, base: Base, accepted: bool)
  {
    if accepted && ty == L3 && was.ty != L3
    then !(HasAddr(was.info) && MakeKey(was.info.af, base, was.info.addr) in hash)
    else Steady(was, ty, base)
  }

  /** When an update of `was` keeps the index right: always, if it is rejected with an id. */
  predicate Harmless(hash: map<Key, nat>, was: Nexthop, id: nat, a: Ask)
  {
    if a.ty != Unset && !a.idOk then Keeps(hash, was, a.ty, a.base, false)
    else Accepts(hash, was, id, a) ==> Keeps(hash, was, a.ty, Place(a).value, true)
  }

  lemma {:induction false} UpdateExactly(s: State, id: nat, a: Ask)
    requires Right(s) && id in s.nhs
    ensures Right(Changed(s, id, a)) <==> Harmless(s.hash, s.nhs[id], id, a)
  {
    var was := s.nhs[id];
    if a.ty != Unset && !a.idOk {
      StoreAgrees(s.hash, s.nhs, id, Nexthop(a.ty, a.base, was.info));
    } else if Accepts(s.hash, was, id, a) {
      if a.ty == L3 {
        ImportAgrees(s.hash, s.nhs, id, Place(a).value, a.info);
      } else {
        StoreAgrees(s.hash, s.nhs, id, Nexthop(a.ty, Place(a).value, InfoAfter(was.info, a)));
      }
    }
  }

  /** A nexthop that was just allocated is zero, which is no L3 nexthop and has no address. */
  lemma {:induction false} BlankRight(s: State, id: nat, a: Ask)
    requires Right(s) && id !in s.nhs
    ensures Right(s.(nhs := s.nhs[id := BLANK])) && Keeps(s.hash, BLANK, a.ty, a.base, false)
    ensures Place(a).Some? ==> Keeps(s.hash, BLANK, a.ty, Place(a).value, true)
    ensures a.ty == L3 && Place(a).Some? ==>
              (Unclaimed(s.hash, id, Place(a).value, a.info)
               <==> !(HasAddr(a.info) && MakeKey(a.info.af, Place(a).value, a.info.addr) in s.hash))
  {
    CarriedUpdate(s.nhs, id, BLANK);
    assert Carried(s.nhs) - {id} == Carried(s.nhs);
  }

  /** What nexthop_destroy does. */
  function Destroyed(s: State, id: nat): State
    requires id in s.nhs
  {
    State(if Indexed(s.nhs[id]) then s.hash - {KeyOf(s.nhs[id])} else s.hash, s.nhs - {id})
  }

  lemma {:induction false} RemoveRight(s: State, id: nat)
    requires Right(s) && id in s.nhs
    ensures Right(Destroyed(s, id))
  {
    assert Carried(s.nhs - {id}) == Carried(s.nhs) - {id};
    if Indexed(s.nhs[id]) {
      assert Carried(s.nhs)[id] == KeyOf(s.nhs[id]);
    }
  }

  class Index {
    var hash: map<Key, nat>
    var nhs: map<nat, Nexthop>

    constructor ()
      ensures hash == map[] && nhs == map[] && Agrees()
    {
      hash, nhs := map[], map[];
    }

    ghost function Now(): State
      reads this
    {
      State(hash, nhs)
    }

    ghost predicate Agrees()
      reads this
    {
      Right(Now())
    }

    ghost predicate Carries(id: nat, k: Key)
      reads this
    {
      id in nhs && Indexed(nhs[id]) && KeyOf(nhs[id]) == k
    }

    /** nexthop_lookup_l3. */
    method Lookup(af: Family, base: Base, addr: Addr) returns (r: Option<nat>)
      ensures af == Unspec ==> r == None
      ensures af != Unspec && Agrees() ==>
                forall id: nat :: r == Some(id) <==> Carries(id, MakeKey(af, base, addr))
    {
      if af == Unspec {
        return None;
      }
      var key := MakeKey(af, base, addr);
      assert forall id: nat :: Carries(id, key) <==> id in Carried(nhs) && Carried(nhs)[id] == key;
      return if key in hash then Some(hash[key]) else None;
    }

    /** The checks of l3_import_info that need no index. */
    method Check(pub: Info) returns (e: Errno)
      ensures (e == Ok <==> Acceptable(pub)) && e in {Ok, EDESTADDRREQ, EINVAL, ENOPROTOOPT}
    {
      match pub.af {
        case Ip4 =>
          if pub.addr[..4] == [0, 0, 0, 0] {
            return EDESTADDRREQ;
          }
        case Ip6 =>
          if pub.addr == ZERO {
            return EDESTADDRREQ;
          }
        case Unspec =>
          if pub.addr != ZERO {
            return EINVAL;
          }
        case Other(_) =>
          return ENOPROTOOPT;
      }
      if pub.hasMac && pub.af == Unspec {
        return EINVAL;
      }
      return Ok;
    }

    /** l3_import_info, with type and place stored already: a rejection changes nothing. */
    method Import(id: nat, base: Base, pub: Info, room: bool) returns (e: Errno)
      requires id in nhs
      modifies this
      ensures e !in {ESOCKTNOSUPPORT, EBUSY, ENODEV, Refused}
      ensures e == Abort <==> Acceptable(pub) && Unclaimed(old(hash), id, base, pub) && Fatal(old(nhs)[id].info)
      ensures e == Ok <==> && Acceptable(pub) && Unclaimed(old(hash), id, base, pub) && !Fatal(old(nhs)[id].info)
                           && Fits(old(hash), base, pub, room)
      ensures if e == Ok then hash == Imported(old(hash), old(nhs), id, base, pub)
                              && nhs == old(nhs)[id := Nexthop(L3, base, pub)]
              else hash == old(hash) && nhs == old(nhs)
    {
      var was := nhs[id].info;
      e := Check(pub);
      if e != Ok {
        return;
      }
      var key := MakeKey(pub.af, base, pub.addr);
      if HasAddr(pub) && key in hash && hash[key] != id {
        return EADDRINUSE;
      }
      if Fatal(was) {
        return Abort;
      }
      var oldKey := MakeKey(was.af, base, was.addr);
      if HasAddr(pub) {
        if key !in hash && !room {
          return ENOSPC;
        }
        hash := hash[key := id];
      }
      if HasAddr(was) && (!HasAddr(pub) || oldKey != key) {
        hash := hash - {oldKey};
      }
      nhs := nhs[id := Nexthop(L3, base, pub)];
    }

    /** nexthop_update for the nexthop `id`. An index that was right stays right exactly as `Harmless` says. */
    method Update(id: nat, a: Ask) returns (e: Errno)
      requires id in nhs
      modifies this
      ensures Now() == Changed(old(Now()), id, a)
      ensures (e == Ok <==> Accepts(old(hash), old(nhs)[id], id, a)) && (e == EBUSY <==> a.ty != Unset && !a.idOk)
      ensures e == Abort <==> Aborts(old(hash), old(nhs)[id], id, a)
      ensures old(Agrees()) ==> (Agrees() <==> Harmless(old(hash), old(nhs)[id], id, a))
    {
      if Agrees() {
        UpdateExactly(Now(), id, a);
      }
      if a.ty == Unset {
        return ESOCKTNOSUPPORT;
      }
      if !a.idOk {
        nhs := nhs[id := Nexthop(a.ty, a.base, nhs[id].info)];
        return EBUSY;
      }
      var at := Place(a);
      if at.None? {
        return ENODEV;
      }
      if a.ty == L3 {
        e := Import(id, at.value, a.info, a.room);
      } else if !Bare(a.ty) && a.own.None? {
        return Refused;
      } else {
        nhs := nhs[id := Nexthop(a.ty, at.value, InfoAfter(nhs[id].info, a))];
        return Ok;
      }
    }

    /** nexthop_destroy, of which l3_remove_references looks at L3 nexthops only. */
    method Remove(id: nat) returns (e: Errno)
      requires id in nhs
      modifies this
      ensures e == if old(nhs)[id].ty == L3 && Fatal(old(nhs)[id].info) then Abort else Ok
      ensures Now() == if e == Ok then Destroyed(old(Now()), id) else old(Now())
      ensures old(Agrees()) ==> Agrees()
    {
      if Agrees() {
        RemoveRight(Now(), id);
      }
      var nh := nhs[id];
      if nh.ty == L3 && HasAddr(nh.info) {
        if nh.info.af == Unspec {
          return Abort;
        }
        hash := hash - {KeyOf(nh)};
      }
      nhs := nhs - {id};
      return Ok;
    }

    /** nexthop_new. The index stays right; when it is, a new L3 nexthop needs an address that nobody has. */
    method Create(id: nat, a: Ask) returns (e: Errno)
      requires id !in nhs
      modifies this
      ensures e == Ok <==> Accepts(old(hash), BLANK, id, a)
      ensures Now() == if e == Ok then Accepted(State(old(hash), old(nhs)[id := BLANK]), id, a) else old(Now())
      ensures old(Agrees()) ==> Agrees()
      ensures old(Agrees()) && e == Ok && a.ty == L3 && HasAddr(a.info) ==>
                MakeKey(a.info.af, Place(a).value, a.info.addr) !in old(hash)
    {
      if Agrees() {
        BlankRight(Now(), id, a);
      }
      nhs := nhs[id := BLANK];
      e := Update(id, a);
      if e != Ok {
        nhs := nhs - {id};
        assert nhs == old(nhs) && hash == old(hash);
      }
    }
  }

  /** Everything that happens to nexthops. Those that the callback of another type creates or releases are events of
      their own. */
  datatype Event = Created(id: nat, ask: Ask) | Updated(id: nat, ask: Ask) | Removed(id: nat)

  /** One event, which is skipped when there is no such nexthop, or one already. */
  function Next(s: State, ev: Event): State
  {
    match ev
    case Created(id, a) =>
      if id !in s.nhs && Accepts(s.hash, BLANK, id, a) then Accepted(s.(nhs := s.nhs[id := BLANK]), id, a) else s
    case Updated(id, a) => if id in s.nhs then Changed(s, id, a) else s
    case Removed(id) => if id in s.nhs && !Stops(s, ev) then Destroyed(s, id) else s
  }

  /** The program stops. */
  predicate Stops(s: State, ev: Event)
  {
    match ev
    case Created(_, _) => false
    case Updated(id, a) => id in s.nhs && Aborts(s.hash, s.nhs[id], id, a)
    case Removed(id) => id in s.nhs && s.nhs[id].ty == L3 && Fatal(s.nhs[id].info)
  }

  /** An update that keeps the index right, or another event. */
  predicate Good(s: State, ev: Event)
  {
    ev.Updated? && ev.id in s.nhs ==> Harmless(s.hash, s.nhs[ev.id], ev.id, ev.ask)
  }

  lemma {:induction false} NextExactly(s: State, ev: Event)
    requires Right(s)
    ensures Right(Next(s, ev)) <==> Good(s, ev)
  {
    match ev {
      case Created(id, a) =>
        if id !in s.nhs {
          BlankRight(s, id, a);
          if a.idOk {
            UpdateExactly(s.(nhs := s.nhs[id := BLANK]), id, a);
          }
        }
      case Updated(id, a) =>
        if id in s.nhs {
          UpdateExactly(s, id, a);
        }
      case Removed(id) =>
        if id in s.nhs {
          RemoveRight(s, id);
        }
    }
  }

  /** The state after a run, which ends early when the program stops. */
  function Run(s: State, events: seq<Event>): State
    decreases |events|
  {
    if events == [] || Stops(s, events[0]) then s else Run(Next(s, events[0]), events[1..])
  }

  /** The index is right all along. */
  ghost predicate AlwaysRight(s: State, events: seq<Event>)
    decreases |events|
  {
    Right(s) && (events != [] && !Stops(s, events[0]) ==> AlwaysRight(Next(s, events[0]), events[1..]))
  }

  /** Every update of the run met its condition. */
  predicate AllGood(s: State, events: seq<Event>)
    decreases |events|
  {
    events == [] || Stops(s, events[0]) || (Good(s, events[0]) && AllGood(Next(s, events[0]), events[1..]))
  }

  /** In every run the index is right all along exactly if every update met its condition. */
  lemma {:induction false} RunExactly(s: State, events: seq<Event>)
    requires Right(s)
    ensures AlwaysRight(s, events) <==> AllGood(s, events)
    ensures AlwaysRight(s, events) ==> Right(Run(s, events))
    decreases |events|
  {
    if events != [] && !Stops(s, events[0]) {
      NextExactly(s, events[0]);
      if Good(s, events[0]) {
        RunExactly(Next(s, events[0]), events[1..]);
      }
    }
  }

  method Step(x: Index, ev: Event) returns (stop: bool)
    modifies x
    ensures stop == old(Stops(x.Now(), ev)) && x.Now() == Next(old(x.Now()), ev)
  {
    stop := false;
    match ev {
      case Created(id, a) =>
        if id !in x.nhs {
          var _ := x.Create(id, a);
        }
      case Updated(id, a) =>
        if id in x.nhs {
          var e := x.Update(id, a);
          stop := e == Abort;
        }
      case Removed(id) =>
        if id in x.nhs {
          var e := x.Remove(id);
          stop := e == Abort;
        }
    }
  }

  /** A run of the methods. */
  method Play(x: Index, events: seq<Event>)
    modifies x
    ensures x.Now() == Run(old(x.Now()), events)
    ensures old(x.Agrees()) && AllGood(old(x.Now()), events) ==> x.Agrees()
  {
    if x.Agrees() {
      RunExactly(x.Now(), events);
    }
    ghost var s := x.Now();
    for n := 0 to |events|
      invariant Run(x.Now(), events[n..]) == Run(s, events)
    {
      assert events[n..][0] == events[n] && events[n..][1..] == events[n + 1..];
      var stop := Step(x, events[n]);
      if stop {
        return;
      }
    }
    assert events[|events|..] == [];
  }

  /** What asks for an L3 nexthop with the address of `i` at `base`. */
  function AskAddr(i: Info, base: Base, idOk: bool): Ask
  {
    Ask(L3, base, i, Some(base.vrf), None, idOk, true)
  }

  /** An index with one nexthop, which is on interface 1 in VRF 1. */
  ghost predicate Single(x: Index, a: Info)
    reads x
  {
    x.nhs == map[1 := Nexthop(L3, Base(1, 1), a)] && x.hash == map[MakeKey(a.af, Base(1, 1), a.addr) := 1]
  }

  method OneNexthop(a: Info) returns (x: Index)
    requires Acceptable(a) && HasAddr(a)
    ensures fresh(x) && Single(x, a) && x.Agrees()
  {
    x := new Index();
    var _ := x.Create(1, AskAddr(a, Base(1, 1), true));
  }

  /** For every address, an accepted update that moves the nexthop to another VRF breaks the index, and so does one that
      finds no id: the key of the old place still leads to the nexthop. */
  method MoveBreaksIndex(a: Info, accepted: bool) returns (x: Index, e: Errno)
    requires Acceptable(a) && HasAddr(a)
    ensures e == (if accepted then Ok else EBUSY) && !x.Agrees()
  {
    x := OneNexthop(a);
    KeyMoves(a, Base(1, 1), a, Base(2, 2));
    e := x.Update(1, AskAddr(a, Base(2, 2), accepted));
  }

  /** An accepted update that makes the nexthop a blackhole in the same place leaves its key in the index, where it
      still is once the nexthop was destroyed. */
  method TypeChangeBreaksIndex(a: Info) returns (x: Index, e: Errno)
    requires Acceptable(a) && HasAddr(a)
    ensures e == Ok && x.nhs == map[] && x.hash == map[MakeKey(a.af, Base(1, 1), a.addr) := 1]
  {
    x := OneNexthop(a);
    e := x.Update(1, Ask(Blackhole, Base(1, 1), NO_INFO, Some(1), None, true, true));
    var _ := x.Remove(1);
  }

  method WithLeftover(a: Info) returns (x: Index)
    requires Acceptable(a) && HasAddr(a)
    ensures fresh(x) && x.Agrees() && x.hash == map[MakeKey(a.af, Base(1, 1), a.addr) := 1]
    ensures x.nhs == map[1 := Nexthop(L3, Base(1, 1), a), 2 := Nexthop(Dnat, Base(1, 1), a)]
  {
    x := OneNexthop(a);
    var _ := x.Create(2, Ask(Dnat, Base(1, 1), NO_INFO, Some(1), Some(a), true, true));
  }

  lemma {:induction false} LeftoverHash(k: Key, l: Key)
    requires k != l
    ensures Reindexed(map[k := 1], 2, true, true, l, k) == map[l := 2]
  {
    assert map[k := 1][l := 2] - {k} == map[l := 2];
  }

  /** A nexthop of another type whose info area reads as the address of an L3 nexthop: when it becomes an L3 nexthop
      itself, with another address, the key of the first one is deleted. */
  method LeftoverDeletesKey(a: Info, b: Info) returns (x: Index, e: Errno)
    requires Acceptable(a) && HasAddr(a) && Acceptable(b) && HasAddr(b)
    requires MakeKey(a.af, Base(1, 1), a.addr) != MakeKey(b.af, Base(1, 1), b.addr)
    ensures e == Ok && !x.Agrees() && 1 in x.nhs && x.nhs[1] == Nexthop(L3, Base(1, 1), a)
    ensures x.hash == map[MakeKey(b.af, Base(1, 1), b.addr) := 2]
  {
    x := WithLeftover(a);
    LeftoverHash(MakeKey(a.af, Base(1, 1), a.addr), MakeKey(b.af, Base(1, 1), b.addr));
    e := x.Update(2, AskAddr(b, Base(1, 1), true));
  }

  /** A link-local address as it is written: nothing between the prefix and the interface identifier. */
  predicate Plain(i: Info)
  {
    i.af == Ip6 && LinkLocal(i.addr) ==> i.addr[2] == 0 && i.addr[3] == 0
  }

  /** Two plain addresses of a family have the same key exactly when they are equal, in the same VRF and, if they
      are link-local, on the same interface. */
  lemma {:induction false} KeyIsScan(i: Info, a: Base, j: Info, b: Base)
    requires Plain(i) && Plain(j)
    requires i.af == Ip4 || i.af == Ip6
    ensures MakeKey(i.af, a, i.addr) == MakeKey(j.af, b, j.addr) <==>
              && i.af == j.af && a.vrf == b.vrf
              && (if i.af == Ip4 then i.addr[..4] == j.addr[..4] else i.addr == j.addr)
              && (i.af == Ip6 && LinkLocal(i.addr) ==> a.iface == b.iface)
  {
    var x, y := MakeKey(i.af, a, i.addr), MakeKey(j.af, b, j.addr);
    assert a.iface == 256 * (a.iface / 256 % 256) + a.iface % 256;
    assert b.iface == 256 * (b.iface / 256 % 256) + b.iface % 256;
    if i.af == j.af == Ip4 {
      assert x.addr[..4] == i.addr[..4] && y.addr[..4] == j.addr[..4];
    } else if i.af == j.af {
      KeyBytes(a, i.addr);
      KeyBytes(b, j.addr);
      if x.addr == y.addr {
        assert LinkLocal(i.addr) == LinkLocal(j.addr);
        assert i.addr[..2] == x.addr[..2] == j.addr[..2] && i.addr[4..] == x.addr[4..] == j.addr[4..];
        assert i.addr == i.addr[..2] + i.addr[2..4] + i.addr[4..];
        assert j.addr == j.addr[..2] + j.addr[2..4] + j.addr[4..];
      }
    }
  }
}
