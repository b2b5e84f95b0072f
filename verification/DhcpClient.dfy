/** The DHCP client state machine (modules/dhcp/control/client.c, modules/dhcp/control/packet.c, section 4.4 of
    RFC 2131). Timer creation succeeds and the interface is present. */
module DhcpClient {
  import opened DhcpOptions
  import opened Common

  /** The states of a client; `Off` stands for no client on the interface. */
  datatype State = Off | Init | Selecting | Requesting | Bound | Renewing | Rebinding

  /** A timer: not there, already fired, or pending with its due time and the number of the ACK it was set for. */
  datatype Timer = NoTimer | Fired | Pending(due: nat, ack: nat)

  const OFFER: Byte := 2
  const ACK: Byte := 5
  const NAK: Byte := 6

  const WORD_LIMIT: nat := 0x1_0000_0000

  /** What a client knows that has parsed nothing. */
  const NO_INFO: Info := Info(0, 0, NO_IP, NO_IP, 0, 0, 0)

  /** Seconds until T1 and T2; the product is computed on 32 bits. */
  function T1(info: Info): nat
  {
    if info.renewal == 0 then info.lease / 2 else info.renewal
  }

  function T2(info: Info): nat
  {
    if info.rebind == 0 then (info.lease * 7) % WORD_LIMIT / 8 else info.rebind
  }

  /** The default times are in the order that section 4.4.5 of RFC 2131 requires exactly up to this lease. */
  lemma {:induction false} DefaultOrder(info: Info)
    requires info.renewal == 0 && info.rebind == 0 && info.lease < WORD_LIMIT
    ensures T1(info) <= T2(info) <= info.lease <==> info.lease <= 613566756
  {
  }

  /** The shortest lease for which they are not: T2 is due at once. */
  lemma {:induction false} LongLeaseOutOfOrder()
    ensures var info := Info(ACK, 24, NO_IP, NO_IP, 613566757, 0, 0); T1(info) == 306783378 && T2(info) == 0
  {
  }

  predicate HasLease(s: State)
  {
    s == Bound || s == Renewing || s == Rebinding
  }

  /** The client has asked for its lease to be extended. */
  predicate Extending(s: State)
  {
    s == Renewing || s == Rebinding
  }

  /** The state after a good packet. */
  function Next(s: State, info: Info, yiaddr: Ip, sent: bool, added: bool): State
  {
    match s
    case Selecting =>
      if info.msgType == OFFER && info.server != NO_IP && yiaddr != NO_IP && sent then Requesting else s
    case Requesting =>
      if info.msgType == ACK && yiaddr != NO_IP && info.prefixLen != 0 && added then Bound
      else if info.msgType == NAK then Init else s
    case Renewing =>
      if info.msgType == ACK then Bound else if info.msgType == NAK then (if sent then Selecting else Init) else s
    case Rebinding =>
      if info.msgType == ACK then Bound else if info.msgType == NAK then (if sent then Selecting else Init) else s
    case _ => s
  }

  /** The addresses after a good packet: the ACK of a request adds one, the NAK of a renewal removes one. */
  function NextAddrs(was: State, now: State, info: Info, yiaddr: Ip, addrs: set<(Ip, nat)>): set<(Ip, nat)>
  {
    if was == Requesting && now == Bound then addrs + {(yiaddr, info.prefixLen)}
    else if (was == Renewing || was == Rebinding) && info.msgType == NAK && yiaddr != NO_IP && info.prefixLen != 0 then
      addrs - {(yiaddr, info.prefixLen)}
    else addrs
  }

  class Client {
    var state: State
    var info: Info
    var offered: Ip
    var t1: Timer
    var t2: Timer
    var expire: Timer
    /** Addresses of the interface, with their prefix length. */
    var addrs: set<(Ip, nat)>
    /** ACKs that set the timers, the time and options of the last one, and the address that was configured. */
    var acks: nat
    ghost var ackTime: nat
    ghost var ackInfo: Info
    ghost var leased: (Ip, nat)

    /** A client that sent its DISCOVER. */
    constructor (addresses: set<(Ip, nat)>)
      ensures Valid() && state == Selecting && addrs == addresses && acks == 0
    {
      state := Selecting;
      info := NO_INFO;
      offered := NO_IP;
      t1, t2, expire := NoTimer, NoTimer, NoTimer;
      addrs := addresses;
      acks, ackTime, ackInfo, leased := 0, 0, NO_INFO, (NO_IP, 0);
    }

    /** A pending timer was set by the last ACK, `secs` after it. */
    ghost predicate Latest(t: Timer, secs: nat)
      reads this
    {
      t.Pending? ==> t.ack == acks && t.due == ackTime + secs
    }

    ghost predicate Valid()
      reads this
    {
      && (expire.Pending? <==> HasLease(state))
      && Latest(t1, T1(ackInfo)) && Latest(t2, T2(ackInfo)) && Latest(expire, ackInfo.lease)
      && (HasLease(state) ==> leased.0 != NO_IP && leased.1 != 0 && leased in addrs)
      && (state == Renewing || state == Rebinding ==> t1 == Fired)
      && (state == Rebinding ==> t2 == Fired)
      && (state == Off ==> t1 == t2 == expire == NoTimer)
    }

    /** dhcp_schedule_timers, at the time `now` of an ACK. */
    method ScheduleTimers(now: nat)
      modifies this`t1, this`t2, this`expire, this`acks, this`ackTime, this`ackInfo
      ensures acks == old(acks) + 1 && ackTime == now && ackInfo == info
      ensures t1 == Pending(now + T1(info), acks) && t2 == Pending(now + T2(info), acks)
      ensures expire == Pending(now + info.lease, acks)
    {
      CancelTimers();
      acks, ackTime, ackInfo := acks + 1, now, info;
      t1 := Pending(now + T1(info), acks);
      t2 := Pending(now + T2(info), acks);
      expire := Pending(now + info.lease, acks);
    }

    method CancelTimers()
      modifies this`t1, this`t2, this`expire
      ensures t1 == t2 == expire == NoTimer
    {
      t1, t2, expire := NoTimer, NoTimer, NoTimer;
    }

    /** dhcp_parse_packet: options are stored as they are read, even when the packet turns out to be bad. */
    method ParsePacket(headerOk: bool, options: array<Byte>, yiaddr: Ip) returns (ok: bool)
      requires options.Length < 0x1_0000
      modifies this`info, this`offered
      ensures ok == (headerOk && Parsed(options[..], old(info)).0 == Ok)
      ensures info == if headerOk then Parsed(options[..], old(info)).1 else old(info)
      ensures offered == if ok then yiaddr else old(offered)
    {
      ok := headerOk;
      if headerOk {
        var e, r := Parse(options, info);
        info, ok := r, e == Ok;
        if ok {
          offered := yiaddr;
        }
      }
    }

    /** Remove the lease's address, as expiry and NAK do. */
    method DropAddress()
      modifies this`addrs
      ensures addrs == if offered != NO_IP && info.prefixLen != 0 then old(addrs) - {(offered, info.prefixLen)}
                       else old(addrs)
    {
      if offered != NO_IP && info.prefixLen != 0 {
        addrs := addrs - {(offered, info.prefixLen)};
      }
    }

    /** Forget the lease and look for a server again; `sent` tells whether the DISCOVER could be sent. */
    method Restart(sent: bool)
      modifies this`addrs, this`state, this`offered, this`info
      ensures state == (if sent then Selecting else Init) && offered == NO_IP
      ensures info == old(info).(server := NO_IP, prefixLen := 0, router := NO_IP)
      ensures addrs == if old(offered) != NO_IP && old(info).prefixLen != 0
                       then old(addrs) - {(old(offered), old(info).prefixLen)} else old(addrs)
    {
      DropAddress();
      state, offered := Init, NO_IP;
      info := info.(server := NO_IP, prefixLen := 0, router := NO_IP);
      if sent {
        state := Selecting;
      }
    }

    /** dhcp_input_cb. `sent` tells whether a reply could be sent, and `added` whether the address could be
        configured. The NAK of a renewal removes the leased address exactly when it names it. */
    method Input(headerOk: bool, options: array<Byte>, yiaddr: Ip, now: nat, sent: bool, added: bool)
      requires Valid() && options.Length < 0x1_0000
      modifies this
      ensures Valid()
      ensures var (e, next) := Parsed(options[..], old(info));
              if old(state) != Off && headerOk && e == Ok then
                && state == Next(old(state), next, yiaddr, sent, added)
                && (acks == if state == Bound && old(state) != Bound then old(acks) + 1 else old(acks))
                && (acks == old(acks) || (ackTime == now && t1.Pending? && t2.Pending?))
                && addrs == NextAddrs(old(state), state, next, yiaddr, old(addrs))
                && (leased == if old(state) == Requesting && state == Bound then (yiaddr, next.prefixLen)
                              else old(leased))
                && if Extending(old(state)) && next.msgType == NAK then
                     leased !in addrs <==> leased == (yiaddr, next.prefixLen)
                   else info == next && offered == yiaddr
              else
                && state == old(state) && addrs == old(addrs) && acks == old(acks) && leased == old(leased)
                && info == (if old(state) != Off && headerOk then next else old(info)) && offered == old(offered)
    {
      if state == Off {
        return;
      }
      var ok := ParsePacket(headerOk, options, yiaddr);
      if ok {
        React(now, sent, added);
      }
    }

    /** The switch of dhcp_input_cb, on a good packet whose options and address are stored. */
    method React(now: nat, sent: bool, added: bool)
      requires Valid()
      modifies this
      ensures Valid() && state == Next(old(state), old(info), old(offered), sent, added)
      ensures acks == if state == Bound && old(state) != Bound then old(acks) + 1 else old(acks)
      ensures acks == old(acks) || (ackTime == now && t1.Pending? && t2.Pending?)
      ensures addrs == NextAddrs(old(state), state, old(info), old(offered), old(addrs))
      ensures leased == if old(state) == Requesting && state == Bound then (old(offered), old(info).prefixLen)
                        else old(leased)
      ensures !(Extending(old(state)) && old(info).msgType == NAK) ==> info == old(info) && offered == old(offered)
    {
      match state {
        case Selecting =>
          if info.msgType == OFFER && info.server != NO_IP && offered != NO_IP && sent {
            state := Requesting;
          }
        case Requesting =>
          if info.msgType == ACK {
            if offered != NO_IP && info.prefixLen != 0 && added {
              addrs := addrs + {(offered, info.prefixLen)};
              leased := (offered, info.prefixLen);
              state := Bound;
              ScheduleTimers(now);
            }
          } else if info.msgType == NAK {
            state := Init;
          }
        case Renewing =>
          Renew(now, sent);
        case Rebinding =>
          Renew(now, sent);
        case _ =>
      }
    }

    /** The case of dhcp_input_cb for a client that is extending its lease. */
    method Renew(now: nat, sent: bool)
      requires Valid() && Extending(state)
      modifies this
      ensures Valid() && leased == old(leased)
      ensures old(info).msgType != NAK ==> info == old(info) && offered == old(offered)
      ensures state == if old(info).msgType == ACK then Bound
                       else if old(info).msgType == NAK then (if sent then Selecting else Init) else old(state)
      ensures if old(info).msgType == ACK then acks == old(acks) + 1 && ackTime == now else acks == old(acks)
      ensures old(info).msgType == ACK ==> t1.Pending? && t2.Pending?
      ensures old(info).msgType == NAK ==> t1 == t2 == expire == NoTimer
      ensures addrs == if old(info).msgType == NAK && old(offered) != NO_IP && old(info).prefixLen != 0
                       then old(addrs) - {(old(offered), old(info).prefixLen)} else old(addrs)
    {
      if info.msgType == ACK {
        state := Bound;
        ScheduleTimers(now);
      } else if info.msgType == NAK {
        CancelTimers();
        Restart(sent);
      }
    }

    /** dhcp_t1_callback. */
    method FireT1()
      requires Valid() && t1.Pending?
      modifies this`t1, this`state
      ensures Valid() && t1 == Fired && state == if old(state) == Bound then Renewing else old(state)
      ensures old(t1).ack == acks && old(t1).due == ackTime + T1(ackInfo)
    {
      t1 := Fired;
      if state == Bound {
        state := Renewing;
      }
    }

    /** dhcp_t2_callback. */
    method FireT2()
      requires Valid() && t2.Pending?
      modifies this`t2, this`state
      ensures Valid() && t2 == Fired && state == if old(state) == Renewing then Rebinding else old(state)
      ensures old(t2).ack == acks && old(t2).due == ackTime + T2(ackInfo)
    {
      t2 := Fired;
      if state == Renewing {
        state := Rebinding;
      }
    }

    /** dhcp_expire_callback. */
    method FireExpire(sent: bool)
      requires Valid() && expire.Pending?
      modifies this`expire, this`addrs, this`state, this`offered, this`info
      ensures Valid() && old(HasLease(state)) && state == if sent then Selecting else Init
      ensures addrs == if old(offered) != NO_IP && old(info).prefixLen != 0
                       then old(addrs) - {(old(offered), old(info).prefixLen)} else old(addrs)
      ensures old(expire).ack == acks && old(expire).due == ackTime + ackInfo.lease
      ensures leased !in addrs <==> leased == (old(offered), old(info).prefixLen)
    {
      expire := Fired;
      Restart(sent);
    }

    /** dhcp_stop: like expiry, it removes the leased address exactly when it is the stored one. */
    method Stop() returns (ok: bool)
      requires Valid()
      modifies this`t1, this`t2, this`expire, this`addrs, this`state
      ensures Valid() && state == Off && ok == (old(state) != Off)
      ensures addrs == if ok && offered != NO_IP && info.prefixLen != 0 then old(addrs) - {(offered, info.prefixLen)}
                       else old(addrs)
      ensures old(HasLease(state)) ==> (leased !in addrs <==> leased == (offered, info.prefixLen))
    {
      ok := state != Off;
      if ok {
        DropAddress();
        CancelTimers();
        state := Off;
      }
    }

    /** dhcp_start: a client that knows nothing, unless there is one or the DISCOVER cannot be sent. */
    method Start(sent: bool) returns (ok: bool)
      requires Valid()
      modifies this`state, this`info, this`offered
      ensures Valid() && ok == (old(state) == Off && sent)
      ensures if ok then state == Selecting && info == NO_INFO && offered == NO_IP
              else state == old(state) && info == old(info) && offered == old(offered)
    {
      ok := state == Off && sent;
      if ok {
        state, info, offered := Selecting, NO_INFO, NO_IP;
      }
    }
  }

  /** What happens to a client. A timer fires only while it is pending. */
  datatype Event =
    | Packet(headerOk: bool, options: seq<Byte>, yiaddr: Ip, now: nat, sent: bool, added: bool)
    | T1Due
    | T2Due
    | ExpireDue(sent: bool)
    | Stopped
    | Started(sent: bool)

  /** In every run the expiry timer is pending exactly while there is a lease, and pending timers are those of the
      last ACK. */
  method Play(c: Client, events: seq<Event>)
    requires c.Valid() && forall i | 0 <= i < |events| :: events[i].Packet? ==> |events[i].options| < 0x1_0000
    modifies c
    ensures c.Valid()
  {
    for n := 0 to |events|
      invariant c.Valid()
    {
      match events[n] {
        case Packet(headerOk, options, yiaddr, now, sent, added) =>
          var buf := new Byte[|options|](i requires 0 <= i < |options| => options[i]);
          c.Input(headerOk, buf, yiaddr, now, sent, added);
        case T1Due =>
          if c.t1.Pending? {
            c.FireT1();
          }
        case T2Due =>
          if c.t2.Pending? {
            c.FireT2();
          }
        case ExpireDue(sent) =>
          if c.expire.Pending? {
            c.FireExpire(sent);
          }
        case Stopped =>
          var _ := c.Stop();
        case Started(sent) =>
          var _ := c.Start(sent);
      }
    }
  }

  // ----- Runs in which the address outlives the lease -----

  const SERVER: Ip := [10, 0, 0, 1]
  const ADDRESS: Ip := [10, 0, 0, 7]
  const OTHER: Ip := [10, 0, 0, 8]

  /** The options of the replies of a server: message type, server and the mask 255.255.255.0. */
  function ReplyTlvs(msgType: Byte): seq<Tlv>
  {
    [Tlv(MESSAGE_TYPE, [msgType])] + ([Tlv(SERVER_ID, SERVER)] + ([Tlv(SUBNET_MASK, [255, 255, 255, 0])] + []))
  }

  function Items(ts: seq<Tlv>): (items: seq<Item>)
    ensures |items| == |ts| && forall i | 0 <= i < |ts| :: items[i] == Opt(ts[i])
  {
    seq(|ts|, i requires 0 <= i < |ts| => Opt(ts[i]))
  }

  lemma {:induction false} ItemsTlvs(ts: seq<Tlv>)
    ensures Tlvs(Items(ts)) == ts
  {
    if ts != [] {
      assert Items(ts)[1..] == Items(ts[1..]);
      ItemsTlvs(ts[1..]);
    }
  }

  lemma {:induction false} FoldNext(t: Tlv, ts: seq<Tlv>, info: Info, next: Info)
    requires Apply(t, info) == (Ok, next)
    ensures Fold([t] + ts, info) == Fold(ts, next)
  {
  }

  lemma {:induction false} Mask24()
    ensures MaskBits([255, 255, 255, 0]) == 24
  {
    assert PopCount(255) == 8 && PopCount(0) == 0;
  }

  lemma {:induction false} ReplyFold(msgType: Byte, info: Info)
    ensures Fold(ReplyTlvs(msgType), info) == (Ok, info.(msgType := msgType, server := SERVER, prefixLen := 24))
  {
    var mask := Tlv(SUBNET_MASK, [255, 255, 255, 0]);
    var a := info.(msgType := msgType);
    var b := a.(server := SERVER);
    Mask24();
    FoldNext(mask, [], b, b.(prefixLen := 24));
    FoldNext(Tlv(SERVER_ID, SERVER), [mask] + [], a, b);
    FoldNext(Tlv(MESSAGE_TYPE, [msgType]), [Tlv(SERVER_ID, SERVER)] + ([mask] + []), info, a);
  }

  function ReplyBytes(msgType: Byte): (bytes: seq<Byte>)
  {
    Encode(Items(ReplyTlvs(msgType))) + [END]
  }

  lemma {:induction false} ReplyParsed(msgType: Byte, info: Info)
    requires msgType != 0
    ensures Parsed(ReplyBytes(msgType), info) == (Ok, info.(msgType := msgType, server := SERVER, prefixLen := 24))
  {
    ParseEncode(Items(ReplyTlvs(msgType)), [END], info);
    ItemsTlvs(ReplyTlvs(msgType));
    ReplyFold(msgType, info.(msgType := 0));
  }

  lemma {:induction false} ReplyLength(msgType: Byte)
    ensures |ReplyBytes(msgType)| == 16
  {
    var items := Items(ReplyTlvs(msgType));
    var two := items[1..];
    var one := two[1..];
    assert items[0] == Opt(Tlv(MESSAGE_TYPE, [msgType])) && two[0] == Opt(Tlv(SERVER_ID, SERVER));
    assert one == [Opt(Tlv(SUBNET_MASK, [255, 255, 255, 0]))] && one[1..] == [];
    assert Encode(one) == Bytes(one[0]) + Encode([]);
    assert Encode(items) == Bytes(items[0]) + Encode(two) && Encode(two) == Bytes(two[0]) + Encode(one);
  }

  /** A reply of the server for the address `yiaddr`. */
  method Answer(c: Client, msgType: Byte, yiaddr: Ip, now: nat)
    requires c.Valid() && c.state != Off && msgType != 0
    modifies c
    ensures c.Valid()
    ensures var info := old(c.info).(msgType := msgType, server := SERVER, prefixLen := 24);
            c.state == Next(old(c.state), info, yiaddr, true, true)
    ensures old(c.state) == Requesting && c.state == Bound ==> c.leased == (yiaddr, 24) && c.t1.Pending?
    ensures !(old(c.state) == Requesting && c.state == Bound) ==> c.leased == old(c.leased)
    ensures if Extending(old(c.state)) && msgType == NAK then c.leased !in c.addrs <==> c.leased == (yiaddr, 24)
            else c.offered == yiaddr && c.info.prefixLen == 24
  {
    ReplyParsed(msgType, c.info);
    ReplyLength(msgType);
    var bytes := ReplyBytes(msgType);
    var buf := new Byte[|bytes|](i requires 0 <= i < |bytes| => bytes[i]);
    assert buf[..] == bytes;
    c.Input(true, buf, yiaddr, now, true, true);
  }

  /** A client that got the address 10.0.0.7. */
  method Leased() returns (c: Client)
    ensures fresh(c) && c.Valid() && c.state == Bound && c.leased == (ADDRESS, 24) && c.t1.Pending?
  {
    c := new Client({});
    Answer(c, OFFER, ADDRESS, 1);
    Answer(c, ACK, ADDRESS, 2);
  }

  /** A NAK carries no address (table 3 of RFC 2131), so one that ends a renewal leaves the leased address on the
      interface. */
  method NakKeepsAddress() returns (c: Client)
    ensures c.Valid() && !HasLease(c.state) && c.leased == (ADDRESS, 24) && c.leased in c.addrs
  {
    c := Leased();
    c.FireT1();
    Answer(c, NAK, NO_IP, 3);
  }

  /** A bound client stores the address of any reply that reaches it, and when it is stopped that one is removed. */
  method StopKeepsAddress() returns (c: Client)
    ensures c.Valid() && c.state == Off && c.leased == (ADDRESS, 24) && c.leased in c.addrs
  {
    c := Leased();
    Answer(c, ACK, OTHER, 3);
    var _ := c.Stop();
  }

  /** A bound client stores the address of any reply that reaches it, and at expiry removes that one. */
  method ExpiryKeepsAddress() returns (c: Client)
    ensures c.Valid() && !HasLease(c.state) && c.leased == (ADDRESS, 24) && c.leased in c.addrs
  {
    c := Leased();
    Answer(c, ACK, OTHER, 3);
    c.FireExpire(true);
  }
}
