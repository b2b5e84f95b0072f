/** DHCP options (modules/dhcp/control/options.c, section 2 of RFC 2132). */
module DhcpOptions {
  import opened Common

  const PAD: Byte := 0
  const SUBNET_MASK: Byte := 1
  const ROUTER: Byte := 3
  const DNS_SERVER: Byte := 6
  const DOMAIN_NAME: Byte := 15
  const REQUESTED_IP: Byte := 50
  const LEASE_TIME: Byte := 51
  const MESSAGE_TYPE: Byte := 53
  const SERVER_ID: Byte := 54
  const PARAM_REQUEST_LIST: Byte := 55
  const RENEWAL_TIME: Byte := 58
  const REBIND_TIME: Byte := 59
  const END: Byte := 255

  const REQUEST: Byte := 3

  datatype Errno = Ok | EBADMSG | E2BIG | ENOBUFS

  /** An IPv4 address in network byte order. */
  type Ip = s: seq<Byte> | |s| == 4 witness [0, 0, 0, 0]

  const NO_IP: Ip := [0, 0, 0, 0]

  datatype Tlv = Tlv(code: Byte, data: seq<Byte>)

  /** The client fields that options set, and the message type. */
  datatype Info = Info(
    msgType: Byte,
    prefixLen: nat,
    router: Ip,
    server: Ip,
    lease: nat,
    renewal: nat,
    rebind: nat
  )

  /** A 32-bit number in network byte order. */
  function Big32(s: Ip): nat
  {
    var b: seq<int> := s;
    ((b[0] * 256 + b[1]) * 256 + b[2]) * 256 + b[3]
  }

  function PopCount(n: nat): nat
  {
    if n == 0 then 0 else n % 2 + PopCount(n / 2)
  }

  /** The number of bits that are set in a mask. */
  function MaskBits(s: Ip): nat
  {
    PopCount(s[0]) + PopCount(s[1]) + PopCount(s[2]) + PopCount(s[3])
  }

  /** The effect of one option. A message type of the wrong length is an error; other options of the wrong
      length are ignored. */
  function Apply(t: Tlv, info: Info): (Errno, Info)
  {
    if t.code == MESSAGE_TYPE then
      if |t.data| != 1 then (EBADMSG, info) else (Ok, info.(msgType := t.data[0]))
    else if t.code == ROUTER then
      (Ok, if |t.data| < 4 then info else info.(router := t.data[..4]))
    else if |t.data| != 4 then (Ok, info)
    else if t.code == SUBNET_MASK then (Ok, info.(prefixLen := MaskBits(t.data)))
    else if t.code == SERVER_ID then (Ok, info.(server := t.data))
    else if t.code == LEASE_TIME then (Ok, info.(lease := Big32(t.data)))
    else if t.code == RENEWAL_TIME then (Ok, info.(renewal := Big32(t.data)))
    else if t.code == REBIND_TIME then (Ok, info.(rebind := Big32(t.data)))
    else (Ok, info)
  }

  /** The options applied from first to last, up to the first error. */
  function Fold(ts: seq<Tlv>, info: Info): (Errno, Info)
  {
    if ts == [] then (Ok, info)
    else
      var (e, next) := Apply(ts[0], info);
      if e != Ok then (e, next) else Fold(ts[1..], next)
  }

  /** The options of a buffer, and how it ends: padding is skipped and an end option stops. */
  function Decode(bs: seq<Byte>): (seq<Tlv>, Errno)
  {
    if bs == [] || bs[0] == END then ([], Ok)
    else if bs[0] == PAD then Decode(bs[1..])
    else if |bs| < 2 then ([], EBADMSG)
    else if 2 + bs[1] > |bs| then ([], E2BIG)
    else
      var (ts, e) := Decode(bs[2 + bs[1]..]);
      ([Tlv(bs[0], bs[2..2 + bs[1]])] + ts, e)
  }

  /** What parsing must do: decode, apply what was decoded, and require a message type. */
  function Outlook(bs: seq<Byte>, info: Info): (Errno, Info)
  {
    var (ts, ending) := Decode(bs);
    var (e, next) := Fold(ts, info);
    (if e != Ok then e else if ending != Ok then ending else if next.msgType == 0 then EBADMSG else Ok, next)
  }

  function Parsed(bs: seq<Byte>, info: Info): (Errno, Info)
  {
    Outlook(bs, info.(msgType := 0))
  }

  /** One option of the buffer `bs`, which is neither padding nor the end. */
  lemma {:induction false} OutlookStep(bs: seq<Byte>, info: Info)
    requires 2 <= |bs| && bs[0] != END && bs[0] != PAD && 2 + bs[1] <= |bs|
    ensures var (e, next) := Apply(Tlv(bs[0], bs[2..2 + bs[1]]), info);
            Outlook(bs, info) == if e != Ok then (e, next) else Outlook(bs[2 + bs[1]..], next)
  {
  }

  /** The switch of dhcp_parse_options. */
  method Set(opt: Byte, data: seq<Byte>, info: Info) returns (e: Errno, r: Info)
    ensures (e, r) == Apply(Tlv(opt, data), info)
  {
    e, r := Ok, info;
    var len := |data|;
    if opt == MESSAGE_TYPE {
      if len != 1 {
        e := EBADMSG;
      } else {
        r := info.(msgType := data[0]);
      }
    } else if opt == SUBNET_MASK {
      if len == 4 {
        r := info.(prefixLen := MaskBits(data));
      }
    } else if opt == ROUTER {
      if len >= 4 {
        r := info.(router := data[..4]);
      }
    } else if opt == SERVER_ID {
      if len == 4 {
        r := info.(server := data);
      }
    } else if opt == LEASE_TIME {
      if len == 4 {
        r := info.(lease := Big32(data));
      }
    } else if opt == RENEWAL_TIME {
      if len == 4 {
        r := info.(renewal := Big32(data));
      }
    } else if opt == REBIND_TIME {
      if len == 4 {
        r := info.(rebind := Big32(data));
      }
    }
  }

  /** One turn of the loop of dhcp_parse_options; `stop` tells whether it is the last. */
  method ParseOne(options: array<Byte>, pos: nat, info: Info) returns (stop: bool, e: Errno, next: nat, r: Info)
    requires pos < options.Length < 0x1_0000
    ensures var rest := options[..][pos..];
            if stop then Outlook(rest, info) == (if e == Ok && r.msgType == 0 then EBADMSG else e, r)
            else pos < next <= options.Length && Outlook(rest, info) == Outlook(options[..][next..], r)
  {
    ghost var rest := options[..][pos..];
    stop, e, r := false, Ok, info;
    var opt := options[pos];
    next := pos + 1;
    if opt == END {
      stop := true;
    } else if opt == PAD {
      assert rest[1..] == options[..][next..];
    } else if next >= options.Length {
      stop, e := true, EBADMSG;
    } else {
      var len := options[next];
      next := next + 1;
      if next + len > options.Length {
        stop, e := true, E2BIG;
      } else {
        assert rest[2..2 + len] == options[next..next + len] && rest[2 + len..] == options[..][next + len..];
        OutlookStep(rest, info);
        e, r := Set(opt, options[next..next + len], info);
        stop := e != Ok;
        next := next + len;
      }
    }
  }

  /** dhcp_parse_options. */
  method Parse(options: array<Byte>, info: Info) returns (e: Errno, r: Info)
    requires options.Length < 0x1_0000
    ensures (e, r) == Parsed(options[..], info)
  {
    r := info.(msgType := 0);
    var pos, stop := 0, false;
    ghost var all := options[..];
    assert all[0..] == all;
    while pos < options.Length
      invariant 0 <= pos <= options.Length
      invariant Outlook(all[pos..], r) == Outlook(all, info.(msgType := 0))
    {
      stop, e, pos, r := ParseOne(options, pos, r);
      if stop {
        e := if e == Ok && r.msgType == 0 then EBADMSG else e;
        return;
      }
    }
    e := if r.msgType == 0 then EBADMSG else Ok;
  }

  /** What a buffer is made of: padding and options. */
  datatype Item = Padding | Opt(tlv: Tlv)

  predicate Encodable(t: Tlv)
  {
    t.code != PAD && t.code != END && |t.data| < 256
  }

  predicate AllEncodable(items: seq<Item>)
  {
    forall i | 0 <= i < |items| :: items[i].Opt? ==> Encodable(items[i].tlv)
  }

  function Bytes(item: Item): (bs: seq<Byte>)
    requires item.Opt? ==> Encodable(item.tlv)
    ensures bs != []
  {
    match item
    case Padding => [PAD]
    case Opt(t) => [t.code, |t.data|] + t.data
  }

  function Encode(items: seq<Item>): seq<Byte>
    requires AllEncodable(items)
  {
    if items == [] then [] else Bytes(items[0]) + Encode(items[1..])
  }

  function Listed(item: Item): seq<Tlv>
  {
    if item.Opt? then [item.tlv] else []
  }

  function Tlvs(items: seq<Item>): seq<Tlv>
  {
    if items == [] then [] else Listed(items[0]) + Tlvs(items[1..])
  }

  /** Decoding one item in front of anything. */
  lemma {:induction false} DecodeItem(item: Item, rest: seq<Byte>)
    requires item.Opt? ==> Encodable(item.tlv)
    ensures Decode(Bytes(item) + rest).0 == Listed(item) + Decode(rest).0
    ensures Decode(Bytes(item) + rest).1 == Decode(rest).1
  {
  }

  lemma {:induction false} EncodeHead(items: seq<Item>, rest: seq<Byte>)
    requires AllEncodable(items) && items != []
    ensures Encode(items) + rest == Bytes(items[0]) + (Encode(items[1..]) + rest)
  {
  }

  /** Decoding finds the options of any list with padding anywhere, and ends as what follows it does. */
  lemma {:induction false} DecodeEncode(items: seq<Item>, rest: seq<Byte>)
    requires AllEncodable(items)
    ensures Decode(Encode(items) + rest).0 == Tlvs(items) + Decode(rest).0
    ensures Decode(Encode(items) + rest).1 == Decode(rest).1
  {
    if items == [] {
      assert Encode(items) + rest == rest;
    } else {
      EncodeHead(items, rest);
      DecodeEncode(items[1..], rest);
      DecodeItem(items[0], Encode(items[1..]) + rest);
      Regroup(Listed(items[0]), Tlvs(items[1..]), Decode(rest).0);
    }
  }

  lemma {:induction false} EncodeAppend(items: seq<Item>, x: Item)
    requires AllEncodable(items) && (x.Opt? ==> Encodable(x.tlv))
    ensures AllEncodable(items + [x]) && Encode(items + [x]) == Encode(items) + Bytes(x)
  {
    if items == [] {
      assert items + [x] == [x];
      assert Encode([x]) == Bytes(x) + Encode([]) == Bytes(x);
    } else {
      assert (items + [x])[1..] == items[1..] + [x] && (items + [x])[0] == items[0];
      EncodeAppend(items[1..], x);
      Regroup(Bytes(items[0]), Encode(items[1..]), Bytes(x));
    }
  }

  /** A list that is complete, or closed by an end option before anything, parses to the fold of its options. */
  lemma {:induction false} ParseEncode(items: seq<Item>, rest: seq<Byte>, info: Info)
    requires AllEncodable(items) && (rest == [] || rest[0] == END)
    ensures var (e, next) := Fold(Tlvs(items), info.(msgType := 0));
            Parsed(Encode(items) + rest, info)
            == (if e != Ok then e else if next.msgType == 0 then EBADMSG else Ok, next)
  {
    DecodeEncode(items, rest);
    assert Tlvs(items) + [] == Tlvs(items);
  }

  /** The options of a request, in order. */
  function Built(msgType: Byte, server: Ip, requested: Ip): seq<Item>
  {
    [Opt(Tlv(MESSAGE_TYPE, [msgType]))]
    + (if msgType == REQUEST && server != NO_IP then [Opt(Tlv(SERVER_ID, server))] else [])
    + (if msgType == REQUEST && requested != NO_IP then [Opt(Tlv(REQUESTED_IP, requested))] else [])
    + [Opt(Tlv(PARAM_REQUEST_LIST, [SUBNET_MASK, ROUTER, DNS_SERVER, DOMAIN_NAME]))]
  }

  /** Parsing what was built gives back the message type and, in a request, the server, and sets nothing else. */
  lemma {:induction false} ParseBuilt(msgType: Byte, server: Ip, requested: Ip, rest: seq<Byte>, info: Info)
    ensures AllEncodable(Built(msgType, server, requested))
    ensures var r := info.(msgType := msgType,
                           server := if msgType == REQUEST && server != NO_IP then server else info.server);
            Parsed(Encode(Built(msgType, server, requested)) + [END] + rest, info)
            == (if msgType == 0 then EBADMSG else Ok, r)
  {
    var items := Built(msgType, server, requested);
    assert Encode(items) + [END] + rest == Encode(items) + ([END] + rest);
    ParseEncode(items, [END] + rest, info);
    FoldBuilt(msgType, server, requested, info);
  }

  lemma {:induction false} TlvsAppend(a: seq<Item>, b: seq<Item>)
    ensures Tlvs(a + b) == Tlvs(a) + Tlvs(b)
  {
    if a == [] {
      assert a + b == b;
    } else {
      assert (a + b)[1..] == a[1..] + b;
      TlvsAppend(a[1..], b);
      Regroup(Listed(a[0]), Tlvs(a[1..]), Tlvs(b));
    }
  }

  lemma {:induction false} FoldAppend(a: seq<Tlv>, b: seq<Tlv>, info: Info)
    requires Fold(a, info).0 == Ok
    ensures Fold(a + b, info) == Fold(b, Fold(a, info).1)
  {
    if a == [] {
      assert a + b == b;
    } else {
      assert (a + b)[1..] == a[1..] + b;
      FoldAppend(a[1..], b, Apply(a[0], info).1);
    }
  }

  lemma {:induction false} FoldBuilt(msgType: Byte, server: Ip, requested: Ip, info: Info)
    ensures Fold(Tlvs(Built(msgType, server, requested)), info.(msgType := 0))
            == (Ok, info.(msgType := msgType,
                          server := if msgType == REQUEST && server != NO_IP then server else info.server))
  {
    var a: seq<Item> := [Opt(Tlv(MESSAGE_TYPE, [msgType]))];
    var b: seq<Item> := if msgType == REQUEST && server != NO_IP then [Opt(Tlv(SERVER_ID, server))] else [];
    var c: seq<Item> := if msgType == REQUEST && requested != NO_IP then [Opt(Tlv(REQUESTED_IP, requested))] else [];
    var d: seq<Item> := [Opt(Tlv(PARAM_REQUEST_LIST, [SUBNET_MASK, ROUTER, DNS_SERVER, DOMAIN_NAME]))];
    TlvsAppend(a + b + c, d);
    TlvsAppend(a + b, c);
    TlvsAppend(a, b);
    FoldAppend(Tlvs(a), Tlvs(b), info.(msgType := 0));
    FoldAppend(Tlvs(a) + Tlvs(b), Tlvs(c), info.(msgType := 0));
    FoldAppend(Tlvs(a) + Tlvs(b) + Tlvs(c), Tlvs(d), info.(msgType := 0));
  }

  /** Append the bytes of `item` at `pos`. */
  method Put(buf: array<Byte>, pos: nat, item: Item) returns (next: nat)
    requires item.Opt? ==> Encodable(item.tlv)
    requires pos + |Bytes(item)| <= buf.Length
    modifies buf
    ensures next == pos + |Bytes(item)| && buf[..next] == old(buf[..pos]) + Bytes(item)
  {
    var bs := Bytes(item);
    next := pos;
    while next < pos + |bs|
      invariant pos <= next <= pos + |bs|
      invariant buf[..next] == old(buf[..pos]) + bs[..next - pos]
    {
      buf[next] := bs[next - pos];
      next := next + 1;
    }
  }

  /** dhcp_build_options. */
  method Build(buf: array<Byte>, msgType: Byte, server: Ip, requested: Ip) returns (e: Errno, len: nat)
    modifies buf
    ensures AllEncodable(Built(msgType, server, requested))
    ensures e == if buf.Length < 22 then ENOBUFS else Ok
    ensures e == Ok ==> len <= 22 && buf[..len] == Encode(Built(msgType, server, requested)) + [END]
  {
    if buf.Length < 22 {
      return ENOBUFS, 0;
    }
    ghost var items := [];
    var pos := 0;
    items, pos := Add(buf, items, pos, Opt(Tlv(MESSAGE_TYPE, [msgType])));
    if msgType == REQUEST && server != NO_IP {
      items, pos := Add(buf, items, pos, Opt(Tlv(SERVER_ID, server)));
    }
    if msgType == REQUEST && requested != NO_IP {
      items, pos := Add(buf, items, pos, Opt(Tlv(REQUESTED_IP, requested)));
    }
    items, pos := Add(buf, items, pos, Opt(Tlv(PARAM_REQUEST_LIST, [SUBNET_MASK, ROUTER, DNS_SERVER, DOMAIN_NAME])));
    assert items == Built(msgType, server, requested);
    buf[pos] := END;
    return Ok, pos + 1;
  }

  /** Put one more item after those already there. */
  method Add(buf: array<Byte>, ghost items: seq<Item>, pos: nat, item: Item) returns (ghost all: seq<Item>, next: nat)
    requires AllEncodable(items) && (item.Opt? ==> Encodable(item.tlv)) && pos + |Bytes(item)| <= buf.Length
    requires buf[..pos] == Encode(items)
    modifies buf
    ensures all == items + [item] && AllEncodable(all)
    ensures next == pos + |Bytes(item)| <= buf.Length && buf[..next] == Encode(all)
  {
    EncodeAppend(items, item);
    all := items + [item];
    next := Put(buf, pos, item);
  }
}
