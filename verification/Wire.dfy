/** Framing of the API socket (api/gr_api.h): a header of three 32-bit words, the last of which is the payload
    length, followed by the payload. */
module Wire {
  import opened Common

  const WORD_LIMIT: nat := 0x1_0000_0000
  const HEADER_LEN: nat := 12
  const MAX_MSG_LEN: nat := 128 * 1024

  /** A request is (id, type, payload_len), a response (for_id, status, payload_len). */
  datatype Header = Header(id: nat, info: nat, len: nat)

  predicate Fits(h: Header)
  {
    h.id < WORD_LIMIT && h.info < WORD_LIMIT && h.len < WORD_LIMIT
  }

  /** A 32-bit word in host (little-endian) byte order. */
  function WordBytes(x: nat): (s: seq<Byte>)
    requires x < WORD_LIMIT
    ensures |s| == 4 && BytesWord(s) == x
  {
    var y := x / 256;
    var z := y / 256;
    [x % 256, y % 256, z % 256, z / 256]
  }

  function BytesWord(s: seq<Byte>): (x: nat)
    requires |s| == 4
    ensures x < WORD_LIMIT
  {
    var b: seq<int> := s;
    b[0] + 0x100 * b[1] + 0x1_0000 * b[2] + 0x100_0000 * b[3]
  }

  function Pack(h: Header): (s: seq<Byte>)
    requires Fits(h)
    ensures |s| == HEADER_LEN && Unpack(s) == h
  {
    var s := WordBytes(h.id) + WordBytes(h.info) + WordBytes(h.len);
    assert s[..4] == WordBytes(h.id) && s[4..8] == WordBytes(h.info) && s[8..12] == WordBytes(h.len);
    s
  }

  function Unpack(s: seq<Byte>): (h: Header)
    requires |s| == HEADER_LEN
    ensures Fits(h)
  {
    Header(BytesWord(s[..4]), BytesWord(s[4..8]), BytesWord(s[8..12]))
  }

  lemma {:induction false} WordBytesInverse(s: seq<Byte>)
    requires |s| == 4
    ensures WordBytes(BytesWord(s)) == s
  {
    var b: seq<int> := s;
    var x := BytesWord(s);
    assert x == 256 * (b[1] + 256 * (b[2] + 256 * b[3])) + b[0];
    assert x % 256 == b[0] && x / 256 == b[1] + 256 * (b[2] + 256 * b[3]);
    assert x / 256 / 256 == b[2] + 256 * b[3];
  }

  /** Every twelve bytes are a header. */
  lemma {:induction false} PackUnpack(s: seq<Byte>)
    requires |s| == HEADER_LEN
    ensures Pack(Unpack(s)) == s
  {
    WordBytesInverse(s[..4]);
    WordBytesInverse(s[4..8]);
    WordBytesInverse(s[8..12]);
    assert s == s[..4] + s[4..8] + s[8..12];
  }
}
