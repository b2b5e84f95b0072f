/** Printing and parsing of CPU lists (api/string.c), for any size of the CPU set. */
module CpuSet {
  import opened Common

  const UNSIGNED_LIMIT: nat := 0x1_0000_0000
  const ULONG_LIMIT: nat := 0x1_0000_0000_0000_0000

  predicate IsDigit(c: char)
  {
    48 <= c as int <= 57
  }

  predicate IsSpace(c: char)
  {
    c == ' ' || c == '\t' || c == '\n' || c == '\r' || c as int == 11 || c as int == 12
  }

  /** Decimal digits of `n`, as snprintf("%u") prints them. */
  function Dec(n: nat): (s: string)
    ensures s != "" && forall i | 0 <= i < |s| :: IsDigit(s[i])
  {
    (if n < 10 then "" else Dec(n / 10)) + [(n % 10 + 48) as char]
  }

  function Value(s: string): nat
    requires forall i | 0 <= i < |s| :: IsDigit(s[i])
  {
    if s == "" then 0
    else
      assert IsDigit(s[|s| - 1]);
      10 * Value(s[..|s| - 1]) + (s[|s| - 1] as int - 48)
  }

  lemma {:induction false} ValueDec(n: nat)
    ensures Value(Dec(n)) == n
  {
    if 10 <= n {
      ValueDec(n / 10);
      assert Dec(n)[..|Dec(n)| - 1] == Dec(n / 10);
    }
  }

  /** Length of the digits that `s` starts with. */
  function Digits(s: string): (k: nat)
    ensures k <= |s| && (forall i | 0 <= i < k :: IsDigit(s[i])) && (k < |s| ==> !IsDigit(s[k]))
  {
    if s == "" || !IsDigit(s[0]) then 0
    else
      var k := Digits(s[1..]);
      assert forall i | 1 <= i < k + 1 :: s[i] == s[1..][i - 1];
      k + 1
  }

  function SkipSpace(s: string): (r: string)
    ensures |r| <= |s|
  {
    if s != "" && IsSpace(s[0]) then SkipSpace(s[1..]) else s
  }

  /** parse_number: strtoul in base ten with its white space, sign and overflow, stored in an unsigned int. */
  function ParseNumber(s: string): (r: Option<(nat, string)>)
    ensures r.Some? ==> |r.value.1| < |s|
  {
    var t := SkipSpace(s);
    var signed := t != "" && (t[0] == '-' || t[0] == '+');
    var u := if signed then t[1..] else t;
    var k := Digits(u);
    if k == 0 then None
    else
      var v := Value(u[..k]);
      if v >= ULONG_LIMIT then None
      else
        var w := if signed && t[0] == '-' then (ULONG_LIMIT - v) % ULONG_LIMIT else v;
        Some((w % UNSIGNED_LIMIT, u[k..]))
  }

  lemma {:induction false} ParseDec(n: nat, rest: string)
    requires n < UNSIGNED_LIMIT && (rest != "" ==> !IsDigit(rest[0]))
    ensures ParseNumber(Dec(n) + rest) == Some((n, rest))
  {
    ValueDec(n);
    ParseDigits(Dec(n), rest);
  }

  lemma {:induction false} ParseDigits(d: string, rest: string)
    requires d != "" && (forall i | 0 <= i < |d| :: IsDigit(d[i])) && Value(d) < UNSIGNED_LIMIT
    requires rest != "" ==> !IsDigit(rest[0])
    ensures ParseNumber(d + rest) == Some((Value(d), rest))
  {
    var s := d + rest;
    assert s[0] == d[0] && IsDigit(d[0]);
    assert SkipSpace(s) == s && s[0] != '-' && s[0] != '+';
    DigitsOf(d, rest);
  }

  lemma {:induction false} DigitsOf(d: string, rest: string)
    requires (forall i | 0 <= i < |d| :: IsDigit(d[i])) && (rest != "" ==> !IsDigit(rest[0]))
    ensures Digits(d + rest) == |d| && (d + rest)[..|d|] == d && (d + rest)[|d|..] == rest
    decreases |d|
  {
  }

  function SkipCommas(s: string): (r: string)
    ensures |r| <= |s|
  {
    if s != "" && s[0] == ',' then SkipCommas(s[1..]) else s
  }

  /** The CPUs from `a` to `b`. */
  function Range(a: nat, b: nat): set<nat>
    decreases b - a
  {
    if a > b then {} else {a} + Range(a + 1, b)
  }

  lemma {:induction false} RangeHas(a: nat, b: nat, c: nat)
    ensures c in Range(a, b) <==> a <= c <= b
    decreases b - a
  {
    if a <= b {
      RangeHas(a + 1, b, c);
    }
  }

  /** One element of a list: the first and last CPU, and what follows. */
  function ParseItem(s: string): (r: Option<(nat, nat, string)>)
    ensures r.Some? ==> |r.value.2| < |s|
  {
    var first := ParseNumber(SkipCommas(s));
    if first.None? then None
    else
      var (start, t) := first.value;
      if t != "" && t[0] == '-' then
        var last := ParseNumber(t[1..]);
        if last.None? then None else Some((start, last.value.0, last.value.1))
      else Some((start, start, t))
  }

  type Reader = string -> Option<(nat, nat, string)>

  /** What a list read with `p` element by element adds to the CPUs `cpus`. */
  function ParseFrom(p: Reader, s: string, size: nat, cpus: set<nat>): Option<set<nat>>
    decreases |s|
  {
    if s == "" then Some(cpus)
    else
      var item := p(s);
      if item.None? || item.value.0 > item.value.1 || item.value.1 >= size || |item.value.2| >= |s| then None
      else ParseFrom(p, item.value.2, size, cpus + Range(item.value.0, item.value.1))
  }

  /** What a list denotes; an empty string is refused. */
  function Parsed(s: string, size: nat): Option<set<nat>>
  {
    if s == "" then None else ParseFrom(ParseItem, s, size, {})
  }

  /** The part of cpuset_parse that reads one element. */
  method ReadItem(s: string) returns (r: Option<(nat, nat, string)>)
    ensures r == ParseItem(s)
  {
    var buf := s;
    while buf != "" && buf[0] == ','
      invariant SkipCommas(buf) == SkipCommas(s)
      decreases |buf|
    {
      buf := buf[1..];
    }
    var number := ParseNumber(buf);
    if number.None? {
      return None;
    }
    var (start, rest) := number.value;
    if rest != "" && rest[0] == '-' {
      number := ParseNumber(rest[1..]);
      if number.None? {
        return None;
      }
      return Some((start, number.value.0, number.value.1));
    }
    return Some((start, start, rest));
  }

  /** The loop of cpuset_parse that sets a range of CPUs. */
  method AddRange(cpus: set<nat>, start: nat, end: nat, size: nat) returns (r: Option<set<nat>>)
    requires start <= end
    ensures r == if end < size then Some(cpus + Range(start, end)) else None
  {
    var c, all := start, cpus;
    while c <= end
      invariant start <= c <= end + 1 && (c == start || c <= size) && all + Range(c, end) == cpus + Range(start, end)
    {
      if c >= size {
        return None;
      }
      all := all + {c};
      c := c + 1;
    }
    assert all == all + Range(c, end);
    return Some(all);
  }

  /** cpuset_parse. */
  method Parse(s: string, size: nat) returns (r: Option<set<nat>>)
    ensures r == Parsed(s, size)
  {
    if s == "" {
      return None;
    }
    var buf := s;
    var cpus: set<nat> := {};
    while buf != ""
      invariant ParseFrom(ParseItem, buf, size, cpus) == ParseFrom(ParseItem, s, size, {})
      decreases |buf|
    {
      var item := ReadItem(buf);
      if item.None? || item.value.0 > item.value.1 {
        return None;
      }
      var more := AddRange(cpus, item.value.0, item.value.1, size);
      if more.None? {
        return None;
      }
      cpus, buf := more.value, item.value.2;
    }
    return Some(cpus);
  }

  /** Last CPU of the run of `cpus` that starts at `i`. */
  function RunEnd(cpus: set<nat>, size: nat, i: nat): (j: nat)
    requires i in cpus && i < size
    ensures i <= j < size && (forall c: nat | i <= c <= j :: c in cpus) && (j + 1 < size ==> j + 1 !in cpus)
    decreases size - i
  {
    if i + 1 < size && i + 1 in cpus then RunEnd(cpus, size, i + 1) else i
  }

  /** A run as it is printed: two CPUs are listed, three or more make a range. */
  function Item(i: nat, j: nat): string
    requires i <= j
  {
    if i == j then Dec(i) else Dec(i) + (if j == i + 1 then "," else "-") + Dec(j)
  }

  /** The maximal runs from `i` on, each followed by a comma. */
  function Items(cpus: set<nat>, size: nat, i: nat): string
    decreases size - i
  {
    if i >= size then ""
    else if i in cpus then
      var j := RunEnd(cpus, size, i);
      Item(i, j) + "," + Items(cpus, size, j + 1)
    else Items(cpus, size, i + 1)
  }

  function Formatted(cpus: set<nat>, size: nat): string
  {
    var s := Items(cpus, size, 0);
    if s == "" then "" else s[..|s| - 1]
  }

  method FindEnd(cpus: set<nat>, size: nat, i: nat) returns (end: nat)
    requires i in cpus && i < size
    ensures end == RunEnd(cpus, size, i)
  {
    var j := i + 1;
    while j < size && j in cpus
      invariant i < j <= size && j - 1 in cpus && RunEnd(cpus, size, i) == RunEnd(cpus, size, j - 1)
    {
      j := j + 1;
    }
    return j - 1;
  }

  /** The run at `i` and what follows; the CPU after a run can be skipped. */
  lemma {:induction false} ItemsStep(cpus: set<nat>, size: nat, i: nat)
    requires i in cpus && i < size
    ensures var j := RunEnd(cpus, size, i);
            Items(cpus, size, i) == (Item(i, j) + ",") + Items(cpus, size, j + 2)
  {
  }

  /** cpuset_format into a buffer of `len` bytes. */
  method Format(cpus: set<nat>, size: nat, len: nat) returns (r: Option<string>)
    ensures r == if 1 < len && |Items(cpus, size, 0)| < len then Some(Formatted(cpus, size)) else None
  {
    if len <= 1 {
      return None;
    }
    var buf := "";
    var i := 0;
    while i < size
      invariant buf + Items(cpus, size, i) == Items(cpus, size, 0) && |buf| < len
      decreases size - i
    {
      if i in cpus {
        ItemsStep(cpus, size, i);
        var j := FindEnd(cpus, size, i);
        var text := Item(i, j) + ",";
        if |text| >= len - |buf| {
          return None;
        }
        Regroup(buf, text, Items(cpus, size, j + 2));
        buf := buf + text;
        i := j + 1;
      }
      i := i + 1;
    }
    assert buf + "" == buf;
    if |buf| > 0 {
      buf := buf[..|buf| - 1];
    }
    return Some(buf);
  }

  /** What follows a printed element in a list. */
  predicate Follows(rest: string)
  {
    rest == "" || rest[0] == ','
  }

  lemma {:induction false} ParseSingle(n: nat, rest: string)
    requires n < UNSIGNED_LIMIT && Follows(rest)
    ensures ParseItem(Dec(n) + rest) == Some((n, n, rest))
  {
    ParseDec(n, rest);
    assert IsDigit((Dec(n) + rest)[0]);
  }

  lemma {:induction false} ParseRange(i: nat, j: nat, rest: string)
    requires i < UNSIGNED_LIMIT && j < UNSIGNED_LIMIT && Follows(rest)
    ensures ParseItem(Dec(i) + "-" + Dec(j) + rest) == Some((i, j, rest))
  {
    var tail := "-" + (Dec(j) + rest);
    assert Dec(i) + "-" + Dec(j) + rest == Dec(i) + tail;
    assert IsDigit((Dec(i) + tail)[0]);
    ParseDec(i, tail);
    assert tail[1..] == Dec(j) + rest;
    ParseDec(j, rest);
  }

  /** A reader of single CPUs and ranges that skips a comma in front of them. */
  ghost predicate Reads(p: Reader)
  {
    && (forall s :: p(s).Some? ==> |p(s).value.2| < |s|)
    && (forall n: nat, rest: string {:trigger p(Dec(n) + rest)} | n < UNSIGNED_LIMIT && Follows(rest) ::
          p(Dec(n) + rest) == Some((n, n, rest)))
    && (forall i: nat, j: nat, rest: string {:trigger p(Dec(i) + "-" + Dec(j) + rest)} |
          i < UNSIGNED_LIMIT && j < UNSIGNED_LIMIT && Follows(rest) ::
          p(Dec(i) + "-" + Dec(j) + rest) == Some((i, j, rest)))
    && (forall t: string {:trigger p("," + t)} | t != "" && IsDigit(t[0]) :: p("," + t) == p(t))
  }

  lemma {:induction false} ParseItemReads()
    ensures Reads(ParseItem)
  {
    forall n: nat, rest: string | n < UNSIGNED_LIMIT && Follows(rest)
      ensures ParseItem(Dec(n) + rest) == Some((n, n, rest))
    {
      ParseSingle(n, rest);
    }
    forall i: nat, j: nat, rest: string | i < UNSIGNED_LIMIT && j < UNSIGNED_LIMIT && Follows(rest)
      ensures ParseItem(Dec(i) + "-" + Dec(j) + rest) == Some((i, j, rest))
    {
      ParseRange(i, j, rest);
    }
    forall t: string | t != "" && IsDigit(t[0])
      ensures ParseItem("," + t) == ParseItem(t)
    {
      assert ("," + t)[1..] == t;
      assert SkipCommas("," + t) == SkipCommas(t);
    }
  }

  /** A single CPU, a comma and a further element. */
  lemma {:induction false} ParseNext(p: Reader, i: nat, tail: string, size: nat, cpus: set<nat>)
    requires Reads(p) && i < size <= UNSIGNED_LIMIT && tail != "" && IsDigit(tail[0])
    ensures ParseFrom(p, Dec(i) + ("," + tail), size, cpus) == ParseFrom(p, tail, size, cpus + Range(i, i))
  {
  }

  /** A comma before an element is skipped. */
  lemma {:induction false} ParseComma(p: Reader, t: string, size: nat, cpus: set<nat>)
    requires Reads(p) && t != "" && IsDigit(t[0])
    ensures ParseFrom(p, "," + t, size, cpus) == ParseFrom(p, t, size, cpus)
  {
  }

  lemma {:induction false} ParseOne(p: Reader, i: nat, rest: string, size: nat, cpus: set<nat>)
    requires Reads(p) && i < size <= UNSIGNED_LIMIT && Follows(rest)
    ensures ParseFrom(p, Dec(i) + rest, size, cpus) == ParseFrom(p, rest, size, cpus + Range(i, i))
  {
  }

  lemma {:induction false} ParsePair(p: Reader, i: nat, rest: string, size: nat, cpus: set<nat>)
    requires Reads(p) && i + 1 < size <= UNSIGNED_LIMIT && Follows(rest)
    ensures ParseFrom(p, Dec(i) + ("," + (Dec(i + 1) + rest)), size, cpus)
            == ParseFrom(p, rest, size, cpus + Range(i, i + 1))
  {
    assert IsDigit(Dec(i + 1)[0]);
    ParseNext(p, i, Dec(i + 1) + rest, size, cpus);
    ParseOne(p, i + 1, rest, size, cpus + Range(i, i));
    assert cpus + Range(i, i) + Range(i + 1, i + 1) == cpus + Range(i, i + 1);
  }

  lemma {:induction false} ParseDash(p: Reader, i: nat, j: nat, rest: string, size: nat, cpus: set<nat>)
    requires Reads(p) && i <= j < size <= UNSIGNED_LIMIT && Follows(rest)
    ensures ParseFrom(p, Dec(i) + "-" + Dec(j) + rest, size, cpus) == ParseFrom(p, rest, size, cpus + Range(i, j))
  {
  }

  lemma {:induction false} ItemText(i: nat, j: nat, rest: string)
    requires i <= j
    ensures Item(i, j) + rest
            == if i == j then Dec(i) + rest
               else if j == i + 1 then Dec(i) + ("," + (Dec(j) + rest))
               else Dec(i) + "-" + Dec(j) + rest
  {
  }

  /** Reading a printed run adds its CPUs. */
  lemma {:induction false} ParseRun(p: Reader, i: nat, j: nat, rest: string, size: nat, cpus: set<nat>)
    requires Reads(p) && i <= j < size <= UNSIGNED_LIMIT && Follows(rest)
    ensures ParseFrom(p, Item(i, j) + rest, size, cpus) == ParseFrom(p, rest, size, cpus + Range(i, j))
  {
    ItemText(i, j, rest);
    if i == j {
      ParseOne(p, i, rest, size, cpus);
    } else if j == i + 1 {
      ParsePair(p, i, rest, size, cpus);
    } else {
      ParseDash(p, i, j, rest, size, cpus);
    }
  }

  lemma {:induction false} ItemShape(i: nat, j: nat)
    requires i <= j
    ensures Item(i, j) != "" && IsDigit(Item(i, j)[0])
  {
  }

  /** A list that is not empty starts with a digit and ends with a comma. */
  lemma {:induction false} ItemsEnds(cpus: set<nat>, size: nat, i: nat)
    ensures var s := Items(cpus, size, i); s != "" ==> 2 <= |s| && IsDigit(s[0]) && s[|s| - 1] == ','
    decreases size - i
  {
    if i < size {
      if i in cpus {
        var j := RunEnd(cpus, size, i);
        ItemsEnds(cpus, size, j + 1);
        ItemShape(i, j);
      } else {
        ItemsEnds(cpus, size, i + 1);
      }
    }
  }

  /** The list is empty exactly when no CPU is left, and otherwise starts with a digit and ends with a comma. */
  lemma {:induction false} ItemsShape(cpus: set<nat>, size: nat, i: nat)
    ensures var s := Items(cpus, size, i);
            if s == "" then forall c | c in cpus && c < size :: c < i
            else 2 <= |s| && IsDigit(s[0]) && s[|s| - 1] == ','
    decreases size - i
  {
    ItemsEnds(cpus, size, i);
    if i < size && i !in cpus {
      ItemsShape(cpus, size, i + 1);
    }
  }

  function From(cpus: set<nat>, i: nat): set<nat>
  {
    set c | c in cpus && i <= c
  }

  /** Dropping the last comma after a run and the list that follows it. */
  lemma {:induction false} Stripped(item: string, t: string)
    ensures var s := item + "," + t;
            s[..|s| - 1] == item + if t == "" then "" else "," + t[..|t| - 1]
  {
  }

  /** The last run, or a run and the list that follows it. */
  lemma {:induction false} ParseRuns(p: Reader, i: nat, j: nat, t: string, size: nat, acc: set<nat>)
    requires Reads(p) && i <= j < size <= UNSIGNED_LIMIT && (t != "" ==> 2 <= |t| && IsDigit(t[0]))
    ensures var s := Item(i, j) + "," + t;
            ParseFrom(p, s[..|s| - 1], size, acc)
            == if t == "" then Some(acc + Range(i, j)) else ParseFrom(p, t[..|t| - 1], size, acc + Range(i, j))
  {
    Stripped(Item(i, j), t);
    if t == "" {
      ParseRun(p, i, j, "", size, acc);
    } else {
      var rest := t[..|t| - 1];
      ParseRun(p, i, j, "," + rest, size, acc);
      ParseComma(p, rest, size, acc + Range(i, j));
    }
  }

  lemma {:induction false} RoundTripFrom(p: Reader, cpus: set<nat>, size: nat, i: nat, acc: set<nat>)
    requires Reads(p) && size <= UNSIGNED_LIMIT && (forall c <- cpus :: c < size) && Items(cpus, size, i) != ""
    ensures var s := Items(cpus, size, i); ParseFrom(p, s[..|s| - 1], size, acc) == Some(acc + From(cpus, i))
    decreases size - i
  {
    if i in cpus {
      var j := RunEnd(cpus, size, i);
      if Items(cpus, size, j + 1) != "" {
        RoundTripFrom(p, cpus, size, j + 1, acc + Range(i, j));
      }
      RoundTripRun(p, cpus, size, i, j, Items(cpus, size, j + 1), acc);
    } else {
      RoundTripFrom(p, cpus, size, i + 1, acc);
      assert From(cpus, i) == From(cpus, i + 1);
    }
  }

  /** The run that starts at `i`, and the list `t` that follows it. */
  lemma {:induction false} RoundTripRun(p: Reader, cpus: set<nat>, size: nat, i: nat, j: nat, t: string, acc: set<nat>)
    requires Reads(p) && size <= UNSIGNED_LIMIT && (forall c <- cpus :: c < size) && i in cpus
    requires j == RunEnd(cpus, size, i) && t == Items(cpus, size, j + 1)
    requires t != "" ==>
               ParseFrom(p, t[..|t| - 1], size, acc + Range(i, j)) == Some(acc + Range(i, j) + From(cpus, j + 1))
    ensures var s := Item(i, j) + "," + t; ParseFrom(p, s[..|s| - 1], size, acc) == Some(acc + From(cpus, i))
  {
    ItemsShape(cpus, size, j + 1);
    ParseRuns(p, i, j, t, size, acc);
    SplitRun(cpus, size, i);
    if t == "" {
      assert From(cpus, j + 1) == {};
      assert acc + Range(i, j) == acc + From(cpus, i);
    } else {
      assert acc + Range(i, j) + From(cpus, j + 1) == acc + From(cpus, i);
    }
  }

  lemma {:induction false} SplitRun(cpus: set<nat>, size: nat, i: nat)
    requires i in cpus && i < size
    ensures var j := RunEnd(cpus, size, i); From(cpus, i) == Range(i, j) + From(cpus, j + 1)
  {
    var j := RunEnd(cpus, size, i);
    forall c: nat
      ensures c in From(cpus, i) <==> c in Range(i, j) + From(cpus, j + 1)
    {
      RangeHas(i, j, c);
    }
  }

  /** Parsing inverts printing for exactly the non-empty sets. */
  lemma {:induction false} RoundTrip(cpus: set<nat>, size: nat)
    requires size <= UNSIGNED_LIMIT && forall c <- cpus :: c < size
    ensures Parsed(Formatted(cpus, size), size) == Some(cpus) <==> cpus != {}
  {
    if cpus != {} {
      RoundTripSome(cpus, size);
    } else {
      NoItems(size, 0);
    }
  }

  lemma {:induction false} RoundTripSome(cpus: set<nat>, size: nat)
    requires size <= UNSIGNED_LIMIT && cpus != {} && forall c <- cpus :: c < size
    ensures Parsed(Formatted(cpus, size), size) == Some(cpus)
  {
    ItemsShape(cpus, size, 0);
    ParseItemReads();
    RoundTripFrom(ParseItem, cpus, size, 0, {});
    assert {} + From(cpus, 0) == cpus;
  }

  lemma {:induction false} NoItems(size: nat, i: nat)
    ensures Items({}, size, i) == ""
    decreases size - i
  {
    if i < size {
      NoItems(size, i + 1);
    }
  }
}
