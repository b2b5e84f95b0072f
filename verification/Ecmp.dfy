/** Weighted nexthop groups (modules/infra/control/group_nexthop.c, modules/infra/control/nexthop.h). */
module Ecmp {
  import opened Arithmetic
  import opened Common

  datatype Member = Member(nh: nat, weight: nat)

  const WORD_LIMIT: nat := 0x1_0000_0000
  const MAX_RETA_SIZE: nat := 4096

  /** Unsigned 32-bit arithmetic. */
  function U32(x: nat): nat
  {
    x % WORD_LIMIT
  }

  function Sum(ms: seq<Member>): nat
  {
    if ms == [] then 0 else Sum(ms[..|ms| - 1]) + ms[|ms| - 1].weight
  }

  /** The sum computed for a quota, and whether it does not wrap for any member. */
  function Numerator(w: nat, size: nat, total: nat): nat
  {
    w * size + total / 2
  }

  predicate Fits(ms: seq<Member>, size: nat)
  {
    forall m <- ms :: Numerator(m.weight, size, Sum(ms)) < WORD_LIMIT
  }

  /** Slots for weight `w` out of `total`, computed on 32 bits, and at least one for a positive weight. */
  function Quota(w: nat, size: nat, total: nat): nat
    requires 0 < total
  {
    var q := U32(Numerator(w, size, total)) / total;
    if q == 0 && w > 0 then 1 else q
  }

  /** The rounded share, and at least one for a positive weight. */
  function Rounded(w: nat, size: nat, total: nat): nat
    requires 0 < total
  {
    var q := Numerator(w, size, total) / total;
    if q == 0 && w > 0 then 1 else q
  }

  lemma {:induction false} U32Small(x: nat)
    requires x < WORD_LIMIT
    ensures U32(x) == x
  {
  }

  lemma {:induction false} U32Drops(x: nat)
    requires WORD_LIMIT <= x
    ensures U32(x) + WORD_LIMIT <= x
  {
  }

  /** Quotients of a number and of the same number less at least `limit`. */
  lemma {:induction false} Wraps(x: nat, y: nat, total: nat, limit: nat)
    requires 0 < total < limit && y + limit <= x
    ensures 1 <= x / total && (x / total == 1 <==> x < 2 * total)
    ensures y / total < x / total
  {
    DivOne(x, total);
    DivStep(x, y, total);
  }

  /** The quota of a positive weight is the rounded share exactly when the sum does not wrap or the share is one. */
  lemma {:induction false} QuotaExactly(w: nat, size: nat, total: nat)
    requires 0 < w && 0 < total < WORD_LIMIT
    ensures Quota(w, size, total) == Rounded(w, size, total)
            <==> Numerator(w, size, total) < WORD_LIMIT || Numerator(w, size, total) < 2 * total
  {
    var x := Numerator(w, size, total);
    if x < WORD_LIMIT {
      U32Small(x);
    } else {
      U32Drops(x);
      Wraps(x, U32(x), total, WORD_LIMIT);
    }
  }

  function Quotas(ms: seq<Member>, size: nat, total: nat): nat
    requires 0 < total
  {
    if ms == [] then 0
    else Quotas(ms[..|ms| - 1], size, total) + Quota(ms[|ms| - 1].weight, size, total)
  }

  /** First slot after those of the members `ms`. */
  function Start(ms: seq<Member>, size: nat, total: nat): (s: nat)
    requires 0 < total
    ensures s <= size
  {
    var q := Quotas(ms, size, total);
    if q <= size then q else size
  }

  /** Slot `s` belongs to member `i` of `ms`: it lies in the run of `i`, or after all runs and `i` is the first. */
  predicate Owns(ms: seq<Member>, size: nat, i: nat, s: nat)
    requires i < |ms| && 0 < Sum(ms)
  {
    var total := Sum(ms);
    || Start(ms[..i], size, total) <= s < Start(ms[..i + 1], size, total)
    || (i == 0 && Start(ms, size, total) <= s < size)
  }

  lemma {:induction false} StartNext(ms: seq<Member>, size: nat, total: nat, i: nat)
    requires 0 < total && i < |ms|
    ensures Quotas(ms[..i + 1], size, total) == Quotas(ms[..i], size, total) + Quota(ms[i].weight, size, total)
    ensures Start(ms[..i], size, total) <= Start(ms[..i + 1], size, total)
  {
    assert ms[..i + 1][..i] == ms[..i];
  }

  lemma {:induction false} StartMonotone(ms: seq<Member>, size: nat, total: nat, i: nat, j: nat)
    requires 0 < total && i <= j <= |ms|
    ensures Start(ms[..i], size, total) <= Start(ms[..j], size, total)
    decreases j
  {
    if i < j {
      StartMonotone(ms, size, total, i, j - 1);
      StartNext(ms, size, total, j - 1);
    }
  }

  function Repeat(x: nat, n: nat): (r: seq<nat>)
    ensures |r| == n && forall i | 0 <= i < n :: r[i] == x
  {
    seq(n, _ => x)
  }

  /** The runs of the members, clipped to `size` slots. */
  function Runs(ms: seq<Member>, size: nat, total: nat): (r: seq<nat>)
    requires 0 < total
    ensures |r| == Start(ms, size, total)
  {
    if ms == [] then []
    else
      var n := |ms| - 1;
      var r := Runs(ms[..n], size, total);
      r + Repeat(ms[n].nh, Min(Quota(ms[n].weight, size, total), size - |r|))
  }

  function Table(ms: seq<Member>, size: nat): (t: seq<nat>)
    requires 0 < Sum(ms)
    ensures |t| == size
  {
    var r := Runs(ms, size, Sum(ms));
    r + Repeat(ms[0].nh, size - |r|)
  }

  /** Write `x` to at most `n` slots from `idx` on. */
  method FillRun(reta: array<nat>, idx: nat, x: nat, n: nat) returns (next: nat)
    requires idx <= reta.Length
    modifies reta
    ensures next == idx + Min(n, reta.Length - idx)
    ensures reta[..next] == old(reta[..idx]) + Repeat(x, next - idx)
  {
    next := idx;
    var j := 0;
    while j < n && next < reta.Length
      invariant 0 <= j <= n && next == idx + j <= reta.Length
      invariant reta[..next] == old(reta[..idx]) + Repeat(x, next - idx)
    {
      reta[next] := x;
      next, j := next + 1, j + 1;
    }
  }

  lemma {:induction false} SumMonotone(ms: seq<Member>, i: nat)
    requires i <= |ms|
    ensures Sum(ms[..i]) <= Sum(ms)
    decreases |ms|
  {
    if i < |ms| {
      assert ms[..|ms| - 1][..i] == ms[..i];
      SumMonotone(ms[..|ms| - 1], i);
    } else {
      assert ms[..i] == ms;
    }
  }

  method Total(ms: seq<Member>) returns (total: nat)
    requires Sum(ms) < WORD_LIMIT
    ensures total == Sum(ms)
  {
    total := 0;
    for i := 0 to |ms|
      invariant total == Sum(ms[..i])
    {
      assert ms[..i + 1][..i] == ms[..i];
      SumMonotone(ms, i + 1);
      total := U32(total + ms[i].weight);
    }
    assert ms[..|ms|] == ms;
  }

  lemma {:induction false} Sum32(a: nat, b: nat)
    ensures U32(U32(a) + b) == U32(a + b)
  {
  }

  method Entries(w: nat, size: nat, total: nat) returns (e: nat)
    requires 0 < total
    ensures e == Quota(w, size, total)
  {
    Sum32(w * size, total / 2);
    e := U32(U32(w * size) + total / 2) / total;
    if e == 0 && w > 0 {
      e := 1;
    }
  }

  /** The slots of one member. */
  method FillMember(ms: seq<Member>, reta: array<nat>, i: nat, idx: nat, total: nat) returns (next: nat)
    requires 0 < total == Sum(ms) && i < |ms| && idx == Start(ms[..i], reta.Length, total)
    requires idx <= reta.Length && reta[..idx] == Runs(ms[..i], reta.Length, total)
    modifies reta
    ensures next <= reta.Length && next == Start(ms[..i + 1], reta.Length, total)
    ensures reta[..next] == Runs(ms[..i + 1], reta.Length, total)
  {
    StartNext(ms, reta.Length, total, i);
    assert ms[i] in ms && ms[..i + 1][..i] == ms[..i];
    var entries := Entries(ms[i].weight, reta.Length, total);
    next := FillRun(reta, idx, ms[i].nh, entries);
  }

  /** group_reta_distribute. */
  method Distribute(ms: seq<Member>, reta: array<nat>)
    requires 0 < Sum(ms) < WORD_LIMIT
    modifies reta
    ensures reta[..] == Table(ms, reta.Length)
  {
    var total := Total(ms);
    var size := reta.Length;
    var idx, i := 0, 0;
    while i < |ms| && idx < size
      invariant 0 <= i <= |ms| && idx == Start(ms[..i], size, total) && reta[..idx] == Runs(ms[..i], size, total)
    {
      idx := FillMember(ms, reta, i, idx, total);
      i := i + 1;
    }
    FullRuns(ms, size, total, i);
    idx := FillRun(reta, idx, ms[0].nh, size);
    assert reta[..size] == reta[..];
  }

  /** Once every slot is taken, later members add nothing. */
  lemma {:induction false} FullRuns(ms: seq<Member>, size: nat, total: nat, i: nat)
    requires 0 < total && i <= |ms| && (i < |ms| ==> Start(ms[..i], size, total) == size)
    ensures Runs(ms, size, total) == Runs(ms[..i], size, total)
    decreases |ms|
  {
    if i == |ms| {
      assert ms[..i] == ms;
    } else {
      var n := |ms| - 1;
      StartMonotone(ms, size, total, i, n);
      assert ms[..n][..i] == ms[..i];
      FullRuns(ms[..n], size, total, i);
      assert Repeat(ms[n].nh, 0) == [];
    }
  }

  /** Each slot holds the member that owns it. */
  lemma {:induction false} TableHolds(ms: seq<Member>, size: nat, i: nat, s: nat)
    requires i < |ms| && 0 < Sum(ms) && Owns(ms, size, i, s)
    ensures s < size && Table(ms, size)[s] == ms[i].nh
  {
    var total := Sum(ms);
    if Start(ms[..i], size, total) <= s < Start(ms[..i + 1], size, total) {
      RunsHold(ms, size, total, i, s);
    }
  }

  lemma {:induction false} RunsHold(ms: seq<Member>, size: nat, total: nat, i: nat, s: nat)
    requires 0 < total && i < |ms| && Start(ms[..i], size, total) <= s < Start(ms[..i + 1], size, total)
    ensures s < Start(ms, size, total) && Runs(ms, size, total)[s] == ms[i].nh
    decreases |ms|
  {
    var n := |ms| - 1;
    if i == n {
      assert ms[..i + 1] == ms;
    } else {
      assert ms[..n][..i] == ms[..i] && ms[..n][..i + 1] == ms[..i + 1];
      RunsHold(ms[..n], size, total, i, s);
      StartMonotone(ms, size, total, n, n + 1);
      assert ms[..n + 1] == ms;
    }
  }

  /** Every slot has an owner, so every slot names a member. */
  lemma {:induction false} EverySlotOwned(ms: seq<Member>, size: nat, s: nat)
    requires 0 < Sum(ms) && s < size
    ensures exists i: nat | i < |ms| :: Owns(ms, size, i, s)
  {
    var total := Sum(ms);
    if s < Start(ms, size, total) {
      assert ms[..|ms|] == ms;
      FindOwner(ms, size, s, |ms|);
    } else {
      assert Owns(ms, size, 0, s);
    }
  }

  lemma {:induction false} FindOwner(ms: seq<Member>, size: nat, s: nat, n: nat)
    requires 0 < Sum(ms) && n <= |ms| && s < Start(ms[..n], size, Sum(ms))
    ensures exists i: nat | i < |ms| :: Owns(ms, size, i, s)
    decreases n
  {
    if 0 < n {
      if s < Start(ms[..n - 1], size, Sum(ms)) {
        FindOwner(ms, size, s, n - 1);
      } else {
        assert ms[..n - 1 + 1] == ms[..n];
        assert Owns(ms, size, n - 1, s);
      }
    }
  }

  function Count(t: seq<nat>, x: nat): nat
  {
    if t == [] then 0 else Count(t[..|t| - 1], x) + if t[|t| - 1] == x then 1 else 0
  }

  lemma {:induction false} CountAppend(a: seq<nat>, b: seq<nat>, x: nat)
    ensures Count(a + b, x) == Count(a, x) + Count(b, x)
    decreases |b|
  {
    if b == [] {
      assert a + b == a;
    } else {
      var n := |b| - 1;
      assert (a + b)[..|a| + n] == a + b[..n];
      CountAppend(a, b[..n], x);
    }
  }

  lemma {:induction false} CountRepeat(y: nat, n: nat, x: nat)
    ensures Count(Repeat(y, n), x) == if x == y then n else 0
    decreases n
  {
    if 0 < n {
      assert Repeat(y, n)[..n - 1] == Repeat(y, n - 1);
      CountRepeat(y, n - 1, x);
    }
  }

  predicate Distinct(ms: seq<Member>)
  {
    forall i, j | 0 <= i < j < |ms| :: ms[i].nh != ms[j].nh
  }

  /** Slots that member `i` gets: its clipped run, and for the first member what is left at the end. */
  function Share(ms: seq<Member>, size: nat, i: nat): nat
    requires i < |ms| && 0 < Sum(ms)
  {
    var total := Sum(ms);
    StartNext(ms, size, total, i);
    Start(ms[..i + 1], size, total) - Start(ms[..i], size, total)
    + if i == 0 then size - Start(ms, size, total) else 0
  }

  /** The last member adds its own run and nothing else. */
  lemma {:induction false} LastRun(ms: seq<Member>, size: nat, total: nat, x: nat)
    requires 0 < total && ms != []
    ensures var n := |ms| - 1;
            && Start(ms[..n], size, total) <= Start(ms, size, total)
            && Count(Runs(ms, size, total), x) == Count(Runs(ms[..n], size, total), x)
               + if x == ms[n].nh then Start(ms, size, total) - Start(ms[..n], size, total) else 0
  {
    var n := |ms| - 1;
    var r := Runs(ms[..n], size, total);
    var k := Min(Quota(ms[n].weight, size, total), size - |r|);
    CountAppend(r, Repeat(ms[n].nh, k), x);
    CountRepeat(ms[n].nh, k, x);
  }

  lemma {:induction false} RunsCount(ms: seq<Member>, size: nat, total: nat, i: nat)
    requires 0 < total && i < |ms| && Distinct(ms)
    ensures Start(ms[..i], size, total) <= Start(ms[..i + 1], size, total)
    ensures Count(Runs(ms, size, total), ms[i].nh) == Start(ms[..i + 1], size, total) - Start(ms[..i], size, total)
    decreases |ms|
  {
    var n := |ms| - 1;
    LastRun(ms, size, total, ms[i].nh);
    if i == n {
      assert ms[..n + 1] == ms;
      AbsentCount(ms[..n], size, total, ms[n].nh);
    } else {
      assert ms[..n][..i] == ms[..i] && ms[..n][..i + 1] == ms[..i + 1];
      RunsCount(ms[..n], size, total, i);
    }
  }

  lemma {:induction false} AbsentCount(ms: seq<Member>, size: nat, total: nat, x: nat)
    requires 0 < total && forall i | 0 <= i < |ms| :: ms[i].nh != x
    ensures Count(Runs(ms, size, total), x) == 0
    decreases |ms|
  {
    if ms != [] {
      LastRun(ms, size, total, x);
      AbsentCount(ms[..|ms| - 1], size, total, x);
    }
  }

  /** The slots that name a member are its share. */
  lemma {:induction false} ShareIsCount(ms: seq<Member>, size: nat, i: nat)
    requires 0 < Sum(ms) && i < |ms| && Distinct(ms)
    ensures Count(Table(ms, size), ms[i].nh) == Share(ms, size, i)
  {
    var r := Runs(ms, size, Sum(ms));
    RunsCount(ms, size, Sum(ms), i);
    CountAppend(r, Repeat(ms[0].nh, size - |r|), ms[i].nh);
    CountRepeat(ms[0].nh, size - |r|, ms[i].nh);
  }

  /** A positive weight gets one slot or its share rounded to the nearest, if the sum does not wrap. */
  lemma {:induction false} QuotaRounds(w: nat, size: nat, total: nat)
    requires 0 < total && Numerator(w, size, total) < WORD_LIMIT
    ensures var q := Quota(w, size, total);
            || (q == 1 && 0 < w)
            || (2 * (w * size) <= 2 * (total * q) + total && 2 * (total * q) <= 2 * (w * size) + total)
  {
    U32Small(Numerator(w, size, total));
    Nearest(w * size, total);
  }

  /** A member other than the first whose run is not clipped has its quota. */
  lemma {:induction false} ShareIsQuota(ms: seq<Member>, size: nat, i: nat)
    requires 0 < Sum(ms) && i < |ms|
    ensures 0 < i && Quotas(ms[..i + 1], size, Sum(ms)) <= size ==>
              Share(ms, size, i) == Quota(ms[i].weight, size, Sum(ms))
    ensures 0 < i ==>
              (0 < Share(ms, size, i) <==>
               0 < Quota(ms[i].weight, size, Sum(ms)) && Quotas(ms[..i], size, Sum(ms)) < size)
  {
    StartNext(ms, size, Sum(ms), i);
  }

  /** When the total divides every weighted size, shares are exact. */
  lemma {:induction false} ExactQuota(w: nat, size: nat, total: nat)
    requires 0 < total && (w * size) % total == 0 && Numerator(w, size, total) < WORD_LIMIT
    ensures w == 0 || 0 < size ==> Quota(w, size, total) * total == w * size
  {
    var a := w * size;
    var q := a / total;
    assert a == total * q;
    ModUnique(a + total / 2, total, q, total / 2);
    if 0 < w && 0 < size {
      AtLeast(w, size);
      assert q != 0;
    }
  }

  lemma {:induction false} ExactQuotas(ms: seq<Member>, size: nat, total: nat)
    requires 0 < total && 0 < size && forall m <- ms :: (m.weight * size) % total == 0
    requires forall m <- ms :: Numerator(m.weight, size, total) < WORD_LIMIT
    ensures Quotas(ms, size, total) * total == Sum(ms) * size
    decreases |ms|
  {
    if ms != [] {
      var n := |ms| - 1;
      ExactQuotas(ms[..n], size, total);
      assert ms[n] in ms;
      ExactQuota(ms[n].weight, size, total);
      var a, b := Quotas(ms[..n], size, total), Quota(ms[n].weight, size, total);
      AddMul(a, b, total);
      AddMul(Sum(ms[..n]), ms[n].weight, size);
    }
  }

  lemma {:induction false} QuotasPrefix(ms: seq<Member>, size: nat, total: nat, i: nat)
    requires 0 < total && i <= |ms|
    ensures Quotas(ms[..i], size, total) <= Quotas(ms, size, total)
    decreases |ms|
  {
    if i < |ms| {
      assert ms[..|ms| - 1][..i] == ms[..i];
      QuotasPrefix(ms[..|ms| - 1], size, total, i);
    } else {
      assert ms[..i] == ms;
    }
  }

  lemma {:induction false} ExactShare(ms: seq<Member>, size: nat, i: nat)
    requires 0 < Sum(ms) && 0 < size && i < |ms| && Fits(ms, size)
    requires forall m <- ms :: (m.weight * size) % Sum(ms) == 0
    ensures Share(ms, size, i) * Sum(ms) == ms[i].weight * size
  {
    var total := Sum(ms);
    ExactQuotas(ms, size, total);
    var q := Quotas(ms, size, total);
    assert total * (q - size) == q * total - total * size == 0;
    SmallMultiple(total, q - size);
    assert q == size;
    QuotasPrefix(ms, size, total, i + 1);
    StartNext(ms, size, total, i);
    ExactQuota(ms[i].weight, size, total);
  }

  /** Five equal weights over eight slots leave the last member without a slot. */
  lemma {:induction false} LastMemberStarved()
    ensures var ms := [Member(10, 1), Member(11, 1), Member(12, 1), Member(13, 1), Member(14, 1)];
            0 < Sum(ms) && Share(ms, 8, 4) == 0 && Count(Table(ms, 8), 14) == 0
  {
    var ms := [Member(10, 1), Member(11, 1), Member(12, 1), Member(13, 1), Member(14, 1)];
    assert forall i | 0 <= i < |ms| :: ms[i].nh == 10 + i;
    SumOnes(ms);
    QuotasOf(ms[..4], 8, 5, 2);
    ShareIsQuota(ms, 8, 4);
    ShareIsCount(ms, 8, 4);
  }

  const LARGE: seq<Member> := [Member(10, 0x4000_0000), Member(11, 0x4000_0000), Member(12, 0x10_0000)]

  lemma {:induction false} LargeSum()
    ensures Sum(LARGE) == 0x8010_0000
  {
    assert LARGE[..2] == [LARGE[0], LARGE[1]] && [LARGE[0], LARGE[1]][..1] == [LARGE[0]];
    assert Sum([LARGE[0]]) == 0x4000_0000;
  }

  lemma {:induction false} LargeQuotas()
    ensures Quota(0x4000_0000, 4096, 0x8010_0000) == Quota(0x10_0000, 4096, 0x8010_0000) == 1
    ensures Rounded(0x4000_0000, 4096, 0x8010_0000) == 2047
  {
  }

  /** Two equal weights of 2^30 and one of 2^20 over 4096 slots: the products wrap to zero, so the second member gets
      one slot and the first all but two. */
  lemma {:induction false} WrappedShare()
    ensures 0 < Sum(LARGE) < WORD_LIMIT && Rounded(0x4000_0000, 4096, Sum(LARGE)) == 2047
    ensures Share(LARGE, 4096, 1) == 1 && Share(LARGE, 4096, 0) == 4094
  {
    LargeSum();
    LargeQuotas();
    assert LARGE[..3] == LARGE;
    StartNext(LARGE, 4096, 0x8010_0000, 0);
    StartNext(LARGE, 4096, 0x8010_0000, 1);
    StartNext(LARGE, 4096, 0x8010_0000, 2);
  }

  lemma {:induction false} SumOnes(ms: seq<Member>)
    requires forall i | 0 <= i < |ms| :: ms[i].weight == 1
    ensures Sum(ms) == |ms|
  {
    if ms != [] {
      SumOnes(ms[..|ms| - 1]);
    }
  }

  lemma {:induction false} QuotasOf(ms: seq<Member>, size: nat, total: nat, q: nat)
    requires 0 < total && forall i | 0 <= i < |ms| :: Quota(ms[i].weight, size, total) == q
    ensures Quotas(ms, size, total) == |ms| * q
    decreases |ms|
  {
    if ms != [] {
      QuotasOf(ms[..|ms| - 1], size, total, q);
      assert |ms| * q == (|ms| - 1) * q + q;
    }
  }

  /** How often `d` occurs from index `i` on. */
  function Occurs(ms: seq<Member>, i: nat, d: nat): (k: nat)
    ensures i <= |ms| ==> k <= |ms| - i
    decreases |ms| - i
  {
    if i >= |ms| then 0 else (if ms[i].nh == d then 1 else 0) + Occurs(ms, i + 1, d)
  }

  /** Fewer than two occurrences from `i` on, or `d` not among that many entries at the end, less one. */
  predicate Clear(ms: seq<Member>, i: nat, d: nat)
  {
    var k := Occurs(ms, i, d);
    forall p | 0 <= p < |ms| && |ms| - k < p :: ms[p].nh != d
  }

  predicate NoneBefore(ms: seq<Member>, i: nat, d: nat)
  {
    forall p | 0 <= p < i && p < |ms| :: ms[p].nh != d
  }

  /** The loop of remove_group_member_cb at index `i` will have removed every `d`. */
  predicate WillClear(ms: seq<Member>, i: nat, d: nat)
  {
    NoneBefore(ms, i, d) && Clear(ms, i, d)
  }

  /** The entry at `i` is replaced with the last one. */
  function Dropped(ms: seq<Member>, i: nat): seq<Member>
    requires i < |ms|
  {
    ms[i := ms[|ms| - 1]][..|ms| - 1]
  }

  lemma {:induction false} OccursDropped(ms: seq<Member>, i: nat, j: nat, d: nat)
    requires i < j < |ms|
    ensures Occurs(ms, j, d) == Occurs(Dropped(ms, i), j, d) + if ms[|ms| - 1].nh == d then 1 else 0
    decreases |ms| - j
  {
    if j < |ms| - 1 {
      OccursDropped(ms, i, j + 1, d);
    }
  }

  lemma {:induction false} StepMiss(ms: seq<Member>, i: nat, d: nat)
    requires i < |ms| && ms[i].nh != d
    ensures WillClear(ms, i + 1, d) <==> WillClear(ms, i, d)
  {
  }

  lemma {:induction false} StepHit(ms: seq<Member>, i: nat, d: nat)
    requires i < |ms| && ms[i].nh == d
    ensures WillClear(Dropped(ms, i), i + 1, d) <==> WillClear(ms, i, d)
  {
    var rest, last := Dropped(ms, i), |ms| - 1;
    var k := Occurs(ms, i, d);
    if i < last {
      OccursDropped(ms, i, i + 1, d);
      var k' := Occurs(rest, i + 1, d);
      assert k == 1 + k' + if ms[last].nh == d then 1 else 0;
      assert forall p | 0 <= p < last :: rest[p] == if p == i then ms[last] else ms[p];
    }
  }

  lemma {:induction false} SumUpdate(ms: seq<Member>, i: nat, m: Member)
    requires i < |ms|
    ensures Sum(ms[i := m]) + ms[i].weight == Sum(ms) + m.weight
    decreases |ms|
  {
    var n := |ms| - 1;
    if i < n {
      assert ms[i := m][..n] == ms[..n][i := m];
      SumUpdate(ms[..n], i, m);
    } else {
      assert ms[i := m][..n] == ms[..n];
    }
  }

  function Pow2(k: nat): (p: nat)
    ensures 0 < p
  {
    if k == 0 then 1 else 2 * Pow2(k - 1)
  }

  ghost predicate IsPow2(n: nat)
  {
    exists k :: n == Pow2(k)
  }

  /** rte_align32pow2, for sizes that occur here: zero stays zero. */
  function Align(x: nat): (p: nat)
    ensures if x == 0 then p == 0 else x <= p < 2 * x && IsPow2(p)
  {
    if x == 0 then 0 else AlignFrom(x, 0)
  }

  function AlignFrom(x: nat, k: nat): (p: nat)
    requires 0 < x && Pow2(k) < 2 * x
    ensures x <= p < 2 * x && IsPow2(p)
    decreases if x <= Pow2(k) then 0 else x - Pow2(k)
  {
    if x <= Pow2(k) then Pow2(k) else AlignFrom(x, k + 1)
  }

  /** Bitwise and. */
  function And(a: nat, b: nat): nat
  {
    if a == 0 || b == 0 then 0 else 2 * And(a / 2, b / 2) + if a % 2 == 1 && b % 2 == 1 then 1 else 0
  }

  lemma {:induction false} ModHalf(a: nat, m: nat)
    requires 0 < m
    ensures a % (2 * m) == 2 * (a / 2 % m) + a % 2
  {
    var h := a / 2;
    var q, r := h / m, h % m;
    assert h == m * q + r;
    assert 2 * (m * q) == (2 * m) * q;
    ModUnique(a, 2 * m, q, 2 * r + a % 2);
  }

  /** Masking with a power of two less one is the remainder. */
  lemma {:induction false} MaskIsMod(a: nat, k: nat)
    ensures And(a, Pow2(k) - 1) == a % Pow2(k)
    decreases k
  {
    if 0 < k {
      var m := Pow2(k - 1);
      MaskIsMod(a / 2, k - 1);
      ModHalf(a, m);
      var b := Pow2(k) - 1;
      assert b / 2 == m - 1 && b % 2 == 1;
    }
  }

  function Defaulted(ms: seq<Member>): (r: seq<Member>)
    ensures |r| == |ms|
  {
    seq(|ms|, i requires 0 <= i < |ms| => if ms[i].weight == 0 then ms[i].(weight := 1) else ms[i])
  }

  lemma {:induction false} DefaultedWeighted(ms: seq<Member>, sorted: seq<Member>)
    requires multiset(sorted) == multiset(Defaulted(ms))
    ensures Weighted(sorted)
  {
    forall i | 0 <= i < |sorted|
      ensures 0 < sorted[i].weight
    {
      assert sorted[i] in multiset(sorted);
      assert sorted[i] in Defaulted(ms);
    }
  }

  /** The weight of the last member; never zero once weights are defaulted. */
  function Lightest(ms: seq<Member>): (w: nat)
    requires ms != []
    ensures 0 < w
  {
    var w := ms[|ms| - 1].weight;
    if w == 0 then 1 else w
  }

  function Clipped(size: nat): nat
  {
    Align(if size > MAX_RETA_SIZE then MAX_RETA_SIZE else size)
  }

  function Product(ms: seq<Member>): nat
    requires ms != []
  {
    ms[0].weight / Lightest(ms) * |ms|
  }

  /** Table size for members in descending order of weight; the product is computed on 32 bits. */
  function RetaSize(ms: seq<Member>): nat
    requires ms != []
  {
    Clipped(U32(Product(ms)))
  }

  lemma {:induction false} Pow2Doubles(i: nat, j: nat)
    requires Pow2(i) < Pow2(j)
    ensures 2 * Pow2(i) <= Pow2(j)
    decreases i + j
  {
    if 0 < i && 0 < j {
      Pow2Doubles(i - 1, j - 1);
    }
  }

  /** A size is aligned to at least `m` exactly when it is more than half of `m` aligned. */
  lemma {:induction false} AlignAtLeast(x: nat, m: nat)
    requires 0 < m
    ensures m <= Align(x) <==> Align(m) < 2 * x
  {
    if 0 < x {
      var i: nat :| Align(x) == Pow2(i);
      var j: nat :| Align(m) == Pow2(j);
      if Pow2(i) < Pow2(j) {
        Pow2Doubles(i, j);
      } else if Pow2(j) < Pow2(i) {
        Pow2Doubles(j, i);
      }
    }
  }

  lemma {:induction false} ClippedAtLeast(x: nat, m: nat)
    requires 0 < m
    ensures m <= Clipped(x) <==> m <= MAX_RETA_SIZE && Align(m) < 2 * x
  {
    var clip := if x > MAX_RETA_SIZE then MAX_RETA_SIZE else x;
    AlignAtLeast(clip, m);
    if MAX_RETA_SIZE < m {
      assert Pow2(12) == 4 * Pow2(10) && Pow2(10) == 4 * Pow2(8) && Pow2(8) == 16 * Pow2(4);
      var j: nat :| Align(m) == Pow2(j);
      Pow2Doubles(12, j);
    }
  }

  lemma {:induction false} AtLeastOnce(q: nat, n: nat)
    requires 1 <= q
    ensures n <= q * n
  {
  }

  /** The table has a slot for each member exactly when there are at most 4096 and the product that gives its size, on
      32 bits, is more than half of their number aligned. Without the wrap it always is. */
  lemma {:induction false} SizeExactly(ms: seq<Member>)
    requires ms != []
    ensures |ms| <= RetaSize(ms) <==> |ms| <= MAX_RETA_SIZE && Align(|ms|) < 2 * U32(Product(ms))
    ensures Lightest(ms) <= ms[0].weight && Product(ms) < WORD_LIMIT ==>
              (|ms| <= RetaSize(ms) <==> |ms| <= MAX_RETA_SIZE)
  {
    ClippedAtLeast(U32(Product(ms)), |ms|);
    if Lightest(ms) <= ms[0].weight && Product(ms) < WORD_LIMIT {
      U32Small(Product(ms));
      AtLeastOnce(ms[0].weight / Lightest(ms), |ms|);
    }
  }

  /** Three members, of which the first is so heavy that the product wraps: the table has two slots. */
  lemma {:induction false} WrappedSize()
    ensures var ms := [Member(1, 1431655766), Member(2, 1), Member(3, 1)];
            Product(ms) == WORD_LIMIT + 2 && RetaSize(ms) == 2
  {
    var ms := [Member(1, 1431655766), Member(2, 1), Member(3, 1)];
    assert Lightest(ms) == 1 && Product(ms) == 1431655766 * 3;
    assert Pow2(1) == 2;
  }

  predicate Weighted(ms: seq<Member>)
  {
    forall i | 0 <= i < |ms| :: 0 < ms[i].weight
  }

  function Nhs(ms: seq<Member>): set<nat>
  {
    set i | 0 <= i < |ms| :: ms[i].nh
  }

  lemma {:induction false} WeightedSum(ms: seq<Member>)
    requires Weighted(ms) && ms != []
    ensures 0 < Sum(ms)
  {
  }

  lemma {:induction false} TableNames(ms: seq<Member>, size: nat, s: nat)
    requires 0 < Sum(ms) && s < size
    ensures Table(ms, size)[s] in Nhs(ms)
  {
    EverySlotOwned(ms, size, s);
    var i: nat :| i < |ms| && Owns(ms, size, i, s);
    TableHolds(ms, size, i, s);
  }

  class Group {
    var members: seq<Member>
    /** Shortcut when there is a single member. */
    var nh: Option<nat>
    var reta: array<nat>

    constructor ()
      ensures Valid() && members == [] && fresh(reta)
    {
      members, nh := [], None;
      reta := new nat[0];
    }

    ghost predicate Valid()
      reads this, reta
    {
      && Weighted(members)
      && (|members| == 1 ==> nh == Some(members[0].nh))
      && (|members| > 1 ==>
            IsPow2(reta.Length) && 0 < Sum(members) < WORD_LIMIT
            && reta[..] == Table(members, reta.Length))
    }

    /** nexthop_group_get_nh: a current member for every flow, if there is one. */
    method Get(flow: nat) returns (r: Option<nat>)
      requires Valid()
      ensures r.None? <==> members == []
      ensures r.Some? ==> r.value in Nhs(members)
      ensures |members| > 1 ==> r == Some(Table(members, reta.Length)[flow % reta.Length])
    {
      if |members| == 1 {
        return nh;
      }
      if |members| == 0 {
        return None;
      }
      ghost var k :| reta.Length == Pow2(k);
      MaskIsMod(flow, k);
      TableNames(members, reta.Length, flow % reta.Length);
      assert reta[..][flow % reta.Length] == reta[flow % reta.Length];
      return Some(reta[And(flow, reta.Length - 1)]);
    }

    /** group_import_info, given the result of qsort: a permutation of the requested members, a zero weight
        counting as one, in descending order of weight. A request for an unknown nexthop changes nothing, and neither
        does one whose table size wraps to zero, for which no memory is given. */
    method Import(requested: seq<Member>, known: set<nat>, sorted: seq<Member>) returns (ok: bool)
      requires Valid() && multiset(sorted) == multiset(Defaulted(requested))
      requires forall i, j | 0 <= i < j < |sorted| :: sorted[i].weight >= sorted[j].weight
      requires |sorted| > 1 ==> Sum(sorted) < WORD_LIMIT
      modifies this
      ensures Valid() && ok == (Nhs(requested) <= known && (|sorted| > 1 ==> 0 < RetaSize(sorted)))
      ensures ok ==> members == sorted && (|members| > 1 ==> reta.Length == RetaSize(sorted))
      ensures !ok ==> members == old(members) && nh == old(nh) && reta == old(reta)
    {
      for i := 0 to |requested|
        invariant forall j | 0 <= j < i :: requested[j].nh in known
      {
        if requested[i].nh !in known {
          assert requested[i].nh in Nhs(requested);
          return false;
        }
      }
      DefaultedWeighted(requested, sorted);
      var one, table := None, new nat[0];
      if |sorted| == 1 {
        one := Some(sorted[0].nh);
      } else if |sorted| > 1 {
        WeightedSum(sorted);
        if RetaSize(sorted) == 0 {
          return false;
        }
        table := new nat[RetaSize(sorted)];
        Distribute(sorted, table);
      }
      members, nh, reta := sorted, one, table;
      return true;
    }

    /** remove_group_member_cb: every other member stays, and `d` is gone exactly when it is not among the last
        entries, as many as it occurs less one. */
    method Remove(d: nat)
      requires Valid()
      modifies this`members, this`nh, reta
      ensures Valid()
      ensures NoneBefore(members, |members|, d) <==> Clear(old(members), 0, d)
      ensures Survive(old(members), members, d)
    {
      var removed := DropMembers(d);
      if removed {
        if |members| == 1 {
          nh := Some(members[0].nh);
        } else if |members| > 1 {
          nh := None;
          WeightedSum(members);
          Distribute(members, reta);
        }
      }
    }

    /** The loop of remove_group_member_cb. */
    method DropMembers(d: nat) returns (removed: bool)
      requires Weighted(members)
      modifies this`members
      ensures if removed then |members| < |old(members)| else members == old(members)
      ensures NoneBefore(members, |members|, d) <==> Clear(old(members), 0, d)
      ensures Survive(old(members), members, d)
    {
      removed := false;
      var i := 0;
      while i < |members|
        invariant 0 <= i <= |members| + 1
        invariant if removed then |members| < |old(members)| else members == old(members)
        invariant WillClear(members, i, d) <==> Clear(old(members), 0, d)
        invariant Survive(old(members), members, d)
        decreases |members| - i
      {
        if members[i].nh == d {
          StepHit(members, i, d);
          SurviveDropped(old(members), members, i, d);
          members := Dropped(members, i);
          removed := true;
        } else {
          StepMiss(members, i, d);
        }
        i := i + 1;
      }
    }
  }

  lemma {:induction false} OccursAbsent(ms: seq<Member>, i: nat, d: nat)
    requires forall p | i <= p < |ms| :: ms[p].nh != d
    ensures Occurs(ms, i, d) == 0
    decreases |ms| - i
  {
    if i < |ms| {
      OccursAbsent(ms, i + 1, d);
    }
  }

  /** Distinct members: removal leaves no reference. */
  lemma {:induction false} DistinctClear(ms: seq<Member>, i: nat, d: nat)
    requires Distinct(ms)
    ensures Occurs(ms, i, d) <= 1 && Clear(ms, i, d)
    decreases |ms| - i
  {
    if i < |ms| {
      if ms[i].nh == d {
        OccursAbsent(ms, i + 1, d);
      } else {
        DistinctClear(ms, i + 1, d);
      }
    }
  }

  /** A nexthop listed twice at the end survives its removal. */
  lemma {:induction false} DuplicateSurvives(d: nat, w: nat)
    ensures !Clear([Member(d, w), Member(d, w)], 0, d)
  {
    var ms := [Member(d, w), Member(d, w)];
    assert Occurs(ms, 1, d) == 1;
    assert ms[1].nh == d;
  }

  /** `now` holds every entry of `all` except some of those for `d`. */
  predicate Survive(all: seq<Member>, now: seq<Member>, d: nat)
  {
    && Weighted(now) && Sum(now) <= Sum(all)
    && (forall m <- now :: m in all)
    && (forall m <- all :: m.nh != d ==> m in now)
  }

  lemma {:induction false} SurviveDropped(all: seq<Member>, now: seq<Member>, i: nat, d: nat)
    requires Survive(all, now, d) && i < |now| && now[i].nh == d
    ensures Survive(all, Dropped(now, i), d)
  {
    DroppedKeeps(now, i);
    SumUpdate(now, i, now[|now| - 1]);
  }

  lemma {:induction false} DroppedKeeps(ms: seq<Member>, i: nat)
    requires i < |ms|
    ensures forall m <- Dropped(ms, i) :: m in ms
    ensures forall m <- ms :: m != ms[i] ==> m in Dropped(ms, i)
  {
    var rest, last := Dropped(ms, i), |ms| - 1;
    forall m | m in ms && m != ms[i]
      ensures m in rest
    {
      var j :| 0 <= j < |ms| && ms[j] == m;
      assert rest[if j == last then i else j] == m;
    }
  }
}
