/** The two-level bitmap id allocator, run by one thread at a time (main/id_pool.h). */
module IdPool {
  import opened Words

  datatype Status = Ok | OutOfRange | InUse | AlreadyFree

  const U16: nat := 0x1_0000

  /** Number of level1 words, in the 16-bit arithmetic of id_pool_create. */
  function Level1Len(range: nat): nat
  {
    (range / 64 + (if range % 64 != 0 then 1 else 0)) % U16
  }

  /** The range check of id_pool_create. */
  predicate Accepted(minId: nat, maxId: nat)
  {
    0 < minId <= maxId && (maxId - minId + 1) / 64 < U16
  }

  /** id_pool_create accepts some ranges whose word count wraps to zero, and only those do not fit. */
  lemma {:induction false} LayoutFits(minId: nat, maxId: nat)
    requires Accepted(minId, maxId)
    ensures var range := maxId - minId + 1;
            range <= Level1Len(range) * 64 <==> (range % 64 == 0 || range / 64 < U16 - 1)
  {
  }

  /** 65535 full words and one id more: the pool is created without a single word. */
  lemma {:induction false} LayoutWraps()
    ensures Accepted(1, 4194241) && Level1Len(4194241) == 0
  {
  }

  /** The id whose bit id_pool_book and id_pool_put touch: the offset is a uint16_t. */
  function Target(minId: nat, id: nat): (t: nat)
    requires minId <= id
    ensures minId <= t <= id
  {
    minId + (id - minId) % U16
  }

  /** Booking and releasing address the id they are given, for all ids, exactly in pools of at most 65536 ids. */
  lemma {:induction false} TargetExact(minId: nat, maxId: nat)
    requires minId <= maxId
    ensures (forall id | minId <= id <= maxId :: Target(minId, id) == id) <==> maxId - minId < U16
  {
    if maxId - minId >= U16 {
      assert Target(minId, minId + U16) == minId;
    }
  }

  /** Booking id 65537 of a pool that starts at 1 reserves id 1. */
  lemma {:induction false} TwoIdsOneTarget()
    ensures Accepted(1, 65537) && Target(1, 65537) == 1 == Target(1, 1)
  {
  }

  /** The summary bit of word `w` is one exactly when the word has a free id. */
  ghost predicate SummaryAt(l0: seq<Word>, l1: seq<Word>, w: nat)
    requires w < |l1|
  {
    HasBit(l0, w) <==> l1[w] != {}
  }

  /** Two levels that agree with each other, with every padding bit reserved. */
  ghost predicate Consistent(range: nat, l0: seq<Word>, l1: seq<Word>)
  {
    && |l1| == WordCount(range) && |l0| == WordCount(|l1|)
    && (forall k: nat | HasBit(l1, k) :: k < range)
    && (forall w: nat | HasBit(l0, w) :: w < |l1|)
    && (forall w | 0 <= w < |l1| :: SummaryAt(l0, l1, w))
  }

  predicate IdFree(minId: nat, l1: seq<Word>, id: nat)
    requires minId <= id
  {
    HasBit(l1, id - minId)
  }

  ghost function FreeIds(minId: nat, range: nat, l1: seq<Word>): set<nat>
  {
    set id: nat | minId <= id < minId + range && IdFree(minId, l1, id)
  }

  ghost function ReservedIds(minId: nat, range: nat, l1: seq<Word>): set<nat>
  {
    set id: nat | minId <= id < minId + range && !IdFree(minId, l1, id)
  }

  /** The summary after one word changed. */
  function Resummarised(l0: seq<Word>, l1: seq<Word>, w: nat): seq<Word>
    requires w < |l1| && w / 64 < |l0|
  {
    if l1[w] == {} then ClearBit(l0, w / 64, w % 64) else SetBit(l0, w / 64, w % 64)
  }

  lemma {:induction false} Resummarise(range: nat, l0: seq<Word>, l1: seq<Word>, w: nat, l1': seq<Word>)
    requires Consistent(range, l0, l1) && w < |l1| == |l1'|
    requires forall v | 0 <= v < |l1| && v != w :: l1'[v] == l1[v]
    requires forall k: nat | HasBit(l1', k) :: k < range
    ensures Consistent(range, Resummarised(l0, l1', w), l1')
  {
    var l0' := Resummarised(l0, l1', w);
    BitIndex(w / 64, w % 64, w);
    forall v: nat
      ensures HasBit(l0', v) <==> if v == w then l1'[w] != {} else HasBit(l0, v)
    {
      ClearBitHas(l0, w / 64, w % 64, v);
      SetBitHas(l0, w / 64, w % 64, v);
    }
    forall v | 0 <= v < |l1'|
      ensures SummaryAt(l0', l1', v)
    {
      assert SummaryAt(l0, l1, v);
    }
  }

  lemma {:induction false} Reserving(minId: nat, range: nat, l0: seq<Word>, l1: seq<Word>, w: nat, b: nat)
    requires Consistent(range, l0, l1) && w < |l1| && b in l1[w]
    ensures var l1' := ClearBit(l1, w, b);
            var id := minId + w * 64 + b;
            && Consistent(range, Resummarised(l0, l1', w), l1')
            && id in FreeIds(minId, range, l1)
            && FreeIds(minId, range, l1') == FreeIds(minId, range, l1) - {id}
            && ReservedIds(minId, range, l1') == ReservedIds(minId, range, l1) + {id}
  {
    var l1' := ClearBit(l1, w, b);
    BitIndex(w, b, w * 64 + b);
    forall k: nat
      ensures HasBit(l1', k) <==> HasBit(l1, k) && k != w * 64 + b
    {
      ClearBitHas(l1, w, b, k);
    }
    assert IdFree(minId, l1, minId + w * 64 + b);
    Resummarise(range, l0, l1, w, l1');
  }

  lemma {:induction false} Releasing(minId: nat, range: nat, l0: seq<Word>, l1: seq<Word>, w: nat, b: nat)
    requires Consistent(range, l0, l1) && w < |l1| && b < 64 && b !in l1[w] && w * 64 + b < range
    ensures var l1' := SetBit(l1, w, b);
            var id := minId + w * 64 + b;
            && Consistent(range, Resummarised(l0, l1', w), l1')
            && id in ReservedIds(minId, range, l1)
            && FreeIds(minId, range, l1') == FreeIds(minId, range, l1) + {id}
            && ReservedIds(minId, range, l1') == ReservedIds(minId, range, l1) - {id}
  {
    var l1' := SetBit(l1, w, b);
    BitIndex(w, b, w * 64 + b);
    forall k: nat
      ensures HasBit(l1', k) <==> HasBit(l1, k) || k == w * 64 + b
    {
      SetBitHas(l1, w, b, k);
    }
    Resummarise(range, l0, l1, w, l1');
  }

  lemma {:induction false} Summarised(range: nat, l0: seq<Word>, l1: seq<Word>, s: nat, b: nat)
    requires Consistent(range, l0, l1) && s < |l0| && b in l0[s]
    ensures s * 64 + b < |l1| && l1[s * 64 + b] != {}
  {
    var w := s * 64 + b;
    BitIndex(s, b, w);
    assert HasBit(l0, w);
    assert SummaryAt(l0, l1, w);
  }

  /** The lowest one of the lowest non-empty word under the lowest non-empty summary word is the smallest free id. */
  lemma {:induction false} FirstFree(minId: nat, range: nat, l0: seq<Word>, l1: seq<Word>, s: nat)
    requires Consistent(range, l0, l1)
    requires s < |l0| && l0[s] != {} && forall t | 0 <= t < s :: l0[t] == {}
    ensures var w := s * 64 + Ctz(l0[s]);
            && w < |l1| && l1[w] != {}
            && forall f <- FreeIds(minId, range, l1) :: minId + w * 64 + Ctz(l1[w]) <= f
  {
    var w := s * 64 + Ctz(l0[s]);
    Summarised(range, l0, l1, s, Ctz(l0[s]));
    forall f <- FreeIds(minId, range, l1)
      ensures minId + w * 64 + Ctz(l1[w]) <= f
    {
      assert SummaryAt(l0, l1, (f - minId) / 64);
    }
  }

  lemma {:induction false} NoneFree(minId: nat, range: nat, l0: seq<Word>, l1: seq<Word>)
    requires Consistent(range, l0, l1) && forall t | 0 <= t < |l0| :: l0[t] == {}
    ensures FreeIds(minId, range, l1) == {}
  {
    forall id: nat | minId <= id < minId + range
      ensures !IdFree(minId, l1, id)
    {
      assert SummaryAt(l0, l1, (id - minId) / 64);
    }
  }

  /** The word count of a bitmap, in 16 bits, and the bits used in its last word, as id_pool_create computes them. */
  method BitmapSize(bits: nat) returns (len: nat, tail: nat)
    requires bits / 64 < U16
    ensures len == WordCount(bits) % U16 && tail == bits % 64
    ensures len == WordCount(bits) <==> bits % 64 == 0 || bits / 64 < U16 - 1
  {
    len, tail := bits / 64, bits % 64;
    if tail != 0 {
      len := (len + 1) % U16;
    }
  }

  /** The bitmap set-up of id_pool_create: every bit one, then the padding of the last word cleared. */
  method AllOnes(len: nat, ghost bits: nat, tail: nat) returns (a: array<Word>)
    requires 0 < bits && len == WordCount(bits) && tail == bits % 64
    ensures fresh(a) && a.Length == len
    ensures forall w :: 0 <= w < len ==> a[w] == OnesWord(bits, w)
  {
    a := new Word[len];
    for w := 0 to len
      invariant forall v :: 0 <= v < w ==> a[v] == LowOnes(64)
    {
      a[w] := LowOnes(64);
    }
    if tail != 0 {
      a[len - 1] := LowOnes(tail);
    }
    forall w | 0 <= w < len
      ensures a[w] == OnesWord(bits, w)
    {
      WordOfOnes(bits, w);
    }
  }

  lemma {:induction false} WordOfOnes(bits: nat, w: nat)
    requires w < WordCount(bits)
    ensures w * 64 <= bits
    ensures var tail := bits % 64;
            OnesWord(bits, w) == LowOnes(if w == WordCount(bits) - 1 && tail != 0 then tail else 64)
  {
    var q, r := bits / 64, bits % 64;
    assert bits == q * 64 + r;
    assert WordCount(bits) == if r == 0 then q else q + 1;
  }

  lemma {:induction false} AllFree(minId: nat, range: nat, l0: seq<Word>, l1: seq<Word>)
    requires |l1| == WordCount(range) && forall w | 0 <= w < |l1| :: l1[w] == OnesWord(range, w)
    requires |l0| == WordCount(|l1|) && forall w | 0 <= w < |l0| :: l0[w] == OnesWord(|l1|, w)
    ensures Consistent(range, l0, l1)
    ensures ReservedIds(minId, range, l1) == {}
    ensures forall id | minId <= id < minId + range :: id in FreeIds(minId, range, l1)
  {
  }

  class Pool {
    const minId: nat
    const maxId: nat
    var used: nat
    const level0: array<Word>
    const level1: array<Word>

    function Range(): nat
      requires minId <= maxId
    {
      maxId - minId + 1
    }

    ghost predicate Valid()
      reads this, level0, level1
    {
      && 0 < minId <= maxId
      && level0 != level1
      && Consistent(Range(), level0[..], level1[..])
      && used == |ReservedIds(minId, Range(), level1[..])|
    }

    ghost function Free(): set<nat>
      requires minId <= maxId
      reads level1
    {
      FreeIds(minId, Range(), level1[..])
    }

    /** id_pool_create, for ranges that pass its check and whose word count does not wrap. */
    constructor (minId: nat, maxId: nat)
      requires Accepted(minId, maxId)
      requires (maxId - minId + 1) % 64 == 0 || (maxId - minId + 1) / 64 < U16 - 1
      ensures Valid() && fresh(level0) && fresh(level1)
      ensures this.minId == minId && this.maxId == maxId && used == 0
      ensures forall id | minId <= id <= maxId :: id in Free()
    {
      var range := maxId - minId + 1;
      var len1, tail1 := BitmapSize(range);
      var len0, tail0 := BitmapSize(len1);
      this.minId, this.maxId, this.used := minId, maxId, 0;
      var l0 := AllOnes(len0, len1, tail0);
      var l1 := AllOnes(len1, range, tail1);
      this.level0, this.level1 := l0, l1;
      new;
      AllFree(minId, range, l0[..], l1[..]);
    }

    /** Clears the level1 bit, then the summary bit if the word became full, and counts the id:
        the tail shared by id_pool_get, id_pool_get_random and id_pool_book. */
    method Reserve(l1: nat, bit1: nat)
      requires Valid() && l1 < level1.Length && bit1 in level1[l1]
      modifies this`used, level0, level1
      ensures Valid() && used == old(used) + 1
      ensures Free() == old(Free()) - {minId + l1 * 64 + bit1}
      ensures minId + l1 * 64 + bit1 in old(Free())
    {
      Reserving(minId, Range(), level0[..], level1[..], l1, bit1);
      assert SummaryAt(level0[..], level1[..], l1);
      level1[l1] := level1[l1] - {bit1};
      assert level1[..] == ClearBit(old(level1[..]), l1, bit1);
      if level1[l1] == {} {
        var l0, bit0 := l1 / 64, l1 % 64;
        level0[l0] := level0[l0] - {bit0};
      }
      assert old(level0[l1 / 64]) + {l1 % 64} == old(level0[l1 / 64]);
      assert level0[..] == Resummarised(old(level0[..]), level1[..], l1);
      used := used + 1;
    }

    /** Sets the level1 bit and the summary bit and discounts the id: the tail of id_pool_put. */
    method Release(l1: nat, bit1: nat)
      requires Valid() && l1 < level1.Length && bit1 < 64 && bit1 !in level1[l1]
      requires l1 * 64 + bit1 < Range()
      modifies this`used, level0, level1
      ensures Valid() && used == old(used) - 1
      ensures Free() == old(Free()) + {minId + l1 * 64 + bit1}
      ensures minId + l1 * 64 + bit1 !in old(Free())
    {
      Releasing(minId, Range(), level0[..], level1[..], l1, bit1);
      level1[l1] := level1[l1] + {bit1};
      assert level1[..] == SetBit(old(level1[..]), l1, bit1);
      var l0, bit0 := l1 / 64, l1 % 64;
      level0[l0] := level0[l0] + {bit0};
      assert level0[..] == Resummarised(old(level0[..]), level1[..], l1);
      used := used - 1;
    }

    /** id_pool_get: the smallest free id, or 0 if there is none. */
    method Get() returns (id: nat)
      requires Valid()
      modifies this`used, level0, level1
      ensures Valid()
      ensures id == 0 <==> old(Free()) == {}
      ensures id != 0 ==> id in old(Free()) && forall f <- old(Free()) :: id <= f
      ensures Free() == old(Free()) - {id}
      ensures used == old(used) + (if id == 0 then 0 else 1)
    {
      for l0 := 0 to level0.Length
        invariant Valid() && Free() == old(Free()) && used == old(used)
        invariant forall l :: 0 <= l < l0 ==> level0[l] == {}
      {
        if level0[l0] != {} {
          FirstFree(minId, Range(), level0[..], level1[..], l0);
          var l1 := l0 * 64 + Ctz(level0[l0]);
          // One thread alone never finds a full word here, so the retries of the source are not taken.
          var bit1 := Ctz(level1[l1]);
          id := minId + l1 * 64 + bit1;
          Reserve(l1, bit1);
          return;
        }
      }
      NoneFree(minId, Range(), level0[..], level1[..]);
      id := 0;
    }

    /** id_pool_get_random, with the value of rte_rand as a parameter. */
    method GetRandom(random: nat) returns (id: nat)
      requires Valid()
      modifies this`used, level0, level1
      ensures Valid()
      ensures id == 0 <==> old(Free()) == {}
      ensures id != 0 ==> id in old(Free())
      ensures Free() == old(Free()) - {id}
      ensures used == old(used) + (if id == 0 then 0 else 1)
    {
      var pick := (random / 0x1_0000_0000) % 64;
      var l0 := ScanBack(random % level0.Length);
      if l0 == level0.Length {
        NoneFree(minId, Range(), level0[..], level1[..]);
        return 0;
      }
      var bit0 := if pick in level0[l0] then pick else Ctz(level0[l0]);
      var l1 := l0 * 64 + bit0;
      Summarised(Range(), level0[..], level1[..], l0, bit0);
      var bit1 := if pick in level1[l1] then pick else Ctz(level1[l1]);
      id := minId + l1 * 64 + bit1;
      Reserve(l1, bit1);
    }

    /** The loop of id_pool_get_random: a slab that is not full, going backwards from `start`, or the length. */
    method ScanBack(start: nat) returns (l0: nat)
      requires start < level0.Length
      ensures l0 <= level0.Length && (l0 < level0.Length ==> level0[l0] != {})
      ensures l0 == level0.Length ==> forall l :: 0 <= l < level0.Length ==> level0[l] == {}
    {
      var n := level0.Length;
      l0 := start;
      for i := 0 to n
        invariant i < n ==> l0 == (if i <= start then start - i else start + n - i)
        invariant forall l :: 0 <= l < n && (if l <= start then start - l else start + n - l) < i ==> level0[l] == {}
      {
        if level0[l0] != {} {
          return;
        }
        l0 := if l0 > 0 then l0 - 1 else n - 1;
      }
      l0 := n;
    }

    /** id_pool_book. */
    method Book(id: nat) returns (status: Status)
      requires Valid()
      modifies this`used, level0, level1
      ensures Valid()
      ensures status == OutOfRange <==> id < minId || maxId < id
      ensures status == Ok <==> minId <= id <= maxId && Target(minId, id) in old(Free())
      ensures status in {Ok, OutOfRange, InUse}
      ensures Free() == if status == Ok then old(Free()) - {Target(minId, id)} else old(Free())
      ensures used == old(used) + (if status == Ok then 1 else 0)
    {
      if id < minId || maxId < id {
        return OutOfRange;
      }
      var offset := (id - minId) % U16;
      var l1, bit1 := offset / 64, offset % 64;
      if bit1 !in level1[l1] {
        return InUse;
      }
      Reserve(l1, bit1);
      status := Ok;
    }

    /** id_pool_put. */
    method Put(id: nat) returns (status: Status)
      requires Valid()
      modifies this`used, level0, level1
      ensures Valid()
      ensures status == OutOfRange <==> id < minId || maxId < id
      ensures status == Ok <==> minId <= id <= maxId && Target(minId, id) !in old(Free())
      ensures status in {Ok, OutOfRange, AlreadyFree}
      ensures Free() == if status == Ok then old(Free()) + {Target(minId, id)} else old(Free())
      ensures used == old(used) - (if status == Ok then 1 else 0)
    {
      if id < minId || maxId < id {
        return OutOfRange;
      }
      var offset := (id - minId) % U16;
      var l1, bit1 := offset / 64, offset % 64;
      if bit1 in level1[l1] {
        return AlreadyFree;
      }
      Release(l1, bit1);
      status := Ok;
    }
  }
}
