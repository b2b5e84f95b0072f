/** 64-bit machine words, as the id allocator uses them.

    A word is represented by the set of positions of its one bits: clearing and setting one bit,
    testing for zero and counting trailing zeros are removal, insertion, emptiness and minimum. */
module Words {

  type Word = w: set<nat> | forall b <- w :: b < 64

  /** `UINT64_MAX >> (64 - n)`, for `0 < n <= 64`. */
  function LowOnes(n: nat): (w: Word)
    requires n <= 64
    ensures forall b: nat :: b in w <==> b < n
  {
    if n == 0 then {} else LowOnes(n - 1) + {n - 1}
  }

  /** Word `w` of a bitmap whose first `n` bits are one and whose padding bits are zero. */
  function OnesWord(n: nat, w: nat): Word
    requires w * 64 <= n
  {
    LowOnes(if n - w * 64 < 64 then n - w * 64 else 64)
  }

  /** `rte_ctz64`: the position of the lowest one bit. */
  function Ctz(w: Word): (b: nat)
    requires w != {}
    ensures b in w && forall c <- w :: b <= c
  {
    CtzFrom(w, 0)
  }

  function CtzFrom(w: Word, from: nat): (b: nat)
    requires w != {} && forall c <- w :: from <= c
    ensures b in w && forall c <- w :: b <= c
    decreases 64 - from
  {
    if from in w then from else CtzFrom(w, from + 1)
  }

  /** Number of words needed for `n` bits. */
  function WordCount(n: nat): nat
  {
    (n + 64 - 1) / 64
  }

  /** Bit `k` of a bitmap is one. */
  predicate HasBit(ws: seq<Word>, k: nat)
  {
    k / 64 < |ws| && k % 64 in ws[k / 64]
  }

  function ClearBit(ws: seq<Word>, w: nat, b: nat): seq<Word>
    requires w < |ws|
  {
    ws[w := ws[w] - {b}]
  }

  function SetBit(ws: seq<Word>, w: nat, b: nat): seq<Word>
    requires w < |ws| && b < 64
  {
    ws[w := ws[w] + {b}]
  }

  lemma {:induction false} BitIndex(w: nat, b: nat, k: nat)
    requires b < 64
    ensures k == w * 64 + b <==> k / 64 == w && k % 64 == b
  {
  }

  lemma {:induction false} ClearBitHas(ws: seq<Word>, w: nat, b: nat, k: nat)
    requires w < |ws| && b < 64
    ensures HasBit(ClearBit(ws, w, b), k) <==> HasBit(ws, k) && k != w * 64 + b
  {
  }

  lemma {:induction false} SetBitHas(ws: seq<Word>, w: nat, b: nat, k: nat)
    requires w < |ws| && b < 64
    ensures HasBit(SetBit(ws, w, b), k) <==> HasBit(ws, k) || k == w * 64 + b
  {
  }

  /** The positions of the one bits of a bitmap. */
  ghost function Ones(ws: seq<Word>): set<nat>
  {
    set k: nat | k < |ws| * 64 && HasBit(ws, k)
  }

  lemma {:induction false} OnesAt(ws: seq<Word>, w: nat, b: nat)
    requires w < |ws| && b < 64
    ensures b in ws[w] <==> w * 64 + b in Ones(ws)
  {
  }

  lemma {:induction false} ClearedOnes(ws: seq<Word>, w: nat, b: nat)
    requires w < |ws| && b < 64
    ensures Ones(ClearBit(ws, w, b)) == Ones(ws) - {w * 64 + b}
  {
  }

  lemma {:induction false} SettedOnes(ws: seq<Word>, w: nat, b: nat)
    requires w < |ws| && b < 64
    ensures Ones(SetBit(ws, w, b)) == Ones(ws) + {w * 64 + b}
  {
  }
}
