/** Single bits of 64-bit words, as the knapsack's packed decision rows use them. */
module Bits {

  function Mask(k: bv6): bv64 {
    (1 as bv64) << k
  }

  predicate HasBit(word: bv64, k: bv6) {
    word & Mask(k) != 0
  }

  lemma MasksApart(word: bv64, k: bv6, j: bv6)
    ensures (word | Mask(k)) & Mask(j) != 0 <==> j == k || word & Mask(j) != 0
  {
  }

  /** Setting one bit of a word leaves its other bits alone. */
  lemma SetOneBit(word: bv64, k: bv6, j: bv6)
    ensures HasBit(word | Mask(k), j) <==> j == k || HasBit(word, j)
  {
    MasksApart(word, k, j);
  }

  lemma ZeroHasNoBit(j: bv6)
    ensures !HasBit(0, j)
  {
  }

  // ----- Capacities and their bits

  /** The low six bits of `w`: the bit of its word that stands for capacity `w`. */
  function BitNo(w: nat): bv6 {
    if w == 0 then 0 else BitNo(w - 1) + 1
  }

  lemma NextBit(k: bv6)
    ensures (k + 1) as nat == if k as nat == 63 then 0 else k as nat + 1
  {
  }

  lemma NextRemainder(w: nat)
    ensures (w + 1) % 64 == if w % 64 == 63 then 0 else w % 64 + 1
  {
  }

  lemma {:induction false} BitNoIsRemainder(w: nat)
    ensures BitNo(w) as nat == w % 64
  {
    if w > 0 {
      BitNoIsRemainder(w - 1);
      var k := BitNo(w - 1);
      NextBit(k);
      NextRemainder(w - 1);
      assert BitNo(w) == k + 1;
    }
  }

  /** Different capacities of one word have different bits. */
  lemma BitsDiffer(v: nat, w: nat)
    requires v / 64 == w / 64
    ensures BitNo(v) == BitNo(w) <==> v == w
  {
    BitNoIsRemainder(v);
    BitNoIsRemainder(w);
  }

  // ----- Rows of words

  /** The number of words that hold bits 0..budget. */
  function Words(budget: nat): (words: nat)
    ensures forall w | 0 <= w <= budget :: w / 64 < words
  {
    (budget + 64) / 64
  }

  predicate BitOf(row: seq<bv64>, w: nat)
    requires w / 64 < |row|
  {
    HasBit(row[w / 64], BitNo(w))
  }

  function SetBit(row: seq<bv64>, w: nat): seq<bv64>
    requires w / 64 < |row|
  {
    row[w / 64 := row[w / 64] | Mask(BitNo(w))]
  }

  lemma WordAfterSet(row: seq<bv64>, i: nat, before: bv64, after: bv64, k: bv6, j: bv6)
    requires i < |row| && row[i] == before && after == before | Mask(k)
    ensures HasBit(row[i := after][i], j) <==> j == k || HasBit(before, j)
  {
    SetOneBit(before, k, j);
  }

  lemma RowAfterSet(row: seq<bv64>, i: nat, k: bv6, j: bv6)
    requires i < |row|
    ensures HasBit(row[i := row[i] | Mask(k)][i], j) <==> j == k || HasBit(row[i], j)
  {
    WordAfterSet(row, i, row[i], row[i] | Mask(k), k, j);
  }

  lemma SetBitSameWord(row: seq<bv64>, w: nat, v: nat)
    requires v / 64 == w / 64 < |row|
    requires BitNo(v) == BitNo(w) <==> v == w
    ensures BitOf(SetBit(row, w), v) <==> v == w || BitOf(row, v)
  {
    RowAfterSet(row, w / 64, BitNo(w), BitNo(v));
  }

  lemma SetBitSets(row: seq<bv64>, w: nat, v: nat)
    requires w / 64 < |row| && v / 64 < |row|
    ensures BitOf(SetBit(row, w), v) <==> v == w || BitOf(row, v)
  {
    if v / 64 == w / 64 {
      BitsDiffer(v, w);
      SetBitSameWord(row, w, v);
    } else {
      assert SetBit(row, w)[v / 64] == row[v / 64];
    }
  }

  /** A row without any bit set. */
  function BlankRow(words: nat): (row: seq<bv64>)
    ensures |row| == words
  {
    seq(words, _ => 0)
  }

  lemma BlankRowHasNoBit(words: nat, w: nat)
    requires w / 64 < words
    ensures !BitOf(BlankRow(words), w)
  {
    ZeroHasNoBit(BitNo(w));
  }
}
