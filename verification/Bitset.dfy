/** The free-pair allocator of one query chunk: eight 64-bit words and a search hint.
    Bit i set means that the query pair {2i, 2i+1} is free. */
module FreeBitset {
  import opened Wrappers
  import opened Word64

  const CHUNK_SIZE: nat := 512
  const PAIRS: nat := 256   // CHUNK_SIZE / 2
  const BITSET_WORDS: nat := 8   // CHUNK_SIZE / 64, rounded up

  predicate IsPair(p: nat) { p < PAIRS }

  /** Every pair of a chunk. */
  ghost const ALL_PAIRS: set<nat> := set p: nat | p < PAIRS && IsPair(p)

  /** What an allocator over a set of free pairs must return. */
  ghost predicate IsLowest(free: set<nat>, p: nat) {
    p in free && forall q :: q in free ==> p <= q
  }

  /** The set of free pairs that an array of words stands for. */
  ghost function FreeOf(ws: seq<nat>): (s: set<nat>) {
    set p | 0 <= p < 64 * |ws| && Bit(ws[p / 64], p % 64)
  }

  ghost predicate WordsFit(ws: seq<nat>) {
    |ws| == BITSET_WORDS && forall i :: 0 <= i < |ws| ==> ws[i] < WORD_SIZE
  }

  /** The array after freeing, respectively taking, pair p. */
  ghost function WithPair(ws: seq<nat>, p: nat): seq<nat>
    requires p / 64 < |ws|
  {
    ws[p / 64 := Or(ws[p / 64], Pow2(p % 64))]
  }

  ghost function WithoutPair(ws: seq<nat>, p: nat): seq<nat>
    requires p / 64 < |ws|
  {
    ws[p / 64 := AndNot(ws[p / 64], Pow2(p % 64))]
  }

  class Bitset {
    const words: array<nat>
    var hint: nat

    ghost function Free(): (s: set<nat>)
      reads this, words
    {
      FreeOf(words[..])
    }

    /** Words below the hint are empty, and so are the words past the 256 pairs. */
    ghost predicate Valid()
      reads this, words
    {
      && WordsFit(words[..])
      && hint < BITSET_WORDS
      && (forall i :: 0 <= i < hint ==> words[i] == 0)
      && (forall p :: p in Free() ==> p < PAIRS)
    }

    constructor Full()
      ensures Valid() && fresh(words)
      ensures Free() == ALL_PAIRS
    {
      words := new nat[BITSET_WORDS](_ => 0);
      hint := 0;
      new;
      var i := 0;
      NoWordNoPair(words[..]);
      while i < PAIRS
        invariant 0 <= i <= PAIRS
        invariant hint == 0 && fresh(words)
        invariant WordsFit(words[..])
        invariant forall p :: p in Free() <==> 0 <= p < i
      {
        ghost var before := words[..];
        SetPair(before, i);
        words[i / 64] := Or(words[i / 64], Pow2(i % 64));
        assert words[..] == WithPair(before, i);
        i := i + 1;
      }
      assert forall p :: p in Free() <==> p in ALL_PAIRS;
    }

    /** any_free */
    method AnyFree() returns (b: bool)
      requires Valid()
      ensures b <==> Free() != {}
    {
      var i := 0;
      while i < words.Length
        invariant 0 <= i <= words.Length
        invariant forall k :: 0 <= k < i ==> words[k] == 0
      {
        if words[i] != 0 {
          LowestInWords(words[..], i);
          return true;
        }
        i := i + 1;
      }
      NoWordNoPair(words[..]);
      return false;
    }

    /** acquire_pair: the wrap-around search from the hint finds the lowest free pair. */
    method AcquirePair() returns (r: Option<nat>)
      requires Valid()
      modifies this`hint, words
      ensures Valid()
      ensures r.None? <==> old(Free()) == {}
      ensures r.None? ==> Free() == old(Free())
      ensures r.Some? ==> r.value % 2 == 0 && IsLowest(old(Free()), r.value / 2)
      ensures r.Some? ==> Free() == old(Free()) - {r.value / 2}
    {
      var found := FirstNonZero();
      if found.Some? { r := TakeFrom(found.value); } else { r := None; }
    }

    /** The loop of acquire_pair: from the hint, around the end, to the first non-zero word. */
    method FirstNonZero() returns (r: Option<nat>)
      requires Valid()
      ensures r.None? ==> Free() == {}
      ensures r.Some? ==> r.value < BITSET_WORDS && words[r.value] != 0
      ensures r.Some? ==> forall k :: 0 <= k < r.value ==> words[k] == 0
    {
      var start := if hint < words.Length - 1 then hint else words.Length - 1;
      var offset := 0;
      while offset < BITSET_WORDS
        invariant 0 <= offset <= BITSET_WORDS
        invariant forall k :: 0 <= k < BITSET_WORDS && k < start + offset ==> words[k] == 0
      {
        var idx := WrapAround(start, offset);
        if words[idx] != 0 { return Some(idx); }
        offset := offset + 1;
      }
      NoWordNoPair(words[..]);
      return None;
    }

    /** acquire_pair's update of the first non-zero word. */
    method TakeFrom(idx: nat) returns (r: Option<nat>)
      requires Valid()
      requires idx < BITSET_WORDS && words[idx] != 0
      requires forall k :: 0 <= k < idx ==> words[k] == 0
      modifies this`hint, words
      ensures Valid()
      ensures r.Some? && r.value % 2 == 0 && IsLowest(old(Free()), r.value / 2)
      ensures Free() == old(Free()) - {r.value / 2}
    {
      var bit := TrailingZeros(words[idx]);
      ghost var before := words[..];
      LowestInWords(before, idx);
      ClearPair(before, idx * 64 + bit);
      words[idx] := AndNot(words[idx], Pow2(bit));
      hint := idx;
      assert words[..] == WithoutPair(before, idx * 64 + bit);
      assert Free() == old(Free()) - {idx * 64 + bit};
      return Some((idx * 64 + bit) * 2);
    }

    /** release_pair */
    method ReleasePair(queryIndex: nat)
      requires Valid()
      requires queryIndex < CHUNK_SIZE
      modifies this`hint, words
      ensures Valid()
      ensures Free() == old(Free()) + {queryIndex / 2}
    {
      var pair := queryIndex / 2;
      SetPair(words[..], pair);
      words[pair / 64] := Or(words[pair / 64], Pow2(pair % 64));
      assert words[..] == WithPair(old(words[..]), pair);
      assert Free() == old(Free()) + {pair};
      hint := if pair / 64 < hint then pair / 64 else hint;
    }
  }

  /** (start + offset) mod the number of words. */
  function WrapAround(start: nat, offset: nat): (idx: nat)
    requires start < BITSET_WORDS && offset < BITSET_WORDS
    ensures idx == if start + offset < BITSET_WORDS then start + offset else start + offset - BITSET_WORDS
  {
    (start + offset) % BITSET_WORDS
  }

  lemma NoWordNoPair(ws: seq<nat>)
    requires forall k :: 0 <= k < |ws| ==> ws[k] == 0
    ensures FreeOf(ws) == {}
  {
    forall p | 0 <= p < 64 * |ws| ensures p !in FreeOf(ws) { ZeroHasNoBit(p % 64); }
  }

  /** words[p / 64] |= 1 << (p % 64) frees pair p and touches no other pair. */
  lemma SetPair(ws: seq<nat>, p: nat)
    requires WordsFit(ws) && p < 64 * BITSET_WORDS
    ensures WordsFit(WithPair(ws, p)) && FreeOf(WithPair(ws, p)) == FreeOf(ws) + {p}
  {
    var i, bit := p / 64, p % 64;
    SetBit(ws[i], bit);
    var after := FreeOf(WithPair(ws, p));
    assert forall q :: q in after <==> q in FreeOf(ws) + {p};
  }

  /** words[p / 64] &= !(1 << (p % 64)) takes pair p and touches no other pair. */
  lemma ClearPair(ws: seq<nat>, p: nat)
    requires WordsFit(ws) && p < 64 * BITSET_WORDS
    ensures WordsFit(WithoutPair(ws, p)) && FreeOf(WithoutPair(ws, p)) == FreeOf(ws) - {p}
  {
    var i, bit := p / 64, p % 64;
    ClearBit(ws[i], bit);
    var after := FreeOf(WithoutPair(ws, p));
    assert forall q :: q in after <==> q in FreeOf(ws) - {p};
  }

  /** The least set bit of the first non-zero word is the lowest free pair. */
  lemma LowestInWords(ws: seq<nat>, idx: nat)
    requires WordsFit(ws) && idx < |ws| && ws[idx] != 0
    requires forall k :: 0 <= k < idx ==> ws[k] == 0
    ensures TrailingZeros(ws[idx]) < 64
    ensures IsLowest(FreeOf(ws), idx * 64 + TrailingZeros(ws[idx]))
  {
    LeastBit(ws[idx]);
    var bit := TrailingZeros(ws[idx]);
    var p := idx * 64 + bit;
    assert p / 64 == idx && p % 64 == bit;
    forall q | q in FreeOf(ws) ensures p <= q { ZeroHasNoBit(q % 64); }
  }
}
