/** The lookup table of one-lane xor patterns that turns "same-length words
    differ in at most one letter" into one set-membership test. */
module PairLut {
  import opened WordCodec
  import opened Bits
  import opened DiffDetector

  /** 2^(a + b) == 2^a * 2^b. */
  lemma {:induction false} Pow2Add(a: nat, b: nat)
    ensures Pow2(a + b) == Pow2(a) * Pow2(b)
  {
    if a > 0 {
      Pow2Add(a - 1, b);
    }
  }

  /** A byte lane is eight bits: the lane multiplier 256^i is 2^(8 * i), so
      `j << (8 * i)` is j * 256^i. */
  lemma {:induction false} Pow256IsPow2(i: nat)
    ensures Pow256(i) == Pow2(8 * i)
  {
    if i > 0 {
      Pow256IsPow2(i - 1);
      Pow2Add(8 * (i - 1), 8);
      assert Pow2(8) == 256;
    }
  }

  /** j << (8 * i): the value j placed in lane i. */
  function InLane(j: int, i: nat): int {
    j * Pow256(i)
  }

  /** Every j << (8 * i) with j in 0..31 and i below top. */
  function LutEntries(top: nat): set<int> {
    set i, j | 0 <= i < top && 0 <= j < 32 :: InLane(j, i)
  }

  /** The patterns j << (8 * i) for j below `count`, in one lane i. */
  function LanePatterns(i: nat, count: nat): set<int> {
    set j | 0 <= j < count :: InLane(j, i)
  }

  lemma {:induction false} InLaneNext(j: int, i: nat)
    ensures InLane(j, i + 1) == 256 * InLane(j, i)
  {
    assert Pow256(i + 1) == 256 * Pow256(i);
  }

  /** Xor of two word codes, split at the first letter's lane. */
  lemma {:induction false} XorOfEncodeStep(a: string, b: string)
    requires IsWord(a) && IsWord(b) && a != [] && b != []
    ensures Xor(Encode(a), Encode(b))
            == Xor(LetterCode(a[0]), LetterCode(b[0])) + 256 * Xor(Encode(a[1..]), Encode(b[1..]))
    ensures 0 <= Xor(LetterCode(a[0]), LetterCode(b[0])) < 32
  {
    var ca, cb := LetterCode(a[0]), LetterCode(b[0]);
    assert 0 <= ca < 26 && 0 <= cb < 26;
    var ea, eb := Encode(a[1..]), Encode(b[1..]);
    assert ea >= 0 && eb >= 0 by {
      assert IsWord(a[1..]) && IsWord(b[1..]);
    }
    var x, y := Encode(a), Encode(b);
    assert x == ca + 256 * ea && y == cb + 256 * eb;
    XorLowLaneAt(x, y, ca, cb, ea, eb);
    LetterXorBound(ca, cb);
  }

  lemma {:induction false} XorLowLaneAt(x: int, y: int, d: nat, e: nat, z: nat, w: nat)
    requires d < 256 && e < 256 && x == d + 256 * z && y == e + 256 * w
    ensures Xor(x, y) == Xor(d, e) + 256 * Xor(z, w)
  {
    XorLowLane(d, e, z, w);
  }

  /** Two letter codes (0..25) differ only in their low five bits. */
  lemma {:induction false} LetterXorBound(ca: nat, cb: nat)
    requires ca < 26 && cb < 26
    ensures Xor(ca, cb) < 32
  {
    assert Pow2(5) == 32;
    XorBound(5, ca, cb);
  }

  /** The table construction: for every length from minLen to maxLen, every
      lane below that length and every j in 0..31, add j << (8 * lane). */
  method BuildPairLut(minLen: nat, maxLen: nat) returns (lut: set<int>)
    ensures lut == LutEntries(if minLen <= maxLen then maxLen else 0)
  {
    lut := {};
    if minLen <= maxLen {
      for length := minLen to maxLen + 1
        invariant lut == LutEntries(if minLen < length then length - 1 else 0)
      {
        ghost var before := lut;
        for i := 0 to length
          invariant lut == before + LutEntries(i)
        {
          for j := 0 to 32
            invariant lut == before + LutEntries(i) + LanePatterns(i, j)
          {
            LanePatternsStep(i, j);
            lut := lut + {InLane(j, i)};
          }
          LutEntriesStep(i);
        }
        LutEntriesMonotone(if minLen < length then length - 1 else 0, length);
      }
    }
  }

  lemma {:induction false} LanePatternsStep(i: nat, j: nat)
    ensures LanePatterns(i, j + 1) == LanePatterns(i, j) + {InLane(j, i)}
  {
  }

  lemma {:induction false} LutEntriesStep(i: nat)
    ensures LutEntries(i + 1) == LutEntries(i) + LanePatterns(i, 32)
  {
    forall x | x in LutEntries(i + 1)
      ensures x in LutEntries(i) + LanePatterns(i, 32)
    {
      var i', j :| 0 <= i' < i + 1 && 0 <= j < 32 && x == InLane(j, i');
      if i' < i {
        assert x in LutEntries(i);
      } else {
        assert x in LanePatterns(i, 32);
      }
    }
  }

  lemma {:induction false} LutEntriesMonotone(lo: nat, hi: nat)
    requires lo <= hi
    ensures LutEntries(lo) <= LutEntries(hi)
  {
  }

  /** Two same-length words differing in exactly one letter, at i, have
      codes whose xor is a value below 32 shifted into lane i. */
  lemma {:induction false} OneDiffIsLanePattern(a: string, b: string) returns (i: nat, j: nat)
    requires IsWord(a) && IsWord(b) && |a| == |b|
    requires DiffCount(a, b) == 1
    ensures i < |a| && j < 32
    ensures Xor(Encode(a), Encode(b)) == InLane(j, i)
  {
    assert IsWord(a[1..]) && IsWord(b[1..]);
    XorOfEncodeStep(a, b);
    var low, high := Xor(LetterCode(a[0]), LetterCode(b[0])), Xor(Encode(a[1..]), Encode(b[1..]));
    if a[0] != b[0] {
      DiffCountZero(a[1..], b[1..]);
      XorSelf(Encode(a[1..]));
      assert high == 0;
      i, j := 0, low;
    } else {
      XorSelf(LetterCode(a[0]));
      var i', j' := OneDiffIsLanePattern(a[1..], b[1..]);
      InLaneNext(j', i');
      i, j := i' + 1, j';
    }
  }

  /** Conversely, codes of same-length words whose xor is a value below 32
      in a single lane come from words differing in at most one letter. */
  lemma {:induction false} LanePatternHasAtMostOneDiff(a: string, b: string, i: nat, j: nat)
    requires IsWord(a) && IsWord(b) && |a| == |b|
    requires j < 32 && Xor(Encode(a), Encode(b)) == InLane(j, i)
    ensures DiffCount(a, b) <= 1
  {
    if a != [] {
      assert IsWord(a[1..]) && IsWord(b[1..]);
      XorOfEncodeStep(a, b);
      var low, high := Xor(LetterCode(a[0]), LetterCode(b[0])), Xor(Encode(a[1..]), Encode(b[1..]));
      if i == 0 {
        assert low + 256 * high == j;
        assert high == 0;
        XorZero(Encode(a[1..]), Encode(b[1..]));
        EncodeInjective(a[1..], b[1..]);
        DiffCountZero(a[1..], b[1..]);
      } else {
        var rest := InLane(j, i - 1);
        InLaneNext(j, i - 1);
        assert low + 256 * high == 0 + 256 * rest;
        SplitLowLane(low, high);
        SplitLowLane(0, rest);
        XorZero(LetterCode(a[0]), LetterCode(b[0]));
        LanePatternHasAtMostOneDiff(a[1..], b[1..], i - 1, j);
      }
    }
  }

  /** The table test is exact: for two words over A-Z of the same length,
      no longer than the table's lane count, the xor of their codes is in
      the table exactly when they differ in at most one letter.  The 0 entry
      makes equal words pass; for distinct words it is "exactly one". */
  lemma {:induction false} LutMembershipExact(a: string, b: string, top: nat)
    requires IsWord(a) && IsWord(b) && |a| == |b|
    requires 0 < top && |a| <= top
    ensures Xor(Encode(a), Encode(b)) in LutEntries(top) <==> DiffCount(a, b) <= 1
    ensures a != b ==> (Xor(Encode(a), Encode(b)) in LutEntries(top) <==> DiffCount(a, b) == 1)
  {
    var x := Xor(Encode(a), Encode(b));
    if x in LutEntries(top) {
      var i, j :| 0 <= i < top && 0 <= j < 32 && x == InLane(j, i);
      LanePatternHasAtMostOneDiff(a, b, i, j);
    }
    DiffCountZero(a, b);
    if DiffCount(a, b) == 0 {
      XorSelf(Encode(a));
      assert x == InLane(0, 0);
    } else if DiffCount(a, b) == 1 {
      var i, j := OneDiffIsLanePattern(a, b);
      assert x == InLane(j, i);
    }
  }
}
