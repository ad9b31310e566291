/** The one-edit tests: a letter changed (on strings and on packed codes), or
    a letter added or removed. */
module DiffDetector {
  import opened WordCodec

  /** Number of positions i < |a| where a and b disagree (b may be longer;
      only its first |a| characters are looked at). */
  function DiffCount(a: string, b: string): (n: nat)
    requires |a| <= |b|
    ensures n <= |a|
  {
    if a == [] then 0 else (if a[0] != b[0] then 1 else 0) + DiffCount(a[1..], b[1..])
  }

  /** a and b differ at position i and nowhere else. */
  predicate DiffersOnlyAt(a: string, b: string, i: int)
    requires |a| == |b|
  {
    0 <= i < |a| && a[i] != b[i] && forall k :: 0 <= k < |a| && k != i ==> a[k] == b[k]
  }

  /** are_pair: counts differing positions, giving up at the second one. */
  method ArePair(w1: string, w2: string) returns (r: bool)
    requires |w1| <= |w2|
    ensures r <==> DiffCount(w1, w2) == 1
  {
    var numDiffs := 0;
    for i := 0 to |w1|
      invariant numDiffs + DiffCount(w1[i..], w2[i..]) == DiffCount(w1, w2)
    {
      assert w1[i..][1..] == w1[i + 1..] && w2[i..][1..] == w2[i + 1..];
      if w1[i] != w2[i] {
        numDiffs := numDiffs + 1;
        if numDiffs >= 2 {
          return false;
        }
      }
    }
    return numDiffs == 1;
  }

  /** Number of lanes i < len where n1 and n2 disagree. */
  function LaneDiffCount(n1: int, n2: int, len: nat): (c: nat)
    ensures c <= len
    decreases len
  {
    if len == 0 then 0
    else (if n1 % 256 != n2 % 256 then 1 else 0) + LaneDiffCount(n1 / 256, n2 / 256, len - 1)
  }

  /** are_pair_num: the same count, lane by lane on the packed codes. */
  method ArePairNum(n1: int, n2: int, wordLen: nat) returns (r: bool)
    ensures r <==> LaneDiffCount(n1, n2, wordLen) == 1
  {
    var numDiffs := 0;
    for i := 0 to wordLen
      invariant numDiffs + LaneDiffCount(n1 / Pow256(i), n2 / Pow256(i), wordLen - i)
                == LaneDiffCount(n1, n2, wordLen)
    {
      DivDiv(n1, Pow256(i));
      DivDiv(n2, Pow256(i));
      if Lane(n1, i) != Lane(n2, i) {
        numDiffs := numDiffs + 1;
        if numDiffs >= 2 {
          return false;
        }
      }
    }
    return numDiffs == 1;
  }

  /** s with its i-th character taken out: s[:i] + s[i+1:]. */
  function Delete(s: string, i: nat): (r: string)
    requires i < |s|
    ensures |r| == |s| - 1
  {
    s[..i] + s[i + 1..]
  }

  /** s with c put in front of position i. */
  function Insert(s: string, i: nat, c: char): (r: string)
    requires i <= |s|
    ensures |r| == |s| + 1
  {
    s[..i] + [c] + s[i..]
  }

  /** Deleting some one character of `long` leaves `short`. */
  predicate DeletionYields(long: string, short: string) {
    exists i :: 0 <= i < |long| && Delete(long, i) == short
  }

  /** The relation are_one_letter_diff decides: one letter changed between
      words of equal length, or one letter removed from the longer word when
      the lengths differ by one. */
  predicate IsOneLetterDiff(w1: string, w2: string) {
    if |w1| == |w2| then DiffCount(w1, w2) == 1
    else if |w1| == |w2| + 1 then DeletionYields(w1, w2)
    else if |w2| == |w1| + 1 then DeletionYields(w2, w1)
    else false
  }

  /** are_one_letter_diff */
  method AreOneLetterDiff(w1: string, w2: string) returns (r: bool)
    ensures r <==> IsOneLetterDiff(w1, w2)
  {
    var lenDiff := if |w1| >= |w2| then |w1| - |w2| else |w2| - |w1|;
    if lenDiff > 1 {
      return false;
    }
    if lenDiff == 0 {
      r := ArePair(w1, w2);
      return;
    } else if |w1| > |w2| {
      for i := 0 to |w1|
        invariant forall k :: 0 <= k < i ==> Delete(w1, k) != w2
      {
        if w1[..i] + w1[i + 1..] == w2 {
          assert Delete(w1, i) == w2;
          return true;
        }
      }
    } else {
      for i := 0 to |w2|
        invariant forall k :: 0 <= k < i ==> Delete(w2, k) != w1
      {
        if w2[..i] + w2[i + 1..] == w1 {
          assert Delete(w2, i) == w1;
          return true;
        }
      }
    }
    return false;
  }

  /** Counting differences does not depend on the order of the two words. */
  lemma {:induction false} DiffCountSymmetric(a: string, b: string)
    requires |a| == |b|
    ensures DiffCount(a, b) == DiffCount(b, a)
  {
    if a != [] {
      DiffCountSymmetric(a[1..], b[1..]);
    }
  }

  /** No differences means equal words. */
  lemma {:induction false} DiffCountZero(a: string, b: string)
    requires |a| == |b|
    ensures DiffCount(a, b) == 0 <==> a == b
  {
    if a != [] {
      DiffCountZero(a[1..], b[1..]);
      if a[0] == b[0] && a[1..] == b[1..] {
        assert a == [a[0]] + a[1..] && b == [b[0]] + b[1..];
      }
    }
  }

  /** Exactly one difference means a single position where the words
      disagree, with every other position equal. */
  lemma {:induction false} DiffCountOne(a: string, b: string)
    requires |a| == |b|
    ensures DiffCount(a, b) == 1 <==> exists i :: DiffersOnlyAt(a, b, i)
  {
    if a == [] {
      assert forall i :: !DiffersOnlyAt(a, b, i);
    } else {
      var a', b' := a[1..], b[1..];
      DiffCountOne(a', b');
      DiffCountZero(a', b');
      if DiffCount(a, b) == 1 {
        if a[0] != b[0] {
          assert a' == b';
          assert DiffersOnlyAt(a, b, 0);
        } else {
          var i :| DiffersOnlyAt(a', b', i);
          forall k | 0 <= k < |a| && k != i + 1
            ensures a[k] == b[k]
          {
            if k > 0 { assert a[k] == a'[k - 1] && b[k] == b'[k - 1]; }
          }
          assert DiffersOnlyAt(a, b, i + 1);
        }
      }
      if exists i :: DiffersOnlyAt(a, b, i) {
        var i :| DiffersOnlyAt(a, b, i);
        if i == 0 {
          assert a' == b' by {
            assert forall k :: 0 <= k < |a'| ==> a'[k] == a[k + 1] && b'[k] == b[k + 1];
          }
        } else {
          assert DiffersOnlyAt(a', b', i - 1);
        }
      }
    }
  }

  /** Lane by lane on the codes of two words of the same length counts the
      same differences as letter by letter on the words, so are_pair_num on
      make_number's results answers as are_pair does. */
  lemma {:induction false} LaneDiffCountOfEncode(a: string, b: string)
    requires IsWord(a) && IsWord(b) && |a| == |b|
    ensures LaneDiffCount(Encode(a), Encode(b), |a|) == DiffCount(a, b)
  {
    if a != [] {
      EncodeFirstLane(a);
      EncodeFirstLane(b);
      assert IsWord(a[1..]) && IsWord(b[1..]);
      LaneDiffCountOfEncode(a[1..], b[1..]);
    }
  }

  /** Removing and inserting are the two views of the same edit: deleting a
      letter of `long` gives `short` exactly when `long` is `short` with one
      letter put in. */
  lemma {:induction false} DeletionIsInsertion(long: string, short: string)
    ensures DeletionYields(long, short) <==>
            exists i, c :: 0 <= i <= |short| && Insert(short, i, c) == long
  {
    if DeletionYields(long, short) {
      var i :| 0 <= i < |long| && Delete(long, i) == short;
      assert Insert(short, i, long[i]) == long by {
        assert short[..i] == long[..i] && short[i..] == long[i + 1..];
      }
    }
    if exists i, c :: 0 <= i <= |short| && Insert(short, i, c) == long {
      var i, c :| 0 <= i <= |short| && Insert(short, i, c) == long;
      assert Delete(long, i) == short by {
        assert long[..i] == short[..i] && long[i + 1..] == short[i..];
      }
    }
  }

  /** The one-edit relation is symmetric. */
  lemma {:induction false} OneLetterDiffSymmetric(w1: string, w2: string)
    ensures IsOneLetterDiff(w1, w2) <==> IsOneLetterDiff(w2, w1)
  {
    if |w1| == |w2| {
      DiffCountSymmetric(w1, w2);
    }
  }

  /** No word is one edit away from itself. */
  lemma {:induction false} OneLetterDiffIrreflexive(w: string)
    ensures !IsOneLetterDiff(w, w)
  {
    DiffCountZero(w, w);
  }
}
