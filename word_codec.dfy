/** Packing of words into integers, one 8-bit lane per letter, first letter in
    the lowest lane, and the inverse unpacking. */
module WordCodec {

  /** The word lengths the graph is built for. */
  const MinWordLen: nat := 2
  const MaxWordLen: nat := 6

  predicate IsLetter(c: char) {
    'A' <= c <= 'Z'
  }

  /** The words the codec is meant for: upper-case letters only. */
  predicate IsWord(w: string) {
    forall k :: 0 <= k < |w| ==> IsLetter(w[k])
  }

  /** ord(c) - ord('A'): 0..25 on letters, anything else outside them. */
  function LetterCode(c: char): (code: int)
    ensures IsLetter(c) <==> 0 <= code < 26
  {
    c as int - 'A' as int
  }

  /** chr(lane + ord('A')): the inverse of LetterCode, giving back a letter
      for the lanes 0..25. */
  function LetterOf(lane: int): char
    requires 0 <= lane < 256
  {
    (lane + 'A' as int) as char
  }

  /** LetterOf undoes LetterCode on every lane, and gives a letter exactly
      for the lanes 0..25. */
  lemma LetterOfInverse(lane: int)
    requires 0 <= lane < 256
    ensures LetterCode(LetterOf(lane)) == lane
    ensures IsLetter(LetterOf(lane)) <==> lane < 26
  {
  }

  function Pow256(i: nat): (r: nat)
    ensures r >= 1
  {
    if i == 0 then 1 else 256 * Pow256(i - 1)
  }

  /** The value make_number computes: the sum of LetterCode(w[i]) * 256^i. */
  function Encode(w: string): (n: int)
    ensures IsWord(w) ==> 0 <= n < Pow256(|w|)
  {
    if w == [] then 0 else LetterCode(w[0]) + 256 * Encode(w[1..])
  }

  /** The word make_word builds: `length` lanes read from the low end, each
      lane (n & 0xFF) turned back into a character. */
  function Decode(n: int, length: nat): (w: string)
    ensures |w| == length
    decreases length
  {
    if length == 0 then [] else [LetterOf(n % 256)] + Decode(n / 256, length - 1)
  }

  /** Lane i of n: (n >> (8 * i)) & 0xFF.  Python's shift floors, as Dafny's
      division by a positive number does, and & 0xFF is the residue mod 256. */
  function Lane(n: int, i: nat): (r: int)
    ensures 0 <= r < 256
  {
    (n / Pow256(i)) % 256
  }

  /** make_number */
  method MakeNumber(word: string) returns (num: int)
    ensures num == Encode(word)
  {
    num := 0;
    var mult := 1;
    for k := 0 to |word|
      invariant mult == Pow256(k)
      invariant num + mult * Encode(word[k..]) == Encode(word)
    {
      assert word[k..][1..] == word[k + 1..];
      ghost var c, rest := LetterCode(word[k]), Encode(word[k + 1..]);
      assert Encode(word[k..]) == c + 256 * rest;
      Distribute(mult, c, rest);
      num := num + LetterCode(word[k]) * mult;
      mult := mult * 256;
    }
    assert word[|word|..] == [];
  }

  lemma {:induction false} Distribute(m: int, c: int, rest: int)
    ensures m * (c + 256 * rest) == c * m + (m * 256) * rest
  {
  }

  /** make_word */
  method MakeWord(number: int, length: nat) returns (word: string)
    ensures word == Decode(number, length)
  {
    word := "";
    var n := number;
    for i := 0 to length
      invariant word + Decode(n, length - i) == Decode(number, length)
    {
      word := word + [LetterOf(n % 256)];
      n := n / 256;
    }
  }

  /** The lowest lane of a word's code is its first letter, and the rest of
      the code is the code of the rest of the word. */
  lemma {:induction false} EncodeFirstLane(w: string)
    requires IsWord(w) && w != []
    ensures Encode(w) % 256 == LetterCode(w[0])
    ensures Encode(w) / 256 == Encode(w[1..])
  {
    var c, e := LetterCode(w[0]), Encode(w[1..]);
    assert Encode(w) == c + 256 * e;
    SplitLowLane(c, e);
  }

  lemma {:induction false} SplitLowLane(c: int, e: int)
    requires 0 <= c < 256
    ensures (c + 256 * e) % 256 == c
    ensures (c + 256 * e) / 256 == e
  {
  }

  /** Round trip: unpacking as many lanes as the word has letters gives the
      word back. */
  lemma {:induction false} RoundTrip(w: string)
    requires IsWord(w)
    ensures Decode(Encode(w), |w|) == w
  {
    if w != [] {
      EncodeFirstLane(w);
      assert IsWord(w[1..]);
      RoundTrip(w[1..]);
      assert LetterOf(LetterCode(w[0])) == w[0];
    }
  }

  /** Two words of the same length have the same code only if they are equal. */
  lemma {:induction false} EncodeInjective(a: string, b: string)
    requires IsWord(a) && IsWord(b) && |a| == |b|
    requires Encode(a) == Encode(b)
    ensures a == b
  {
    RoundTrip(a);
    RoundTrip(b);
  }

  /** (n / p) / 256 == n / (256 * p): shifting by 8 after shifting by 8 * i is
      shifting by 8 * (i + 1). */
  lemma {:induction false} DivDiv(n: int, p: int)
    requires p > 0
    ensures (n / p) / 256 == n / (256 * p)
  {
    var q, r := n / p, n % p;
    var q2, r2 := q / 256, q % 256;
    assert n == p * q + r;
    assert q == 256 * q2 + r2;
    assert n == (256 * p) * q2 + (p * r2 + r) by {
      assert p * q == p * (256 * q2) + p * r2;
    }
    MulBelow(p, r2, 255);
    assert 0 <= p * r2 <= p * 255;
    DivUnique(n, 256 * p, q2, p * r2 + r);
  }

  lemma {:induction false} MulBelow(p: int, x: int, y: int)
    requires p > 0 && 0 <= x <= y
    ensures 0 <= p * x <= p * y
  {
    assert p * y == p * x + p * (y - x);
    MulNonNeg(p, y - x);
    MulNonNeg(p, x);
  }

  lemma {:induction false} MulNonNeg(p: int, x: int)
    requires p >= 0 && x >= 0
    ensures p * x >= 0
  {
    if x > 0 {
      MulNonNeg(p, x - 1);
      assert p * x == p * (x - 1) + p;
    }
  }

  /** Euclidean division is unique. */
  lemma {:induction false} DivUnique(n: int, d: int, q: int, r: int)
    requires d > 0 && 0 <= r < d && n == d * q + r
    ensures n / d == q
  {
    var q0, r0 := n / d, n % d;
    assert d * (q0 - q) == r - r0;
    if q0 > q {
      MulBelow(d, 1, q0 - q);
    } else if q0 < q {
      MulBelow(d, 1, q - q0);
    }
  }

  /** Lane i of a word's code holds its i-th letter's code; every lane from
      the word's length upwards is zero. */
  lemma {:induction false} LaneOfEncode(w: string, i: nat)
    requires IsWord(w)
    ensures Lane(Encode(w), i) == if i < |w| then LetterCode(w[i]) else 0
  {
    if w == [] {
      assert Encode(w) == 0;
    } else {
      EncodeFirstLane(w);
      if i > 0 {
        DivDiv(Encode(w), 256);
        assert Pow256(i) == 256 * Pow256(i - 1);
        DivDivSwap(Encode(w), Pow256(i - 1));
        assert IsWord(w[1..]);
        LaneOfEncode(w[1..], i - 1);
      }
    }
  }

  /** n / (256 * p) == (n / 256) / p */
  lemma {:induction false} DivDivSwap(n: int, p: int)
    requires p > 0
    ensures n / (256 * p) == (n / 256) / p
  {
    var q, r := n / 256, n % 256;
    var q2, r2 := q / p, q % p;
    assert n == 256 * q + r;
    assert q == p * q2 + r2;
    assert n == (256 * p) * q2 + (256 * r2 + r);
    DivUnique(n, 256 * p, q2, 256 * r2 + r);
  }
}
