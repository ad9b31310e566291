/** The dictionary index: the word list's lines grouped by length, each
    bucket holding the codes of its words in input order.  The lines are
    taken as already trimmed and upper-cased. */
module Dictionary {
  import opened WordCodec

  /** The lines of the given length, in input order. */
  function Words(lines: seq<string>, length: nat): (ws: seq<string>)
    ensures |ws| <= |lines|
    ensures forall k :: 0 <= k < |ws| ==> |ws[k]| == length && ws[k] in lines
  {
    if lines == [] then []
    else
      var last := lines[|lines| - 1];
      Words(lines[..|lines| - 1], length) + (if |last| == length then [last] else [])
  }

  /** The bucket for one length: the codes of the lines of that length, in
      input order. */
  function Bucket(lines: seq<string>, length: nat): seq<int> {
    if lines == [] then []
    else
      var last := lines[|lines| - 1];
      Bucket(lines[..|lines| - 1], length) + (if |last| == length then [Encode(last)] else [])
  }

  /** The whole index: one bucket per length from MinWordLen to MaxWordLen. */
  function Buckets(lines: seq<string>): map<nat, seq<int>> {
    map length | MinWordLen <= length <= MaxWordLen :: Bucket(lines, length)
  }

  /** Every line whose length is in range is a word over A-Z (the source
      only trims and upper-cases). */
  predicate WellFormed(lines: seq<string>) {
    forall k :: 0 <= k < |lines| && MinWordLen <= |lines[k]| <= MaxWordLen ==> IsWord(lines[k])
  }

  /** Loading the dictionary: for each length, a fresh list, filled by one
      pass over the lines that appends make_number of each line of that
      length. */
  method LoadDictionary(lines: seq<string>) returns (dict: map<nat, seq<int>>)
    ensures dict == Buckets(lines)
  {
    dict := map[];
    for length := MinWordLen to MaxWordLen + 1
      invariant forall l :: l in dict <==> MinWordLen <= l < length
      invariant forall l :: l in dict ==> dict[l] == Bucket(lines, l)
    {
      dict := dict[length := []];
      for k := 0 to |lines|
        invariant forall l :: l in dict <==> MinWordLen <= l <= length
        invariant dict[length] == Bucket(lines[..k], length)
        invariant forall l :: l in dict && l != length ==> dict[l] == Bucket(lines, l)
      {
        assert lines[..k + 1][..k] == lines[..k];
        var word := lines[k];
        if |word| == length {
          var num := MakeNumber(word);
          dict := dict[length := dict[length] + [num]];
        }
      }
      assert lines[..|lines|] == lines;
    }
  }

  /** A bucket holds exactly the codes of the words of its length: as many
      entries as words, and each entry unpacks (at that length) to the word
      in the same position. */
  lemma {:induction false} BucketDecodes(lines: seq<string>, length: nat)
    requires WellFormed(lines) && MinWordLen <= length <= MaxWordLen
    ensures |Bucket(lines, length)| == |Words(lines, length)|
    ensures forall k :: 0 <= k < |Bucket(lines, length)| ==>
              Decode(Bucket(lines, length)[k], length) == Words(lines, length)[k]
  {
    if lines != [] {
      var init := lines[..|lines| - 1];
      assert WellFormed(init) by {
        forall k | 0 <= k < |init| ensures init[k] == lines[k] { }
      }
      BucketDecodes(init, length);
      var last := lines[|lines| - 1];
      if |last| == length {
        RoundTrip(last);
      }
    }
  }

  /** Every word of the bucket's length in the input appears in the
      bucket's words, and every entry there is such a word. */
  lemma {:induction false} WordsComplete(lines: seq<string>, length: nat)
    ensures forall w :: w in lines && |w| == length ==> w in Words(lines, length)
  {
    if lines != [] {
      var init := lines[..|lines| - 1];
      WordsComplete(init, length);
      forall w | w in lines && |w| == length
        ensures w in Words(lines, length)
      {
        if w != lines[|lines| - 1] {
          var k :| 0 <= k < |lines| && lines[k] == w;
          assert w in init by { assert init[k] == w; }
        }
      }
    }
  }

  /** The words of a bucket over a well-formed input are words over A-Z. */
  lemma {:induction false} WordsAreWords(lines: seq<string>, length: nat)
    requires WellFormed(lines) && MinWordLen <= length <= MaxWordLen
    ensures forall k :: 0 <= k < |Words(lines, length)| ==> IsWord(Words(lines, length)[k])
  {
    forall k | 0 <= k < |Words(lines, length)|
      ensures IsWord(Words(lines, length)[k])
    {
      var w := Words(lines, length)[k];
      var m :| 0 <= m < |lines| && lines[m] == w;
    }
  }

  /** A bucket holds the codes of its words, position by position. */
  lemma {:induction false} BucketEncodes(lines: seq<string>, length: nat)
    ensures |Bucket(lines, length)| == |Words(lines, length)|
    ensures forall k :: 0 <= k < |Bucket(lines, length)| ==>
              Bucket(lines, length)[k] == Encode(Words(lines, length)[k])
  {
    if lines != [] {
      BucketEncodes(lines[..|lines| - 1], length);
    }
  }

  /** Two lines of the same length, in input order, sit at two positions of
      that length's word list, in the same order (a word listed twice is
      kept twice). */
  lemma {:induction false} WordsTwice(lines: seq<string>, length: nat, p: nat, q: nat)
    returns (k1: nat, k2: nat)
    requires p < q < |lines| && |lines[p]| == length && |lines[q]| == length
    ensures k1 < k2 < |Words(lines, length)|
    ensures Words(lines, length)[k1] == lines[p] && Words(lines, length)[k2] == lines[q]
  {
    var init := lines[..|lines| - 1];
    var ws := Words(init, length);
    if q == |lines| - 1 {
      assert Words(lines, length) == ws + [lines[q]];
      WordsComplete(init, length);
      assert lines[p] == init[p];
      assert lines[p] in ws;
      k1 :| 0 <= k1 < |ws| && ws[k1] == lines[p];
      k2 := |ws|;
    } else {
      assert lines[p] == init[p] && lines[q] == init[q];
      k1, k2 := WordsTwice(init, length, p, q);
      assert Words(lines, length)[..|ws|] == ws;
    }
  }
}
