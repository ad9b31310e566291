/** Edge accumulation: the same-length scan over each bucket, the add/remove
    scan between buckets of adjacent lengths, and the driver that runs both
    for every length, appending to one list of edges. */
module GraphBuilder {
  import opened WordCodec
  import opened Bits
  import opened DiffDetector
  import opened Dictionary

  /** The transformation an edge stands for: "add", "remove" or "change". */
  datatype Kind = Add | Remove | Change

  /** One (word1, word2, kind) tuple of the edge list. */
  datatype Edge = Edge(source: string, target: string, kind: Kind)

  /** part(0), part(1), ..., part(count - 1), one after the other. */
  function Concat<T>(count: nat, part: nat -> seq<T>): seq<T> {
    if count == 0 then [] else Concat(count - 1, part) + part(count - 1)
  }

  /** The words a list of codes of one length stands for, position by
      position (make_word of each code). */
  function Decoded(codes: seq<int>, length: nat): (words: seq<string>)
    ensures |words| == |codes|
  {
    if codes == [] then []
    else Decoded(codes[..|codes| - 1], length) + [Decode(codes[|codes| - 1], length)]
  }

  // ---------------------------------------------------------------------
  // The same-length scan

  /** The edge the scan emits for the pair (i, j), if the xor of the two
      codes is in the table; `words` are the words of the codes. */
  function ChangeHit(bucket: seq<int>, words: seq<string>, lut: set<int>, i: nat, j: nat): seq<Edge>
    requires |words| == |bucket| && i < |bucket| && j < |bucket|
  {
    if Xor(bucket[i], bucket[j]) in lut then [Edge(words[i], words[j], Change)] else []
  }

  /** The edges of row i of the scan, for j from 0 up to count - 1. */
  function ChangeRow(bucket: seq<int>, words: seq<string>, lut: set<int>, i: nat, count: nat): seq<Edge>
    requires |words| == |bucket| && i < |bucket|
  {
    Concat(count, (j: nat) => if j < |bucket| then ChangeHit(bucket, words, lut, i, j) else [])
  }

  /** The edges of rows 0 up to n - 1, row i pairing word i with every
      earlier word j < i. */
  function ChangeRows(bucket: seq<int>, words: seq<string>, lut: set<int>, n: nat): seq<Edge>
    requires |words| == |bucket|
  {
    Concat(n, (i: nat) => if i < |bucket| then ChangeRow(bucket, words, lut, i, i) else [])
  }

  /** The change edges of one bucket. */
  function ChangeEdges(bucket: seq<int>, length: nat, lut: set<int>): seq<Edge> {
    ChangeRows(bucket, Decoded(bucket, length), lut, |bucket|)
  }

  // ---------------------------------------------------------------------
  // The add/remove scan

  /** The edge add_remove_pairs appends for one (word1, word2), if any:
      "remove" when word1 is the longer, "add" otherwise. */
  function AddRemoveHit(word1: string, word2: string): seq<Edge> {
    if IsOneLetterDiff(word1, word2) then
      [Edge(word1, word2, if |word1| > |word2| then Remove else Add)]
    else []
  }

  /** The edges for one word1 against the first `count` words of `to`, in order. */
  function AddRemoveRow(word1: string, to: seq<string>, count: nat): seq<Edge> {
    Concat(count, (b: nat) => if b < |to| then AddRemoveHit(word1, to[b]) else [])
  }

  /** The edges for the first `count` words of `from`, each against all of `to`. */
  function AddRemoveRows(from: seq<string>, to: seq<string>, count: nat): seq<Edge> {
    Concat(count, (a: nat) => if a < |from| then AddRemoveRow(from[a], to, |to|) else [])
  }

  /** The edges add_remove_pairs appends: w1 over `from`, then w2 over `to`. */
  function AddRemoveEdges(from: seq<int>, to: seq<int>, lenFrom: nat, lenTo: nat): seq<Edge> {
    AddRemoveRows(Decoded(from, lenFrom), Decoded(to, lenTo), |from|)
  }

  // ---------------------------------------------------------------------
  // The driver

  /** The map has an entry for every length in range. */
  predicate HasAllLengths<V>(m: map<nat, V>) {
    forall l :: MinWordLen <= l <= MaxWordLen ==> l in m
  }

  /** What one round of the driver appends for `length`: its change edges,
      then the add/remove edges against length - 1 and against length + 1
      where those lengths are in range. */
  function StageEdges(dict: map<nat, seq<int>>, lut: set<int>, length: nat): seq<Edge>
    requires HasAllLengths(dict) && MinWordLen <= length <= MaxWordLen
  {
    ChangeEdges(dict[length], length, lut) + ShorterEdges(dict, length) + LongerEdges(dict, length)
  }

  /** The add/remove edges from `length` to length - 1, when that is in range. */
  function ShorterEdges(dict: map<nat, seq<int>>, length: nat): seq<Edge>
    requires HasAllLengths(dict) && MinWordLen <= length <= MaxWordLen
  {
    if length > MinWordLen then AddRemoveEdges(dict[length], dict[length - 1], length, length - 1) else []
  }

  /** The add/remove edges from `length` to length + 1, when that is in range. */
  function LongerEdges(dict: map<nat, seq<int>>, length: nat): seq<Edge>
    requires HasAllLengths(dict) && MinWordLen <= length <= MaxWordLen
  {
    if length < MaxWordLen then AddRemoveEdges(dict[length], dict[length + 1], length, length + 1) else []
  }

  /** What each round appends, by length. */
  function Rounds(dict: map<nat, seq<int>>, lut: set<int>): (rounds: map<nat, seq<Edge>>)
    requires HasAllLengths(dict)
    ensures HasAllLengths(rounds)
  {
    map length | MinWordLen <= length <= MaxWordLen :: StageEdges(dict, lut, length)
  }

  /** `rounds` holds, for every length, what the round for that length
      appends.  The driver's proof works with such a map instead of with
      Rounds itself, so the rounds are only unfolded where a StageEdges term
      asks for them. */
  predicate IsRounds(dict: map<nat, seq<int>>, lut: set<int>, rounds: map<nat, seq<Edge>>) {
    HasAllLengths(dict) && HasAllLengths(rounds) &&
    forall length {:trigger StageEdges(dict, lut, length)} :: MinWordLen <= length <= MaxWordLen ==>
      rounds[length] == StageEdges(dict, lut, length)
  }

  /** The edges of the rounds for the lengths below n, in order. */
  function EdgesUpTo(rounds: map<nat, seq<Edge>>, n: nat): seq<Edge>
    requires HasAllLengths(rounds) && n <= MaxWordLen + 1
  {
    if n <= MinWordLen then [] else EdgesUpTo(rounds, n - 1) + rounds[n - 1]
  }

  // ---------------------------------------------------------------------
  // The edge list, appended to in place

  /** Holder of the list of edges (all_pairs) that the scans append to. */
  class Connections {
    var allPairs: seq<Edge>

    constructor ()
      ensures allPairs == []
    {
      allPairs := [];
    }

    /** The same-length scan of one bucket: every j < i, tested with the
        table on the xor of the two codes. */
    method ChangePairs(bucket: seq<int>, length: nat, lut: set<int>)
      modifies this
      ensures allPairs == old(allPairs) + ChangeEdges(bucket, length, lut)
    {
      ghost var words := Decoded(bucket, length);
      for i := 0 to |bucket|
        invariant allPairs == old(allPairs) + ChangeRows(bucket, words, lut, i)
      {
        ChangeRowScan(bucket, length, lut, i, words);
        AppendAssoc(old(allPairs), ChangeRows(bucket, words, lut, i), ChangeRow(bucket, words, lut, i, i));
      }
    }

    /** Row i of the same-length scan: word i against every earlier word. */
    method ChangeRowScan(bucket: seq<int>, length: nat, lut: set<int>, i: nat, ghost words: seq<string>)
      requires i < |bucket| && words == Decoded(bucket, length)
      modifies this
      ensures allPairs == old(allPairs) + ChangeRow(bucket, words, lut, i, i)
    {
      var word1 := WordAt(bucket, length, i);
      for j := 0 to i
        invariant allPairs == old(allPairs) + ChangeRow(bucket, words, lut, i, j)
      {
        var w2 := bucket[j];
        if Xor(bucket[i], w2) in lut {
          var word2 := WordAt(bucket, length, j);
          allPairs := allPairs + [Edge(word1, word2, Change)];
        }
        AppendAssoc(old(allPairs), ChangeRow(bucket, words, lut, i, j), ChangeHit(bucket, words, lut, i, j));
      }
    }

    /** add_remove_pairs */
    method AddRemovePairs(wordListFrom: seq<int>, wordListTo: seq<int>, wordLenFrom: nat, wordLenTo: nat)
      modifies this
      ensures allPairs == old(allPairs) + AddRemoveEdges(wordListFrom, wordListTo, wordLenFrom, wordLenTo)
    {
      ghost var from, to := Decoded(wordListFrom, wordLenFrom), Decoded(wordListTo, wordLenTo);
      for a := 0 to |wordListFrom|
        invariant allPairs == old(allPairs) + AddRemoveRows(from, to, a)
      {
        var word1 := WordAt(wordListFrom, wordLenFrom, a);
        AddRemoveRowScan(word1, wordListTo, wordLenTo, to);
        AppendAssoc(old(allPairs), AddRemoveRows(from, to, a), AddRemoveRow(word1, to, |to|));
      }
    }

    /** The inner loop of add_remove_pairs: word1 against every word of the
        other list, in order. */
    method AddRemoveRowScan(word1: string, wordListTo: seq<int>, wordLenTo: nat, ghost to: seq<string>)
      requires to == Decoded(wordListTo, wordLenTo)
      modifies this
      ensures allPairs == old(allPairs) + AddRemoveRow(word1, to, |to|)
    {
      for b := 0 to |wordListTo|
        invariant allPairs == old(allPairs) + AddRemoveRow(word1, to, b)
      {
        var word2 := WordAt(wordListTo, wordLenTo, b);
        AddIfOneEdit(word1, word2);
        AppendAssoc(old(allPairs), AddRemoveRow(word1, to, b), AddRemoveHit(word1, word2));
      }
    }

    /** The body of add_remove_pairs' inner loop: append (word1, word2, tag)
        when the words are one edit apart. */
    method AddIfOneEdit(word1: string, word2: string)
      modifies this
      ensures allPairs == old(allPairs) + AddRemoveHit(word1, word2)
    {
      var oneEdit := AreOneLetterDiff(word1, word2);
      if oneEdit {
        if |word1| > |word2| {
          allPairs := allPairs + [Edge(word1, word2, Remove)];
        } else {
          allPairs := allPairs + [Edge(word1, word2, Add)];
        }
      }
    }

    /** One round of the driver: the same-length scan of `length`, then the
        add/remove scans against the next shorter and the next longer length
        when those are in range. */
    method ConnectLength(dict: map<nat, seq<int>>, lut: set<int>, length: nat)
      requires HasAllLengths(dict) && MinWordLen <= length <= MaxWordLen
      modifies this
      ensures allPairs == old(allPairs) + StageEdges(dict, lut, length)
    {
      ChangePairs(dict[length], length, lut);
      ConnectShorter(dict, length);
      ConnectLonger(dict, length);
      AppendThree(old(allPairs), ChangeEdges(dict[length], length, lut), ShorterEdges(dict, length), LongerEdges(dict, length));
    }

    /** The add/remove scan of `length` against length - 1, when in range. */
    method ConnectShorter(dict: map<nat, seq<int>>, length: nat)
      requires HasAllLengths(dict) && MinWordLen <= length <= MaxWordLen
      modifies this
      ensures allPairs == old(allPairs) + ShorterEdges(dict, length)
    {
      if length > MinWordLen {
        AddRemovePairs(dict[length], dict[length - 1], length, length - 1);
      } else {
        assert allPairs + [] == allPairs;
      }
    }

    /** The add/remove scan of `length` against length + 1, when in range. */
    method ConnectLonger(dict: map<nat, seq<int>>, length: nat)
      requires HasAllLengths(dict) && MinWordLen <= length <= MaxWordLen
      modifies this
      ensures allPairs == old(allPairs) + LongerEdges(dict, length)
    {
      if length < MaxWordLen {
        AddRemovePairs(dict[length], dict[length + 1], length, length + 1);
      } else {
        assert allPairs + [] == allPairs;
      }
    }

    /** One round of the driver, seen from the loop: the list held the
        edges of the rounds below `length` and now holds those below the
        returned next length, length + 1. */
    method NextRound(dict: map<nat, seq<int>>, lut: set<int>, length: nat,
                     ghost rounds: map<nat, seq<Edge>>, ghost base: seq<Edge>)
      returns (next: nat)
      requires IsRounds(dict, lut, rounds) && MinWordLen <= length <= MaxWordLen
      requires allPairs == base + EdgesUpTo(rounds, length)
      modifies this
      ensures next == length + 1
      ensures allPairs == base + EdgesUpTo(rounds, next)
    {
      ghost var before := allPairs;
      ConnectLength(dict, lut, length);
      assert rounds[length] == StageEdges(dict, lut, length);
      next := length + 1;
      EdgesUpToStep(rounds, length, next);
      AppendAssoc(base, EdgesUpTo(rounds, length), rounds[length]);
    }

    /** The driver: one round per length from MinWordLen to MaxWordLen,
        appending each round's edges in turn. */
    method FindAllConnections(dict: map<nat, seq<int>>, lut: set<int>, ghost rounds: map<nat, seq<Edge>>)
      requires IsRounds(dict, lut, rounds)
      modifies this
      ensures allPairs == old(allPairs) + EdgesUpTo(rounds, MaxWordLen + 1)
    {
      var length := MinWordLen;
      while length <= MaxWordLen
        invariant MinWordLen <= length <= MaxWordLen + 1
        invariant allPairs == old(allPairs) + EdgesUpTo(rounds, length)
      {
        length := NextRound(dict, lut, length, rounds, old(allPairs));
      }
    }
  }

  /** make_word of the k-th code of a list. */
  method WordAt(codes: seq<int>, length: nat, k: nat) returns (word: string)
    requires k < |codes|
    ensures word == Decoded(codes, length)[k]
  {
    word := MakeWord(codes[k], length);
    DecodedAt(codes, length, k);
  }

  /** Position k of the decoded list is the word of code k. */
  lemma {:induction false} DecodedAt(codes: seq<int>, length: nat, k: nat)
    requires k < |codes|
    ensures Decoded(codes, length)[k] == Decode(codes[k], length)
  {
    var init := codes[..|codes| - 1];
    if k < |codes| - 1 {
      DecodedAt(init, length, k);
    }
  }

  lemma {:induction false} AppendAssoc<T>(a: seq<T>, b: seq<T>, c: seq<T>)
    ensures a + b + c == a + (b + c)
  {
  }

  lemma {:induction false} AppendThree(base: seq<Edge>, c: seq<Edge>, s: seq<Edge>, l: seq<Edge>)
    ensures base + c + s + l == base + (c + s + l)
  {
  }

  lemma {:induction false} EdgesUpToStep(rounds: map<nat, seq<Edge>>, length: nat, next: nat)
    requires HasAllLengths(rounds) && MinWordLen <= length <= MaxWordLen
    requires next == length + 1 && length == next - 1
    ensures EdgesUpTo(rounds, next) == EdgesUpTo(rounds, length) + rounds[length]
  {
  }

  /** Rounds is a map of the rounds. */
  lemma {:induction false} RoundsAreRounds(dict: map<nat, seq<int>>, lut: set<int>)
    requires HasAllLengths(dict)
    ensures IsRounds(dict, lut, Rounds(dict, lut))
  {
  }
}
