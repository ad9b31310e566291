/** What the two scans append: exactly which edges, with which tags, and how
    many. */
module EdgeFacts {
  import opened WordCodec
  import opened Bits
  import opened DiffDetector
  import opened GraphBuilder

  // ---------------------------------------------------------------------
  // Concatenation of parts

  /** An element of a concatenation comes from one of its parts. */
  lemma {:induction false} ConcatSource<T>(count: nat, part: nat -> seq<T>, e: T) returns (k: nat)
    requires e in Concat(count, part)
    ensures k < count && e in part(k)
  {
    if e in Concat(count - 1, part) {
      k := ConcatSource(count - 1, part, e);
    } else {
      k := count - 1;
    }
  }

  /** Every element of every part is in the concatenation. */
  lemma {:induction false} InConcat<T>(count: nat, part: nat -> seq<T>, k: nat, e: T)
    requires k < count && e in part(k)
    ensures e in Concat(count, part)
  {
    if k < count - 1 {
      InConcat(count - 1, part, k, e);
    }
  }

  // ---------------------------------------------------------------------
  // The same-length scan

  /** Every change edge of a bucket comes from a pair j < i whose codes xor
      to an entry of the table, and joins word i to word j. */
  lemma {:induction false} ChangeEdgesSource(bucket: seq<int>, length: nat, lut: set<int>, e: Edge)
    returns (i: nat, j: nat)
    requires e in ChangeEdges(bucket, length, lut)
    ensures j < i < |bucket| && Xor(bucket[i], bucket[j]) in lut
    ensures e == Edge(Decode(bucket[i], length), Decode(bucket[j], length), Change)
  {
    var words := Decoded(bucket, length);
    i := ConcatSource(|bucket|, (i: nat) => if i < |bucket| then ChangeRow(bucket, words, lut, i, i) else [], e);
    j := ConcatSource(i, (j: nat) => if j < |bucket| then ChangeHit(bucket, words, lut, i, j) else [], e);
    DecodedAt(bucket, length, i);
    DecodedAt(bucket, length, j);
  }

  /** Every pair j < i whose codes xor to an entry of the table gives the
      edge (word i, word j, change): the scan visits every such pair. */
  lemma {:induction false} ChangeEdgesComplete(bucket: seq<int>, length: nat, lut: set<int>, i: nat, j: nat)
    requires j < i < |bucket| && Xor(bucket[i], bucket[j]) in lut
    ensures Edge(Decode(bucket[i], length), Decode(bucket[j], length), Change) in ChangeEdges(bucket, length, lut)
  {
    var words := Decoded(bucket, length);
    var e := Edge(Decode(bucket[i], length), Decode(bucket[j], length), Change);
    DecodedAt(bucket, length, i);
    DecodedAt(bucket, length, j);
    assert e in ChangeHit(bucket, words, lut, i, j);
    InConcat(i, (j: nat) => if j < |bucket| then ChangeHit(bucket, words, lut, i, j) else [], j, e);
    InConcat(|bucket|, (i: nat) => if i < |bucket| then ChangeRow(bucket, words, lut, i, i) else [], i, e);
  }

  /** Row i of the scan emits at most one edge per earlier word. */
  lemma {:induction false} ChangeRowSize(bucket: seq<int>, words: seq<string>, lut: set<int>, i: nat, count: nat)
    requires |words| == |bucket| && i < |bucket|
    ensures |ChangeRow(bucket, words, lut, i, count)| <= count
  {
    if count > 0 {
      ChangeRowSize(bucket, words, lut, i, count - 1);
    }
  }

  lemma {:induction false} ChangeRowsSize(bucket: seq<int>, words: seq<string>, lut: set<int>, n: nat)
    requires |words| == |bucket| && n <= |bucket|
    ensures 2 * |ChangeRows(bucket, words, lut, n)| <= n * (n - 1)
  {
    if n > 0 {
      ChangeRowsSize(bucket, words, lut, n - 1);
      ChangeRowSize(bucket, words, lut, n - 1, n - 1);
      assert (n - 1) * (n - 2) + 2 * (n - 1) == n * (n - 1);
    }
  }

  /** Each unordered pair is visited once, so a bucket of n words gives at
      most n (n - 1) / 2 change edges. */
  lemma {:induction false} ChangeEdgesSize(bucket: seq<int>, length: nat, lut: set<int>)
    ensures 2 * |ChangeEdges(bucket, length, lut)| <= |bucket| * (|bucket| - 1)
  {
    ChangeRowsSize(bucket, Decoded(bucket, length), lut, |bucket|);
  }

  // ---------------------------------------------------------------------
  // The add/remove scan

  /** The tag add_remove_pairs gives an edge between the two lengths. */
  function Tag(lenFrom: nat, lenTo: nat): (k: Kind)
    ensures k != Change && (k == Remove <==> lenFrom > lenTo)
  {
    if lenFrom > lenTo then Remove else Add
  }

  /** Every edge add_remove_pairs appends joins the word of some code of
      `from` to the word of some code of `to` one edit away, tagged "remove"
      exactly when the first word is the longer. */
  lemma {:induction false} AddRemoveSource(from: seq<int>, to: seq<int>, lenFrom: nat, lenTo: nat, e: Edge)
    returns (a: nat, b: nat)
    requires e in AddRemoveEdges(from, to, lenFrom, lenTo)
    ensures a < |from| && b < |to|
    ensures e == Edge(Decode(from[a], lenFrom), Decode(to[b], lenTo), Tag(lenFrom, lenTo))
    ensures IsOneLetterDiff(e.source, e.target)
  {
    var fromWords, toWords := Decoded(from, lenFrom), Decoded(to, lenTo);
    a := ConcatSource(|from|, (a: nat) => if a < |fromWords| then AddRemoveRow(fromWords[a], toWords, |toWords|) else [], e);
    b := ConcatSource(|to|, (b: nat) => if b < |toWords| then AddRemoveHit(fromWords[a], toWords[b]) else [], e);
    DecodedAt(from, lenFrom, a);
    DecodedAt(to, lenTo, b);
  }

  /** Every pair of words one edit apart, the first from `from` and the
      second from `to`, is appended by add_remove_pairs with its tag. */
  lemma {:induction false} AddRemoveComplete(from: seq<int>, to: seq<int>, lenFrom: nat, lenTo: nat, a: nat, b: nat)
    requires a < |from| && b < |to|
    requires IsOneLetterDiff(Decode(from[a], lenFrom), Decode(to[b], lenTo))
    ensures Edge(Decode(from[a], lenFrom), Decode(to[b], lenTo), Tag(lenFrom, lenTo))
            in AddRemoveEdges(from, to, lenFrom, lenTo)
  {
    var fromWords, toWords := Decoded(from, lenFrom), Decoded(to, lenTo);
    var e := Edge(Decode(from[a], lenFrom), Decode(to[b], lenTo), Tag(lenFrom, lenTo));
    DecodedAt(from, lenFrom, a);
    DecodedAt(to, lenTo, b);
    assert e in AddRemoveHit(fromWords[a], toWords[b]);
    InConcat(|to|, (b: nat) => if b < |toWords| then AddRemoveHit(fromWords[a], toWords[b]) else [], b, e);
    InConcat(|from|, (a: nat) => if a < |fromWords| then AddRemoveRow(fromWords[a], toWords, |toWords|) else [], a, e);
  }

  /** Each add edge of the scan from the shorter bucket to the longer comes
      back as a remove edge of the scan the other way. */
  lemma AddMirror(short: seq<int>, long: seq<int>, lenShort: nat, lenLong: nat, u: string, v: string)
    requires lenLong == lenShort + 1
    requires Edge(u, v, Add) in AddRemoveEdges(short, long, lenShort, lenLong)
    ensures Edge(v, u, Remove) in AddRemoveEdges(long, short, lenLong, lenShort)
  {
    var a, b := AddRemoveSource(short, long, lenShort, lenLong, Edge(u, v, Add));
    OneLetterDiffSymmetric(u, v);
    AddRemoveComplete(long, short, lenLong, lenShort, b, a);
  }

  /** Each remove edge of the scan from the longer bucket to the shorter
      comes back as an add edge of the scan the other way. */
  lemma RemoveMirror(short: seq<int>, long: seq<int>, lenShort: nat, lenLong: nat, u: string, v: string)
    requires lenLong == lenShort + 1
    requires Edge(v, u, Remove) in AddRemoveEdges(long, short, lenLong, lenShort)
    ensures Edge(u, v, Add) in AddRemoveEdges(short, long, lenShort, lenLong)
  {
    var b, a := AddRemoveSource(long, short, lenLong, lenShort, Edge(v, u, Remove));
    OneLetterDiffSymmetric(v, u);
    AddRemoveComplete(short, long, lenShort, lenLong, a, b);
  }

  /** The scan from the shorter bucket to the longer and the scan back give
      mirror images: (short, long, add) from one exactly when
      (long, short, remove) from the other. */
  lemma MirrorEdges(short: seq<int>, long: seq<int>, lenShort: nat, lenLong: nat, u: string, v: string)
    requires lenLong == lenShort + 1
    ensures Edge(u, v, Add) in AddRemoveEdges(short, long, lenShort, lenLong)
            <==> Edge(v, u, Remove) in AddRemoveEdges(long, short, lenLong, lenShort)
  {
    if Edge(u, v, Add) in AddRemoveEdges(short, long, lenShort, lenLong) {
      AddMirror(short, long, lenShort, lenLong, u, v);
    }
    if Edge(v, u, Remove) in AddRemoveEdges(long, short, lenLong, lenShort) {
      RemoveMirror(short, long, lenShort, lenLong, u, v);
    }
  }

  /** Every change edge carries the "change" tag. */
  lemma ChangeKind(bucket: seq<int>, length: nat, lut: set<int>, e: Edge)
    requires e in ChangeEdges(bucket, length, lut)
    ensures e.kind == Change
  {
    var i, j := ChangeEdgesSource(bucket, length, lut, e);
  }

  /** Every edge of add_remove_pairs carries the tag of its two lengths. */
  lemma AddRemoveKind(from: seq<int>, to: seq<int>, lenFrom: nat, lenTo: nat, e: Edge)
    requires e in AddRemoveEdges(from, to, lenFrom, lenTo)
    ensures e.kind == Tag(lenFrom, lenTo)
  {
    var a, b := AddRemoveSource(from, to, lenFrom, lenTo, e);
  }

  // ---------------------------------------------------------------------
  // One round of the driver

  /** A round appends its change edges, then its edges against the shorter
      words, then against the longer words, and nothing else. */
  lemma InStage(dict: map<nat, seq<int>>, lut: set<int>, length: nat, e: Edge)
    requires HasAllLengths(dict) && MinWordLen <= length <= MaxWordLen
    requires e in StageEdges(dict, lut, length)
    ensures e in ChangeEdges(dict[length], length, lut) || e in ShorterEdges(dict, length) || e in LongerEdges(dict, length)
  {
  }

  /** The edges against the shorter words exist only above the shortest
      length and are all tagged "remove". */
  lemma ShorterKind(dict: map<nat, seq<int>>, length: nat, e: Edge)
    requires HasAllLengths(dict) && MinWordLen <= length <= MaxWordLen
    requires e in ShorterEdges(dict, length)
    ensures length > MinWordLen && e.kind == Remove
    ensures e in AddRemoveEdges(dict[length], dict[length - 1], length, length - 1)
  {
    assert length > MinWordLen;
    assert e in AddRemoveEdges(dict[length], dict[length - 1], length, length - 1);
    AddRemoveKind(dict[length], dict[length - 1], length, length - 1, e);
  }

  /** The edges against the longer words exist only below the longest
      length and are all tagged "add". */
  lemma LongerKind(dict: map<nat, seq<int>>, length: nat, e: Edge)
    requires HasAllLengths(dict) && MinWordLen <= length <= MaxWordLen
    requires e in LongerEdges(dict, length)
    ensures length < MaxWordLen && e.kind == Add
    ensures e in AddRemoveEdges(dict[length], dict[length + 1], length, length + 1)
  {
    assert length < MaxWordLen;
    assert e in AddRemoveEdges(dict[length], dict[length + 1], length, length + 1);
    AddRemoveKind(dict[length], dict[length + 1], length, length + 1, e);
  }

  /** Which part of a round an edge comes from is told by its tag. */
  lemma StagePart(dict: map<nat, seq<int>>, lut: set<int>, length: nat, e: Edge)
    requires HasAllLengths(dict) && MinWordLen <= length <= MaxWordLen
    requires e in StageEdges(dict, lut, length)
    ensures e.kind == Change ==> e in ChangeEdges(dict[length], length, lut)
    ensures e.kind == Remove ==>
              length > MinWordLen && e in AddRemoveEdges(dict[length], dict[length - 1], length, length - 1)
    ensures e.kind == Add ==>
              length < MaxWordLen && e in AddRemoveEdges(dict[length], dict[length + 1], length, length + 1)
  {
    InStage(dict, lut, length, e);
    if e in ChangeEdges(dict[length], length, lut) {
      ChangeKind(dict[length], length, lut, e);
    } else if e in ShorterEdges(dict, length) {
      ShorterKind(dict, length, e);
    } else {
      LongerKind(dict, length, e);
    }
  }

  /** A change edge of a round comes from the scan of its bucket. */
  lemma ChangePart(dict: map<nat, seq<int>>, lut: set<int>, length: nat, e: Edge)
    requires HasAllLengths(dict) && MinWordLen <= length <= MaxWordLen
    requires e in StageEdges(dict, lut, length) && e.kind == Change
    ensures e in ChangeEdges(dict[length], length, lut)
  {
    StagePart(dict, lut, length, e);
  }

  /** A remove edge of a round comes from the scan of its bucket against
      the bucket one letter shorter. */
  lemma RemovePart(dict: map<nat, seq<int>>, lut: set<int>, length: nat, e: Edge)
    requires HasAllLengths(dict) && MinWordLen <= length <= MaxWordLen
    requires e in StageEdges(dict, lut, length) && e.kind == Remove
    ensures length > MinWordLen && e in AddRemoveEdges(dict[length], dict[length - 1], length, length - 1)
  {
    StagePart(dict, lut, length, e);
  }

  /** An add edge of a round comes from the scan of its bucket against the
      bucket one letter longer. */
  lemma AddPart(dict: map<nat, seq<int>>, lut: set<int>, length: nat, e: Edge)
    requires HasAllLengths(dict) && MinWordLen <= length <= MaxWordLen
    requires e in StageEdges(dict, lut, length) && e.kind == Add
    ensures length < MaxWordLen && e in AddRemoveEdges(dict[length], dict[length + 1], length, length + 1)
  {
    StagePart(dict, lut, length, e);
  }

  /** The round for `length` appends the change edges of its bucket. */
  lemma ChangeInStage(dict: map<nat, seq<int>>, lut: set<int>, length: nat, e: Edge)
    requires HasAllLengths(dict) && MinWordLen <= length <= MaxWordLen
    requires e in ChangeEdges(dict[length], length, lut)
    ensures e in StageEdges(dict, lut, length)
  {
  }

  /** Above the shortest length, the round appends the edges of
      add_remove_pairs against the words one letter shorter. */
  lemma ShorterInStage(dict: map<nat, seq<int>>, lut: set<int>, length: nat, e: Edge)
    requires HasAllLengths(dict) && MinWordLen < length <= MaxWordLen
    requires e in AddRemoveEdges(dict[length], dict[length - 1], length, length - 1)
    ensures e in StageEdges(dict, lut, length)
  {
    assert e in ShorterEdges(dict, length);
  }

  /** Below the longest length, the round appends the edges of
      add_remove_pairs against the words one letter longer. */
  lemma LongerInStage(dict: map<nat, seq<int>>, lut: set<int>, length: nat, e: Edge)
    requires HasAllLengths(dict) && MinWordLen <= length < MaxWordLen
    requires e in AddRemoveEdges(dict[length], dict[length + 1], length, length + 1)
    ensures e in StageEdges(dict, lut, length)
  {
    assert e in LongerEdges(dict, length);
  }

  /** The change edges of a bucket are in the round for its length. */
  lemma ChangeInRound(dict: map<nat, seq<int>>, lut: set<int>, rounds: map<nat, seq<Edge>>, length: nat, e: Edge)
    requires IsRounds(dict, lut, rounds) && MinWordLen <= length <= MaxWordLen
    requires e in ChangeEdges(dict[length], length, lut)
    ensures e in rounds[length]
  {
    ChangeInStage(dict, lut, length, e);
    assert rounds[length] == StageEdges(dict, lut, length);
  }

  /** The edges of add_remove_pairs from a bucket to the bucket one letter
      shorter are in the round for the longer length. */
  lemma ShorterInRound(dict: map<nat, seq<int>>, lut: set<int>, rounds: map<nat, seq<Edge>>, length: nat, lower: nat, e: Edge)
    requires IsRounds(dict, lut, rounds) && MinWordLen <= lower && length == lower + 1 <= MaxWordLen
    requires e in AddRemoveEdges(dict[length], dict[lower], length, lower)
    ensures e in rounds[length]
  {
    assert lower == length - 1;
    ShorterInStage(dict, lut, length, e);
    assert rounds[length] == StageEdges(dict, lut, length);
  }

  /** The edges of add_remove_pairs from a bucket to the bucket one letter
      longer are in the round for the shorter length. */
  lemma LongerInRound(dict: map<nat, seq<int>>, lut: set<int>, rounds: map<nat, seq<Edge>>, length: nat, upper: nat, e: Edge)
    requires IsRounds(dict, lut, rounds) && MinWordLen <= length && upper == length + 1 <= MaxWordLen
    requires e in AddRemoveEdges(dict[length], dict[upper], length, upper)
    ensures e in rounds[length]
  {
    LongerInStage(dict, lut, length, e);
    assert rounds[length] == StageEdges(dict, lut, length);
  }
}
