/** The whole pipeline up to the export: the lookup table, the dictionary
    and the connection scan run one after the other on a word list, and what
    the resulting edge list says about the words. */
module WordGraph {
  import opened WordCodec
  import opened Bits
  import opened DiffDetector
  import opened PairLut
  import opened Dictionary
  import opened GraphBuilder
  import opened EdgeFacts

  /** `dict` holds, for every length in range, the bucket of `lines` for
      that length.  Lemmas take such a map rather than Buckets(lines)
      itself, so a bucket is only unfolded where a Bucket(lines, length)
      term asks for it. */
  predicate IsDictionaryOf(lines: seq<string>, dict: map<nat, seq<int>>) {
    HasAllLengths(dict) &&
    forall length {:trigger Bucket(lines, length)} :: MinWordLen <= length <= MaxWordLen ==>
      dict[length] == Bucket(lines, length)
  }

  /** The dictionary of `lines` is such a map. */
  lemma BucketsAt(lines: seq<string>)
    ensures IsDictionaryOf(lines, Buckets(lines))
  {
  }

  /** `edges` is the edge list the program builds from the word list
      `lines`: the rounds of the driver for every length in order, over the
      dictionary of `lines` and the table for lengths up to MaxWordLen. */
  ghost predicate IsGraphOf(lines: seq<string>, edges: seq<Edge>) {
    exists dict, rounds {:trigger IsDictionaryOf(lines, dict), IsRounds(dict, LutEntries(MaxWordLen), rounds)} ::
      IsDictionaryOf(lines, dict) && IsRounds(dict, LutEntries(MaxWordLen), rounds) &&
      edges == EdgesUpTo(rounds, MaxWordLen + 1)
  }

  /** The program before the export: build pair_lut, load the dictionary,
      then find all connections into a fresh edge list. */
  method BuildWordGraph(lines: seq<string>) returns (dict: map<nat, seq<int>>, lut: set<int>, edges: seq<Edge>)
    ensures lut == LutEntries(MaxWordLen)
    ensures dict == Buckets(lines)
    ensures IsGraphOf(lines, edges)
  {
    lut := BuildPairLut(MinWordLen, MaxWordLen);
    dict := LoadDictionary(lines);
    var connections := new Connections();
    RoundsAreRounds(dict, lut);
    connections.FindAllConnections(dict, lut, Rounds(dict, lut));
    edges := connections.allPairs;
    BucketsAt(lines);
  }

  /** Two dictionaries of the same lines give the same round for each
      length. */
  lemma SameRound(lines: seq<string>, d1: map<nat, seq<int>>, d2: map<nat, seq<int>>, lut: set<int>,
                  r1: map<nat, seq<Edge>>, r2: map<nat, seq<Edge>>, length: nat)
    requires IsDictionaryOf(lines, d1) && IsDictionaryOf(lines, d2)
    requires IsRounds(d1, lut, r1) && IsRounds(d2, lut, r2) && MinWordLen <= length <= MaxWordLen
    ensures r1[length] == r2[length]
  {
    assert r1[length] == StageEdges(d1, lut, length);
    assert r2[length] == StageEdges(d2, lut, length);
    assert d1[length] == Bucket(lines, length) == d2[length];
    if length > MinWordLen {
      assert d1[length - 1] == Bucket(lines, length - 1) == d2[length - 1];
      assert ShorterEdges(d1, length) == ShorterEdges(d2, length);
    }
    if length < MaxWordLen {
      assert d1[length + 1] == Bucket(lines, length + 1) == d2[length + 1];
      assert LongerEdges(d1, length) == LongerEdges(d2, length);
    }
  }

  /** Two maps of the rounds of the same lines give the same edges. */
  lemma {:induction false} RoundsAgree(lines: seq<string>, d1: map<nat, seq<int>>, d2: map<nat, seq<int>>, lut: set<int>,
                                       r1: map<nat, seq<Edge>>, r2: map<nat, seq<Edge>>, n: nat)
    requires IsDictionaryOf(lines, d1) && IsDictionaryOf(lines, d2)
    requires IsRounds(d1, lut, r1) && IsRounds(d2, lut, r2) && n <= MaxWordLen + 1
    ensures EdgesUpTo(r1, n) == EdgesUpTo(r2, n)
  {
    if n > MinWordLen {
      RoundsAgree(lines, d1, d2, lut, r1, r2, n - 1);
      SameRound(lines, d1, d2, lut, r1, r2, n - 1);
    }
  }

  /** The word list determines its edge list. */
  lemma GraphUnique(lines: seq<string>, edges1: seq<Edge>, edges2: seq<Edge>)
    requires IsGraphOf(lines, edges1) && IsGraphOf(lines, edges2)
    ensures edges1 == edges2
  {
    var lut := LutEntries(MaxWordLen);
    var d1, r1 :| IsDictionaryOf(lines, d1) && IsRounds(d1, lut, r1) && edges1 == EdgesUpTo(r1, MaxWordLen + 1);
    var d2, r2 :| IsDictionaryOf(lines, d2) && IsRounds(d2, lut, r2) && edges2 == EdgesUpTo(r2, MaxWordLen + 1);
    RoundsAgree(lines, d1, d2, lut, r1, r2, MaxWordLen + 1);
  }

  // ---------------------------------------------------------------------
  // Where an edge comes from

  /** An edge of the rounds below n was appended by one of those rounds. */
  lemma {:induction false} EdgesUpToSource(rounds: map<nat, seq<Edge>>, n: nat, e: Edge) returns (length: nat)
    requires HasAllLengths(rounds) && n <= MaxWordLen + 1 && e in EdgesUpTo(rounds, n)
    ensures MinWordLen <= length < n && e in rounds[length]
  {
    if e in EdgesUpTo(rounds, n - 1) {
      length := EdgesUpToSource(rounds, n - 1, e);
    } else {
      length := n - 1;
    }
  }

  /** What a round below n appends is among the edges of the rounds below n. */
  lemma {:induction false} InEdgesUpTo(rounds: map<nat, seq<Edge>>, n: nat, length: nat, e: Edge)
    requires HasAllLengths(rounds) && n <= MaxWordLen + 1
    requires MinWordLen <= length < n && e in rounds[length]
    ensures e in EdgesUpTo(rounds, n)
  {
    if length < n - 1 {
      InEdgesUpTo(rounds, n - 1, length, e);
    }
  }

  /** Every edge of the graph was appended by the round of some length,
      over a dictionary of the lines. */
  lemma GraphSource(lines: seq<string>, edges: seq<Edge>, e: Edge) returns (dict: map<nat, seq<int>>, length: nat)
    requires IsGraphOf(lines, edges) && e in edges
    ensures IsDictionaryOf(lines, dict) && MinWordLen <= length <= MaxWordLen
    ensures e in StageEdges(dict, LutEntries(MaxWordLen), length)
  {
    var rounds;
    dict, rounds :| IsDictionaryOf(lines, dict) && IsRounds(dict, LutEntries(MaxWordLen), rounds) &&
                    edges == EdgesUpTo(rounds, MaxWordLen + 1);
    length := EdgesUpToSource(rounds, MaxWordLen + 1, e);
    assert rounds[length] == StageEdges(dict, LutEntries(MaxWordLen), length);
  }

  /** The change edges of one length's bucket are in the graph. */
  lemma ChangeInGraph(lines: seq<string>, edges: seq<Edge>, length: nat, e: Edge)
    requires IsGraphOf(lines, edges) && MinWordLen <= length <= MaxWordLen
    requires e in ChangeEdges(Bucket(lines, length), length, LutEntries(MaxWordLen))
    ensures e in edges
  {
    var lut := LutEntries(MaxWordLen);
    var dict, rounds :| IsDictionaryOf(lines, dict) && IsRounds(dict, lut, rounds) && edges == EdgesUpTo(rounds, MaxWordLen + 1);
    assert dict[length] == Bucket(lines, length);
    ChangeInRound(dict, lut, rounds, length, e);
    InEdgesUpTo(rounds, MaxWordLen + 1, length, e);
  }

  /** The add edges from one length's bucket to the next longer bucket are
      in the graph. */
  lemma LongerInGraph(lines: seq<string>, edges: seq<Edge>, length: nat, upper: nat, e: Edge)
    requires IsGraphOf(lines, edges) && MinWordLen <= length && upper == length + 1 <= MaxWordLen
    requires e in AddRemoveEdges(Bucket(lines, length), Bucket(lines, upper), length, upper)
    ensures e in edges
  {
    var lut := LutEntries(MaxWordLen);
    var dict, rounds :| IsDictionaryOf(lines, dict) && IsRounds(dict, lut, rounds) && edges == EdgesUpTo(rounds, MaxWordLen + 1);
    assert dict[length] == Bucket(lines, length) && dict[upper] == Bucket(lines, upper);
    LongerInRound(dict, lut, rounds, length, upper, e);
    InEdgesUpTo(rounds, MaxWordLen + 1, length, e);
  }

  /** The remove edges from one length's bucket to the next shorter bucket
      are in the graph. */
  lemma ShorterInGraph(lines: seq<string>, edges: seq<Edge>, length: nat, lower: nat, e: Edge)
    requires IsGraphOf(lines, edges) && MinWordLen <= lower && length == lower + 1 <= MaxWordLen
    requires e in AddRemoveEdges(Bucket(lines, length), Bucket(lines, lower), length, lower)
    ensures e in edges
  {
    var lut := LutEntries(MaxWordLen);
    var dict, rounds :| IsDictionaryOf(lines, dict) && IsRounds(dict, lut, rounds) && edges == EdgesUpTo(rounds, MaxWordLen + 1);
    assert dict[length] == Bucket(lines, length) && dict[lower] == Bucket(lines, lower);
    ShorterInRound(dict, lut, rounds, length, lower, e);
    InEdgesUpTo(rounds, MaxWordLen + 1, length, e);
  }

  // ---------------------------------------------------------------------
  // Soundness: every edge joins two input words one edit apart

  /** A change edge of one bucket joins two input words of that length that
      are equal or differ in exactly one letter. */
  lemma ChangeEdgeSound(lines: seq<string>, length: nat, e: Edge)
    requires WellFormed(lines) && MinWordLen <= length <= MaxWordLen
    requires e in ChangeEdges(Bucket(lines, length), length, LutEntries(MaxWordLen))
    ensures e.kind == Change && e.source in lines && e.target in lines
    ensures |e.source| == length && |e.target| == length
    ensures e.source == e.target || IsOneLetterDiff(e.source, e.target)
  {
    var bucket, words := Bucket(lines, length), Words(lines, length);
    var i, j := ChangeEdgesSource(bucket, length, LutEntries(MaxWordLen), e);
    BucketDecodes(lines, length);
    BucketEncodes(lines, length);
    WordsAreWords(lines, length);
    LutMembershipExact(words[i], words[j], MaxWordLen);
    DiffCountZero(words[i], words[j]);
  }

  /** An add/remove edge between two buckets joins an input word of the
      first length to an input word of the second, one edit apart, with the
      tag of the two lengths. */
  lemma AddRemoveEdgeSound(lines: seq<string>, lenFrom: nat, lenTo: nat, e: Edge)
    requires WellFormed(lines)
    requires MinWordLen <= lenFrom <= MaxWordLen && MinWordLen <= lenTo <= MaxWordLen
    requires e in AddRemoveEdges(Bucket(lines, lenFrom), Bucket(lines, lenTo), lenFrom, lenTo)
    ensures e.kind == Tag(lenFrom, lenTo) && e.source in lines && e.target in lines
    ensures |e.source| == lenFrom && |e.target| == lenTo && IsOneLetterDiff(e.source, e.target)
  {
    var a, b := AddRemoveSource(Bucket(lines, lenFrom), Bucket(lines, lenTo), lenFrom, lenTo, e);
    BucketDecodes(lines, lenFrom);
    BucketDecodes(lines, lenTo);
  }

  /** What an edge of the graph says about its two words: both are input
      words with lengths in range; a "change" edge joins two words of one
      length that are equal (a word listed twice) or differ in one letter,
      an "add" edge a word to a word one letter longer that it becomes by
      inserting a letter, a "remove" edge the reverse. */
  predicate Joins(lines: seq<string>, e: Edge) {
    e.source in lines && e.target in lines &&
    MinWordLen <= |e.source| <= MaxWordLen && MinWordLen <= |e.target| <= MaxWordLen &&
    match e.kind
    case Change => |e.source| == |e.target| && (e.source == e.target || IsOneLetterDiff(e.source, e.target))
    case Add => |e.target| == |e.source| + 1 && IsOneLetterDiff(e.source, e.target)
    case Remove => |e.source| == |e.target| + 1 && IsOneLetterDiff(e.source, e.target)
  }

  /** A change edge of a round joins two input words as its tag says. */
  lemma ChangeJoins(lines: seq<string>, dict: map<nat, seq<int>>, length: nat, e: Edge)
    requires WellFormed(lines) && IsDictionaryOf(lines, dict) && MinWordLen <= length <= MaxWordLen
    requires e in ChangeEdges(dict[length], length, LutEntries(MaxWordLen))
    ensures Joins(lines, e)
  {
    assert dict[length] == Bucket(lines, length);
    ChangeEdgeSound(lines, length, e);
  }

  /** An add/remove edge of a round joins two input words as its tag says. */
  lemma AddRemoveJoins(lines: seq<string>, dict: map<nat, seq<int>>, lenFrom: nat, lenTo: nat, e: Edge)
    requires WellFormed(lines) && IsDictionaryOf(lines, dict)
    requires MinWordLen <= lenFrom <= MaxWordLen && MinWordLen <= lenTo <= MaxWordLen
    requires lenFrom == lenTo + 1 || lenTo == lenFrom + 1
    requires e in AddRemoveEdges(dict[lenFrom], dict[lenTo], lenFrom, lenTo)
    ensures Joins(lines, e)
  {
    assert dict[lenFrom] == Bucket(lines, lenFrom) && dict[lenTo] == Bucket(lines, lenTo);
    AddRemoveEdgeSound(lines, lenFrom, lenTo, e);
  }

  /** A change edge of a round joins two input words as its tag says. */
  lemma ChangeStageJoins(lines: seq<string>, dict: map<nat, seq<int>>, length: nat, e: Edge)
    requires WellFormed(lines) && IsDictionaryOf(lines, dict) && MinWordLen <= length <= MaxWordLen
    requires e in StageEdges(dict, LutEntries(MaxWordLen), length) && e.kind == Change
    ensures Joins(lines, e)
  {
    ChangePart(dict, LutEntries(MaxWordLen), length, e);
    ChangeJoins(lines, dict, length, e);
  }

  /** A remove edge of a round joins two input words as its tag says. */
  lemma RemoveStageJoins(lines: seq<string>, dict: map<nat, seq<int>>, length: nat, e: Edge)
    requires WellFormed(lines) && IsDictionaryOf(lines, dict) && MinWordLen <= length <= MaxWordLen
    requires e in StageEdges(dict, LutEntries(MaxWordLen), length) && e.kind == Remove
    ensures Joins(lines, e)
  {
    RemovePart(dict, LutEntries(MaxWordLen), length, e);
    AddRemoveJoins(lines, dict, length, length - 1, e);
  }

  /** An add edge of a round joins two input words as its tag says. */
  lemma AddStageJoins(lines: seq<string>, dict: map<nat, seq<int>>, length: nat, e: Edge)
    requires WellFormed(lines) && IsDictionaryOf(lines, dict) && MinWordLen <= length <= MaxWordLen
    requires e in StageEdges(dict, LutEntries(MaxWordLen), length) && e.kind == Add
    ensures Joins(lines, e)
  {
    AddPart(dict, LutEntries(MaxWordLen), length, e);
    AddRemoveJoins(lines, dict, length, length + 1, e);
  }

  /** Every edge a round appends joins two input words as its tag says. */
  lemma StageSound(lines: seq<string>, dict: map<nat, seq<int>>, length: nat, e: Edge)
    requires WellFormed(lines) && IsDictionaryOf(lines, dict) && MinWordLen <= length <= MaxWordLen
    requires e in StageEdges(dict, LutEntries(MaxWordLen), length)
    ensures Joins(lines, e)
  {
    match e.kind
    case Change => ChangeStageJoins(lines, dict, length, e);
    case Remove => RemoveStageJoins(lines, dict, length, e);
    case Add => AddStageJoins(lines, dict, length, e);
  }

  /** Every edge of the graph joins two input words as its tag says. */
  lemma GraphSound(lines: seq<string>, edges: seq<Edge>, e: Edge)
    requires IsGraphOf(lines, edges)
    requires WellFormed(lines) && e in edges
    ensures Joins(lines, e)
  {
    var dict, length := GraphSource(lines, edges, e);
    StageSound(lines, dict, length, e);
  }

  // ---------------------------------------------------------------------
  // Completeness: every pair of input words one edit apart is connected

  /** The codes of two words of one bucket that differ in one letter xor to
      an entry of the table. */
  lemma BucketPairInTable(lines: seq<string>, length: nat, i: nat, j: nat)
    requires WellFormed(lines) && MinWordLen <= length <= MaxWordLen
    requires i < |Words(lines, length)| && j < |Words(lines, length)|
    requires DiffCount(Words(lines, length)[i], Words(lines, length)[j]) <= 1
    ensures |Bucket(lines, length)| == |Words(lines, length)|
    ensures Xor(Bucket(lines, length)[i], Bucket(lines, length)[j]) in LutEntries(MaxWordLen)
  {
    BucketEncodes(lines, length);
    WordsAreWords(lines, length);
    LutMembershipExact(Words(lines, length)[i], Words(lines, length)[j], MaxWordLen);
  }

  /** The scan over one bucket puts the change edge (word i, word j) in the
      graph for every j < i whose codes xor to an entry of the table. */
  lemma BucketPairInGraph(lines: seq<string>, edges: seq<Edge>, length: nat, i: nat, j: nat)
    requires IsGraphOf(lines, edges)
    requires WellFormed(lines) && MinWordLen <= length <= MaxWordLen
    requires j < i < |Bucket(lines, length)|
    requires Xor(Bucket(lines, length)[i], Bucket(lines, length)[j]) in LutEntries(MaxWordLen)
    ensures |Bucket(lines, length)| == |Words(lines, length)|
    ensures Edge(Words(lines, length)[i], Words(lines, length)[j], Change) in edges
  {
    BucketDecodes(lines, length);
    ChangeEdgesComplete(Bucket(lines, length), length, LutEntries(MaxWordLen), i, j);
    ChangeInGraph(lines, edges, length, Edge(Words(lines, length)[i], Words(lines, length)[j], Change));
  }

  /** Two input words of one length that differ in one letter are joined by
      a change edge in one direction or the other. */
  lemma GraphHasChange(lines: seq<string>, edges: seq<Edge>, u: string, v: string)
    requires IsGraphOf(lines, edges)
    requires WellFormed(lines) && u in lines && v in lines
    requires MinWordLen <= |u| <= MaxWordLen && |u| == |v| && IsOneLetterDiff(u, v)
    ensures Edge(u, v, Change) in edges || Edge(v, u, Change) in edges
  {
    var length := |u|;
    var words := Words(lines, length);
    WordsComplete(lines, length);
    var p :| 0 <= p < |words| && words[p] == u;
    var q :| 0 <= q < |words| && words[q] == v;
    DiffCountZero(u, v);
    DiffCountSymmetric(u, v);
    if q < p {
      BucketPairInTable(lines, length, p, q);
      BucketPairInGraph(lines, edges, length, p, q);
    } else {
      BucketPairInTable(lines, length, q, p);
      BucketPairInGraph(lines, edges, length, q, p);
    }
  }

  /** An input word whose length is in range has its code in the bucket of
      that length. */
  lemma InBucket(lines: seq<string>, w: string) returns (a: nat)
    requires WellFormed(lines) && w in lines && MinWordLen <= |w| <= MaxWordLen
    ensures a < |Bucket(lines, |w|)| && Decode(Bucket(lines, |w|)[a], |w|) == w
  {
    WordsComplete(lines, |w|);
    a :| 0 <= a < |Words(lines, |w|)| && Words(lines, |w|)[a] == w;
    BucketDecodes(lines, |w|);
  }

  /** The scan from one bucket to the next longer puts in the graph the add
      edge between any two of their words one edit apart. */
  lemma AddPairInGraph(lines: seq<string>, edges: seq<Edge>, short: nat, a: nat, b: nat)
    requires IsGraphOf(lines, edges)
    requires MinWordLen <= short && short + 1 <= MaxWordLen
    requires a < |Bucket(lines, short)| && b < |Bucket(lines, short + 1)|
    requires IsOneLetterDiff(Decode(Bucket(lines, short)[a], short), Decode(Bucket(lines, short + 1)[b], short + 1))
    ensures Edge(Decode(Bucket(lines, short)[a], short), Decode(Bucket(lines, short + 1)[b], short + 1), Add) in edges
  {
    AddRemoveComplete(Bucket(lines, short), Bucket(lines, short + 1), short, short + 1, a, b);
    LongerInGraph(lines, edges, short, short + 1,
      Edge(Decode(Bucket(lines, short)[a], short), Decode(Bucket(lines, short + 1)[b], short + 1), Add));
  }

  /** The add edge from a word to a one-letter-longer input word it becomes
      by inserting a letter is in the graph. */
  lemma GraphHasAdd(lines: seq<string>, edges: seq<Edge>, short: nat, u: string, v: string)
    requires IsGraphOf(lines, edges)
    requires WellFormed(lines) && u in lines && v in lines
    requires MinWordLen <= short && short + 1 <= MaxWordLen
    requires |u| == short && |v| == short + 1 && IsOneLetterDiff(u, v)
    ensures Edge(u, v, Add) in edges
  {
    var a := InBucket(lines, u);
    var b := InBucket(lines, v);
    AddPairInGraph(lines, edges, short, a, b);
  }

  /** The scan from one bucket back to the next shorter puts in the graph
      the remove edge mirroring each add edge between them. */
  lemma RemovePairInGraph(lines: seq<string>, edges: seq<Edge>, short: nat, a: nat, b: nat)
    requires IsGraphOf(lines, edges)
    requires MinWordLen <= short && short + 1 <= MaxWordLen
    requires a < |Bucket(lines, short)| && b < |Bucket(lines, short + 1)|
    requires IsOneLetterDiff(Decode(Bucket(lines, short)[a], short), Decode(Bucket(lines, short + 1)[b], short + 1))
    ensures Edge(Decode(Bucket(lines, short + 1)[b], short + 1), Decode(Bucket(lines, short)[a], short), Remove) in edges
  {
    var u, v := Decode(Bucket(lines, short)[a], short), Decode(Bucket(lines, short + 1)[b], short + 1);
    AddRemoveComplete(Bucket(lines, short), Bucket(lines, short + 1), short, short + 1, a, b);
    AddMirrorInGraph(lines, edges, short, u, v);
  }

  /** The remove edge back from the longer word to the shorter is in the
      graph too. */
  lemma GraphHasRemove(lines: seq<string>, edges: seq<Edge>, short: nat, u: string, v: string)
    requires IsGraphOf(lines, edges)
    requires WellFormed(lines) && u in lines && v in lines
    requires MinWordLen <= short && short + 1 <= MaxWordLen
    requires |u| == short && |v| == short + 1 && IsOneLetterDiff(u, v)
    ensures Edge(v, u, Remove) in edges
  {
    var a := InBucket(lines, u);
    var b := InBucket(lines, v);
    RemovePairInGraph(lines, edges, short, a, b);
  }

  /** An input word and an input word one letter longer that it becomes by
      inserting a letter are joined both ways: (short, long, add) and
      (long, short, remove). */
  lemma GraphHasAddRemove(lines: seq<string>, edges: seq<Edge>, u: string, v: string)
    requires IsGraphOf(lines, edges)
    requires WellFormed(lines) && u in lines && v in lines
    requires MinWordLen <= |u| && |v| <= MaxWordLen && |v| == |u| + 1 && IsOneLetterDiff(u, v)
    ensures Edge(u, v, Add) in edges && Edge(v, u, Remove) in edges
  {
    GraphHasAdd(lines, edges, |u|, u, v);
    GraphHasRemove(lines, edges, |u|, u, v);
  }

  /** An add edge of the graph was appended by add_remove_pairs from some
      length's bucket to the next length's bucket. */
  lemma AddEdgeSource(lines: seq<string>, edges: seq<Edge>, u: string, v: string) returns (length: nat)
    requires IsGraphOf(lines, edges)
    requires Edge(u, v, Add) in edges
    ensures MinWordLen <= length < MaxWordLen
    ensures Edge(u, v, Add) in AddRemoveEdges(Bucket(lines, length), Bucket(lines, length + 1), length, length + 1)
  {
    var dict;
    dict, length := GraphSource(lines, edges, Edge(u, v, Add));
    AddPart(dict, LutEntries(MaxWordLen), length, Edge(u, v, Add));
    assert dict[length] == Bucket(lines, length) && dict[length + 1] == Bucket(lines, length + 1);
  }

  /** A remove edge of the graph was appended by add_remove_pairs from the
      bucket of some length to the bucket one letter shorter. */
  lemma RemoveEdgeSource(lines: seq<string>, edges: seq<Edge>, v: string, u: string) returns (length: nat)
    requires IsGraphOf(lines, edges)
    requires Edge(v, u, Remove) in edges
    ensures MinWordLen < length <= MaxWordLen
    ensures Edge(v, u, Remove) in AddRemoveEdges(Bucket(lines, length), Bucket(lines, length - 1), length, length - 1)
  {
    var dict;
    dict, length := GraphSource(lines, edges, Edge(v, u, Remove));
    RemovePart(dict, LutEntries(MaxWordLen), length, Edge(v, u, Remove));
    assert dict[length] == Bucket(lines, length) && dict[length - 1] == Bucket(lines, length - 1);
  }

  /** The remove mirror of an add edge between two buckets is in the graph. */
  lemma AddMirrorInGraph(lines: seq<string>, edges: seq<Edge>, length: nat, u: string, v: string)
    requires IsGraphOf(lines, edges)
    requires MinWordLen <= length < MaxWordLen
    requires Edge(u, v, Add) in AddRemoveEdges(Bucket(lines, length), Bucket(lines, length + 1), length, length + 1)
    ensures Edge(v, u, Remove) in edges
  {
    AddMirror(Bucket(lines, length), Bucket(lines, length + 1), length, length + 1, u, v);
    ShorterInGraph(lines, edges, length + 1, length, Edge(v, u, Remove));
  }

  /** The add mirror of a remove edge between two buckets is in the graph. */
  lemma RemoveMirrorInGraph(lines: seq<string>, edges: seq<Edge>, length: nat, u: string, v: string)
    requires IsGraphOf(lines, edges)
    requires MinWordLen < length <= MaxWordLen
    requires Edge(v, u, Remove) in AddRemoveEdges(Bucket(lines, length), Bucket(lines, length - 1), length, length - 1)
    ensures Edge(u, v, Add) in edges
  {
    RemoveMirror(Bucket(lines, length - 1), Bucket(lines, length), length - 1, length, u, v);
    LongerInGraph(lines, edges, length - 1, length, Edge(u, v, Add));
  }

  /** Every add edge (u, v) of the graph has the remove edge (v, u). */
  lemma AddMirrored(lines: seq<string>, edges: seq<Edge>, u: string, v: string)
    requires IsGraphOf(lines, edges)
    requires Edge(u, v, Add) in edges
    ensures Edge(v, u, Remove) in edges
  {
    var length := AddEdgeSource(lines, edges, u, v);
    AddMirrorInGraph(lines, edges, length, u, v);
  }

  /** Every remove edge (v, u) of the graph has the add edge (u, v). */
  lemma RemoveMirrored(lines: seq<string>, edges: seq<Edge>, u: string, v: string)
    requires IsGraphOf(lines, edges)
    requires Edge(v, u, Remove) in edges
    ensures Edge(u, v, Add) in edges
  {
    var length := RemoveEdgeSource(lines, edges, v, u);
    RemoveMirrorInGraph(lines, edges, length, u, v);
  }

  /** The graph's add and remove edges mirror each other: (u, v, add) is an
      edge exactly when (v, u, remove) is. */
  lemma GraphMirror(lines: seq<string>, edges: seq<Edge>, u: string, v: string)
    requires IsGraphOf(lines, edges)
    ensures Edge(u, v, Add) in edges <==> Edge(v, u, Remove) in edges
  {
    if Edge(u, v, Add) in edges {
      AddMirrored(lines, edges, u, v);
    }
    if Edge(v, u, Remove) in edges {
      RemoveMirrored(lines, edges, u, v);
    }
  }

  /** A word listed twice is joined to itself by a change edge: the table
      holds 0, the xor of equal codes. */
  lemma GraphDuplicateSelfLoop(lines: seq<string>, edges: seq<Edge>, p: nat, q: nat)
    requires IsGraphOf(lines, edges)
    requires WellFormed(lines) && p < q < |lines| && lines[p] == lines[q]
    requires MinWordLen <= |lines[p]| <= MaxWordLen
    ensures Edge(lines[p], lines[p], Change) in edges
  {
    var length := |lines[p]|;
    var k1, k2 := WordsTwice(lines, length, p, q);
    DiffCountZero(lines[p], lines[q]);
    BucketPairInTable(lines, length, k2, k1);
    BucketPairInGraph(lines, edges, length, k2, k1);
  }
}
