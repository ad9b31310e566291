/** The export step: node labels made safe for DOT, the weight of each kind
    of edge, and the rows written for the nodes and for the edges (the files
    themselves are not modelled). */
module Export {
  import opened WordCodec
  import opened Dictionary
  import opened GraphBuilder
  import opened WordGraph

  /** The words DOT reserves, which cannot name a node as they are (only
      membership in the source's list is ever asked). */
  const Keywords: set<string> := {"NODE", "EDGE", "GRAPH", "DIGRAPH", "SUBGRAPH", "STRICT"}

  /** fix_keyword: a reserved word gets a leading underscore; every other
      word is kept.  The label is never reserved. */
  function FixKeyword(w: string): (r: string)
    ensures r !in Keywords
    ensures r == w <==> w !in Keywords
    ensures w in Keywords ==> r == "_" + w
  {
    if w in Keywords then
      assert forall k :: k in Keywords ==> k[0] != '_';
      "_" + w
    else w
  }

  /** A fixed word over A-Z starts with an underscore exactly when it was
      reserved. */
  lemma FixedStartsWithUnderscore(w: string)
    requires IsWord(w)
    ensures (|FixKeyword(w)| > 0 && FixKeyword(w)[0] == '_') <==> w in Keywords
  {
    if w in Keywords {
      assert FixKeyword(w)[0] == '_';
    } else if |w| > 0 {
      assert IsLetter(w[0]);
    }
  }

  /** Fixing is idempotent, and on words over A-Z it keeps distinct words
      distinct (no word over A-Z starts with an underscore), so node labels
      identify their words. */
  lemma FixKeywordInjective(a: string, b: string)
    requires IsWord(a) && IsWord(b)
    ensures FixKeyword(FixKeyword(a)) == FixKeyword(a)
    ensures FixKeyword(a) == FixKeyword(b) <==> a == b
  {
    FixedStartsWithUnderscore(a);
    FixedStartsWithUnderscore(b);
    if FixKeyword(a) == FixKeyword(b) && a in Keywords {
      assert a == FixKeyword(a)[1..] && b == FixKeyword(b)[1..];
    }
  }

  /** The weight written for each kind of edge: one for adding or removing a
      letter, two for changing one. */
  function Weight(kind: Kind): (w: nat)
    ensures 1 <= w <= 2
    ensures w == 2 <==> kind == Change
  {
    match kind
    case Add => 1
    case Remove => 1
    case Change => 2
  }

  /** One row of the edge file: both labels fixed, and the weight. */
  datatype EdgeRecord = EdgeRecord(source: string, target: string, weight: nat)

  function EdgeRow(e: Edge): (row: EdgeRecord)
    ensures row.source !in Keywords && row.target !in Keywords
    ensures row.weight == Weight(e.kind)
  {
    EdgeRecord(FixKeyword(e.source), FixKeyword(e.target), Weight(e.kind))
  }

  /** The loop over all_pairs that writes the edge file, one row per edge in
      order. */
  method EdgeRows(edges: seq<Edge>) returns (rows: seq<EdgeRecord>)
    ensures |rows| == |edges|
    ensures forall k :: 0 <= k < |rows| ==> rows[k] == EdgeRow(edges[k])
  {
    rows := [];
    for k := 0 to |edges|
      invariant |rows| == k
      invariant forall m :: 0 <= m < k ==> rows[m] == EdgeRow(edges[m])
    {
      var e := edges[k];
      var weight := if e.kind == Add then 1 else if e.kind == Remove then 1 else 2;
      rows := rows + [EdgeRecord(FixKeyword(e.source), FixKeyword(e.target), weight)];
    }
  }

  /** An input word whose length is in range is a word over A-Z. */
  lemma InputWord(lines: seq<string>, w: string)
    requires WellFormed(lines) && w in lines && MinWordLen <= |w| <= MaxWordLen
    ensures IsWord(w)
  {
    var k :| 0 <= k < |lines| && lines[k] == w;
  }

  /** Although add and remove edges share a weight, a row of the edge file
      still identifies its edge of the graph: the labels give back the words
      and the lengths of the words tell add from remove. */
  lemma EdgeRowIdentifiesEdge(lines: seq<string>, edges: seq<Edge>, e1: Edge, e2: Edge)
    requires WellFormed(lines) && IsGraphOf(lines, edges) && e1 in edges && e2 in edges
    ensures EdgeRow(e1) == EdgeRow(e2) <==> e1 == e2
  {
    GraphSound(lines, edges, e1);
    GraphSound(lines, edges, e2);
    InputWord(lines, e1.source);
    InputWord(lines, e1.target);
    InputWord(lines, e2.source);
    InputWord(lines, e2.target);
    FixKeywordInjective(e1.source, e2.source);
    FixKeywordInjective(e1.target, e2.target);
  }

  // ---------------------------------------------------------------------
  // The node file

  /** The labels written for one bucket, in order: make_word of each code,
      fixed. */
  function BucketLabels(codes: seq<int>, length: nat): (labels: seq<string>)
    ensures |labels| == |codes|
  {
    seq(|codes|, k requires 0 <= k < |codes| => FixKeyword(Decode(codes[k], length)))
  }

  /** The labels written for the buckets of the lengths below n, in order. */
  function NodeLabels(dict: map<nat, seq<int>>, n: nat): seq<string>
    requires HasAllLengths(dict) && n <= MaxWordLen + 1
  {
    if n <= MinWordLen then [] else NodeLabels(dict, n - 1) + BucketLabels(dict[n - 1], n - 1)
  }

  /** The loops that write the node file: for each length, one label per
      code of its bucket. */
  method NodeRows(dict: map<nat, seq<int>>) returns (rows: seq<string>)
    requires HasAllLengths(dict)
    ensures rows == NodeLabels(dict, MaxWordLen + 1)
  {
    rows := [];
    for length := MinWordLen to MaxWordLen + 1
      invariant rows == NodeLabels(dict, length)
    {
      ghost var before := rows;
      var bucket := dict[length];
      for k := 0 to |bucket|
        invariant rows == before + BucketLabels(bucket, length)[..k]
      {
        var word := MakeWord(bucket[k], length);
        rows := rows + [FixKeyword(word)];
        assert BucketLabels(bucket, length)[..k + 1] == BucketLabels(bucket, length)[..k] + [FixKeyword(word)];
      }
      assert BucketLabels(bucket, length)[..|bucket|] == BucketLabels(bucket, length);
    }
  }

  /** A label of the node file for the lengths below n comes from the
      lengths below n - 1 or from the bucket of length n - 1. */
  lemma NodeLabelsSplit(dict: map<nat, seq<int>>, n: nat, node: string)
    requires HasAllLengths(dict) && n <= MaxWordLen + 1 && node in NodeLabels(dict, n)
    ensures n > MinWordLen
    ensures node in NodeLabels(dict, n - 1) || node in BucketLabels(dict[n - 1], n - 1)
  {
  }

  /** A label of the node file comes from the bucket of some length. */
  lemma {:induction false} NodeLabelsSource(dict: map<nat, seq<int>>, n: nat, node: string) returns (length: nat)
    requires HasAllLengths(dict) && n <= MaxWordLen + 1 && node in NodeLabels(dict, n)
    ensures MinWordLen <= length < n && node in BucketLabels(dict[length], length)
  {
    NodeLabelsSplit(dict, n, node);
    if node in NodeLabels(dict, n - 1) {
      length := NodeLabelsSource(dict, n - 1, node);
    } else {
      length := n - 1;
    }
  }

  /** Every label of the bucket of a length below n is in the node file. */
  lemma {:induction false} InNodeLabels(dict: map<nat, seq<int>>, n: nat, length: nat, node: string)
    requires HasAllLengths(dict) && n <= MaxWordLen + 1
    requires MinWordLen <= length < n && node in BucketLabels(dict[length], length)
    ensures node in NodeLabels(dict, n)
  {
    if length < n - 1 {
      InNodeLabels(dict, n - 1, length, node);
    }
  }

  /** Every label of the node file is the fixed form of an input word whose
      length is in range. */
  lemma NodeLabelSound(lines: seq<string>, node: string) returns (w: string)
    requires WellFormed(lines) && node in NodeLabels(Buckets(lines), MaxWordLen + 1)
    ensures w in lines && MinWordLen <= |w| <= MaxWordLen && node == FixKeyword(w)
  {
    BucketsAt(lines);
    var length := NodeLabelsSource(Buckets(lines), MaxWordLen + 1, node);
    assert Buckets(lines)[length] == Bucket(lines, length);
    var labels := BucketLabels(Bucket(lines, length), length);
    var k :| 0 <= k < |labels| && labels[k] == node;
    BucketDecodes(lines, length);
    w := Words(lines, length)[k];
  }

  /** Every input word whose length is in range has its fixed form in the
      node file. */
  lemma NodeLabelComplete(lines: seq<string>, w: string)
    requires WellFormed(lines) && w in lines && MinWordLen <= |w| <= MaxWordLen
    ensures FixKeyword(w) in NodeLabels(Buckets(lines), MaxWordLen + 1)
  {
    var length := |w|;
    WordsComplete(lines, length);
    var k :| 0 <= k < |Words(lines, length)| && Words(lines, length)[k] == w;
    BucketDecodes(lines, length);
    assert BucketLabels(Bucket(lines, length), length)[k] == FixKeyword(w);
    BucketsAt(lines);
    assert Buckets(lines)[length] == Bucket(lines, length);
    InNodeLabels(Buckets(lines), MaxWordLen + 1, length, FixKeyword(w));
  }
}
