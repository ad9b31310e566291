# Word chain graph builder, modelled in Dafny

This project models the graph-building core of `wcs_expanded.py`, a script
that links the words of a word list when one becomes the other through a
single edit. The edit can change one letter (a "change" edge, weight 2), add
one letter (an "add" edge, weight 1) or remove one letter (a "remove" edge,
weight 1). The script keeps words of 2 to 6 letters.

It works in these steps:
- It packs a word into an integer, one byte per letter (`make_number`,
  `make_word`).
- It builds a lookup table of one-lane xor patterns (`pair_lut`).
- It buckets the input lines by length, as codes.
- It scans each bucket for change pairs with one xor and one table lookup.
- It scans adjacent buckets with `add_remove_pairs`.
- It writes node labels, with DOT keywords escaped, and weighted edges.

The model keeps the source's form:
- The packing loops, the table loops, the bucketing loop and every scan are
  methods with loops.
- The global `all_pairs` list is the field `allPairs` of the class
  `GraphBuilder.Connections`. Its methods append to that field.
- Each method is proved equal to a specification function.

The lemmas say what the result means:
- The codec round-trips.
- The table test is exact: for equal-length words over A-Z, the xor is in
  the table exactly when at most one letter differs.
- Every edge of the final graph joins two input words as its tag says
  (soundness).
- Every pair of input words one edit apart is connected (completeness).
- Add and remove edges mirror each other.
- A bucket of n words gives at most n(n-1)/2 change edges.
- The exported rows never use a DOT keyword, and a row still identifies its
  edge.

The graph lemmas speak of any edge list satisfying `WordGraph.IsGraphOf`:
the rounds of the driver over the dictionary of the lines, for lengths 2..6
in order. `WordGraph.BuildWordGraph` returns such a list, and
`WordGraph.GraphUnique` shows there is only one.

Modules, one file each, in dependency order:
- `WordCodec`: `make_number` and `make_word`.
- `Bits`: Python's `^` on integers.
- `DiffDetector`: `are_pair`, `are_pair_num` and `are_one_letter_diff`.
- `PairLut`: the table.
- `Dictionary`: the buckets.
- `GraphBuilder`: `add_remove_pairs`, the same-length scan and the driver.
- `EdgeFacts`: what the scans append.
- `WordGraph`: the whole pipeline and the graph-level theorems.
- `Export`: `fix_keyword`, the weights and the rows of the two files.

Two behaviours of the code are worth stating outright:
- The loader keeps every line of length 2..6 and does not check the
  alphabet. The graph lemmas therefore assume `Dictionary.WellFormed`, which
  says such lines are words over A-Z.
- `pair_lut` contains 0 (the pattern j = 0 of every lane), so two equal
  words at different positions of a bucket pass the xor test, and a word
  listed twice gets a change edge to itself
  (`WordGraph.GraphDuplicateSelfLoop`). Soundness accordingly allows a
  change edge between equal words.

Lemmas in `EdgeFacts` and `WordGraph` without a row below (for instance
`EdgeFacts.InStage` or `Export.NodeLabelsSplit`) are proof steps, kept
small so that each proof stays cheap; they model nothing of their own.

## Model

| member | source | states |
|---|---|---|
| WordCodec.LetterCode | wcs_expanded.py:17 | ord(c) - ord('A'), which lies in 0..25 exactly for the letters A-Z |
| WordCodec.LetterOf | wcs_expanded.py:25 | defines chr(lane + ord('A')), the character make_word writes for one lane |
| WordCodec.LetterOfInverse | wcs_expanded.py:17-25 | LetterOf undoes LetterCode on every lane 0..255 and gives a letter exactly for lanes 0..25 |
| WordCodec.Encode | wcs_expanded.py:13-19 | the code of a word over A-Z lies in 0 .. 256^len - 1, one byte lane per letter |
| WordCodec.MakeNumber | wcs_expanded.py:13-19 | the loop with its running multiplier returns the code Encode(word) |
| WordCodec.Decode | wcs_expanded.py:22-27 | unpacking at a given length yields exactly that many letters |
| WordCodec.MakeWord | wcs_expanded.py:22-27 | the loop of `& 0xFF` and `>>= 8` returns Decode(number, length) |
| WordCodec.Lane | wcs_expanded.py:42 | `(n >> 8i) & 0xFF` is always in 0..255 |
| WordCodec.RoundTrip | wcs_expanded.py:13-27 | make_word(make_number(w), len(w)) == w for every word over A-Z |
| WordCodec.EncodeInjective | wcs_expanded.py:13-19 | two words over A-Z of one length with equal codes are equal |
| WordCodec.LaneOfEncode | wcs_expanded.py:17 | lane i of a word's code is the code of its i-th letter, and 0 past the end of the word |
| WordCodec.EncodeFirstLane | wcs_expanded.py:16-18 | the low byte of a code is its first letter and the rest is the code of the remaining letters |
| Bits.NatXor | wcs_expanded.py:108 | defines `^` on non-negative integers, byte lane by byte lane from the low end |
| Bits.Xor | wcs_expanded.py:108 | Python's `^` on integers: the result is non-negative exactly when both operands have the same sign |
| Bits.XorSelf | wcs_expanded.py:108 | x ^ x == 0 |
| Bits.XorZero | wcs_expanded.py:108 | x ^ y == 0 only when x == y |
| Bits.XorLowLane | wcs_expanded.py:108 | xor works lane by lane: (d + 256 z) ^ (e + 256 w) == (d ^ e) + 256 (z ^ w) for bytes d, e |
| Bits.XorBound | wcs_expanded.py:108 | the xor of two values below 2^k, for k <= 8, is below 2^k |
| DiffDetector.DiffCount | wcs_expanded.py:30-36 | defines the number of positions of w1 at which w1 and w2 differ, at most the length of w1 |
| DiffDetector.ArePair | wcs_expanded.py:30-36 | the early-exit loop returns true exactly when w1 and w2 differ at exactly one position of w1 |
| DiffDetector.DiffCountOne | wcs_expanded.py:30-36 | one difference means exactly one position differs and all others agree, and conversely |
| DiffDetector.DiffCountZero | wcs_expanded.py:30-36 | no difference between equal-length words means they are equal, and conversely |
| DiffDetector.DiffCountSymmetric | wcs_expanded.py:30-36 | the difference count does not depend on argument order |
| DiffDetector.LaneDiffCount | wcs_expanded.py:39-45 | defines the number of the first word_len byte lanes at which two codes differ, at most word_len |
| DiffDetector.ArePairNum | wcs_expanded.py:39-45 | returns true exactly when exactly one of the first word_len byte lanes differs |
| DiffDetector.LaneDiffCountOfEncode | wcs_expanded.py:39-45 | on the codes of two equal-length words over A-Z, lane differences equal letter differences, so are_pair_num agrees with are_pair |
| DiffDetector.IsOneLetterDiff | wcs_expanded.py:60-75 | defines "one edit apart": equal lengths and one differing letter, or lengths differing by one and deleting one letter of the longer gives the shorter |
| DiffDetector.AreOneLetterDiff | wcs_expanded.py:60-75 | returns true exactly when the lengths are equal and one letter differs, or the lengths differ by one and deleting one letter of the longer gives the shorter; otherwise false |
| DiffDetector.DeletionIsInsertion | wcs_expanded.py:67-74 | deleting a letter of the longer word gives the shorter exactly when inserting a letter into the shorter gives the longer |
| DiffDetector.OneLetterDiffSymmetric | wcs_expanded.py:60-75 | the one-edit relation is symmetric |
| DiffDetector.OneLetterDiffIrreflexive | wcs_expanded.py:60-75 | no word is one edit away from itself |
| PairLut.InLane | wcs_expanded.py:84 | defines j << 8i as j * 256^i |
| PairLut.Pow256IsPow2 | wcs_expanded.py:84 | a byte lane is eight bits: 256^i == 2^(8i), so j << 8i is j * 256^i |
| PairLut.LutEntries | wcs_expanded.py:80-84 | defines the table: every j << 8i with j in 0..31 and i below the largest length |
| PairLut.BuildPairLut | wcs_expanded.py:80-84 | the three loops build the set of j << 8i for j < 32 and every lane i below the largest length |
| PairLut.LutEntriesMonotone | wcs_expanded.py:81-84 | the entries for a shorter length are among those for a longer one, so the union over lengths is the table of the largest |
| PairLut.LetterXorBound | wcs_expanded.py:83 | two letter codes xor to less than 32, which is why 32 patterns per lane suffice |
| PairLut.OneDiffIsLanePattern | wcs_expanded.py:83-84 | two equal-length words differing in one letter have codes whose xor is j << 8i with j < 32 and i inside the word |
| PairLut.LanePatternHasAtMostOneDiff | wcs_expanded.py:83-84 | when the xor of two equal-length words' codes is j << 8i with j < 32, they differ in at most one letter |
| PairLut.LutMembershipExact | wcs_expanded.py:80-84 | for equal-length words over A-Z no longer than the table's lanes, the xor of their codes is in the table exactly when at most one letter differs, and for distinct words exactly when one letter differs |
| Dictionary.Bucket | wcs_expanded.py:90-95 | defines the bucket of one length: make_number of each line of that length, in input order |
| Dictionary.Buckets | wcs_expanded.py:88-95 | defines all_words_dict: one bucket for each length 2..6 |
| Dictionary.WellFormed | wcs_expanded.py:93-94 | defines the input the graph lemmas assume: every line of length 2..6 is a word over A-Z |
| Dictionary.Words | wcs_expanded.py:92-95 | the lines kept for a length all have that length and are input lines |
| Dictionary.LoadDictionary | wcs_expanded.py:88-95 | the result maps each length 2..6 to the codes of the lines of that length, in input order |
| Dictionary.BucketDecodes | wcs_expanded.py:88-95 | a bucket has one code per kept line, and code k unpacks to line k |
| Dictionary.BucketEncodes | wcs_expanded.py:88-95 | code k of a bucket is make_number of the k-th kept line |
| Dictionary.WordsComplete | wcs_expanded.py:92-95 | every input line of the bucket's length is kept |
| Dictionary.WordsAreWords | wcs_expanded.py:88-95 | on well-formed input the kept lines are words over A-Z |
| Dictionary.WordsTwice | wcs_expanded.py:92-95 | two lines of one length keep their order in the bucket, and a line listed twice is kept twice |
| GraphBuilder.ChangeEdges | wcs_expanded.py:104-109 | defines the change edges of one bucket: for each i and each j < i in order, (word i, word j, change) when the xor of the codes is in the table |
| GraphBuilder.AddRemoveHit | wcs_expanded.py:54-58 | defines the edge appended for one (word1, word2): none unless one edit apart, tagged remove when word1 is the longer and add otherwise |
| GraphBuilder.AddRemoveEdges | wcs_expanded.py:47-58 | defines what add_remove_pairs appends: AddRemoveHit for each word1 of the first list against each word2 of the second, in order |
| GraphBuilder.ShorterEdges | wcs_expanded.py:112-113 | defines the scan against length - 1, empty at the shortest length |
| GraphBuilder.LongerEdges | wcs_expanded.py:116-117 | defines the scan against length + 1, empty at the longest length |
| GraphBuilder.StageEdges | wcs_expanded.py:104-117 | defines one round of the driver: the change edges, then ShorterEdges, then LongerEdges |
| GraphBuilder.Rounds | wcs_expanded.py:103-117 | defines the round of every length 2..6 |
| GraphBuilder.Connections.constructor | wcs_expanded.py:100 | all_pairs starts empty |
| GraphBuilder.Connections.ChangePairs | wcs_expanded.py:104-109 | appends exactly the change edges of the bucket, from the rows i in order, and leaves what was there |
| GraphBuilder.Connections.ChangeRowScan | wcs_expanded.py:105-109 | row i appends (word i, word j, change) for each j < i in order whose xor is in the table |
| GraphBuilder.Connections.AddRemovePairs | wcs_expanded.py:47-58 | appends exactly the add/remove edges, with w1 over the first list and w2 over the second, each in order; the list is only appended to |
| GraphBuilder.Connections.AddRemoveRowScan | wcs_expanded.py:51-58 | for one word1, appends an edge for each one-edit word2 in order |
| GraphBuilder.Connections.AddIfOneEdit | wcs_expanded.py:54-58 | appends (word1, word2, remove) when word1 is the longer and (word1, word2, add) otherwise, only when the two are one edit apart |
| GraphBuilder.Connections.ConnectLength | wcs_expanded.py:104-117 | one round appends its change edges, then its edges against length - 1, then against length + 1 |
| GraphBuilder.Connections.ConnectShorter | wcs_expanded.py:112-113 | appends the edges against the shorter bucket only above the minimum length |
| GraphBuilder.Connections.ConnectLonger | wcs_expanded.py:116-117 | appends the edges against the longer bucket only below the maximum length |
| GraphBuilder.Connections.NextRound | wcs_expanded.py:103-117 | one pass of the driver loop appends the next round |
| GraphBuilder.Connections.FindAllConnections | wcs_expanded.py:103-117 | appends the rounds for lengths 2..6 in order |
| GraphBuilder.WordAt | wcs_expanded.py:105 | make_word of entry k of a bucket is the k-th word it stands for |
| EdgeFacts.ChangeEdgesSource | wcs_expanded.py:104-109 | every change edge comes from a pair j < i whose codes xor into the table, and joins word i to word j |
| EdgeFacts.ChangeEdgesComplete | wcs_expanded.py:104-109 | every pair j < i whose codes xor into the table gives its change edge |
| EdgeFacts.ChangeRowsSize | wcs_expanded.py:104-106 | rows 0..n-1 emit at most n(n-1)/2 edges |
| EdgeFacts.ChangeEdgesSize | wcs_expanded.py:104-106 | each unordered pair is visited once, so a bucket of n codes gives at most n(n-1)/2 change edges |
| EdgeFacts.Tag | wcs_expanded.py:55-58 | an add/remove edge is never "change", and is "remove" exactly when the first length is the larger |
| EdgeFacts.AddRemoveSource | wcs_expanded.py:47-58 | every edge of add_remove_pairs joins a word of the first list to a word of the second, one edit apart, with the tag of the two lengths |
| EdgeFacts.AddRemoveComplete | wcs_expanded.py:47-58 | every one-edit pair from the first list to the second is appended with its tag |
| EdgeFacts.MirrorEdges | wcs_expanded.py:47-58 | the scan from the shorter bucket gives (u, v, add) exactly when the scan back gives (v, u, remove) |
| EdgeFacts.ChangeKind | wcs_expanded.py:109 | the same-length scan only emits "change" edges |
| EdgeFacts.AddRemoveKind | wcs_expanded.py:55-58 | add_remove_pairs only emits the tag of its two lengths |
| EdgeFacts.ShorterKind | wcs_expanded.py:112-113 | edges against the shorter bucket exist only above the minimum length and are all "remove" |
| EdgeFacts.LongerKind | wcs_expanded.py:116-117 | edges against the longer bucket exist only below the maximum length and are all "add" |
| EdgeFacts.AddMirror | wcs_expanded.py:47-58 | for adjacent lengths, each (u, v, add) of the scan from the shorter bucket comes back as (v, u, remove) from the scan the other way |
| EdgeFacts.RemoveMirror | wcs_expanded.py:47-58 | for adjacent lengths, each (v, u, remove) of the scan from the longer bucket comes back as (u, v, add) from the scan the other way |
| EdgeFacts.StagePart | wcs_expanded.py:103-117 | a round's change edges come from its bucket, its remove edges from the scan against length - 1, and its add edges from the scan against length + 1 |
| EdgeFacts.ChangeInRound | wcs_expanded.py:104-109 | every change edge of a bucket is in the driver's round for its length |
| EdgeFacts.ShorterInRound | wcs_expanded.py:112-113 | every edge of the scan from a bucket to the one letter shorter is in the round for the longer length |
| EdgeFacts.LongerInRound | wcs_expanded.py:116-117 | every edge of the scan from a bucket to the one letter longer is in the round for the shorter length |
| WordGraph.IsGraphOf | wcs_expanded.py:80-117 | defines the edge list of a word list: the rounds for lengths 2..6 in order, over the buckets of the lines and the table for lengths up to 6 |
| WordGraph.BuildWordGraph | wcs_expanded.py:80-117 | builds the table for lengths up to 6, the dictionary of the lines, and the edge list of the lines: the rounds for lengths 2..6, in order, over that dictionary and table |
| WordGraph.SameRound | wcs_expanded.py:103-117 | two dictionaries of the same lines give the same round for each length |
| WordGraph.RoundsAgree | wcs_expanded.py:103-117 | two dictionaries of the same lines give the same edges for the rounds below every length |
| WordGraph.GraphUnique | wcs_expanded.py:88-117 | the lines determine the edge list: any two edge lists of the same lines are equal |
| WordGraph.GraphSource | wcs_expanded.py:103-117 | every edge of the graph was appended by the round of some length 2..6 |
| WordGraph.ChangeInGraph | wcs_expanded.py:103-109 | every change edge of a bucket of the lines is in the graph |
| WordGraph.LongerInGraph | wcs_expanded.py:116-117 | every edge of the scan from a bucket of the lines to the next longer bucket is in the graph |
| WordGraph.ShorterInGraph | wcs_expanded.py:112-113 | every edge of the scan from a bucket of the lines to the next shorter bucket is in the graph |
| WordGraph.ChangeEdgeSound | wcs_expanded.py:104-109 | a change edge joins two input words of its length that are equal or differ in one letter |
| WordGraph.AddRemoveEdgeSound | wcs_expanded.py:47-58 | an add/remove edge joins input words of its two lengths, one edit apart, with the right tag |
| WordGraph.Joins | wcs_expanded.py:47-117 | defines what an edge says about its words: both are input words of length 2..6; change means equal length and equal or one letter apart, add means the target is one letter longer and one edit away, remove the reverse |
| WordGraph.ChangeJoins | wcs_expanded.py:104-109 | a round's change edges satisfy Joins |
| WordGraph.AddRemoveJoins | wcs_expanded.py:112-117 | a round's add/remove edges satisfy Joins |
| WordGraph.ChangeStageJoins | wcs_expanded.py:104-109 | a change edge of a round satisfies Joins |
| WordGraph.RemoveStageJoins | wcs_expanded.py:112-113 | a remove edge of a round satisfies Joins |
| WordGraph.AddStageJoins | wcs_expanded.py:116-117 | an add edge of a round satisfies Joins |
| WordGraph.StageSound | wcs_expanded.py:103-117 | every edge a round appends satisfies Joins |
| WordGraph.GraphSound | wcs_expanded.py:103-117 | every edge of the graph joins two input words of length 2..6 as its tag says: change means equal length and equal or one letter apart, add means the target is one letter longer and one edit away, remove means the reverse |
| WordGraph.BucketPairInTable | wcs_expanded.py:108 | the codes of two kept words differing in at most one letter xor into the table |
| WordGraph.BucketPairInGraph | wcs_expanded.py:104-109 | every pair j < i of a bucket whose codes xor into the table becomes a change edge of the graph |
| WordGraph.GraphHasChange | wcs_expanded.py:103-109 | two input words of one length differing in one letter are joined by a change edge in one direction |
| WordGraph.InBucket | wcs_expanded.py:88-95 | an input word of length 2..6 has a code in the bucket of its length that unpacks to it |
| WordGraph.AddPairInGraph | wcs_expanded.py:116-117 | each one-edit pair from a bucket to the next longer bucket gives its add edge in the graph |
| WordGraph.GraphHasAdd | wcs_expanded.py:116-117 | an input word and a one-letter-longer input word one edit away are joined by (short, long, add) |
| WordGraph.RemovePairInGraph | wcs_expanded.py:112-113 | each one-edit pair between a bucket and the next longer bucket gives its remove edge from the longer word in the graph |
| WordGraph.GraphHasRemove | wcs_expanded.py:112-113 | an input word and a one-letter-longer input word one edit away are joined by (long, short, remove) |
| WordGraph.GraphHasAddRemove | wcs_expanded.py:111-117 | an input word and a one-letter-longer input word one edit away are joined by both (short, long, add) and (long, short, remove) |
| WordGraph.AddEdgeSource | wcs_expanded.py:116-117 | an add edge of the graph comes from the scan of some bucket against the next longer one |
| WordGraph.RemoveEdgeSource | wcs_expanded.py:112-113 | a remove edge of the graph comes from the scan of some bucket against the next shorter one |
| WordGraph.AddMirrorInGraph | wcs_expanded.py:111-117 | the remove mirror of an add edge between two buckets is in the graph |
| WordGraph.RemoveMirrorInGraph | wcs_expanded.py:111-117 | the add mirror of a remove edge between two buckets is in the graph |
| WordGraph.AddMirrored | wcs_expanded.py:111-117 | every add edge (u, v) of the graph comes with the remove edge (v, u) |
| WordGraph.RemoveMirrored | wcs_expanded.py:111-117 | every remove edge (v, u) of the graph comes with the add edge (u, v) |
| WordGraph.GraphMirror | wcs_expanded.py:111-117 | (u, v, add) is an edge of the graph exactly when (v, u, remove) is |
| WordGraph.GraphDuplicateSelfLoop | wcs_expanded.py:104-109 | a word listed twice gets a change edge to itself, because the table holds 0 |
| Export.Keywords | wcs_expanded.py:121 | the six words DOT reserves: NODE, EDGE, GRAPH, DIGRAPH, SUBGRAPH, STRICT |
| Export.FixKeyword | wcs_expanded.py:122-126 | the label is never a DOT keyword, and is the word itself exactly when the word is not a keyword; otherwise it is the word with a leading underscore |
| Export.FixedStartsWithUnderscore | wcs_expanded.py:122-126 | a fixed word over A-Z starts with an underscore exactly when it was a keyword |
| Export.FixKeywordInjective | wcs_expanded.py:122-126 | fixing is idempotent and keeps distinct words over A-Z distinct |
| Export.Weight | wcs_expanded.py:142-147 | the weight is 1 or 2, and 2 exactly for "change" |
| Export.EdgeRow | wcs_expanded.py:148 | an edge row uses fixed labels, which are never keywords, and the weight of the edge's kind |
| Export.EdgeRows | wcs_expanded.py:141-148 | one row per edge of all_pairs, in order |
| Export.EdgeRowIdentifiesEdge | wcs_expanded.py:141-148 | two edges of the graph have equal rows only when they are the same edge, although add and remove share a weight |
| Export.NodeLabels | wcs_expanded.py:133-136 | defines the node file's labels: length by length from 2 to 6, the fixed label of each code of the bucket |
| Export.NodeRows | wcs_expanded.py:133-136 | the loops emit, length by length, the fixed label of each code of the bucket |
| Export.BucketLabels | wcs_expanded.py:134-135 | a bucket gives one label per code |
| Export.NodeLabelSound | wcs_expanded.py:133-136 | every label of the node file is the fixed form of an input word of length 2..6 |
| Export.NodeLabelComplete | wcs_expanded.py:133-136 | every input word of length 2..6 has its fixed form in the node file |

## Left out

- Reading the word list from a file, writing `nodes.csv` and `edges.csv` (headers, quoting), `print` and the `tqdm` progress bars. These are I/O. The model takes the lines as a sequence and returns the rows as values.
- `word.strip().upper()` (line 93). The lines are taken as already trimmed and upper-cased, because Unicode case mapping is outside the model.
- The loader reopens the file once per length. The model reads the same sequence of lines on each pass, which assumes the file does not change between passes.
- Lines of length 2..6 with characters other than A-Z. They are bucketed and scanned like any other line, but the soundness and completeness lemmas assume `Dictionary.WellFormed`.
- The commented-out breadth-first solver and `MAX_ITERS` (lines 10 and 151-202). They are not part of the program that runs.
- DiffDetector.ArePair: requires `|w1| <= |w2|`. The source reads `w2[i]` for positions of `w1` and raises IndexError when `w2` is shorter, unless it has already returned False after a second difference. Its only caller passes words of equal length.
- Bits.Xor: defined byte lane by byte lane, with a complement for negative operands. Its lemmas are stated for non-negative operands, because codes of words over A-Z are non-negative.
- Export.Weight: the source's if/elif chain has no else branch. It cannot be reached, because every edge carries one of the three tags.
- GraphBuilder.Connections: the driver's proof carries the rounds as a ghost map argument, equal to `Rounds(dict, lut)`. `WordGraph.BuildWordGraph` passes exactly that map. The helper methods `ChangeRowScan`, `AddRemoveRowScan`, `AddIfOneEdit`, `ConnectShorter`, `ConnectLonger` and `NextRound` split the source's loop bodies so that each proof stays small. They do not change the order of appends.
