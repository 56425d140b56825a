# A verified model of five FrankenGraphDB kernels

FrankenGraphDB is a graph database written in Rust. This project models five of its
deterministic kernels in Dafny and proves what each is for.

**Bounded big integers** (`Limbs`, `Magnitude`, `Multiplication`, `Division`,
`LongDivision`, `Knuth`, `Quotients`, `BigInts`, `BigIntCodec`). A magnitude is a
sequence of base-2^64 limbs and `Value` is the number it denotes. Every operation runs
a size pass and then a value pass; both are proved to agree with integer arithmetic.
Division of long magnitudes is Algorithm D of section 4.3.1 of Knuth's *The Art of
Computer Programming*, volume 2, run in place on an array. Machine words are subset
types, so every assignment to one carries a proof that it does not overflow.

**Multi-segment search** (`Ranking`, `Pools`, `Analysis`, `Corpus`, `TextSearch`,
`PostingMerge`, `Links`, `LayerSearch`, `Neighbours`, `Rewiring`, `Hnsw`,
`ExactSearch`, `Generations`, `Fabric`, `IndexSearch`, `KnnSearch`, `HybridSearch`). `BestOf(pool, k)` is the reference answer: the k least
hits of a multiset. The main results say that whatever batches, replacements and
compactions produced a generation, text and exact vector search over all its segments
give `BestOf` of a scan of the live documents. Scores and distances are built from
abstract functions: a term weight, an addition of which only monotonicity is used, and
a metric. Squared Euclidean distance and negative dot product over the reals are
instances of the metric. The bounded heap is seen through its sorted contents.

**Exact rank fusion** (`Rationals`, `ExactScores`, `Fusion`). Scores are ratios in
lowest terms; comparison, rendering and ranking are proved against real arithmetic.

**Bolt wire codec** (`Unicode`, `PackHeads`, `PackStream`, `PackCodec`, `Chunking`). PackStream
values have a printed form `Enc` and an accepted form `ParseValue`; the imperative
encoder and decoder are proved against them. The accepted form also counts header bytes
beyond the shortest spelling, which turns "the encoder is shortest" into an equation.
The dechunker carries the history of its connection in ghost state and is proved to
refine `Run`, a function of the concatenated input.

**ANN recall ledger** (`RecallInterval`, `RecallLedger`, `RecallReplay`,
`RecallStream`, `RecallLayout`, `RecallCodec`). A ledger holds a `Run` of observations, its counters are
recounts, and its replay stream is the one canonical encoding of that run. A 32-byte
object identity is modelled as the number its big-endian bytes spell; identities compare
as their bytes do.

`Words`, `Arith`, `Bytes` and `Ordered` hold shared definitions. `dafny verify
dfyconfig.toml` checks the project.

Where a Rust method returns an error that the surrounding invariants make impossible,
the model keeps the branch and the contract shows it is dead, or the caller relies on
the callee's contract, which says exactly when the error is returned.

## Model

| member | source | states |
|---|---|---|
| `Limbs.CanonicalUnique` | crates/fgdb-bigint/src/lib.rs:220-227 | two canonical magnitudes of equal value are the same limbs |
| `Magnitude.CmpMagnitude` | crates/fgdb-bigint/src/lib.rs:431-442 | the length-then-high-limb comparison is the comparison of the numbers the limbs denote |
| `Magnitude.AddMagnitudeRequired` | crates/fgdb-bigint/src/lib.rs:444-461 | the carry-only size pass finds exactly the limb count of the true sum |
| `Magnitude.AddMagnitude` | crates/fgdb-bigint/src/lib.rs:463-483 | refuses exactly when the sum's limb count passes the limit, else returns the canonical sum |
| `Magnitude.SubMagnitudeRequired` | crates/fgdb-bigint/src/lib.rs:485-500 | the borrow-only size pass finds exactly the limb count of the true difference |
| `Magnitude.SubMagnitude` | crates/fgdb-bigint/src/lib.rs:502-522 | refuses exactly when the difference's limb count passes the limit, else returns the canonical difference |
| `Multiplication.AddProductToAccumulator` | crates/fgdb-bigint/src/lib.rs:524-543 | adding one limb product to the three-limb accumulator is exact as long as the column sum has room |
| `Multiplication.AccumulateProductColumn` | crates/fgdb-bigint/src/lib.rs:545-560 | a whole column of products fits three limbs and is added exactly |
| `Multiplication.ShiftProductAccumulator` | crates/fgdb-bigint/src/lib.rs:562-564 | the shift divides the accumulated number by the base |
| `Multiplication.ColumnsAreProduct` | crates/fgdb-bigint/src/lib.rs:545-630 | the weighted columns of two magnitudes add up to their product |
| `Multiplication.MulMagnitudeRequired` | crates/fgdb-bigint/src/lib.rs:566-605 | the size pass finds exactly the limb count of the true product |
| `Multiplication.MulMagnitude` | crates/fgdb-bigint/src/lib.rs:607-630 | refuses exactly when the product's limb count passes the limit, else returns the canonical product |
| `Division.NormalizedDivisionOperand` | crates/fgdb-bigint/src/lib.rs:682-715 | the shifted limbs denote the magnitude times the power of two, with the overflow in the extra limb |
| `Division.TrialQuotient` | crates/fgdb-bigint/src/lib.rs:792-806 | the estimate-and-correct loop ends at the three-limb by two-limb quotient, clipped to the largest digit, and no 128-bit product overflows |
| `LongDivision.SubtractDivisorProduct` | crates/fgdb-bigint/src/lib.rs:717-745 | the window loses digit times divisor, wrapped by one power of the base exactly when the answer is true |
| `LongDivision.AddDivisorBack` | crates/fgdb-bigint/src/lib.rs:747-762 | the window gains the divisor, dropping the wrap |
| `Knuth.NextQuotientLimb` | crates/fgdb-bigint/src/lib.rs:790-820 | with the window's top below the divisor, one digit leaves an exact quotient digit and a remainder below the divisor; at most one add-back is needed |
| `Knuth.DivideNormalized` | crates/fgdb-bigint/src/lib.rs:790-820 | the digit loop splits the in-place dividend into divisor times quotient plus a remainder below the divisor, even when the extra top limb is never visited |
| `Quotients.QuotientLimbCount` | crates/fgdb-bigint/src/lib.rs:632-645 | comparing the leading limbs predicts the exact limb count of the quotient |
| `Quotients.DivRemMagnitudeByLimb` | crates/fgdb-bigint/src/lib.rs:647-680 | dividing by one limb is exact, with canonical quotient and remainder |
| `Quotients.ShiftRemainderDown` | crates/fgdb-bigint/src/lib.rs:822-830 | shifting the remainder down undoes the normalization exactly |
| `Quotients.DivRemMagnitudeKnuth` | crates/fgdb-bigint/src/lib.rs:764-846 | for every dividend and canonical divisor of two or more limbs: dividend = quotient * divisor + remainder, remainder below the divisor, both canonical, or the first limit refusal |
| `BigInts.EqualityIsNumeric` | crates/fgdb-bigint/src/lib.rs:220-227 | for canonical values structural equality is equality of integers |
| `BigInts.Cmp` | crates/fgdb-bigint/src/lib.rs:1246-1255 | the library's order is the order of the integers |
| `BigInts.FromSignMagnitude` | crates/fgdb-bigint/src/lib.rs:325-333 | trimming high zero limbs and the sign of zero gives the canonical value of the same integer |
| `BigInts.CheckedAdd` | crates/fgdb-bigint/src/lib.rs:893-911 | the exact signed sum in canonical form, refused exactly when the limit is below its limb count |
| `BigInts.CheckedSub` | crates/fgdb-bigint/src/lib.rs:931-964 | the exact signed difference in canonical form, refused exactly when the limit is below its limb count |
| `BigInts.CheckedMul` | crates/fgdb-bigint/src/lib.rs:984-992 | the exact signed product in canonical form, refused exactly when the limit is below its limb count |
| `BigInts.TruncatesOnce` | crates/fgdb-bigint/src/lib.rs:1031-1074 | truncating division has one quotient and one remainder |
| `BigInts.CheckedDivRem` | crates/fgdb-bigint/src/lib.rs:1031-1074 | truncating signed division, with division by zero and each limit refusal where the code puts it |
| `BigInts.LongDivisionFits` | crates/fgdb-bigint/src/lib.rs:764-786 | when a long division is refused for size is decided by the normalised dividend alone, which needs one limb more than the dividend |
| `BigIntCodec.FromCanonicalLimbs` | crates/fgdb-bigint/src/lib.rs:267-295 | accepts exactly the canonical sign and magnitude pairs within the limit |
| `BigIntCodec.EncodeCanonicalBytes` | crates/fgdb-bigint/src/lib.rs:1083-1098 | writes the specified byte form |
| `BigIntCodec.EncodedBytes` | crates/fgdb-bigint/src/lib.rs:1083-1098 | byte by byte: 0 alone for zero, else 1 for positive and 2 for negative, the limb count in eight bytes and the absolute value from byte 9, each in base 256 with the lowest digit first |
| `BigIntCodec.DecodeCanonicalBytes` | crates/fgdb-bigint/src/lib.rs:1108-1157 | answers the specified decoding, error cases included |
| `BigIntCodec.DecodeEncoded` | crates/fgdb-bigint/src/lib.rs:1083-1157 | decoding an encoding returns the value, or the limit refusal when it has too many limbs |
| `BigIntCodec.EncodeDecoded` | crates/fgdb-bigint/src/lib.rs:1083-1157 | whatever decodes re-encodes to the same bytes |
| `Ranking.SortedUnique` | crates/fgdb-beacon/src/ranking.rs:28-35 | the order is total: a multiset of hits has one sorted listing |
| `Ranking.BestRises` | crates/fgdb-beacon/src/ranking.rs:28-47 | the k best of a pool without repetitions come in strict order, before everything left out, and something is left out only when there are k |
| `Pools.BestIsTop` | crates/fgdb-beacon/src/ranking.rs:28-47 | in numbers: the k best rise by cost and then by identity, and each identity left out has a greater cost, or the same cost and a greater identity |
| `Ranking.RetainedIsBest` | crates/fgdb-beacon/src/ranking.rs:37-47 | a bounded heap that holds the k least of a pool holds the k least after one more offer |
| `Ranking.RetainBest` | crates/fgdb-beacon/src/ranking.rs:37-47 | after each call the heap holds exactly the k least of everything offered |
| `Ranking.BestMerge` | crates/fgdb-beacon/src/fabric.rs:771-788 | keeping only the k best of a part first loses nothing of the k best of the whole |
| `LayerSearch.Greedy` | crates/fgdb-beacon/src/hnsw.rs:393-414 | the walk steps each time to the least neighbour and ends, at a node no worse than its start that none of its neighbours beats |
| `LayerSearch.SearchLayer` | crates/fgdb-beacon/src/hnsw.rs:419-456 | the answer is the ef best of every eligible node visited; what is visited is joined to the entry by links, and every visited node has all its neighbours visited or costs more than the worst result |
| `LayerSearch.AnswerIs` | crates/fgdb-beacon/src/hnsw.rs:227-230 | each result is an eligible node, at its own distance, at the end of a path of links from the entry; none comes twice |
| `LayerSearch.LocallyBest` | crates/fgdb-beacon/src/hnsw.rs:430-455 | no eligible neighbour of a result would improve the answer |
| `Neighbours.SelectDiverse` | crates/fgdb-beacon/src/hnsw.rs:523-556 | the walk chooses those kept, then the first ones set aside while there is room |
| `Neighbours.SiftDiverse` | crates/fgdb-beacon/src/hnsw.rs:533-551 | those kept are no nearer to one another than to the query, and each one set aside is nearer to a kept one than to the query |
| `Neighbours.SiftInOrder` | crates/fgdb-beacon/src/hnsw.rs:552-555 | both parts keep the order of the candidates, so the room left is filled nearest first |
| `Neighbours.ChosenAre` | crates/fgdb-beacon/src/hnsw.rs:523-556 | as many candidates as the limit allows are chosen, none twice, none from elsewhere |
| `Hnsw.Graph.Prune` | crates/fgdb-beacon/src/hnsw.rs:558-575 | an overlong list is replaced by the diverse choice among its own nodes, sorted by distance from the node |
| `Rewiring.PrunedWired` | crates/fgdb-beacon/src/hnsw.rs:558-575 | the pruned list fills its limit, is drawn from the old one, and stays in range, duplicate-free and free of self-links |
| `Rewiring.BackLinksAre` | crates/fgdb-beacon/src/hnsw.rs:504-514 | a node linked back to gains the new node while it has room and stays exactly full otherwise; its links are old ones or the new node |
| `Rewiring.BackLinksShape` | crates/fgdb-beacon/src/hnsw.rs:558-575 | what a list is pruned to depends on identities, vectors and the list itself, not on any other list |
| `Rewiring.AttachesMutual` | crates/fgdb-beacon/src/hnsw.rs:502-514 | linking a new node on a layer keeps links mutual except towards nodes whose list is full |
| `Hnsw.Graph.Connect` | crates/fgdb-beacon/src/hnsw.rs:504-514 | the neighbour alone changes: its list gains the new node and is pruned if too long, and every list stays sound and within its degree |
| `Hnsw.Graph.ConnectAll` | crates/fgdb-beacon/src/hnsw.rs:504-514 | each chosen neighbour ends with its old list linked back to the new node, and every other list of the graph is unchanged |
| `Hnsw.Graph.LinkLayer` | crates/fgdb-beacon/src/hnsw.rs:489-515 | one layer's step in full: the new node's links are the diverse choice from an answer of the layer search at the construction breadth, each of them is linked back, no other list changes, and the next layer starts from the nearest found |
| `Hnsw.Graph.Descend` | crates/fgdb-beacon/src/hnsw.rs:479-482 | the answer is where greedy walks end, one per layer from the top down to the requested one, each from the end of the last |
| `Hnsw.Graph.Insert` | crates/fgdb-beacon/src/hnsw.rs:458-521 | every insertion is a descent followed by one step per shared layer; it keeps all links sound (degree 2m on layer zero, m above) and mutual except towards full lists; whatever the new node links to on a layer links back or is full; the entry moves exactly when the new node stands higher |
| `Hnsw.Collect` | crates/fgdb-beacon/src/hnsw.rs:175-188 | refuses exactly a repeated identity or too many vectors, else holds each vector under its identity |
| `Hnsw.Build` | crates/fgdb-beacon/src/hnsw.rs:169-210 | succeeds exactly when no identity repeats and there are few enough vectors; the graph is the one reached by inserting the vectors in identity order, each at the level its identity draws, and its links are sound, within degree and mutual wherever no list is full |
| `Hnsw.Graph.SearchApproximate` | crates/fgdb-beacon/src/hnsw.rs:231-295 | refuses exactly a zero breadth, else returns the first k of an answer of the bottom-layer search, entered where the greedy walks through every layer above end |
| `ExactSearch.SumGrows` | crates/fgdb-beacon/src/hnsw.rs:316-320 | a squared Euclidean prefix sum never exceeds the whole |
| `ExactSearch.ExactCandidate` | crates/fgdb-beacon/src/hnsw.rs:321-359 | gives up only on vectors whose full distance exceeds the cutoff, and otherwise returns the full distance |
| `ExactSearch.DistanceZero` | crates/fgdb-beacon/src/hnsw.rs:343-350 | without rounding, squared Euclidean distance is never negative and is zero exactly between equal vectors |
| `ExactSearch.DistanceMoved` | crates/fgdb-beacon/src/hnsw.rs:375-382 | moving any coordinate from b to c changes the squared distance by the square of its new difference less the square of its old one |
| `ExactSearch.DotMoved` | crates/fgdb-beacon/src/hnsw.rs:375-388 | the negative dot product changes by minus the query coordinate times the move, whichever coordinate moves |
| `ExactSearch.DotAtZero` | crates/fgdb-beacon/src/hnsw.rs:375-388 | the negative dot product with the zero vector is zero |
| `ExactSearch.Search` | crates/fgdb-beacon/src/hnsw.rs:252-271 | exact search with abandonment returns the k nearest eligible nodes at their full distances, by distance, then identity; for exact squared Euclidean distance a returned cost is zero exactly for the query itself, and costs of vectors that differ in one coordinate differ by the squares of that coordinate's distances |
| `Analysis.Analyzer.FinishToken` | crates/fgdb-beacon/src/bm25.rs:182-227 | records a token at the next position, keeping the position lists a partition of the token positions |
| `Analysis.Analyze` | crates/fgdb-beacon/src/bm25.rs:148-180 | the position lists partition 0..length in ascending order per term; refused exactly when a term limit is passed |
| `Analysis.LowerBound` | crates/fgdb-beacon/src/bm25.rs:510-519 | the binary search finds the first position not below the one wanted |
| `Analysis.TermsDecide` | crates/fgdb-beacon/src/bm25.rs:505-525 | a start serves every offset of every term exactly when the phrase stands there |
| `Analysis.PhraseMatches` | crates/fgdb-beacon/src/bm25.rs:471-529 | true exactly when the nonempty query token sequence occurs contiguously in the document |
| `Analysis.AnalyzedPairs` | crates/fgdb-beacon/src/bm25.rs:471-484 | analysis of a phrase and of a document gives the matcher the position lists it needs, in any order of terms |
| `Analysis.PhraseInText` | crates/fgdb-beacon/src/bm25.rs:148-180 | analyzing a phrase and a document and matching the results finds the phrase exactly when it occurs; refused exactly when a term limit is passed |
| `Corpus.TotalRemove` | crates/fgdb-beacon/src/bm25.rs:270-299 | a recount loses exactly what the removed document weighed |
| `Corpus.HoldersBounded` | crates/fgdb-beacon/src/bm25.rs:407-410 | no term is in more documents than have text, so the frequency refusal is unreachable |
| `Corpus.RecountsIs` | crates/fgdb-beacon/src/bm25.rs:229-238 | the statistics counted from scratch are the document, token and term counts and the bytes of the vocabulary |
| `Corpus.CorpusStats.Add` | crates/fgdb-beacon/src/bm25.rs:240-268 | refused exactly when a counter would pass 64 bits, and then with that error; else the statistics still equal a recount |
| `Corpus.CorpusStats.Remove` | crates/fgdb-beacon/src/bm25.rs:270-299 | the statistics still equal a recount; the underflow and missing-term refusals are unreachable |
| `TextSearch.Build` | crates/fgdb-beacon/src/bm25.rs:332-352 | the segment stores exactly the text of the given documents, and every posting has a length |
| `PostingMerge.LeastHead` | crates/fgdb-beacon/src/bm25.rs:422-428 | finds the least identity under any cursor |
| `PostingMerge.Advance` | crates/fgdb-beacon/src/bm25.rs:435-447 | steps exactly the streams that hold the identity and adds their weights in query order |
| `PostingMerge.SearchInto` | crates/fgdb-beacon/src/bm25.rs:399-464 | the k-way merge offers the heap exactly what a scan of the segment's visible documents would, and its refusals are unreachable |
| `Generations.BuildSegment` | crates/fgdb-beacon/src/fabric.rs:218-252 | one segment holds both lanes of exactly the given documents, over a sound graph; the refusals of the graph build are unreachable |
| `Generations.Draft.RemoveStats` | crates/fgdb-beacon/src/fabric.rs:292-319 | all live totals still equal a recount; no underflow is reachable |
| `Generations.CountableInsert` | crates/fgdb-beacon/src/fabric.rs:321-348 | whether a counter overflows depends on the documents alone: on whether every total of them, and the bytes of their vocabulary, fits 64 bits |
| `Generations.Draft.AddStats` | crates/fgdb-beacon/src/fabric.rs:321-348 | refused exactly when the documents with this one no longer fit the 64-bit counters, and then with an overflow error; else all totals still equal a recount |
| `Generations.Draft.CheckLimits` | crates/fgdb-beacon/src/fabric.rs:350-390 | passes exactly when the recounted live documents are within every limit |
| `Generations.Draft.Compact` | crates/fgdb-beacon/src/fabric.rs:392-414 | one segment (none when nothing is live) that shows every live document, contents unchanged |
| `Generations.ShownExactlyOnce` | crates/fgdb-beacon/src/fabric.rs:882-887 | in every valid generation each live document is shown by exactly one segment, with its current content, and nothing else is shown |
| `Fabric.Supersede` | crates/fgdb-beacon/src/fabric.rs:640-656 | the staged sizes always equal a recount of what is staged, so superseding never underflows; a refusal is an arithmetic error exactly when a size passes 64 bits |
| `Fabric.LastWinsIs` | crates/fgdb-beacon/src/fabric.rs:592-601 | what a batch does to a vertex is what its last operation for it says |
| `Fabric.Normalize` | crates/fgdb-beacon/src/fabric.rs:621-657 | accepts exactly admitted batches that the work allowance covers, keeping the last operation per vertex; a refusal names the first operation at fault and why |
| `Fabric.ApplyAll` | crates/fgdb-beacon/src/fabric.rs:669-686 | succeeds exactly when work suffices and the counters fit after every step in vertex order; the live map becomes the old one overlaid with the batch, statistics recounted; the only other refusal is a counter overflow |
| `Fabric.Seal` | crates/fgdb-beacon/src/fabric.rs:687-701 | compacts exactly when nothing is live or a segment too many would result; every live document ends up placed |
| `Fabric.BeaconIndex.TryApplyBatch` | crates/fgdb-beacon/src/fabric.rs:615-713 | a whole batch or nothing: it succeeds exactly when the batch is admitted, paid for and fits the sequence, the counters and the limits; then the live documents are the old ones overlaid with it and the report is exact; a refusal has its cause and changes nothing |
| `Fabric.PrefixLoads` | crates/fgdb-beacon/src/fabric.rs:541-573 | a bulk load that fits as a whole fits at every prefix, so checking each prefix refuses nothing more |
| `Fabric.LoadRow` | crates/fgdb-beacon/src/fabric.rs:541-573 | one row of a bulk load: it is added, or refused with the error of the first check that fails, naming the repeated vertex or the code of the failed row or document |
| `Fabric.BeaconIndex.TryReplaceAll` | crates/fgdb-beacon/src/fabric.rs:521-578 | succeeds exactly when every row is sound, no vertex repeats, the load fits the counters and the limits, and sequence and work suffice; then the live documents are the rows, in at most one segment; a refusal names the first row at fault and why, and changes nothing |
| `Fabric.BeaconIndex.Compact` | crates/fgdb-beacon/src/fabric.rs:715-721 | merges to one segment (none when nothing is live) without changing what is live; refused exactly on an exhausted sequence or lack of work |
| `IndexSearch.ShownHolds` | crates/fgdb-beacon/src/fabric.rs:882-887 | whatever a segment shows is the current content of a live document, so overwritten and deleted versions are never visible |
| `IndexSearch.SegmentShare` | crates/fgdb-beacon/src/fabric.rs:816-829 | a segment's own scan with the live statistics is its share of the scan of all live documents |
| `IndexSearch.TextSearchAny` | crates/fgdb-beacon/src/fabric.rs:799-838 | the hits, scores and order are those of a scan of the live documents, for every k and eligibility: for i before j, a lower cost, or the same cost and a lower identity |
| `IndexSearch.SearchLikeRebuilt` | crates/fgdb-beacon/src/fabric.rs:799-838 | a generation with many segments answers like one segment freshly built from the same live documents |
| `KnnSearch.BestPartSuffices` | crates/fgdb-beacon/src/fabric.rs:771-788 | offering only a segment's best hits, slots forgotten, is offering all of them |
| `KnnSearch.Knn` | crates/fgdb-beacon/src/fabric.rs:750-797 | the neighbours, distances and order are those of a scan of the live documents, for every k and eligibility: for i before j, a lower distance, or the same distance and a lower identity; exact squared distances are zero exactly at the query |
| `HybridSearch.LaneDistinct` | crates/fgdb-beacon/src/exact_fusion.rs:383-407 | no identity is ranked twice by one lane |
| `HybridSearch.Search` | crates/fgdb-beacon/src/exact_fusion.rs:310-370 | the fused list is the exact top k over the two lanes' ranks, by score descending and then identity ascending, each lane being a scan of the live documents |
| `Rationals.GcdScale` | crates/fgdb-beacon/src/exact_fusion.rs:126-134 | the greatest common divisor scales with its arguments, which makes the reduced pair coprime |
| `Rationals.ReducedUnique` | crates/fgdb-beacon/src/exact_fusion.rs:126-134 | equal ratios in lowest terms are the same pair |
| `ExactScores.FromGraphRanks` | crates/fgdb-beacon/src/exact_fusion.rs:106-135 | the score is the exact sum of the lanes' shares, in lowest terms, within 2^84 and 2^99 |
| `ExactScores.SharesInNumbers` | crates/fgdb-beacon/src/exact_fusion.rs:115-125 | a lane that ranks a row gives it its weight over the constant plus the rank, and a lane that does not gives nothing |
| `ExactScores.Cmp` | crates/fgdb-beacon/src/exact_fusion.rs:174-201 | both the cross-product and the continued-fraction path give the exact rational order, and the latter ends |
| `ExactScores.OrderIsExact` | crates/fgdb-beacon/src/exact_fusion.rs:174-201 | the order is that of the ratios, and equality of ratios is equality of scores |
| `ExactScores.TwoLaneProductsFit` | crates/fgdb-beacon/src/exact_fusion.rs:147-150 | two-lane scores never leave the cross-product path |
| `ExactScores.Decimal` | crates/fgdb-beacon/src/exact_fusion.rs:151-171 | both the multiplication and the 18-digit path give the half-even rounding without overflow |
| `ExactScores.HalfEvenMonotone` | crates/fgdb-beacon/src/exact_fusion.rs:151-171 | half-even rendering never reverses two ratios |
| `Fusion.Depths` | crates/fgdb-beacon/src/exact_fusion.rs:225-247 | refused exactly when the output exceeds the open lanes' depths together; a lane is open when its weight is not zero |
| `Fusion.FusionCandidates` | crates/fgdb-beacon/src/exact_fusion.rs:373-410 | every identity of either list appears once, with its one-based place in each list |
| `Fusion.Precedes` | crates/fgdb-beacon/src/exact_fusion.rs:274-282 | the row order is score descending, then identity ascending |
| `Fusion.RankFused` | crates/fgdb-beacon/src/exact_fusion.rs:322-341 | the heap keeps the k best rows under the exact order |
| `Fusion.DrainRows` | crates/fgdb-beacon/src/exact_fusion.rs:342-367 | draining worst-first and reversing lists the rows best-first, each with its evidence and half-even decimal |
| `Fusion.RenderedInOrder` | crates/fgdb-beacon/src/exact_fusion.rs:310-370 | the rendered decimals of a result list never increase down the list |
| `Fusion.FusedRanked` | crates/fgdb-beacon/src/exact_fusion.rs:274-282 | in numbers: scores fall down the list, equal scores by rising identity, and every candidate left out comes after the whole list |
| `Fusion.FusedInOrder` | crates/fgdb-beacon/src/exact_fusion.rs:340-370 | the rendered decimals never rise down the fused list |
| `Fusion.HybridSearchExactFusion` | crates/fgdb-beacon/src/exact_fusion.rs:310-370 | the result is the exact top k of the fused candidates, by score as a number descending and then identity ascending |
| `PackHeads.HeadRoundTrip` | crates/fgdb-bolt/src/packstream.rs:188-225 | reading a written header returns it |
| `PackHeads.HeadShortest` | crates/fgdb-bolt/src/packstream.rs:359-417 | no accepted header is shorter than the written one, and an equally short one is the written one |
| `PackHeads.IntRead` | crates/fgdb-bolt/src/packstream.rs:384-396 | an integer in two's complement is read alike in every width that holds it |
| `PackHeads.LengthRead` | crates/fgdb-bolt/src/packstream.rs:397-414 | a byte array, string, list or map length is read alike in every width that holds it |
| `PackHeads.MarkerRead` | crates/fgdb-bolt/src/packstream.rs:365-383 | small integers, tiny strings, lists and maps, structures, null and booleans, marker by marker |
| `Unicode.ScalarOpens` | crates/fgdb-bolt/src/packstream.rs:304-309 | the bytes of every Unicode scalar value open the text they begin, whatever follows |
| `Unicode.Utf8Front` | crates/fgdb-bolt/src/packstream.rs:304-309 | a scalar value in front neither makes nor breaks a text |
| `Unicode.Utf8Exactly` | crates/fgdb-bolt/src/packstream.rs:304-309 | the accepted texts are exactly the byte strings of sequences of scalar values |
| `Unicode.OneReading` | crates/fgdb-bolt/src/packstream.rs:304-309 | a text has one reading as scalar values |
| `PackCodec.Encode` | crates/fgdb-bolt/src/packstream.rs:144-186 | appends the printed form of the value |
| `PackCodec.EncodeSized` | crates/fgdb-bolt/src/packstream.rs:209-225 | writes the shortest length header, saturating past 32 bits |
| `PackCodec.Reader.Items` | crates/fgdb-bolt/src/packstream.rs:320-331 | reserves every declared slot first, then follows the accepted form item by item |
| `PackCodec.Reader.Entries` | crates/fgdb-bolt/src/packstream.rs:333-357 | follows the accepted form; comparing input spans detects exactly the repeated keys |
| `PackCodec.Reader.Value` | crates/fgdb-bolt/src/packstream.rs:359-417 | follows the accepted form for every marker, errors included |
| `PackStream.ParseEncoded` | crates/fgdb-bolt/src/packstream.rs:144-225 | a printed value standing anywhere in the input parses back to itself within the remaining budgets, and is refused as too large otherwise |
| `PackStream.ParseSound` | crates/fgdb-bolt/src/packstream.rs:320-417 | an accepted value is encodable, within depth, spends exactly its slots and bytes, and is as long as its printed form plus its header excess |
| `PackStream.DecodeEncoded` | crates/fgdb-bolt/src/packstream.rs:144-243 | decoding an encoding returns the value exactly when depth, slots and copied bytes fit, else it is refused as too deep or too large |
| `PackStream.EncodingIsShortest` | crates/fgdb-bolt/src/packstream.rs:188-417 | any accepted spelling is at least as long as the encoding, by exactly its header excess, and equals it exactly when there is none |
| `PackStream.TextDecoded` | crates/fgdb-bolt/src/packstream.rs:235-309 | a printed string decodes to itself exactly when its bytes spell scalar values, and is refused as invalid text otherwise |
| `PackCodec.DecodeWithLimits` | crates/fgdb-bolt/src/packstream.rs:235-243 | the reader with shared budgets computes the specified decoding; what it returns is encodable and fits the limits, and a returned string spells scalar values |
| `PackCodec.RoundTrip` | crates/fgdb-bolt/src/packstream.rs:144-243 | encoder then decoder is the identity exactly on the values that fit the default limits |
| `Chunking.RunExtends` | crates/fgdb-bolt/src/message.rs:66-71 | more input only extends the messages of a stream, and a failure is final |
| `Chunking.Dechunker.Push` | crates/fgdb-bolt/src/message.rs:99-114 | for every interleaving the buffered state continues the stream; compaction moves no more than was consumed |
| `Chunking.Dechunker.NextMessage` | crates/fgdb-bolt/src/message.rs:117-157 | each pull gives the next message of the stream function of all input, or its failure, or nothing yet; no message over the limit is kept and failure is permanent |
| `Chunking.Frame` | crates/fgdb-bolt/src/message.rs:58-64 | appends the message in pieces, all but the last of 65535 bytes, each behind its length high byte first, and two zero bytes; a message of one piece gives exactly its two length bytes, itself and two zeros |
| `Chunking.ChunkTaken` | crates/fgdb-bolt/src/message.rs:132-156 | a chunk whose header spells its length, high byte first, is taken whole, whatever follows |
| `Chunking.ChunkRefused` | crates/fgdb-bolt/src/message.rs:140-150 | a chunk that would carry the message over the limit is refused at its header |
| `Chunking.RunWire` | crates/fgdb-bolt/src/message.rs:117-157 | however a message is cut into nonempty chunks, it is read back whole, or refused when it is over the limit |
| `Chunking.RunFramed` | crates/fgdb-bolt/src/message.rs:58-157 | a framed message is read back whole, skipped when empty, and fails exactly when it is over the limit |
| `Chunking.FramesDelivered` | crates/fgdb-bolt/src/message.rs:58-157 | framing several messages and reading the stream delivers the nonempty ones in order up to the first oversized one |
| `RecallInterval.CeilDiv` | crates/fgdb-calibrate/src/ann_recall.rs:2223-2232 | the least quotient that reaches the numerator, refused exactly on 128-bit overflow or a zero divisor |
| `RecallInterval.CeilSqrt` | crates/fgdb-calibrate/src/ann_recall.rs:2234-2251 | the least of all numbers whose square reaches the value |
| `RecallInterval.ConfidenceInterval` | crates/fgdb-calibrate/src/ann_recall.rs:2167-2221 | the least Hoeffding radius clamped to the scale, endpoints rounded outward; refused exactly when the point passes 64 bits |
| `RecallInterval.IntervalOrdered` | crates/fgdb-calibrate/src/ann_recall.rs:2204-2221 | lower <= point <= upper <= scale whenever hits do not exceed baseline results |
| `RecallInterval.DecisionOrderIrrelevant` | crates/fgdb-calibrate/src/ann_recall.rs:1220-1242 | Candidate and Rebuild never both qualify, so the order of the tests does not matter |
| `RecallLedger.SortedIntersectionCount` | crates/fgdb-calibrate/src/ann_recall.rs:2143-2164 | the merge counts the set intersection |
| `RecallLedger.RunShape` | crates/fgdb-calibrate/src/ann_recall.rs:1101-1205 | every run is consecutive, bound to the identity, with distinct members and full lists |
| `RecallLedger.CountersFit` | crates/fgdb-calibrate/src/ann_recall.rs:1154-1188 | no counter of a run can overflow or pass the result limit |
| `RecallLedger.Ledger.Record` | crates/fgdb-calibrate/src/ann_recall.rs:1101-1205 | accepts exactly the next admissible observation, keeping every counter a recount; a refusal changes nothing |
| `RecallLedger.Ledger.Evidence` | crates/fgdb-calibrate/src/ann_recall.rs:1208-1261 | the interval of the accepted prefix is ordered and sound; an action is given exactly when the window is complete, and Candidate or Rebuild exactly when its threshold is met under supported assumptions |
| `RecallCodec.ValidateResultList` | crates/fgdb-calibrate/src/ann_recall.rs:2030-2068 | adjacent comparisons accept exactly the nonempty bounded strictly ascending lists |
| `RecallCodec.TryNew` | crates/fgdb-calibrate/src/ann_recall.rs:1024-1068 | a ledger opens exactly when its whole window fits the profile, and a refusal names the first condition that fails |
| `RecallReplay.WordsRoundTrip` | crates/fgdb-calibrate/src/ann_recall.rs:1933-2027 | reading written fields returns them |
| `RecallReplay.WordsReadBack` | crates/fgdb-calibrate/src/ann_recall.rs:1933-2027 | writing the fields read returns the bytes |
| `RecallLayout.StreamHeader` | crates/fgdb-calibrate/src/ann_recall.rs:1287-1302 | every header field at its byte offset: eleven identifiers high byte first, numbers low byte first, the design tag, the booleans and the reserved zeros |
| `RecallLayout.ObservationsLie` | crates/fgdb-calibrate/src/ann_recall.rs:1304-1313 | observation k begins 460 + k * (72 + 64 * topK) bytes in, and its sequence, member, query and both lists lie at their offsets |
| `RecallStream.HeaderStands` | crates/fgdb-calibrate/src/ann_recall.rs:1751-1859 | the header fields agree with trusted state exactly when the header bytes are its canonical form |
| `RecallStream.AcceptedReencodes` | crates/fgdb-calibrate/src/ann_recall.rs:1269-1408 | accepted bytes are the encoding of the ledger they rebuild |
| `RecallStream.EncodedIsAccepted` | crates/fgdb-calibrate/src/ann_recall.rs:1269-1408 | the encoding of every ledger the limits admit is accepted and rebuilds its observations |
| `RecallCodec.ToCanonicalReplayBytes` | crates/fgdb-calibrate/src/ann_recall.rs:1269-1315 | writes the canonical stream |
| `RecallCodec.FromCanonicalReplayBytes` | crates/fgdb-calibrate/src/ann_recall.rs:1322-1408 | succeeds exactly on the accepted streams, rebuilding a valid ledger by recording every observation; each error names a check that fails, and which checks passed before it |
| `RecallCodec.RoundTrip` | crates/fgdb-calibrate/src/ann_recall.rs:1263-1408 | replaying a ledger's own stream rebuilds its observations and counters |

## Left out

- Allocation failure, reference counting, formatting and error text: resource plumbing. Limb, slot, byte, document and segment limits are kept.
- f64 and f32 arithmetic, BM25 saturation and idf, cosine norms, non-finite checks: scores and distances are abstract functions; what a distance is worth is proved for exact real arithmetic.
- Text to tokens (Unicode classes, lower-casing) and vector validation: a mutation arrives with its prepared document or the reason it has none.
- Fuzzy, boolean and conjunctive text modes, and the graph lane of fusion search: the score of a graph lane is modelled, its search is not.
- Recall of approximate vector search: its answers are shown to be reachable, eligible and locally best, not close to the exact ones.
- `level_for` and `mix64`: the level of a node is a parameter.
- Indexes built without links, and configurations with a disabled lane.
- Work control inside the search and codec kernels; the index operations do charge a work allowance, once per operation, vertex and publication.
- Request validation, read projections, expansion cursors, Bolt version negotiation and request mapping, and the e-process: straight field mapping or single-branch checks.
- Object-identity verification and the canonical decimal profile: the verifier's answer is a parameter and the rendered coefficient is bounded.
- PackStream values outside the encoder's promise (sixteen or more structure fields, repeated keys, lengths past 32 bits): encoded as the code does, with no round trip claimed.
- RecallCodec.FromCanonicalReplayBytes: header fields are read part by part before they are checked; the length check before them makes this unobservable. Error payloads are shortened.
