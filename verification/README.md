# Selecting text and modelling language: a verified model

The repository mines text, keeps the sentences that best fit a seed corpus, and builds n-gram language models from
them. This project models the algorithms at its core in Dafny and proves what they are for. It has five parts.

- **Sentence selection** (`Concave`, `Objective`, `Greedy`, `Selection`, `Ngrams`): the lazy greedy loop with its
  incremental value and its queue of stale bounds makes exactly the choices of plain greedy selection, and a finished
  run is worth at least (1 - 1/e) of anything the budget could buy.
- **Word lattices** (`Lattices`, `Viterbi`, `NBest`, `Alignments`, `Oracle`, `ErrorRates`, `Ways`, `Posteriors`): shortest
  paths, the n best paths, edit distance, the oracle error count and arc posteriors, each against the enumeration of
  all paths or all alignments.
- **N-gram models** (`Probing`, `Sorting`, `NgramVectors`, `Vocabs`, `Layers`, `NgramModels`, `CorpusCounts`, `Corpora`,
  `CorpusLoading`, `Merging`, `MergedModels`): the hash indexes, sorting and renumbering, loading a corpus from lines of
  text, suffix links, and merging models without changing what they mean.
- **Estimation** (`Bins`, `Tries`, `KneserNey`, `BackoffModel`, `CountedModels`, `MaskedEstimation`, `Interpolation`,
  `MixtureParams`, `MixtureModels`): Kneser-Ney tables and interpolated models are normalised, and for whole models,
  mixtures among them, estimation under masks equals full estimation where masked.
- **Containers and codecs** (`LHashes`, `IntervalHeaps`, `BinaryTries`, `NumberWords`).

`Reals` holds one fact that several parts share.

The model takes the form of the source: objects that change are classes, loops are loops with invariants, and each is
proved against a specification function whose own properties are lemmas. `dafny verify dfyconfig.toml` checks it all.

Conventions. Floating-point numbers are reals. The square root, exponentials and hash functions are parameters with
stated properties. An n-gram vector's `hash & mask` is the hash modulo the table size, the size being a power of two.
`DenseVector`s, which are resized and swapped, are sequences held in fields; buffers that are filled in place are
arrays.

Where the code does less than its names promise, the model keeps the code and says exactly when the promise holds:

- `DenseVector::sort` sorts only if some element is less than its right neighbour. A vector in strictly descending
  order is left as it is, and `NgramVector::Sort` then renames n-grams without rebuilding their index
  (`NgramVectors.RenamedAndLost`). Whether that index is still right may depend on the hash function;
  `NgramVectors.RightAfterRenaming` says when it is right under all of them, and `NgramModels.LinksAfterRenaming` when
  the backoff links into it are. On a vector without elements the scan's
  bound wraps around, so sorting asks for at least one.
- Open-vocabulary unigrams sum to one for the counts of a corpus (`CountedModels.CountedNormalised`) but need not for
  counts from elsewhere (`BackoffModel.Model.OpenUnigrams`, `BackoffModel.Model.ZerothSetOk`,
  `CountedModels.ListedOnly`), and fixed discounts may be undefined (`KneserNey.DiscountsDefined`).
- A stored probability of zero is taken for a missing one when a model is reset (`Merging.Embedding.MeaningKeptExactly`).
- A recomputed backoff weight exists only if its denominator is not zero (`Interpolation.NormalisedIff`,
  `MixtureModels.InterpolatedNgramLM.MixtureNormalised`).
- A corpus line that ends in two spaces adds an empty word (`Corpora.EmptyToken`).
- Reading number words drops the run of number words that ends a text with other words (`NumberWords.Reading`,
  `NumberWords.IntendedExactly`).

## Model

| member | source | states |
|---|---|---|
| `Concave.SqrtIsConcaveGain` | scripts/Filter.cpp:158 | the square root is zero at zero, non-decreasing and concave, so it may stand for phi |
| `Concave.DiminishingStep` | scripts/Filter.cpp:158 | for a concave phi the same step gains no more from a higher start |
| `Objective.Problem.TotalsAdd` | scripts/Filter.cpp:172-182 | adding a sentence not yet chosen raises the total relevance of each feature by exactly the sentence's own relevance for it |
| `Objective.ScoreUpdate` | scripts/Filter.cpp:176-178 | taking one feature's old term out of the value and putting its new term in gives the value from scratch with that total replaced |
| `Objective.Problem.RelevanceLaw` | scripts/Filter.cpp:172-174 | the relevance of a feature a sentence lists is its count times its inverse document frequency over the sentence's words |
| `Objective.Problem.ValueMonotone` | scripts/Filter.cpp:153-159 | a larger set of sentences is worth at least as much |
| `Objective.Problem.Submodular` | scripts/Filter.cpp:488-495 | the marginal gain of a sentence never grows as more sentences are chosen |
| `Selection.SubmodularFunction` | scripts/Filter.cpp:164-191 | the incremental value equals the from-scratch sum over all features for the chosen set plus this sentence; the updates are exactly the new totals, and the stored bound is the true gain |
| `Selection.Evaluate` | scripts/Filter.cpp:227-234 | the bound becomes the true current gain per unit of cost |
| `Selection.UpdateFeatures` | scripts/Filter.cpp:238-240 | after writing the updates back the running totals are those of the enlarged set |
| `Selection.InitialQueue` | scripts/Filter.cpp:481-486 | the initial bounds are the true gains from the empty set, and every sentence is queued once |
| `Selection.DensityShrinks` | scripts/Filter.cpp:229-232 | gain per unit of cost never grows either, the cost being fixed |
| `Selection.GrowKeeps` | scripts/Filter.cpp:488-495 | in the queue every stale bound stays at least the true current gain per cost when a sentence is chosen |
| `Selection.LazyStep` | scripts/Filter.cpp:518-524 | putting a re-evaluated sentence back keeps all bounds and leaves fewer stale ones |
| `Selection.LazyIsGreedy` | scripts/Filter.cpp:488-518 | when the re-evaluated sentence is not below the top bound, it is a true maximum over all remaining sentences |
| `Selection.PickBest` | scripts/Filter.cpp:515-524 | the inner loop ends and its sentence is a plain greedy pick, with the value and updates that go with it |
| `Selection.Select` | scripts/Filter.cpp:497-536 | for every corpus and budget the chosen lines are those of a complete plain greedy run, including the last sentence taken without a comparison; the total cost exceeds the budget by less than the last pick's |
| `Greedy.CoverBound` | scripts/Filter.cpp:488-536 | any cover adds at most its cost times the greatest gain per cost to the value |
| `Greedy.GapShrinks` | scripts/Filter.cpp:497-536 | a greedy pick of cost c leaves at most (1 - c/B) of the gap to any set of cost at most B |
| `Greedy.GapAfter` | scripts/Filter.cpp:497-536 | after a run the gap is at most the product of those fractions times the value of the other set |
| `Greedy.LeftIsExponential` | scripts/Filter.cpp:497-536 | once the budget is spent that product is at most e to the -1 |
| `Greedy.GreedyGuarantee` | scripts/Filter.cpp:497-536 | a finished run is worth at least (1 - 1/e) of any set of sentences the budget can pay for |
| `Ngrams.SkipMissing` | scripts/Filter.cpp:283-290 | no window that starts at or before a missing word and reaches it is complete, so jumping past it loses nothing |
| `Ngrams.GetNgrams` | scripts/Filter.cpp:276-299 | exactly the windows of length one to three without a missing word, each once, by length and then by place |
| `Ngrams.SentenceTally.IncCount` | scripts/Filter.cpp:113-128 | adds a feature with count one or raises its count modulo 256; features stay distinct |
| `Ngrams.GramCount` | scripts/Filter.cpp:276-299 | an n-gram is listed as often as the sentence spells it, so at most once per word of the sentence |
| `Ngrams.OccurrencesAre` | scripts/Filter.cpp:276-299 | an n-gram occurs in a sentence as often as there are places at which its words stand |
| `Ngrams.NoWrap` | scripts/Filter.cpp:361-368 | in a sentence of at most 255 words no one-byte count wraps |
| `Ngrams.CountSentence` | scripts/Filter.cpp:361-404 | the stored sentence has each feature of the feature set that it spells, once, with the true number of occurrences; longer or featureless sentences are not stored |
| `Lattices.AllPathsExact` | scripts/mitlm/src/Lattice.cpp:766-789 | the enumerated paths from a node are exactly its paths to the final node, each once; every lattice search below is judged against them |
| `Viterbi.BestIsLeast` | scripts/mitlm/src/Lattice.cpp:766-789 | the reference distance bounds the score of every path to the final node |
| `Viterbi.BestIsMet` | scripts/mitlm/src/Lattice.cpp:766-789 | and some path has it |
| `Viterbi.ReverseViterbiSearch` | scripts/mitlm/src/Lattice.cpp:766-789 | for every node the table holds the least score to the final node and an arc that begins such a path |
| `Viterbi.FollowIsBest` | scripts/mitlm/src/Lattice.cpp:791-806 | following the table's arcs is a best path |
| `Viterbi.FindBestPath` | scripts/mitlm/src/Lattice.cpp:791-806 | the score of that best path and its words, without the skipped ones and the last arc's |
| `Viterbi.WordAt` | scripts/mitlm/src/Lattice.cpp:791-806 | without skipping, the words of a path are those of its arcs in order, but for the last |
| `Viterbi.SkippedLeftOut` | scripts/mitlm/src/Lattice.cpp:791-806 | and skipping leaves out the words to be skipped and no others |
| `NBest.ExpandStep` | scripts/mitlm/src/Lattice.cpp:820-836 | taking the best partial path off the queue and pushing its extensions neither loses nor adds a complete path total |
| `NBest.FindNBestPaths` | scripts/mitlm/src/Lattice.cpp:808-837 | returns in non-decreasing order exactly the n least complete path totals, as a multiset, or all of them if fewer, and ends |
| `Alignments.DistanceIsLeast` | scripts/mitlm/src/Lattice.cpp:268-293 | the reference distance bounds the cost of every alignment of the two word sequences |
| `Alignments.DistanceIsMet` | scripts/mitlm/src/Lattice.cpp:268-293 | and some alignment has it |
| `Alignments.NoErrors` | scripts/mitlm/src/Lattice.cpp:268-293 | only equal sequences are without error |
| `Alignments.OneError` | scripts/mitlm/src/Lattice.cpp:268-293 | a word too many, a word missing and a wrong word are one error each, wherever they stand |
| `Alignments.WordErrors` | scripts/mitlm/src/Lattice.cpp:268-294 | the one-row in-place loop returns the least number of substitutions, insertions and deletions over all alignments |
| `ErrorRates.ComputeWER` | scripts/mitlm/src/Lattice.cpp:250-294 | the error count is the least over all alignments of the reference with the words of a complete path that no other outscores |
| `ErrorRates.OracleNeverWorse` | scripts/mitlm/src/Lattice.cpp:696-764 | the oracle's error count is at most the distance from the reference to the words of any path whose last arc is the end of sentence, so, tags being kept, at most that of the best path |
| `Oracle.ToGoIsLeast` | scripts/mitlm/src/Lattice.cpp:696-764 | the reference count of errors from a search state bounds every lattice path with every alignment from there |
| `Oracle.ToGoIsMet` | scripts/mitlm/src/Lattice.cpp:696-764 | and some path with some alignment has it |
| `Oracle.Witness` | scripts/mitlm/src/Lattice.cpp:723-760 | every reachable goal is still open: some queue entry is on a cheapest way to it |
| `Oracle.DropKeeps` | scripts/mitlm/src/Lattice.cpp:740-742 | an entry whose state was visited before can be dropped |
| `Oracle.VisitKeeps` | scripts/mitlm/src/Lattice.cpp:712-760 | visiting a state and pushing its steps keeps the search invariant, so states are visited in non-decreasing error count |
| `Oracle.FindOracleWER` | scripts/mitlm/src/Lattice.cpp:696-764 | the search ends, and its error count is the minimum over all lattice paths and all alignments, word 0 being free to insert, whatever the arc weights |
| `Ways.WaysExact` | scripts/mitlm/src/Lattice.cpp:304-314 | the enumerated arc sequences from node 0 to a node are exactly those that lead there, each once |
| `Ways.PathsThrough` | scripts/mitlm/src/Lattice.cpp:336-352 | the complete paths that use an arc are the ways to its start, each joined to each path from its end, and none is listed twice |
| `Posteriors.Mass.AlphaIsPathMass` | scripts/mitlm/src/Lattice.cpp:304-314 | the forward total of a node is the sum over all its enumerated ways from node 0 |
| `Posteriors.ComputeForwardScores` | scripts/mitlm/src/Lattice.cpp:304-314 | the forward score of every node is the sum, over all ways from node 0, of the products of their arcs' factors |
| `Posteriors.ComputeBackwardScores` | scripts/mitlm/src/Lattice.cpp:316-334 | the backward score of every node is the same sum over all its paths to the final node |
| `Posteriors.Mass.BetaIsPathMass` | scripts/mitlm/src/Lattice.cpp:316-334 | the backward total of a node is the sum over all its enumerated paths |
| `Posteriors.Mass.TotalsAgree` | scripts/mitlm/src/Lattice.cpp:304-334 | the forward total at the final node equals the backward total at node 0 |
| `Posteriors.Mass.CutMass` | scripts/mitlm/src/Lattice.cpp:304-352 | the mass across every cut of the node order is the whole mass |
| `Posteriors.Mass.ThroughIsPathMass` | scripts/mitlm/src/Lattice.cpp:336-352 | forward score, factor and backward score of an arc multiply to the mass of the complete paths that use it |
| `Posteriors.ComputePosteriorProbs` | scripts/mitlm/src/Lattice.cpp:336-352 | the posterior of an arc is the share that the complete paths using it have in the mass of all complete paths; posteriors are non-negative and those across any cut sum to one |
| `KneserNey.AdjustCounts` | scripts/mitlm/src/KneserNeySmoothing.cpp:47-71 | the adjusted count of an n-gram is the number of different higher-order n-grams with a positive count that back off to it, each counted once however often it was seen, or its plain count if there are none |
| `KneserNey.LeftBranchesCount` | scripts/mitlm/src/KneserNeySmoothing.cpp:58-64 | the running count of left branches is the size of the set of left contexts |
| `KneserNey.SameSupport` | scripts/mitlm/src/KneserNeySmoothing.cpp:58-67 | adjusted and plain counts are positive at the same n-grams exactly when no zero-count n-gram is the backoff of a counted one |
| `KneserNey.EstimateDiscounts` | scripts/mitlm/src/KneserNeySmoothing.cpp:85-98 | the discounts of an order, from statistics each of which is the number of n-grams with that adjusted count |
| `KneserNey.DiscountValue` | scripts/mitlm/src/KneserNeySmoothing.cpp:89-98 | the discount of count i is i - (i+1) Y n[i+1]/n[i] with Y = n[1]/(n[1] + 2 n[2]), multiplied out; it is cut to zero, and is i, exactly under the stated conditions on the statistics |
| `KneserNey.FixedDiscount` | scripts/mitlm/src/KneserNeySmoothing.cpp:85-98 | a defined discount for count i lies in [0, i]; it is undefined exactly where 0/0 is divided |
| `KneserNey.DiscountsDefined` | scripts/mitlm/src/KneserNeySmoothing.cpp:85-98 | all discounts are defined exactly when some n-gram has count one or two, or none has a later count up to the discount order |
| `KneserNey.Order.DiscountOf` | scripts/mitlm/src/KneserNeySmoothing.cpp:197-201 | counts below the discount order have a discount of their own, all others share the last |
| `KneserNey.Order.EntryValue` | scripts/mitlm/src/KneserNeySmoothing.cpp:202-219 | an interpolated probability, multiplied out: of the history's weighted count the n-gram's own weighted count less its discount, and all that is discounted there times the backoff's probability |
| `KneserNey.Order.SharesAndBow` | scripts/mitlm/src/KneserNeySmoothing.cpp:202-218 | the discounted shares of a history and its backoff weight sum to one |
| `KneserNey.Order.ProbNonNegative` | scripts/mitlm/src/KneserNeySmoothing.cpp:211-219 | every interpolated probability is non-negative if the lower order's are |
| `KneserNey.Estimate` | scripts/mitlm/src/KneserNeySmoothing.cpp:197-220 | the in-place passes, which use the probability vector for discounts first, leave exactly the interpolated probabilities and backoff weights |
| `KneserNey.UpdateMask` | scripts/mitlm/src/KneserNeySmoothing.cpp:111-134 | the masks only grow, and then hold all that a masked probability or backoff weight depends on |
| `KneserNey.EstimateMasked` | scripts/mitlm/src/KneserNeySmoothing.cpp:223-265 | at masked positions the same values as the full estimate, whatever the vectors held before; backoff weights outside the mask stay |
| `Tries.Trie.MassSplit` | scripts/mitlm/src/NgramLM.cpp:350-360 | what a history gives the whole vocabulary is what its n-grams hold plus its backoff weight times what the shorter history gives to all other words |
| `Tries.Trie.BackoffEntry` | scripts/mitlm/src/NgramModel.cpp:787-813 | the table entry at an n-gram's backoff is the shorter history's probability of the same word |
| `BackoffModel.Model.MassStep` | scripts/mitlm/src/KneserNeySmoothing.cpp:197-220 | a history above a normalised one is normalised |
| `BackoffModel.Model.OpenUnigrams` | scripts/mitlm/src/KneserNeySmoothing.cpp:211-215 | open-vocabulary unigrams sum to one exactly when nothing is discounted or the zeroth-order probability is one over the number of words with a positive adjusted count |
| `BackoffModel.Model.ZerothSetOk` | scripts/mitlm/src/NgramLM.cpp:296-303 | the zeroth-order probability as set is right for a fixed vocabulary, and for an open one exactly when nothing is discounted or as many words have a positive adjusted count as have a positive count |
| `CountedModels.ListedOnly` | scripts/mitlm/src/KneserNeySmoothing.cpp:58-67 | counts that list a bigram and not its second word: the adjusted counts see a word the counts do not, and with the zeroth-order probability as set the open-vocabulary unigrams do not sum to one |
| `CountedModels.SupportKept` | scripts/mitlm/src/KneserNeySmoothing.cpp:58-71 | with the counts of a corpus that never happens: adjusted and plain counts are positive at the same n-grams of every order |
| `CountedModels.CountedNormalised` | scripts/mitlm/src/NgramLM.cpp:296-360 | so a model estimated from the counts of a corpus, open or fixed in its vocabulary and with the zeroth-order probability as set, is normalised after every history |
| `BackoffModel.Model.Normalised` | scripts/mitlm/src/NgramLM.cpp:350-360 | at every order, after every history, the probabilities of the vocabulary sum to one |
| `BackoffModel.Model.NonNegative` | scripts/mitlm/src/NgramLM.cpp:350-360 | no probability is negative |
| `MaskedEstimation.GetMask` | scripts/mitlm/src/NgramLM.cpp:335-348 | the masks built from the highest order down contain those asked for and are closed under all dependencies |
| `MaskedEstimation.NgramLM.Estimate` | scripts/mitlm/src/NgramLM.cpp:350-360 | estimating order by order fills every vector with its specified table |
| `MaskedEstimation.NgramLM.EstimateMasked` | scripts/mitlm/src/NgramLM.cpp:350-360 | under closed masks every masked position has the value of the full estimate, whatever stale data sits elsewhere |
| `Interpolation.Mixture.MixtureHolds` | scripts/mitlm/src/InterpolatedNgramLM.cpp:245-304 | a history of the mixture holds the weighted mean of what its components hold |
| `Interpolation.Mixture.MeanOfOnes` | scripts/mitlm/src/InterpolatedNgramLM.cpp:245-304 | which is one if each component holds one |
| `Interpolation.Mixture.UnitWeight` | scripts/mitlm/src/InterpolatedNgramLM.cpp:269-288 | a component whose bias and factors are zero has weight one |
| `Interpolation.Mixture.PlainWeight` | scripts/mitlm/src/InterpolatedNgramLM.cpp:269-288 | without features a component's weight is the exponential of its bias |
| `Interpolation.BiasRaisedWeight` | scripts/mitlm/src/InterpolatedNgramLM.cpp:269-288 | raising one component's bias by d multiplies its weight by exp(d) after every history and changes no other weight |
| `Interpolation.ParamRaisedWeight` | scripts/mitlm/src/InterpolatedNgramLM.cpp:272-280 | raising the factor of one of its features by d multiplies its weight by exp(d times the feature's value there) and changes no other weight |
| `Interpolation.BiasRaisedProb` | scripts/mitlm/src/InterpolatedNgramLM.cpp:262-303 | so the mixed probabilities move towards that component's: the stated weighted mean, multiplied out |
| `Interpolation.ParamRaisedProb` | scripts/mitlm/src/InterpolatedNgramLM.cpp:262-303 | the same for the factor of a feature |
| `MixtureParams.MapParams` | scripts/mitlm/src/InterpolatedNgramLM.cpp:211-221 | the parameters that are tuned take the values given, in order, and all others keep their defaults |
| `MixtureParams.Layout.InRange` | scripts/mitlm/src/InterpolatedNgramLM.cpp:114-157 | every bias and factor that is read lies within the vector as sized, biases before factors |
| `MixtureParams.Layout.BiasShared` | scripts/mitlm/src/InterpolatedNgramLM.cpp:246-269 | two biases are one parameter exactly if they are of one component, and of one order or orders share |
| `MixtureParams.Layout.FeatureShared` | scripts/mitlm/src/InterpolatedNgramLM.cpp:247-274 | two factors are one parameter exactly if they are of one feature, of one component or components share, and of one order or orders share |
| `MixtureParams.Layout.BiasesAscend` | scripts/mitlm/src/InterpolatedNgramLM.cpp:246-269 | biases stand order by order and then component by component |
| `MixtureParams.Layout.FeaturesAscend` | scripts/mitlm/src/InterpolatedNgramLM.cpp:247-274 | factors stand order by order, then component by component, then feature by feature |
| `MixtureParams.Layout.AllUsed` | scripts/mitlm/src/InterpolatedNgramLM.cpp:132-157 | no parameter of a vector sized for generalised linear interpolation is left unread |
| `MixtureParams.ReadParams` | scripts/mitlm/src/InterpolatedNgramLM.cpp:246-274 | reading on from two moving places finds, for every order, component and feature, exactly the parameter of that place, and zero for the first component's bias |
| `Interpolation.NormalisedIff` | scripts/mitlm/src/InterpolatedNgramLM.cpp:306-329 | above a normalised history, a history is normalised exactly when its backoff weight spreads what its n-grams leave; with a denominator other than one that is the recomputed weight and no other |
| `Interpolation.MixtureNormalised` | scripts/mitlm/src/InterpolatedNgramLM.cpp:306-329 | with recomputed weights, and one for the mass stored wherever the shorter history already gives everything to the stored words, normalised unigrams normalise every history of the mixture |
| `Interpolation.MixtureNormalisedExactly` | scripts/mitlm/src/InterpolatedNgramLM.cpp:306-329 | and only then |
| `Interpolation.EstimateProbs` | scripts/mitlm/src/InterpolatedNgramLM.cpp:245-304 | the accumulation over components gives at every masked n-gram the mean under the weights that `Interpolation.BiasRaisedWeight` and its neighbours characterise |
| `Interpolation.EstimateBows` | scripts/mitlm/src/InterpolatedNgramLM.cpp:306-329 | each masked history gets its recomputed weight, an undefined value where the denominator is zero; other weights stay |
| `Interpolation.GetMask` | scripts/mitlm/src/InterpolatedNgramLM.cpp:162-209 | the masks grow until every masked backoff weight can be summed |
| `Interpolation.SameProb` | scripts/mitlm/src/InterpolatedNgramLM.cpp:331-392 | a masked probability is the full one if the components agree where masked |
| `MixtureModels.InterpolatedNgramLM.GetMask` | scripts/mitlm/src/InterpolatedNgramLM.cpp:162-209 | for any masks asked for, the masks of the mixture and of every component hold them and all that their values depend on, at every order |
| `MixtureModels.InterpolatedNgramLM.EstimateMasked` | scripts/mitlm/src/InterpolatedNgramLM.cpp:211-243 | estimating the components under their masks and then the mixture order by order gives, at every masked place of every order, the probability and backoff weight of full estimation, whatever the vectors held before |
| `MixtureModels.InterpolatedNgramLM.Estimate` | scripts/mitlm/src/InterpolatedNgramLM.cpp:245-424 | full estimation fills every vector with the mixture of the components' full tables and its recomputed weights |
| `MixtureModels.InterpolatedNgramLM.MixtureNormalised` | scripts/mitlm/src/InterpolatedNgramLM.cpp:245-424 | after full estimation over components whose unigrams sum to one, the mixture is normalised after every history exactly if, wherever a shorter history gives everything to the words stored after a history, these hold everything |
| `Probing.NextPowerOfTwo` | scripts/mitlm/src/util/BitOps.h:95-97 | a power of two, greater than x and at most 2x |
| `Probing.StepsDiffer` | scripts/mitlm/src/NgramVector.cpp:218-219 | with a power-of-two table the first m triangular steps visit m different slots |
| `Probing.VisitsAll` | scripts/mitlm/src/NgramVector.cpp:218-219 | so every slot is visited within them |
| `Probing.FreeSlot` | scripts/mitlm/src/NgramVector.cpp:211-214 | a table with fewer entries than slots has a free slot |
| `Probing.ProbingEnds` | scripts/mitlm/src/NgramVector.cpp:84-92 | so probing past taken slots ends |
| `Probing.RelabelKeeps` | scripts/mitlm/src/Vocab.cpp:158-159 | renaming the entries in their slots by a permutation leaves a correct index of the permuted entries |
| `Sorting.SortIndices` | scripts/mitlm/src/vector/DenseVector.tcc:384-396 | sorts when some neighbour steps up and says so; otherwise leaves the vector as it is |
| `Sorting.SortedAnyway` | scripts/mitlm/src/vector/DenseVector.tcc:384-396 | a vector left as it is, is in order only if it has at most one element |
| `NgramVectors.BeforeExactly` | scripts/mitlm/src/NgramVector.cpp:45-54 | n-grams are ordered by their histories first and by their words within |
| `NgramVectors.NgramVector.FindIndex` | scripts/mitlm/src/NgramVector.cpp:212-222 | the slot of the n-gram, or the free slot where it would go |
| `NgramVectors.NgramVector.Find` | scripts/mitlm/src/NgramVector.cpp:83-92 | the unique index of the n-gram; Invalid if it is not there or, in a table that was not built for its name, its name does not lead to it |
| `NgramVectors.NgramVector.Add` | scripts/mitlm/src/NgramVector.cpp:116-134 | appends the n-gram unless it is there, and returns its index |
| `NgramVectors.NgramVector.Reserve` | scripts/mitlm/src/NgramVector.cpp:136-144 | changes the capacity and not the n-grams |
| `NgramVectors.NgramVector.Reindex` | scripts/mitlm/src/NgramVector.cpp:224-236 | the new index finds every n-gram |
| `NgramVectors.NgramVector.Sort` | scripts/mitlm/src/NgramVector.cpp:146-186 | on true the renamed n-grams are strictly ordered, indexed again, and the map says where each went; it is true exactly if some neighbour steps up; on false they stay in place under their new names, ordered only if there is one, with the old index, which finds every n-gram that is safely named and is right exactly if it finds all |
| `NgramVectors.FoundAfterRenaming` | scripts/mitlm/src/NgramVector.cpp:146-162 | the old index finds an n-gram under its new name, whatever hash function it was built with, exactly if that name was the name of an n-gram that stands behind it on every probe |
| `NgramVectors.RightAfterRenaming` | scripts/mitlm/src/NgramVector.cpp:146-162 | the old index is right for the renamed n-grams under every hash function it may have been built with exactly if every new name was that of an n-gram that stands behind it on every probe |
| `NgramVectors.RenamedAndLost` | scripts/mitlm/src/NgramVector.cpp:146-162 | two n-grams renamed into descending order by a sorted vocabulary: not sorted, and the old index loses the first of them |
| `NgramVectors.RenamedAndFound` | scripts/mitlm/src/NgramVector.cpp:146-162 | three n-grams renamed into descending order by a sorted vocabulary, of which the old index loses none under any hash function: being renamed does not decide it |
| `Vocabs.BeforeExactly` | scripts/mitlm/src/Vocab.cpp:47-52 | words are ordered by the first character in which they differ, and a word comes before those it begins |
| `Vocabs.Vocab.constructor` | scripts/mitlm/src/Vocab.cpp:62-66 | a new vocabulary holds the sentence end as word 0 |
| `Vocabs.Vocab.UseUnknown` | scripts/mitlm/src/Vocab.cpp:73-80 | the unknown word becomes word 1 |
| `Vocabs.Vocab.Find` | scripts/mitlm/src/Vocab.cpp:84-97 | the word's number; sentence starts count as sentence ends, and absent words as unknown |
| `Vocabs.Vocab.Add` | scripts/mitlm/src/Vocab.cpp:101-118 | appends the word unless it is there or the vocabulary is fixed |
| `Vocabs.Vocab.Sort` | scripts/mitlm/src/Vocab.cpp:130-162 | the fixed words keep their numbers, the others are sorted exactly if some neighbour steps up, the map is a bijection that follows every word, and the index is right either way |
| `Vocabs.Vocab.Rebuild` | scripts/mitlm/src/Vocab.cpp:145-156 | copying the words to a new buffer permutes them |
| `Vocabs.Vocab.RelabelSlots` | scripts/mitlm/src/Vocab.cpp:158-159 | applying the map to the slots makes the index right for the sorted words, with no rehash |
| `Layers.SpellInjective` | scripts/mitlm/src/NgramModel.cpp:779-785 | no two n-grams of an order spell the same words |
| `Layers.BackoffFound` | scripts/mitlm/src/NgramModel.cpp:793-812 | the backoff found under the history's backoff and the same word is the n-gram without its first word, or Invalid exactly if that is not there |
| `Layers.NeverInvalid` | scripts/mitlm/src/NgramModel.cpp:799 | in a trie closed under dropping the first word no backoff is Invalid |
| `Layers.UnionClosed` | scripts/mitlm/src/NgramModel.cpp:699-732 | adding a closed model to a closed model gives a closed model |
| `Layers.SpellCarried` | scripts/mitlm/src/NgramModel.cpp:720-729 | an n-gram carried to another model spells its words under their new numbers |
| `Layers.TrieValid` | scripts/mitlm/src/NgramModel.cpp:787-813 | a closed model with its backoffs meets all that the estimators assume of it |
| `NgramModels.NgramModel.Add` | scripts/mitlm/src/NgramModel.cpp:131-133 | adds one n-gram to its order and nothing else |
| `NgramModels.NgramModel.ExtendModel` | scripts/mitlm/src/NgramModel.cpp:699-732 | the words and n-grams of the other model join these; the maps say where each is, old numbers stand, and no other word or n-gram is added |
| `NgramModels.NgramModel.SortModel` | scripts/mitlm/src/NgramModel.cpp:734-744 | words and n-grams are permuted and renamed together; every n-gram in a safe place is found again; the links to backoffs are right exactly if every suffix that is there is found, and all lookups too if every place is safe |
| `NgramModels.LinksAfterRenaming` | scripts/mitlm/src/NgramModel.cpp:734-744 | in an order renamed and not sorted all suffixes are found, whatever hash function its table was built with, exactly if all suffixes are safely named |
| `NgramModels.NgramModel.ComputeBackoffs` | scripts/mitlm/src/NgramModel.cpp:787-813 | every n-gram is linked to the one without its first word, or to Invalid if that is not there, exactly if each that is there is found; in a closed model that is exactly when none is linked to Invalid, which is what the source asserts |
| `CorpusCounts.WindowSplits` | scripts/mitlm/src/NgramModel.cpp:125-143 | a window is the history that slid along with the words, and its word |
| `CorpusCounts.ClosedAdds` | scripts/mitlm/src/NgramModel.cpp:125-143 | counting keeps the trie closed under dropping the first word |
| `CorpusCounts.SentenceWindows` | scripts/mitlm/src/NgramModel.cpp:108-143 | the windows of a padded sentence that spell a sequence are the places among its tokens at which it stands, and where the sentence start or the sentence end completes it |
| `CorpusCounts.BigramWindows` | scripts/mitlm/src/NgramModel.cpp:108-143 | a bigram has a window at every adjacent pair of tokens that it is, one if it is the sentence end and the first token, and one if it is the last token and the sentence end |
| `CorpusCounts.CorpusWindowsAre` | scripts/mitlm/src/NgramModel.cpp:107-144 | the same over a corpus |
| `CorpusCounts.CountAdds` | scripts/mitlm/src/NgramModel.cpp:131-136 | one more window changes the count of its words by one and no other count |
| `CorpusCounts.CountSentence` | scripts/mitlm/src/NgramModel.cpp:108-143 | the count of every word sequence grows by its occurrences in the sentence: the places among the tokens, and where the sentence start or end completes it, without unknown words; stored then is exactly what was stored, what occurs, and the sentence start |
| `CorpusCounts.CorpusShrinks` | scripts/mitlm/src/NgramModel.cpp:107-144 | no word sequence has more windows in a corpus than the sequence without its first word |
| `CorpusCounts.CountedShrinks` | scripts/mitlm/src/NgramModel.cpp:107-144 | so counting keeps every n-gram at most as frequent as its backoff |
| `Corpora.EmptyToken` | scripts/mitlm/src/NgramModel.cpp:111-119 | a line yields an empty word exactly if it ends in two spaces or is a single one |
| `Corpora.SpacesAre` | scripts/mitlm/src/NgramModel.cpp:113-117 | six characters are white space |
| `Corpora.TokensSpaced` | scripts/mitlm/src/NgramModel.cpp:110-119 | words with single blanks between them are found again |
| `Corpora.MarksAre` | scripts/mitlm/src/NgramModel.cpp:104-105 | the lines passed over begin with the five characters of the opening mark or are the closing mark |
| `Corpora.ReadLine` | scripts/mitlm/src/NgramModel.cpp:107-121 | a line's words join the vocabulary unless it is fixed, and their numbers are those in it |
| `CorpusLoading.AddRemaining` | scripts/mitlm/src/NgramModel.cpp:143-148 | words without a unigram get one of count zero; then there are exactly as many unigrams as words, and no count has changed |
| `CorpusLoading.CountRenamed` | scripts/mitlm/src/NgramModel.cpp:150-160 | sorting words, n-grams and counts together keeps what is stored and how often, under the new numbers |
| `CorpusLoading.LoadCorpus` | scripts/mitlm/src/NgramModel.cpp:83-162 | from lines of text to a sorted and linked model: in terms of the sorted vocabulary every n-gram is counted once for each of its occurrences in the corpus, its starts and ends of sentences among them, on top of its old count; stored is exactly what was stored, what the corpus spells, and the words; the model is closed, every word has a unigram, no n-gram counts more than its suffix, and the links are right exactly if none is missing |
| `CountedModels.BackoffCounted` | scripts/mitlm/src/NgramModel.cpp:787-813 | the count of an n-gram is at most that of the n-gram its backoff link leads to |
| `Merging.ApplySort` | scripts/mitlm/src/NgramModel.h:99-108 | the data rearranged by an injective map, with the default where nothing went |
| `Merging.Embedding.Injective` | scripts/mitlm/src/NgramModel.cpp:720-729 | different n-grams of a component stay different in the merged model |
| `Merging.Embedding.BackoffMoves` | scripts/mitlm/src/NgramModel.cpp:787-813 | the backoff of a moved n-gram is the moved backoff |
| `Merging.NgramLMBase.SetModel` | scripts/mitlm/src/NgramLM.cpp:115-138 | the new tables hold the component's values where it had them, weight one for histories it lacked, and the backed-off value where it had nothing or zero |
| `Merging.Embedding.MeaningKept` | scripts/mitlm/src/NgramLM.cpp:115-138 | if every stored zero is what its own backoff gives, so in particular if all stored probabilities are positive, every word keeps its probability after every history |
| `Merging.Embedding.MeaningKeptExactly` | scripts/mitlm/src/NgramLM.cpp:115-138 | and only then |
| `Merging.Embedding.NewSlot` | scripts/mitlm/src/NgramLM.cpp:126-137 | a slot the component never had holds its history's weight times the shorter history's probability |
| `MergedModels.CarriedEmbeds` | scripts/mitlm/src/InterpolatedNgramLM.cpp:45-66 | carrying a component's n-grams into a merged model is an embedding |
| `MergedModels.ExtendedKnown` | scripts/mitlm/src/NgramModel.cpp:699-732 | if every word of the parts has its unigram, so has every word of the model extended by them |
| `MergedModels.SortedKnown` | scripts/mitlm/src/NgramModel.cpp:734-744 | and of the sorted model |
| `MergedModels.MergeParts` | scripts/mitlm/src/InterpolatedNgramLM.cpp:45-56 | extending by every component and sorting places all their words and n-grams; the result is consistent in every respect the estimators and the reset assume exactly if no link is missing, so in particular if every n-gram had a safe place |
| `MergedModels.ResetPart` | scripts/mitlm/src/InterpolatedNgramLM.cpp:58-66 | a component reset to the merged model gives every word the probability it gave before after every history exactly if every stored zero is what its backoff gives |
| `MergedModels.ResetParts` | scripts/mitlm/src/InterpolatedNgramLM.cpp:58-66 | the same for all components, one after the other |
| `MergedModels.LoadLMs` | scripts/mitlm/src/InterpolatedNgramLM.cpp:45-66 | all in one: the components are merged, sorted and, if no link is missing, reset, each of them keeping every probability exactly if its stored zeros are what its backoff gives |
| `IntervalHeaps.Rise` | scripts/srilm/include/IntervalHeap.cc:61-66 | moving a parent down keeps the interval order and the elements |
| `IntervalHeaps.Sink` | scripts/srilm/include/IntervalHeap.cc:117-131 | moving the first child up, and exchanging with its far end, keeps the interval order |
| `IntervalHeaps.SiftDown` | scripts/srilm/include/IntervalHeap.cc:114-131 | the sifting loop restores the order at both ends, loses no element, and leaves a doubled last element doubled |
| `IntervalHeaps.RootBounds` | scripts/srilm/include/IntervalHeap.h:82-92 | the root holds the least and the greatest element |
| `IntervalHeaps.PushEven` | scripts/srilm/include/IntervalHeap.cc:48-91 | a push into an even heap opens a node, doubles its element, and adds exactly that element |
| `IntervalHeaps.Pop` | scripts/srilm/include/IntervalHeap.cc:94-141 | taking the near end of the root out removes exactly that element and keeps the order, for both parities |
| `IntervalHeaps.IntervalHeap.TopMin` | scripts/srilm/include/IntervalHeap.h:82-86 | an element no greater than any other |
| `IntervalHeaps.IntervalHeap.TopMax` | scripts/srilm/include/IntervalHeap.h:87-92 | an element no less than any other |
| `IntervalHeaps.IntervalHeap.Push` | scripts/srilm/include/IntervalHeap.cc:25-91 | adds exactly one element and keeps the heap |
| `IntervalHeaps.IntervalHeap.PopMin` | scripts/srilm/include/IntervalHeap.cc:94-141 | removes exactly the element at the least end of the root and keeps the heap |
| `IntervalHeaps.IntervalHeap.PopMax` | scripts/srilm/include/IntervalHeap.cc:144-185 | removes exactly the element at the greatest end of the root and keeps the heap |
| `LHashes.RoundSize` | scripts/srilm/include/LHash.cc:108-118 | at least the entries asked for, and more than them once the table is hashed |
| `LHashes.RoundSizeIs` | scripts/srilm/include/LHash.cc:108-118 | below eight entries as many as asked for, and from there five for every four of one more, rounded down |
| `LHashes.FreeSlot` | scripts/srilm/include/LHash.cc:108-118 | a table with more slots than entries has a free one, so a search ends |
| `LHashes.Absent` | scripts/srilm/include/LHash.cc:297-312 | a search that stops at a free slot has shown the key absent |
| `LHashes.HoleClosed` | scripts/srilm/include/LHash.cc:459-476 | once the slot after those examined is free, the hole keeps no entry from being found |
| `LHashes.MoveProbed` | scripts/srilm/include/LHash.cc:479-494 | an entry whose search stops short stops at the hole, and moving it there moves the hole |
| `LHashes.LHash.Locate` | scripts/srilm/include/LHash.cc:271-320 | finds the key exactly if it is in the map, and otherwise where it would go |
| `LHashes.LHash.Find` | scripts/srilm/include/LHash.cc:323-335 | the key's value in the map, exactly if it has one |
| `LHashes.LHash.Insert` | scripts/srilm/include/LHash.cc:349-428 | the map gains the key with the zero value unless it has it, through copying or rehashing if the table is too full |
| `LHashes.LHash.Put` | scripts/srilm/include/LHash.cc:349-428 | storing through what an insertion returns sets the key's value in the map and no other |
| `LHashes.LHash.Remove` | scripts/srilm/include/LHash.cc:430-501 | the map loses the key, in both modes, and the value comes back |
| `LHashes.LHash.FillHole` | scripts/srilm/include/LHash.cc:459-494 | the hole-filling loop ends with every other entry found again |
| `BinaryTries.Encode` | scripts/srilm/lm/src/Counts.cc:76-108 | two, four or eight bytes, no fewer than asked for, and none exactly if the count is too large |
| `BinaryTries.EncodeTwo` | scripts/srilm/lm/src/Counts.cc:76-108 | below 32768, if two bytes will do: those two, the higher first |
| `BinaryTries.EncodeFour` | scripts/srilm/lm/src/Counts.cc:76-108 | four bytes exactly where two will not do and the count is below 2 to the 30th: its bytes from the highest on, marked by the first bit |
| `BinaryTries.EncodeEight` | scripts/srilm/lm/src/Counts.cc:76-108 | eight bytes exactly where four will not do and the count is below 2 to the 62nd: its bytes from the highest on, marked by the first two bits |
| `BinaryTries.DecodeEncode` | scripts/srilm/lm/src/Counts.cc:76-160 | a count written is read back, with its size |
| `BinaryTries.LengthExact` | scripts/srilm/include/NgramStats.cc:979-985 | every length read is the number of bytes of its subtrie, the length's own among them |
| `BinaryTries.WriteNode` | scripts/srilm/include/NgramStats.cc:916-1012 | placeholder, children, back-patch and retry leave in the file exactly the specified bytes, and the retries end |
| `BinaryTries.ReadNode` | scripts/srilm/include/NgramStats.cc:379-460 | the reading loop computes the specified reader |
| `BinaryTries.ReadsBack` | scripts/srilm/include/NgramStats.cc:379-460 | reading a written trie into any node adds it there down to the levels wanted, under any word list, with or without intersection, and the reader goes exactly past it |
| `BinaryTries.MergeCounts` | scripts/srilm/include/NgramStats.cc:379-460 | what is added: every n-gram gains the counts of all the n-grams in the file whose words have its numbers, or under intersection only if it was there already |
| `BinaryTries.RoundTrip` | scripts/srilm/include/NgramStats.cc:379-1012 | a trie of n levels written whole and read to k of them into an empty node comes back down to k levels with its words renumbered: the same trie if their numbers are their own and k is enough |
| `BinaryTries.OrderReadBack` | scripts/srilm/include/NgramStats.cc:379-1012 | from a file written with an order the counts of that order come back, and no others |
| `BinaryTries.GivenAtOrder` | scripts/srilm/include/NgramStats.cc:916-1012 | such a file holds for the n-grams of its order what a whole file holds, and nothing for others |
| `BinaryTries.GivenOwn` | scripts/srilm/include/NgramStats.cc:379-460 | where words keep their numbers a whole file holds for every n-gram it reaches the count of the trie |
| `NumberWords.NumToText` | scripts/english_number_conversion.py:61-142 | the specified text of the number, or nothing exactly if a scale word is missing for it |
| `NumberWords.TextToNum` | scripts/english_number_conversion.py:1-58 | the reading loop computes the specified reader on every text (what that makes of it `NumberWords.Reading` says), and where only numbers are wanted it refuses a text exactly if some word is no part of a number, naming the first |
| `NumberWords.StrIsDecimal` | scripts/english_number_conversion.py:66-78 | the decimal text of a number has only digits, is worth the number, and begins with zero for zero only |
| `NumberWords.SmallWords` | scripts/english_number_conversion.py:2-12 | which number each word from zero to nine is |
| `NumberWords.TeenWords` | scripts/english_number_conversion.py:2-12 | the same from ten to nineteen |
| `NumberWords.TensWords` | scripts/english_number_conversion.py:5-13 | the same for the tens |
| `NumberWords.ScalesWords` | scripts/english_number_conversion.py:6-14 | a hundred, and a thousand times more with every scale word from thousand on |
| `NumberWords.Printable` | scripts/english_number_conversion.py:68-71 | the numbers with a text are exactly those below ten to the 66th |
| `NumberWords.SplitJoin` | scripts/english_number_conversion.py:22 | words joined with spaces are split again |
| `NumberWords.ReadsGroup` | scripts/english_number_conversion.py:110-133 | a group of three digits is read as its value, multiplied and put aside, or pending if it is the last |
| `NumberWords.RoundTrip` | scripts/english_number_conversion.py:1-142 | reading the text of a number gives the number |
| `NumberWords.TextInjective` | scripts/english_number_conversion.py:61-142 | no two numbers have the same text |
| `NumberWords.UpperRead` | scripts/english_number_conversion.py:148 | a number printed and put in capitals is still read as the number |
| `NumberWords.AndWorthNothing` | scripts/english_number_conversion.py:11-49 | an "and" within a run of number words changes nothing about its worth |
| `NumberWords.AndIgnored` | scripts/english_number_conversion.py:22-58 | the words of a number with an "and" between any of them, never two in a row, are read as the number |
| `NumberWords.OneAndIgnored` | scripts/english_number_conversion.py:22-58 | in particular with one "and" anywhere between them |
| `NumberWords.TextKept` | scripts/english_number_conversion.py:29-42 | a text without number words stays as it is |
| `NumberWords.NumberInText` | scripts/english_number_conversion.py:29-58 | of a number within a text the words give way to its digits, and an "and" it ends in stays behind it |
| `NumberWords.Reading` | scripts/english_number_conversion.py:23-58 | every text that is all one number is read as it; of any other the reader gives the numbers and other words in order, but for the run of number words that ends it |
| `NumberWords.IntendedExactly` | scripts/english_number_conversion.py:23-58 | so nothing is lost exactly if all words are part of one number, or the last word is not part of a number |
| `NumberWords.TrailingNumberLost` | scripts/english_number_conversion.py:52-58 | for instance, of an unknown word and a number only the word is left |

## Left out

- Floating-point rounding, NaN arithmetic and overflow of 32-bit indices and counts; `logAdd`, which drops small terms, is exact addition here.
- `Selection.Select`: `totalCost` is unbounded, where the source wraps at 32 bits; the contract bounds the cost by the budget and one sentence. The queue may return any greatest entry, as the order of ties is not fixed.
- `NBest.FindNBestPaths`: asks for n at least one; with n zero the source would go on until all paths are found.
- `Oracle.FindOracleWER`: states the error count only. The recorded path is not claimed to be optimal: a deletion records the start of the incoming arc as its parent, and parallel arcs are not told apart (scripts/mitlm/src/Lattice.cpp:714-756). References longer than 65535 words, which wrap the 16-bit position, are not modelled.
- `NgramVectors.NgramVector.Sort`: asks for at least one n-gram, as does `Vocabs.Vocab.Sort` for one word that is not fixed, because the source reads out of bounds otherwise.
- `NgramModels.NgramModel.ExtendModel`: asks that the other model has no more orders than this one and that the vocabulary is not fixed. Growing the vector of orders copies n-gram vectors, which throws, and leaves the backoff vectors short.
- `CorpusLoading.LoadCorpus`: takes lines as read, shorter than the reading buffer and without zero characters; asks, as sorting does, for n-grams of every order and a word that is not fixed. It moves all counts by their maps, which are the identity for an order that stays as it is, where the source then only cuts the counts to size.
- `KneserNey.Estimate`: takes n-gram weights as given, one for unweighted estimation; computing them from features, and rejecting tuned discounts out of range, is not modelled.
- `Interpolation.EstimateBows`: what dividing by zero gives is one undefined value, the same wherever it happens; infinities and NaN are not told apart.
- `LHashes.RoundSize`: divides by exactly four fifths, where the source divides by the nearest single-precision number.
- `LHashes.LHash.Insert`: returns where the value is; the source returns its address. Copying, clearing and iterating over tables are not modelled.
- `IntervalHeaps.IntervalHeap.PopMin`: shares its sifting code with `PopMax`, which the source writes out twice; the two arrays of ends stand for one array of pairs.
- `BinaryTries.ReadsBack`: asks that every word of the file is one of its list, as every written file's are. Files that cannot be positioned are not modelled.
- `MergedModels.MergeParts`: asks for components of no more orders than the merged model, for a merged model without an unknown word of its own, as the mixture's is, and for some n-gram of every order and some word besides the sentence end, because sorting reads out of bounds otherwise. The components arrive as checked by their own vocabularies.
- `NumberWords.NumToText`: takes non-negative integers only; signs, fractions and commas are handled by patterns, and the zero test there also matches fractions such as 0.5.
- Feature weights and inverse document frequencies, command lines, corpus and model file formats, logging.
- Parameter optimisers, maximum likelihood smoothing, confusion networks, lattice loading, and the mapping of lattice arcs to n-grams.
- Web mining, downloading, text cleaning by regular expressions, and the smaller containers of the toolkit.
