# A Dafny model of the Inkling runtime

Inkling is a C99 runtime for a mixture-of-experts transformer.  Again and again it pairs a slow, simple definition with a
fast form that keeps state.  This project models both forms and proves them equal, or says exactly when they are.
`dafny verify dfyconfig.toml` checks all of it.

Code that changes things in place is modelled in place: arrays and classes with loops and invariants, each method proved
against a specification function.  The theorems are lemmas about those functions.

| Part | Files |
|---|---|
| Numbers | `Carrier` (a float is NaN, an infinity or a real; every operation rounds through parameters that meet the stated laws) |
| What the numbers are | `RealMath`, `SoftmaxValues`, `HeadValues`, `LayerValues`, `ProductValues` |
| Full pass, incremental pass, calls | `Softmax`, `ShortConv`, `Attention`, `Layer`, `Forward`, `Sequence`, `Runtime`, `Generate` |
| Expert cache and projection | `ExpertCache`, `LruInclusion`, `Nvfp4`, `Project`, `Router` |
| Storage | `Sorting`, `Tensors`, `Index`, `Safetensors`, `Ranges`, `Blobs`, `Packing`, `PackedTrunk`, `Storage`, `Checkpoint`, `Catalogue`, `Shards`, `RoundTrip`, `Sha256` |
| JSON | `Utf8`, `JsonString`, `JsonNumber`, `JsonGrammar`, `JsonExact`, `JsonPrint`, `JsonParser`, `JsonSpelling` |
| Helpers | `Wrappers`, `Arithmetic`, `Counters`, `Octets`, `Pigeonhole` |

## How the main results fit together

*Incremental decoding.*  `Layer.LayerStep` is the step of the argument: if a layer's ring buffers and histories summarise
a prefix, one token gives the last row of the full layer on the longer prefix and leaves a summary of it.  It rests on
causality (`Attention.HeadsCausal`), on the ring forgetting exactly what the window masks (`Attention.StartIsMask`) and on
masked scores being invisible to the softmax (`Softmax.SoftmaxTrailingMasks`).  `Forward.ConsumeIsFull` exchanges the
layer and token loops.  `Sequence.RunRefines` covers any interleaving of calls.  A call may fail because recomputation
fails, or because of a fault, such as a failed read, that is gone when the next call comes: every answer is the recomputed
one or such a failure, and the session goes on accordingly.  The methods of `Runtime.Context`, which take the faults of
each stage as an argument, are proved to take exactly those steps.  `Generate` builds on them.

*Values.*  Two forms that agree could still agree on a wrong number, so the numbers are stated outright as well.
`RealMath.Unrounded` is arithmetic without rounding; under it `HeadValues.ExactHead` gives every element of every head as
a weighted average of the tokens seen, `LayerValues.ExactLayer` a layer as its input plus two convolved branches, and
`ProductValues.ExactNvfp4Output` a projection as the sum over its stored codes.  Where rounding does not matter the
statements hold with it: probabilities of equal scores, the first token's heads, the residual stream of silent layers.
`JsonSpelling` says the same of strings: a character denotes itself however it is spelled.

*Caching.*  `ExpertCache.Cache` is a doubly linked list on the heap with a representation invariant; each call performs
the list transformation `Access`.  `LruInclusion` reasons about whole traces of `Access`, and `Project` shows that neither
the cache nor the tile size can be seen in a result.

*Storage.*  Every table of the storage layer is related to an order-free description of what it should hold:
a map for the index, a partition of the payload for a shard header, pairwise disjoint ranges for blobs and for the packed
trunk.  `Storage.ModelRead` returns the bytes of the original shard whichever way they are stored.
`RoundTrip.PackedCheckpoint` puts the parts together for any checkpoint: load the index and the shard headers, let the
packer read and pack the same files, open the result.  The packer accepts whatever the runtime loads, and afterwards every
read inside a tensor succeeds and gives the same bytes through the shards and through the packed trunk.

*JSON.*  `JsonGrammar` has concrete syntax trees for RFC 8259 and a functional reading of the parser; `JsonExact` proves
that acceptance and the grammar coincide, `JsonPrint` the round trip, and `JsonParser` that the cursor parser, with its
loops, computes that function.

## Promises that hold only under a condition

* LRU as the longest fitting prefix (src/model/inkling_project.c:98-162).  A lookup that is too large for the budget
  bypasses the cache but still counts as most recent.  `LruInclusion.LongestExactly` gives the condition on the trace that
  is equivalent to the property; `LruInclusion.LargerCanBeWorse` is a trace over two matrices, charges 192 and 336, on
  which it fails and a larger budget has fewer hits.
* Tensor sizes (src/io/inkling_safetensors.c:87-104).  The product of the dimensions is compared with 64 bits before a
  later zero is seen, so `[2^40, 2^40, 0]` is refused and `[0, 2^40, 2^40]` accepted; the packer accepts both
  (tools/pack_trunk.py:128).  `Safetensors.SizeIsValid` states the exact condition.
* Overlap of packed ranges (src/model/inkling_packed.c:186-191, 264-268).  The comparison ignores the length, so the
  verdict on an empty tensor that starts where a non-empty one starts is left to the order `qsort` gives equal elements.
  `Checkpoint.OverlapVerdict` gives the exact condition, `Checkpoint.TieAtAnInput` an accepted header with such a tie.
* Trunk coverage (src/model/inkling_packed.c:242-246).  Opening counts trunk names over the whole index, packing leaves out
  `mtp.safetensors`.  `Checkpoint.PackedFileOpens` gives the exact condition, `Checkpoint.CoverageCanFail` an index on which
  it fails.  It takes another index than the published one, none of whose 160 names in that shard is a trunk name.

## Model

| member | source | states |
|---|---|---|
| Carrier.ExactArithmeticIsLawful | src/core/inkling_math.c:121-138 | the arithmetic laws that all results assume of rounding and of the exponential are consistent: exact reals, with a positive increasing function in the place of the exponential, meet them |
| RealMath.UnroundedIsLawful | src/core/inkling_math.c:121-138 | arithmetic without rounding meets the laws, so every result holds of it |
| RealMath.UnroundedExists | src/core/inkling_math.c:121-138 | there is such arithmetic |
| Softmax.MaximumIsGreatest | src/core/inkling_math.c:125-126 | the scanned maximum is one of the scores and no score exceeds it |
| Softmax.TotalRange | src/core/inkling_math.c:127-133 | the sum of the weights of finite or masked scores is at least the weight 1 of the maximum, and a value of the format or an infinity |
| Softmax.TotalGrows | src/core/inkling_math.c:127-133 | no prefix of the sum exceeds the sum |
| Softmax.TotalIsFinite | src/core/inkling_math.c:127-133 | where double precision has every whole number up to the number of scores, the sum is finite and at most that number |
| Softmax.MaskedProbability | src/core/inkling_math.c:121-138 | a score of minus infinity gets probability exactly zero |
| Softmax.SoftmaxTrailingMasks | src/core/inkling_math.c:121-138 | any number of trailing masked scores leaves success and all other probabilities unchanged and adds zeros |
| Softmax.SoftmaxInto | src/core/inkling_math.c:121-138 | the loops compute the softmax even when the output is the input; a failure writes nothing |
| SoftmaxValues.OneScore | src/core/inkling_math.c:121-138 | a single finite score has probability one, with rounding |
| SoftmaxValues.EqualScores | src/core/inkling_math.c:121-138 | n equal finite scores have probability 1/n each, rounded as the code rounds it |
| SoftmaxValues.ExactProbability | src/core/inkling_math.c:127-136 | without rounding a probability is the exponential of the score less the maximum, divided by the sum of all of them |
| SoftmaxValues.ProbabilitiesSumToOne | src/core/inkling_math.c:127-136 | without rounding the probabilities sum to one |
| SoftmaxValues.ProbabilitiesInProportion | src/core/inkling_math.c:127-136 | without rounding two probabilities are in proportion to the exponentials of their scores |
| ShortConv.ConvChunks | src/core/inkling_math.c:160-189 | two calls that carry the three-sample history give the outputs and the final history of one call |
| ShortConv.ConvRunIsOneCall | src/core/inkling_math.c:160-189 | any cut of a sequence into calls gives the outputs and the state of the single call, and succeeds on the same inputs |
| ShortConv.OutputsMatch | docs/PRIMITIVES.md:29-32 | each element of the flat buffers is the closed form over the samples and the initial history |
| ShortConv.CarriedState | src/core/inkling_math.c:176-188 | after the last token the state buffer holds the last three inputs of every channel |
| ShortConv.FiniteFlat | src/core/inkling_math.c:160-189 | the finiteness check of the flat buffer is the check of every row |
| ShortConv.Conv4 | src/core/inkling_math.c:160-189 | outputs and carried state are those of the row specification, also when the output array is the input array |
| LayerValues.DelayedSample | src/core/inkling_math.c:176-182 | a kernel with one tap adds the sample of that many steps ago to the input, with rounding |
| LayerValues.DelayedRow | src/core/inkling_math.c:174-188 | the same for every output of a call |
| LayerValues.ExactConv | docs/PRIMITIVES.md:29-32 | without rounding an output is the four taps on the last four inputs, oldest first, plus the input |
| Attention.StartIsMask | src/model/inkling_forward.c:161-162 | with capacity min(window, context) the slots no longer held are exactly the positions the window masks |
| Attention.ZeroWeights | src/model/inkling_forward.c:293-395 | masked positions with weight zero and finite values add nothing to the weighted sum |
| Attention.SumsAgree | src/model/inkling_forward.c:625-714 | the weighted sum over ring slots is the weighted sum over the unmasked positions of the full pass |
| Attention.ScoresAgree | src/model/inkling_forward.c:625-714 | the scores computed from the ring are the full scores without their masked prefix |
| Attention.HeadAgrees | src/model/inkling_forward.c:625-714 | one head read from the ring equals the head of the full pass, success included |
| Attention.HeadsAgree | src/model/inkling_forward.c:625-714 | all heads of a token read from the ring equal its heads in the full pass, however long the prefix is |
| Attention.HeadCausal | src/model/inkling_forward.c:293-395 | later keys and values do not change a head |
| Attention.HeadsCausal | src/model/inkling_forward.c:293-395 | later keys and values do not change any head of a token |
| HeadValues.HeadOfGroup | src/model/inkling_forward.c:355 | head i of group g reads key/value head g |
| HeadValues.GroupIsLocal | src/model/inkling_forward.c:353-386 | the heads of a group depend on the keys and values only through the columns of the group |
| HeadValues.RingGroupIsLocal | src/model/inkling_forward.c:673-706 | the same when keys and values are read from the rings |
| HeadValues.FirstToken | src/model/inkling_forward.c:353-386 | the first token gets the value row itself, each group its own columns, with rounding |
| HeadValues.ExactBias | src/model/inkling_forward.c:357-361 | without rounding the relative bias is the product of features and logits at the distance, nothing beyond the extent |
| HeadValues.ExactScore | src/model/inkling_forward.c:366-370 | without rounding a score is the inner product of the head with the columns of its group over the dimension, plus the scaled bias |
| HeadValues.ExactHead | src/model/inkling_forward.c:353-386 | without rounding every element of every head is the average of the values of the tokens seen, in the column of its group, weighted by the exponentials of their scores; it never fails |
| HeadValues.OverflowFails | src/model/inkling_forward.c:372-376 | a bias that overflows, scaled or not, at any distance up to the token fails the head in both forms |
| Layer.RingWrite | src/model/inkling_forward.c:660-705 | writing slot t mod capacity keeps every position that a later token can read |
| Layer.ProjectSnoc | src/model/inkling_forward.c:625-660 | projecting one token with carried histories extends the full projections by one row |
| Layer.AttentionStep | src/model/inkling_forward.c:625-714 | attention of one token on a carried state is the last attention row of the longer prefix, and the state carries it |
| Layer.MlpStep | src/model/inkling_forward.c:716-743 | the second half of the layer for one token is its last row for the longer prefix |
| Layer.LayerStep | src/model/inkling_forward.c:716-743 | one token on a summarising state succeeds exactly when the full layer does, gives its last row, and leaves the summary of the longer prefix |
| Layer.LayerFront | src/model/inkling_forward.c:524-556 | causality of a whole layer: dropping the last input row drops the last output row and nothing else |
| LayerValues.LayerKeepsInput | src/model/inkling_forward.c:524-556 | when attention output and MLP give zero rows a layer returns its input, with rounding |
| LayerValues.TokenKeepsInput | src/model/inkling_forward.c:716-743 | the same for one token, and the two histories stay zero |
| LayerValues.ExactLayer | src/model/inkling_forward.c:536-553 | without rounding a layer is its input plus the two convolved branches |
| LayerValues.ExactToken | src/model/inkling_forward.c:725-741 | the same for one token with carried histories |
| LayerValues.QueryOfToken | src/model/inkling_forward.c:335-352 | queries are scaled by the factor of the one-based position in a global layer and left alone in a local one |
| LayerValues.HeadRowAt | src/model/inkling_forward.c:346-386 | row t of the attention is the heads of token t on the whole prefix |
| Forward.ClearedCarriesNothing | src/model/inkling_forward.c:76-94 | zeroed histories carry the empty prefix whatever the uncleared rings hold |
| Forward.TokenForwardStep | src/model/inkling_forward.c:745-781 | one token through all layers is the next row of the full pass, with the same success, and the states carry the longer prefix |
| Forward.ThroughFront | src/model/inkling_forward.c:558-611 | causality of the whole model |
| Forward.ConsumeIsFull | src/model/inkling_forward.c:745-781 | the token-by-token pass over a prompt and the layer-by-layer pass succeed on the same prompts and end with the same row |
| LayerValues.SilentModel | src/model/inkling_forward.c:558-611 | through layers that give nothing every token reaches its own logits: the unembedding of its embedding |
| Sequence.PrefillStep | src/model/inkling_forward.c:798-818 | a prefill answers the last row of the full forward and leaves the state of a fresh run on the prompt |
| Sequence.DecodeStep | src/model/inkling_forward.c:820-831 | a decode answers the next row of the full forward on the consumed tokens |
| Sequence.StepRefines | src/model/inkling_forward.c:783-831 | each call answers as the session that recomputes everything or fails by a fault, and the machine then represents the session after that answer |
| Sequence.ComputesRefines | src/model/inkling_forward.c:783-831 | a call that no fault hits answers exactly as recomputation does, failures included |
| Sequence.BreaksRefines | src/model/inkling_forward.c:783-790 | a call that a fault ends early, wherever it was, leaves a restarted session after a forward and none after a prefill or a decode |
| Sequence.ResettingStepRefines | src/model/inkling_forward.c:76-94 | a call that resets needs nothing of the state before it, even after a failure |
| Sequence.RunRefines | src/model/inkling_forward.c:558-831 | over every run of calls, with faults anywhere, each answer is that of full recomputation on the tokens consumed since the last reset or a failure of a faulty call, and the last machine carries those tokens |
| Sequence.CleanRunRefines | src/model/inkling_forward.c:558-831 | without faults the answers are exactly those of full recomputation |
| Sequence.FreshMachine | src/model/inkling_forward.c:149-175 | a newly created sequence represents the empty session |
| Sequence.FailureBlocksDecode | src/model/inkling_forward.c:783-790 | in any run of the machine, once a prefill or a decode has failed every decode fails up to the next call that resets, the fault gone or not |
| Sequence.PrefillRecovers | tests/test_incremental.c:115-124 | after any failure a prefill that no fault hits answers as recomputation does and carries its prompt |
| Sequence.SameTokensSameState | src/model/inkling_forward.c:660-705 | two contexts that consumed the same tokens agree on all histories and on every readable ring slot |
| Sequence.RowOfPrefix | src/model/inkling_forward.c:558-611 | the last row of a prefix is that row of the longer forward |
| Sequence.SplitMatchesForward | tests/test_incremental.c:28-57 | for every split point the prefill and the decodes of a machine answer the corresponding rows of the full forward, or fail where a fault may have hit |
| Sequence.SplitRecomputed | tests/test_incremental.c:28-57 | the same of the session that recomputes |
| Sequence.FrontRows | src/model/inkling_forward.c:613-623 | the logit rows of a shorter prompt are the first rows of the longer one |
| Sequence.RefusedPrefill | tests/test_incremental.c:96-106 | a prefill fails without incremental mode or a complete model, for no, too many or unknown tokens, and for too little room |
| Sequence.RefusedDecode | tests/test_incremental.c:96-111 | a decode fails for the same reasons, and when the session is gone or full |
| Sequence.RefusedForward | src/model/inkling_forward.c:558-575 | a forward that is refused has restarted the session all the same |
| Sequence.TinyIsValid | src/model/inkling_forward.c:149-175 | what the other results require of a model and a context can be met: an incremental context of one local layer |
| Runtime.FullScoresInto | src/model/inkling_forward.c:356-370 | the score loop of the full pass fills the scores of one head, masked ones with minus infinity |
| Runtime.RingScoresInto | src/model/inkling_forward.c:672-691 | the score loop of the incremental pass reads ring slots and gives the scores of the readable positions |
| Runtime.AttentionForward | src/model/inkling_forward.c:293-395 | the loops compute the full attention specification, or fail by a fault |
| Runtime.LayerForward | src/model/inkling_forward.c:524-556 | the stages compute the full layer specification, or fail by a fault |
| Runtime.AttendToken | src/model/inkling_forward.c:625-714 | the incremental attention updates rings and histories in place as the specification says and touches nothing else of the layer |
| Runtime.LayerToken | src/model/inkling_forward.c:716-743 | one token through one layer, in place |
| Runtime.SequenceCreate | src/model/inkling_forward.c:149-175 | every layer gets buffers of its own with the ring capacity and zeroed histories |
| Runtime.Create | src/model/inkling_forward.c:187-259 | a created context is valid, empty and cleared |
| Runtime.Context.Reset | src/model/inkling_forward.c:76-94 | position and validity restart, histories are zeroed, ring contents stay |
| Runtime.Context.RunToken | src/model/inkling_forward.c:745-781 | a token advances all layer states and the position together, or fails |
| Runtime.Context.CallPrefill | src/model/inkling_forward.c:798-818 | whatever faults hit it, the call takes a prefill step of the machine, and counts its tokens when it succeeds |
| Runtime.Context.CallDecode | src/model/inkling_forward.c:820-831 | whatever faults hit it, the call takes a decode step of the machine, a failure included |
| Runtime.Context.CallForward | src/model/inkling_forward.c:558-623 | whatever faults hit it, the call takes a forward step of the machine, and counts its tokens when it succeeds |
| Runtime.Context.Position | src/model/inkling_forward.c:792-796 | the number of tokens the context carries, and 0 when it carries none |
| Generate.ReplayStops | src/model/inkling_generate.c:179-204 | the loop stops at the first end-of-text token, else at the requested count, else at the context limit |
| Generate.GenerationStops | src/model/inkling_generate.c:165-204 | the whole call respects capacity, model length, output room and the order of the stop reasons, and stops for the context only when capacity or model length is used up |
| Generate.Normalised | src/model/inkling_generate.c:32-45 | which options are accepted; temperature 0 always gives one token and no cut, a count of 0 or beyond the width all tokens |
| Generate.GreedyRun | src/model/inkling_generate.c:142-209 | at temperature 0 a whole run samples with one token and no cut, whatever filters were asked for |
| Generate.ReplayIgnoresMode | src/model/inkling_generate.c:183-189 | the reference run does not depend on the mode of the context |
| Generate.ModesAgree | src/model/inkling_generate.c:142-209 | the reference of a whole call does not depend on the mode of the context |
| Generate.BothModes | tests/test_expert_cache.c:383-395 | two contexts of different modes, whatever they did before, generate the same ids, stop reason and sampler state, fail on the same calls unless a fault hits one, and process the closed-form numbers of tokens |
| Generate.WorkClosedForm | tests/test_expert_cache.c:383-395 | p+g-1 tokens are processed incrementally and g*p+g(g-1)/2 with full recomputation |
| Generate.Generate | src/model/inkling_generate.c:142-209 | in either mode the method returns the reference run, or fails by a fault, and processes the closed-form number of tokens; every decode meets its precondition |
| ExpertCache.AccessKeepsInvariant | src/model/inkling_project.c:98-162 | a lookup keeps keys distinct and the charges within the capacity, whatever allocation and reads do |
| ExpertCache.TotalPromoted | src/model/inkling_project.c:87-96 | promotion changes no charge |
| ExpertCache.Cache.ResetStats | src/model/inkling_project.c:37-45 | the entries stay, counters restart, the peak restarts at what is in use |
| ExpertCache.Cache.Unlink | src/model/inkling_project.c:90-91 | the chain without the entry is again one acyclic doubly linked list in the old order |
| ExpertCache.Cache.PushFront | src/model/inkling_project.c:92-95 | the chain with the entry at its head is again one acyclic doubly linked list |
| ExpertCache.Cache.Promote | src/model/inkling_project.c:87-96 | the entry moves to the head and the others keep their order |
| ExpertCache.Cache.EvictTail | src/model/inkling_project.c:126-133 | the oldest entry, and only it, leaves the chain and the accounting |
| ExpertCache.Cache.EvictUntil | src/model/inkling_project.c:125-134 | the loop always finds a tail, ends, and keeps exactly the entries that leave room |
| ExpertCache.Cache.CachedExpert | src/model/inkling_project.c:98-162 | each call performs the list transformation, keeps the heap invariant also when a read fails, returns an entry filed under the expert, and counts hits, misses, evictions, read calls and bytes, those of a failed lookup included |
| LruInclusion.LongestIsLongest | src/model/inkling_project.c:125-134 | the greedy prefix is the longest one that fits |
| LruInclusion.EvictIsLongest | src/model/inkling_project.c:125-134 | evicting from the tail until there is room leaves the longest prefix that fits |
| LruInclusion.ResidentIsLongest | src/model/inkling_project.c:98-162 | without a late bypass the resident list is the longest prefix of the recency order that fits |
| LruInclusion.LongestExactly | src/model/inkling_project.c:121-124 | that holds after every lookup if and only if no oversized lookup follows one that fits |
| LruInclusion.Inclusion | src/model/inkling_project.c:98-162 | when every charge fits the smaller budget, the larger cache holds everything the smaller one holds, in the same order, after every lookup |
| LruInclusion.LargerIsNoWorse | src/model/inkling_project.c:98-162 | when every charge fits the smaller budget, a larger one never has fewer hits and never reads more bytes |
| LruInclusion.LargerCanBeWorse | src/model/inkling_project.c:115-124 | a trace over two real matrices with an oversized lookup: the longest-prefix property fails, and the larger budget has fewer hits and reads more |
| LruInclusion.RunTrace | src/model/inkling_project.c:98-162 | a run of lookups on an empty cache ends with the resident list of the trace in the chain and with its hits, misses and bytes in the counters |
| LruInclusion.CompareBudgets | src/model/inkling_project.c:98-162 | the same requests on two caches: when every charge fits the smaller budget, the larger one holds more, has no fewer hits and reads no more |
| Nvfp4.MakeLayout | src/core/inkling_nvfp4.c:8-32 | an accepted layout has the shape asked for and payload sizes that match it without overflow |
| Nvfp4.LayoutExactly | src/core/inkling_nvfp4.c:8-32 | accepted are exactly the shapes of a valid layout with the matching packed and scale shapes, and the result is that layout |
| Nvfp4.OffsetsInBounds | src/core/inkling_nvfp4.c:34-55 | offsets exist exactly for the blocks of the tensor and stay inside the three payloads |
| Nvfp4.LinearOrdered | src/core/inkling_nvfp4.c:34-55 | storage order is the lexicographic order of expert, row and block, so blocks never share a place |
| Nvfp4.Matvec | src/core/inkling_math.c:43-81 | a vector that is not finite is refused; otherwise the running block offsets of the row walk give the product that addresses every block by the layout |
| ProductValues.DecodedCodes | src/core/inkling_nvfp4.c:80-97 | for sixteen packed codes: success exactly for a usable scale and finite results, and value i is code i times the combined scale |
| ProductValues.ExactProduct | src/core/inkling_math.c:67-79 | without rounding an output is the sum over all columns of code times scales times input, from the bytes at the place of the row |
| Project.RowPlace | src/model/inkling_project.c:169-186 | expert and row addressing lands inside the expert and inside the tensor |
| Project.TileRow | src/model/inkling_project.c:181-191 | a row of a tile is the row of the matrix |
| Project.TileProduct | src/model/inkling_project.c:208-215 | multiplying a tile as a one-expert tensor gives the rows of the whole expert |
| Project.LoadTile | src/model/inkling_project.c:187-207 | cached pointers and direct reads deliver the same tile bytes |
| Project.Tiles | src/model/inkling_project.c:180-217 | the tile loop computes all rows for every tile size |
| Project.Project | src/model/inkling_project.c:164-219 | for every cache content, budget, eviction and allocation failure and any buffer of one row, the output is the untiled uncached product |
| ProductValues.WordsAreCodes | src/model/inkling_project.c:193-199 | a bfloat16 row is read as its 16-bit codes, low byte first |
| ProductValues.ExactNvfp4Output | src/model/inkling_project.c:200-217 | without rounding an output of a projection is the sum over the codes stored for its row and expert |
| ProductValues.ExactBf16Output | src/model/inkling_project.c:193-199 | the same for a bfloat16 matrix |
| Router.InsertKeepsBest | src/core/inkling_math.c:146-156 | one round of insertion keeps the best k of the indices seen |
| Router.BestIsSortedPrefix | src/core/inkling_math.c:140-158 | the best k are the first k of the stable descending sort |
| Router.BestAreGreatest | src/core/inkling_math.c:140-158 | no score left out is greater than one chosen, and the chosen scores descend |
| Router.TopK | src/core/inkling_math.c:140-158 | the in-place insertion returns the best k and accepts exactly the vectors without NaN |
| Router.SortPairsSorts | src/model/inkling_forward.c:488-498 | the reordering keeps every pair of id and weight and makes ids strictly ascending |
| Router.BestGivesDistinctPairs | src/model/inkling_forward.c:446-450 | the chosen ids are distinct, so the reordering is strict |
| Router.ReorderExperts | src/model/inkling_forward.c:488-498 | the paired in-place insertion sort does this and leaves the shared weights alone |
| Index.MaskIsRemainder | src/io/inkling_index.c:22-28 | masking with a power of two less one is the remainder |
| Index.ProbeEnds | src/io/inkling_index.c:23-29 | a probe of a table at most half full meets an empty slot |
| Index.EmptySlotMeansAbsent | src/io/inkling_index.c:25-27 | a probe that ends at an empty slot proves that no entry has the name |
| Index.InsertKeepsTable | src/io/inkling_index.c:103-109 | filling that slot keeps the probing invariant, for any hash function |
| Index.SlotCount | src/io/inkling_index.c:54-61 | the slot count is a power of two, at least twice and less than four times the count |
| Index.Index.FindSlot | src/io/inkling_index.c:20-31 | the probe ends at the entry with the name, or at an empty slot when there is none |
| Index.Index.FindTensor | src/io/inkling_index.c:121-131 | lookup is that of a map from names to entries |
| Index.Index.Add | src/io/inkling_index.c:72-110 | one insertion succeeds exactly for a well-formed, new name and appends it with a consistent shard number |
| Index.Load | src/io/inkling_index.c:33-119 | loading succeeds exactly on well-formed members with distinct names and gives one entry for each, in order |
| Index.RefusedMembers | src/io/inkling_index.c:78-90 | names and shards that are refused, with the limits of 128 and 64 bytes |
| Index.BindsExactly | src/io/inkling_index.c:147-160 | the checks before publication pass exactly when the header has the shard's names and no others |
| Index.BindingIsBijective | src/io/inkling_index.c:161-169 | after success each entry of the shard has the metadata of the one member with its name and no other entry changed |
| Index.Index.BindTensors | src/io/inkling_index.c:144-171 | all checks come before the first write, so failure changes nothing |
| Safetensors.LeadingDecides | src/io/inkling_safetensors.c:95-101 | all partial products fit 64 bits exactly when the product before the first zero dimension does |
| Safetensors.NonZeroShapesFit | src/io/inkling_safetensors.c:94-103 | without a zero dimension the bound adds nothing to the prescribed size |
| Safetensors.ZeroShapesDependOnOrder | src/io/inkling_safetensors.c:95-101 | two orders of the same dimensions, one refused and one accepted |
| Safetensors.SizeIsValid | src/io/inkling_safetensors.c:87-104 | the size check accepts exactly the prescribed sizes whose leading product fits 64 bits |
| Safetensors.ElementSizes | src/io/inkling_safetensors.c:75-85 | the right length of n elements of each type, none for an unknown type, none beyond eight dimensions |
| Safetensors.ChainIsPartition | src/io/inkling_safetensors.c:205-213 | consecutive ranges put every payload byte into a tensor and no two tensors overlap |
| Safetensors.SortedPartitionIsChain | src/io/inkling_safetensors.c:143-150 | sorted by start and length, a partition is consecutive |
| Safetensors.ScanDecides | src/io/inkling_safetensors.c:203-214 | the scan after the sort accepts exactly the partitions of the payload |
| Safetensors.ChainTotal | src/io/inkling_safetensors.c:205-213 | the lengths of an accepted header sum to the payload |
| Safetensors.MemberOrderIrrelevant | src/io/inkling_safetensors.c:176-214 | the verdict does not depend on the order of the members |
| Safetensors.ParseHeader | src/io/inkling_safetensors.c:152-222 | the method accepts exactly well-formed members whose ranges partition the payload and returns them sorted |
| Ranges.NeighboursSuffice | src/model/inkling_bind.c:483-486 | in sorted order the check of neighbours reaches every later range |
| Ranges.CoverIsLast | src/model/inkling_packed.c:284-294 | at most one range covers a byte, and none after it starts at or before the byte |
| Ranges.NeighboursSound | src/model/inkling_packed.c:264-268 | the check accepts only ranges that are pairwise apart |
| Ranges.NeighboursComplete | src/model/inkling_packed.c:264-268 | ranges that are apart pass in every sorted order unless an empty one ties with a non-empty one |
| Ranges.TieLeavesItOpen | src/model/inkling_packed.c:186-191 | with such a tie one sorted order passes and another fails |
| Ranges.VerdictExactly | src/model/inkling_packed.c:264-268 | the check is certain to pass exactly when there is no such tie |
| Ranges.SortAndCheck | src/model/inkling_bind.c:482-486 | sort and loop decide whether neighbours overlap |
| Sorting.Sort | src/io/inkling_safetensors.c:204 | the library sort gives a sorted permutation and promises nothing about equal elements |
| Sorting.PairwisePermutes | src/io/inkling_safetensors.c:204 | a relation between all pairs survives any rearrangement |
| Blobs.LoadManifest | src/model/inkling_bind.c:482-486 | blobs are accepted exactly when they are pairwise disjoint |
| Blobs.TakenIsPassed | src/model/inkling_bind.c:88-99 | a blob taken to its end leaves every earlier blob behind |
| Blobs.ReadBlobs | src/model/inkling_bind.c:86-100 | the one pass succeeds exactly when every byte asked for is held, and delivers those bytes |
| Blobs.StitchedIsOriginal | src/model/inkling_bind.c:86-100 | the stitched bytes are the stretch of the original shard, in order |
| Packing.CopyBytes | tools/pack_trunk.py:149-156 | copying in pieces appends exactly the stretch of the file |
| Packing.Layout | tools/pack_trunk.py:172-181 | the assigned offsets follow each other from zero and each tensor keeps type, shape and size |
| Packing.TrunkOfMembers | tools/pack_trunk.py:169 | the packed names are the trunk names of the catalogue, without repetition |
| Packing.TrunkNames | tools/pack_trunk.py:51-52 | names of the text model belong to the trunk, those of experts and of other parts do not |
| Packing.Pack | tools/pack_trunk.py:159-208 | for what read_catalogue returns and any execution order, the entries tile the packed payload and each holds the bytes of its source tensor |
| PackedTrunk.Open | src/model/inkling_packed.c:237-271 | opening succeeds exactly when every check against the index holds and neighbours of the sorted table are apart |
| PackedTrunk.RefusedTensor | src/model/inkling_packed.c:249-261 | a packed tensor of other type, shape, length or place than its index entry refuses the file |
| PackedTrunk.EveryTrunkTensor | src/model/inkling_packed.c:242-260 | equal counts and distinct names force every trunk tensor of the index to be packed |
| PackedTrunk.RedirectsTrunk | src/model/inkling_packed.c:249-263 | every trunk tensor of the index has its range in the table |
| PackedTrunk.RowIsTrunk | src/model/inkling_packed.c:249-263 | every row of the table is the range of a trunk tensor of the index |
| PackedTrunk.Search | src/model/inkling_packed.c:285-291 | the binary search counts the rows at or before the byte |
| PackedTrunk.Read | src/model/inkling_packed.c:278-302 | a read is handled exactly when a row covers its first byte, fails exactly when it leaves that row or the file, and delivers the redirected bytes |
| Storage.ModelRead | src/model/inkling_bind.c:67-101 | native, extracted and packed reads succeed exactly when in bounds and available and then deliver the original shard bytes; the rest of the destination is untouched |
| Storage.OutOfBounds | src/model/inkling_bind.c:67-76 | reads of no shard, beyond the range or of a range beyond the file are refused |
| Storage.PackedRowsAreFaithful | src/model/inkling_packed.c:249-263 | every row of a table opened on the packer's file leads to the original bytes |
| Storage.RedirectedExactlyTrunk | src/model/inkling_packed.c:284-295 | a byte of a tensor is redirected exactly when the tensor is in the trunk |
| Storage.TrunkReadsStayInside | src/model/inkling_packed.c:293-297 | the row that covers a byte of a tensor is that tensor's own |
| Storage.PackedTrunkIsTransparent | src/model/inkling_bind.c:67-85 | attaching a packed trunk whose table passed the checks keeps the model ready and its files faithful, and changes neither which tensor reads succeed nor what they return |
| Storage.PackedStaysFaithful | src/model/inkling_bind.c:67-85 | the model with the packed trunk is ready and every file holds bytes of the original shards |
| Checkpoint.BoundShardApart | src/io/inkling_index.c:173-186 | the entries of a shard lie apart and inside the payload once an accepted header is bound |
| Checkpoint.PackedFileOpens | src/model/inkling_packed.c:242-263 | the packer's file passes the checks exactly when no trunk name lives in the shard that is left out |
| Checkpoint.CoverageCanFail | src/model/inkling_packed.c:242-246 | an index with a trunk name in the shard that is left out: whatever the packer writes from it is refused |
| Checkpoint.OverlapVerdict | src/model/inkling_packed.c:264-268 | it is then accepted for certain exactly when no empty trunk tensor starts where a non-empty one starts |
| Checkpoint.TieAtAnInput | src/model/inkling_packed.c:264-268 | an accepted header with an empty trunk tensor in front of another one: one sorted order of the two rows passes and the other fails |
| Catalogue.ReadCatalogue | tools/pack_trunk.py:88-146 | the packer accepts exactly the checkpoints whose weight map and shard headers agree, whose tensors have the prescribed sizes and partition each payload, and whose total is the recorded one; it returns one entry for each name, inside its shard |
| Catalogue.ReadShard | tools/pack_trunk.py:100-139 | one shard is accepted exactly when each member belongs to it with the prescribed size and the tensors partition the payload |
| Catalogue.UnsafeNames | tools/pack_trunk.py:96-98 | no shard name leads out of the directory |
| Catalogue.AcceptedCatalogue | tools/pack_trunk.py:108-143 | the catalogue of an accepted checkpoint has distinct names, lies inside the shards and holds exactly the tensors that weight map and headers agree on |
| Shards.LoadShard | src/io/inkling_index.c:173-186 | one header is bound exactly when it is accepted and has exactly the names of the shard |
| Shards.BindingKeepsApart | src/model/inkling_bind.c:341-379 | binding an accepted header keeps all tensors of the catalogue apart |
| Shards.OpenShards | src/model/inkling_bind.c:335-379 | the loop over the entries succeeds exactly when every shard but the one left out loads; then each entry has the place its header gives it and all tensors lie apart |
| Shards.CheckTotal | src/model/inkling_bind.c:380-389 | the sum is accepted exactly when it fits 64 bits and, with nothing unbound, is the recorded total |
| Shards.LoadShards | src/model/inkling_bind.c:335-390 | loading succeeds exactly when every shard loads and the total matches, and leaves a loaded catalogue |
| RoundTrip.LoadedServes | src/model/inkling_bind.c:67-85 | after loading the model is ready, its files are faithful, and every read inside a tensor succeeds |
| RoundTrip.PackerAccepts | tools/pack_trunk.py:88-146 | the packer accepts every checkpoint that the runtime loads, its total included |
| RoundTrip.PackedHeaderAccepted | src/io/inkling_safetensors.c:152-222 | the header that the packer writes passes the check of shard headers and gives back the packed tensors |
| RoundTrip.PackAndOpen | tools/pack_trunk.py:159-208 | packing and opening the same files succeeds only with a trunk that is there, complete and short enough for a file, and does succeed then unless an empty tensor ties |
| RoundTrip.PackedCheckpoint | src/model/inkling_packed.c:202-276 | for every checkpoint that loads: the packer accepts it, and once its packed trunk opens the model is ready, faithful to the original shards, and serves every read inside a tensor |
| RoundTrip.ReadBoth | src/model/inkling_bind.c:67-101 | the same read through the shards and through the packed trunk gives the same bytes, those of the original shard |
| Sha256.PaddingIsMinimal | src/model/inkling_packed.c:79-83 | the padding uses the fewest zeros (section 5.1.1 of FIPS 180-4) |
| Sha256.PaddedAbc | src/model/inkling_packed.c:77-83 | the padded form of "abc" (section 5.1.1 of FIPS 180-4) |
| Sha256.PaddedInjective | src/model/inkling_packed.c:79-83 | padding loses nothing below 2^61 bytes |
| Sha256.WrappedLength | src/model/inkling_packed.c:79-82 | the wrapping 64-bit bit count has the bytes of the padded length |
| Sha256.Hasher.Update | src/model/inkling_packed.c:64-75 | an update of any size appends to the message; fewer than 64 bytes stay in the block |
| Sha256.Hasher.Finish | src/model/inkling_packed.c:77-83 | the final state is the block function folded over the padded message, and the block is empty |
| Sha256.HashChunks | src/model/inkling_packed.c:64-90 | any cut into updates gives the digest of the whole message |
| Sha256.HashRange | src/model/inkling_packed.c:114-124 | pieces of 64 KiB reach the hash as one stretch of the file, and it fails exactly when the file is too short |
| Sha256.HeaderDigest | src/model/inkling_packed.c:163-179 | the three updates hash the header with its own digest blanked out |
| Sha256.BlankingUndoesSigning | tools/pack_trunk.py:204-212 | blanking the written digest gives the header the packer hashed |
| Sha256.BlankedField | src/model/inkling_packed.c:173-176 | the field is filled with the character 0 and nothing else changes |
| Utf8.AcceptedIsEncoding | src/io/inkling_json.c:247-294 | an accepted sequence is the encoding of a scalar value (section 4 of RFC 3629) |
| Utf8.EncodingIsAccepted | src/io/inkling_json.c:173-205 | every encoding of a scalar value is accepted and decodes to it |
| Utf8.SurrogatesAreRefused | src/io/inkling_json.c:271-275 | encoded surrogates are refused |
| Utf8.EncodingsOfEachLength | src/io/inkling_json.c:173-205 | the encodings of one character of each length (RFC 3629) |
| Utf8.DecodedIsScalars | src/io/inkling_json.c:413-434 | a well-formed text is the encoding of its code points |
| Utf8.EncodedIsWellFormed | src/io/inkling_json.c:173-205 | encoded scalars form a text that decodes to them |
| JsonString.ReadUnitsSound | src/io/inkling_json.c:296-439 | an accepted string is one of the grammar, with the text that was read |
| JsonString.ReadUnitsComplete | src/io/inkling_json.c:296-439 | every string of the grammar is accepted, whatever follows it |
| JsonString.DenotedIsText | src/io/inkling_json.c:339-385 | what a string denotes is well-formed UTF-8 with the code points of its characters, escapes and surrogate pairs |
| JsonString.LoneSurrogatesFail | src/io/inkling_json.c:347-379 | a surrogate escape that is not half of a pair never leads to a string |
| JsonSpelling.LetterEscapes | src/io/inkling_json.c:331-338 | each letter escape denotes the control character of its name, the other three the byte itself |
| JsonSpelling.DigitsValue | src/io/inkling_json.c:207-245 | four hexadecimal digits in either case are read as the number written |
| JsonSpelling.SpellingDenotes | src/io/inkling_json.c:296-439 | every spelling of a character denotes it: itself, a letter escape, \u escapes, a surrogate pair |
| JsonNumber.ReadNumberSound | src/io/inkling_json.c:667-760 | an accepted number is one of the grammar, with the text that was read |
| JsonNumber.ReadNumberComplete | src/io/inkling_json.c:667-760 | every number of the grammar is accepted as written unless the text carries it on |
| JsonNumber.NumberU64 | src/io/inkling_json.c:1009-1041 | the conversion accepts exactly digit texts up to 2^64-1 and is exact |
| JsonNumber.NumberI64 | src/io/inkling_json.c:1043-1089 | the conversion accepts exactly integer texts from -2^63 to 2^63-1 and is exact |
| JsonNumber.UnsignedNumbers | src/io/inkling_json.c:1024-1037 | among numbers of the grammar the digit texts are those without sign, fraction and exponent |
| JsonNumber.DecimalValue | src/io/inkling_json.c:1024-1037 | the decimal digits of a number have that number as their value |
| JsonExact.ValueSound | src/io/inkling_json.c:789-858 | an accepted value is grammatical, has distinct keys and bounded nesting, and was written as read |
| JsonExact.ElementsSound | src/io/inkling_json.c:502-531 | the array loop accepts only comma-separated values up to the closing bracket |
| JsonExact.MembersSound | src/io/inkling_json.c:611-664 | the object loop accepts only members with keys that differ from each other |
| JsonExact.ValueComplete | src/io/inkling_json.c:789-858 | every such value is read back as the same tree |
| JsonExact.ReadSound | src/io/inkling_json.c:886-937 | an accepted text is the text of an acceptable document |
| JsonExact.ReadComplete | src/io/inkling_json.c:886-937 | every acceptable document is read back exactly |
| JsonExact.AcceptsExactly | src/io/inkling_json.c:886-937 | the accepted texts are exactly the documents of RFC 8259 with distinct keys and nesting of at most 256 |
| JsonExact.ReadingIsUnique | src/io/inkling_json.c:886-937 | a text has one reading |
| JsonPrint.PrintThenRead | src/io/inkling_json.c:886-937 | canonical printing followed by reading is the identity |
| JsonPrint.ReadThenPrint | src/io/inkling_json.c:886-937 | whatever is read can be printed and reads back as the same value |
| JsonParser.Parser.SkipWhitespace | src/io/inkling_json.c:87-101 | the cursor moves past exactly the blanks |
| JsonParser.Parser.ParseHex4 | src/io/inkling_json.c:224-245 | exactly four hexadecimal digits are read as their number |
| JsonParser.Parser.ParseUnicode | src/io/inkling_json.c:339-380 | an escape, or a pair of them, yields the scalar value it denotes |
| JsonParser.Parser.ParseString | src/io/inkling_json.c:296-439 | the loop accepts exactly the strings of the grammar and returns what they denote |
| JsonParser.Parser.ParseNumber | src/io/inkling_json.c:667-760 | the cursor accepts exactly the numbers of the grammar and keeps their text |
| JsonParser.Parser.ParseElements | src/io/inkling_json.c:502-531 | the array loop returns the values of the elements |
| JsonParser.Parser.ParseMembers | src/io/inkling_json.c:611-664 | the object loop returns the members and refuses a repeated key |
| JsonParser.Parser.ParseValue | src/io/inkling_json.c:789-858 | the recursion terminates and returns the meaning of the value, or fails where there is none |
| JsonParser.ObjectHasKey | src/io/inkling_json.c:534-549 | the linear search finds exactly the keys present |
| JsonParser.Parse | src/io/inkling_json.c:886-937 | the result is a value exactly when the text is an acceptable document, and then the value that document denotes |
| JsonSpelling.SameMeaning | src/io/inkling_json.c:296-439 | trees that differ only in spelling and blanks have the same value, nesting and distinctness of keys |
| JsonSpelling.ParseBoth | src/io/inkling_json.c:886-937 | the parser gives the same value for two documents that differ only in spelling and blanks |
| JsonSpelling.ParseSpelled | src/io/inkling_json.c:296-439 | a quoted text, each character in any of its spellings, parses to the text in UTF-8 |
| JsonSpelling.ParseSample | src/io/inkling_json.c:886-937 | a document with every kind of token parses to its value, byte by byte |
| JsonSpelling.DepthLimit | src/io/inkling_json.c:789-858 | 256 levels are accepted, more are not |

## Left out

* IEEE rounding tables, the sign of zero, `exp`, `log` and `sqrt`: rounding and the exponential are parameters that meet
  the laws of `Carrier.Lawful`; folds keep the order of the code.
* RMS norm, SiLU, the projections' weights and the mixture of experts inside a layer: `Layer` takes them as per-token
  functions that may fail, because the incremental and the full pass call the same code on the same row.
* Flat history arrays in `Runtime.Context`: histories there are lists of rows; `ShortConv.Conv4` has the flat in-place form.
* The E2M1, E4M3 and BF16 code tables: `Nvfp4` takes the decoder of a block as a parameter.
* The sampler's arithmetic and its candidate sort: `Generate` takes it as a deterministic step of logits, options and state.
  Sampler options that are NaN or infinite, which the code refuses, are not numbers of the model.
* Checked size helpers and buffer-overlap tests, except where a size decides an outcome.
* Allocation failure outside the cache and the stages of a layer, and release of memory.
* Opening, statting, renaming and partially reading files: a file is an immutable byte string of the recorded size; whether
  a read fails is a choice of the environment in `Runtime`, `ExpertCache` and `Project`.  `Storage.ModelRead` fails only
  when the bytes are not there.
* The SHA-256 block function and the hexadecimal digits: the block function is a parameter and digests are opaque.
* The name hash of the index: any function from names to numbers.
* Reading headers, manifests and the packer's metadata out of JSON values: those modules start from the decoded members.
  A number written `-0`, which Python takes for 0, counts as no number.
* The order in which the packer visits shards: the first error decides there which message is printed, here nothing.
* The digests and identities that are compared when a packed trunk is opened: `RoundTrip` starts after they agreed, with
  any header text.
* The limit of 100 MiB on the packed header text and the check for a destination that is one of the inputs.
* The packer's regular expression for execution order: any total order on the trunk tensors.
* Parser error messages with line and column, number conversion to floating point, and the growth of parser buffers.
* Traces and diagnostics, the configuration and verification tables, the command line, the Python fetchers and fixtures.
