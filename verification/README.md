# Verified core of the quantisation, decoding and corpus tooling

This project models the algorithmic cores of the repository's Python tooling in Dafny and proves what they are meant to
guarantee. Code that works by updating buffers, lists and files is modelled by methods with loops and proved against
specification functions; the laws are lemmas about those functions.

- **Speculative decoding** (`SpecDecode`). The target is an arbitrary deterministic causal function from a prefix to the
  next token, the draft an arbitrary function of its cache, the pending context rows and the block. The output buffer is
  an array updated in place, the caches are sequences with append and crop. For every draft the emitted tokens are the
  target's own greedy decode, in every state of every run.
- **Rotation and 4-bit coding** (`Hadamard`, `Fwht`, `Mq4`, `Fp4`). Exact reals. The in-place butterflies compute the
  Hadamard matrix product; the inverse, Parseval, the reshape form, the descent of the least-squares refit, the
  end-to-end error bound and the FP4 row coding are built on that.
- **Promotion policy** (`Anchors`, `Allocator`, `Ranking`, `Policy`, `Promotion`, `Candidate`). Candidates, ranking, the greedy
  byte-budget allocator with anchor bundles, then filter, expansion and promotion of a part of the policy, from model file
  to candidate file.
- **HFQ container** (`JsonScan`, `Hfq`, `Places`, `HfqFiles`, `Patch`, `Inject`). Reader and writer, where every field lies,
  the brace scanner on a grammar
  of RFC 8259 texts, in-place patching with a worker pool, metadata growth by template injection.
- **Small algorithms** (`Dedup`, `Levenshtein`, `Intervals`, `TrainingMask`), and shared modules (`Wrappers`, `Bytes`,
  `Sorting`, `Strings`).

Some properties one would expect of the code are false in general. Each is stated with the exact condition under which it
holds and an input for which it fails:

- `merge_intervals` falls short of the instants covered by exactly the lengths, below zero, of the intervals that end before
  they start and that no other interval absorbs (`Intervals.MergeIntervals`, `Intervals.InvertedUndercounts`).
- The stop test of `tau_probe` looks at unused slots too, so it fires at once when the mask token is the stop token
  (`SpecDecode.StopTestExact`, `SpecDecode.StopTestFiresOnMask`).
- The clamp on blocks per sequence does not keep the training blocks apart (`TrainingMask.DisjointIff`,
  `TrainingMask.WindowHoldsBlockIff`, `TrainingMask.ClampIsNotEnough`).
- The least-squares refit can destroy the fit it is given. It does no worse exactly when the given scale is positive, or the
  first candidate scale is, or setting every code to 0 does no harm, a test on the moments of values and codes
  (`Mq4.RefitDescendsIff`, `Mq4.ZeroingHarmlessIff`, `Mq4.NegativeScaleLosesTheFit`). The scale it gets from the min/max fit
  is always positive (`Mq4.MinMaxIsRequantize`).
- `dedup` is independent of the order of its rows exactly when the hash tells the contents filed under one key apart and
  rows tied for the smallest (box, path) agree on the modification time (`Dedup.OrderIrrelevantIff`,
  `Dedup.TwoMtimesOneFile`). For every input some hash does tell them apart (`Dedup.SomeHashDistinguishes`).
- Rewriting a file that was read reproduces it exactly when it is laid out the way the writer does it
  (`Hfq.RewritesIffCanonical`); padding before the payloads is dropped (`Hfq.PaddingIsDropped`).
- `selected_policy_items` tests its cap after appending, so the cap is kept exactly when it is at least 1, or 0 with nothing
  to select (`Promotion.CapKeptIff`, `Promotion.CapZeroSelectsOne`).

## Model

| member | source | states |
|---|---|---|
| `SpecDecode.AcceptCountIsLongestAgreement` | scripts/dflash_diag_iter1_tau.py:122 | The sum of running products of the match flags is the length of the longest agreeing prefix |
| `SpecDecode.CumprodSum` | scripts/dflash_diag_iter1_tau.py:122 | For 0/1 flags the sum of the running products is the length of the leading run of ones |
| `SpecDecode.AcceptedRunIsGreedy` | scripts/dflash_diag_iter1_tau.py:115-124 | A block of which every accepted token equals the target's choice extends the greedy decode, whatever was proposed |
| `SpecDecode.GreedyPrefix` | scripts/dflash_diag_iter1_tau.py:90-128 | Shorter greedy decodes are prefixes of longer ones |
| `SpecDecode.CycleCorrect` | scripts/dflash_diag_iter1_tau.py:104-128 | One cycle keeps losslessness and the coherence of buffer, target cache, draft cache and context rows |
| `SpecDecode.Commit` | scripts/dflash_diag_iter1_tau.py:123-124 | The in-place write puts the accepted run and the target's next token into the buffer and changes no other slot |
| `SpecDecode.DecodeCycle` | scripts/dflash_diag_iter1_tau.py:102-128 | Advances by 1 to B; buffer stays the greedy decode followed by masks; the target cache is the buffer up to `start`; draft cache plus context rows number `start`; rows 1 to `accept` of the draft's answer are the tokens now in the buffer and the next row is not |
| `SpecDecode.Prefill` | scripts/dflash_diag_iter1_tau.py:77-100 | Prompt, first greedy token, masks; caches coherent |
| `SpecDecode.SpecGenerateCapped` | scripts/dflash_diag_iter1_tau.py:69-129 | For every draft and target the result is the greedy decode; every accept length is one more than the draft's longest agreement with it; they add up to the advance; at most `max_new` and at most `max_cycles` cycles; it stops only at the cap or the length |
| `SpecDecode.CyclesAndTokens` | scripts/dflash_diag_iter1_tau.py:99-129 | Cycles bound the tokens emitted and the other way round |
| `SpecDecode.DraftIndependence` | scripts/dflash_diag_iter1_tau.py:102-129 | Decodes with different drafts, block sizes, lengths and caps emit the same tokens as far as both go |
| `SpecDecode.ShownToDraft` | scripts/dflash_diag_iter1_tau.py:104-112 | What the loop's caches and block show the draft is the feature rows of the greedy tokens, the greedy token at `start` and masks |
| `SpecDecode.CycleFollows` | scripts/dflash_diag_iter1_tau.py:113-122 | A cycle advances by the draft's longest agreement with the greedy decode, said of draft and target alone |
| `SpecDecode.RunIsDetermined` | scripts/dflash_diag_iter1_tau.py:102-129 | Draft and target determine the accept lengths of a run, cycle by cycle |
| `SpecDecode.ExtremeDrafts` | scripts/dflash_diag_iter1_tau.py:113-128 | A draft that always agrees gets B in every cycle, one that never agrees gets 1 |
| `SpecDecode.StopTestExact` | scripts/dflash_train_poc.py:223-224 | The stop test holds exactly if the stop token was emitted, or it is the mask token and a slot is unused |
| `SpecDecode.StopTestFiresOnMask` | scripts/dflash_train_poc.py:223-224 | A decode in which the test fires on an unused slot though the stop token was not emitted |
| `SpecDecode.StopTest` | scripts/dflash_train_poc.py:223-224 | The test on the buffer has that meaning |
| `SpecDecode.ProbeDecode` | scripts/dflash_train_poc.py:191-224 | Lossless on every exit, with accept lengths that follow the draft; never stops early, never runs on past an emitted stop token |
| `SpecDecode.TauProbe` | scripts/dflash_train_poc.py:191-226 | The mean of the accept lengths, which follow the draft: times the cycles it is the advance, and it lies in 1..B once a cycle has run |
| `Hadamard.WhtIsHadamard` | scripts/astrea.py:984-995 | Entry i of the recursive transform is row i of the Hadamard matrix (sign by the parity of common bits) times the input |
| `Hadamard.WhtAt` | scripts/astrea.py:988-992 | The transform of two halves: sums of their transforms, then differences |
| `Hadamard.WhtInvolution` | scripts/astrea.py:1167-1180 | Applied twice, the transform multiplies every entry by the length, for every power-of-two length |
| `Hadamard.WhtParseval` | scripts/astrea.py:984-994 | The transform multiplies a squared norm by the length, for every power-of-two length |
| `Hadamard.WhtAdd` | scripts/astrea.py:984-994 | The transform of a sum is the sum of the transforms |
| `Hadamard.WhtSub` | scripts/astrea.py:984-994 | The transform of a difference is the difference of the transforms |
| `Fwht.Butterfly` | scripts/astrea.py:988-992 | One group in place: sums in the lower half, differences in the upper, all else untouched |
| `Fwht.ButterflyStage` | scripts/astrea.py:986-993 | One stage replaces every group by its butterfly |
| `Fwht.StageOfBlocks` | scripts/astrea.py:985-994 | A stage turns transformed blocks of one size into transformed blocks of twice that size |
| `Fwht.Transform` | scripts/astrea.py:984-994 | The three nested in-place loops compute the Walsh-Hadamard transform for every power-of-two length |
| `Fwht.CpuFwht256` | scripts/astrea.py:980-995 | Refuses any other length; on 256 values computes the signed, scaled rotation |
| `Fwht.RotateEntry` | scripts/astrea.py:980-995 | Entry i of the rotation is the i-th Hadamard row on the signed input, times 1/16 and the i-th output sign |
| `Fwht.InverseUndoes` | scripts/astrea.py:1151-1180 | The same stages with the sign vectors exchanged undo the rotation |
| `Fwht.RotationKeepsSumSq` | scripts/astrea.py:1151-1164 | The rotation preserves the sum of squares |
| `Fwht.RotateSub` | scripts/astrea.py:1151-1164 | The rotation of a difference is the difference of the rotations |
| `Fwht.FastStageIsStage` | scripts/analyze_quant_mse.py:79-84 | All groups at once through the reshape is the same stage |
| `Fwht.Fwht256Fast` | scripts/analyze_quant_mse.py:57-86 | The reshape form equals the reference loop on every input |
| `Fwht.GenFwhtSigns` | scripts/analyze_quant_mse.py:31-37 | Sign i is plus exactly when bit 16 of the (i+1)-th state, seed times a power of the multiplier plus 12345 times the sum of the lower powers modulo 2^31, is set; 256 of them form a sign vector |
| `Fwht.StateInClosedForm` | scripts/analyze_quant_mse.py:35 | The n-th state of the generator in closed form modulo 2^31 |
| `Mq4.CodeIsNearest` | scripts/astrea.py:1219-1220 | With a positive scale the rounded, clipped code is a nearest one of the sixteen |
| `Mq4.RequantizeDescends` | scripts/astrea.py:1219-1220 | Requantising under a positive scale never increases the block error |
| `Mq4.ErrorIsQuad` | scripts/astrea.py:1209-1215 | The block error is the quadratic form in scale and zero given by the moments of values and codes |
| `Mq4.FitDescends` | scripts/astrea.py:1209-1215 | The candidate scale and zero never fit worse than the current ones, also at zero variance |
| `Mq4.CandidateIsBest` | scripts/astrea.py:1209-1215 | For codes that vary, no scale and zero fit better than the candidate |
| `Mq4.CandidateZeroIsBest` | scripts/astrea.py:1214-1215 | For codes that do not vary, the scale stays and no zero fits better |
| `Mq4.RequantizeIsBest` | scripts/astrea.py:1219-1220 | For a positive scale and any zero no codes fit better |
| `Mq4.PassIsLeastSquares` | scripts/astrea.py:1208-1220 | A pass takes the least-squares scale and zero if the codes vary and rise with the values, the best zero if they do not vary, and nothing otherwise; then the best codes, or zeros under a scale that is not positive |
| `Mq4.RefitBeatsEveryMap` | scripts/astrea.py:1208-1221 | On codes that vary and rise with the values the refit is no worse than any affine map |
| `Mq4.RefitPassDescends` | scripts/astrea.py:1208-1220 | A pass never increases the error, whether the candidate is kept or rejected |
| `Mq4.RefitDescends` | scripts/astrea.py:1208-1221 | More passes never do worse |
| `Mq4.KeptPass` | scripts/astrea.py:1216-1220 | A kept candidate gives a positive scale and no worse a fit, whatever scale it replaces |
| `Mq4.RefitRejected` | scripts/astrea.py:1216-1221 | A scale that is not positive beside a rejected candidate: after any number of passes every code is 0 and scale and zero are the given ones |
| `Mq4.ZeroingHarmlessIff` | scripts/astrea.py:1209-1213 | Setting every code to 0 does not increase the error exactly when the scale is 0 or scale times the sum of squared codes is at most twice the sum of code times (value - zero) |
| `Mq4.RefitDescendsIff` | scripts/astrea.py:1195-1221 | For every block, fit and number of passes: no worse exactly when the given scale is positive, the first candidate is positive, or zeroing does no harm |
| `Mq4.LsRefit` | scripts/astrea.py:1195-1221 | Runs max(1, iters) passes, each of which finds the least squares and then the best codes; on proper codes no worse than the given fit exactly under the condition of `Mq4.RefitDescendsIff`, and no worse than any affine map on given codes that vary and rise with the values; a positive scale stays positive |
| `Mq4.NegativeScaleLosesTheFit` | scripts/astrea.py:1216-1220 | A perfect fit with a negative scale is destroyed by the first pass and no further pass repairs it; the condition fails there |
| `Mq4.MinMaxIsRequantize` | scripts/astrea.py:1233-1239 | The min/max scale is positive and its codes are the nearest ones, also for a constant block |
| `Mq4.MinMaxBound` | scripts/astrea.py:1233-1239 | Squared error at most n (range/30)^2, and none for a constant block |
| `Mq4.MinMaxEndpoints` | scripts/astrea.py:1233-1239 | The zero is the least value and gets code 0; zero plus 15 scales is the greatest and gets code 15; a constant block has scale 1 |
| `Mq4.BlockIsFittable` | scripts/astrea.py:1233-1243 | The min/max codes of a 256-value block that is not constant vary and rise with its values |
| `Mq4.WeightErrorIsRotatedError` | scripts/astrea.py:1266-1273 | The squared error in the weight domain equals the error of the fit in the rotated domain |
| `Mq4.EndToEndBound` | scripts/astrea.py:1224-1273 | At clip ratio 1 the weight error is at most 256 (range/30)^2, and 0 when the rotated block is constant |
| `Mq4.LsNeverWorse` | scripts/astrea.py:2167-2175 | The least-squares round trip is never worse than the min/max round trip |
| `Mq4.LsBeatsEveryMap` | scripts/astrea.py:1240-1273 | For every block and number of passes the least-squares round trip is no worse than any affine map on the min/max codes |
| `Mq4.RoundTripIsDecodedFit` | scripts/astrea.py:1266-1273 | The round trip, rotated, is the decoded fit |
| `Mq4.DeltaInUnitInterval` | scripts/astrea.py:2174-2193 | At clip ratio 1 the reported improvement lies in [0, 1] for every non-empty sample, and times the min/max error it is the difference of the errors |
| `Fp4.ThresholdIsFirstNearest` | scripts/astrea.py:1327-1339 | The threshold form picks the first nearest entry of the 16-entry table, for every real |
| `Fp4.E2m1Round` | scripts/astrea.py:998-1006 | The first-wins search equals the threshold form, ties and negatives included |
| `Fp4.TableByBits` | scripts/astrea.py:936 | The table is sign, two exponent bits and a mantissa bit |
| `Fp4.LeastExponent` | scripts/astrea.py:1045-1049 | The stored exponent is the least one whose scale is large enough, clamped to 0..254 |
| `Fp4.ScaleByByte` | scripts/astrea.py:1050 | Byte 127 stands for scale 1 and each step doubles it |
| `Fp4.RowScaleIs` | scripts/astrea.py:1031-1033 | The row scale maps the row's largest magnitude to 6; a row of zeros has scale 1 |
| `Fp4.ExponentIsLeast` | scripts/astrea.py:1044-1049 | With any smaller exponent 6 would not reach the block's largest magnitude |
| `Fp4.ScaledInRange` | scripts/astrea.py:1041-1058 | Every scaled value lies in [-6, 6] |
| `Fp4.ReconstructionError` | scripts/astrea.py:1041-1058 | Each value is reconstructed within block scale times row scale |
| `Fp4.ScaleIsTight` | scripts/astrea.py:1045-1050 | Unless the exponent is clamped at 0, that bound is below a third of the block's largest magnitude |
| `Fp4.QuantizeBlock` | scripts/astrea.py:1042-1058 | One exponent byte and 16 bytes, the codes of the even values in the low nibbles and of the odd ones in the high nibbles |
| `Fp4.QuantizeRow` | scripts/astrea.py:1025-1059 | Fails exactly when the length is no multiple of 32, the block count exceeds its header field or the flags exceed their byte; otherwise every value is within its bound |
| `Fp4.RowError` | scripts/astrea.py:1025-1059 | The bound for any row that is coded this way |
| `Anchors.AnchorsAreFlat` | scripts/astrea.py:1698-1712 | The anchor of a tensor needs no anchor itself, for every name |
| `Anchors.AnchorTable` | scripts/astrea.py:1702-1711 | For every prefix, between a rotated base format and q8 or f16, the anchor of each of the six endings |
| `Anchors.NoOtherAnchors` | scripts/astrea.py:1694-1712 | No other name gets an anchor, and none does between other formats |
| `Allocator.StepKeeps` | scripts/astrea.py:3148-3197 | Every pass keeps: no duplicates, budget accounted, anchors first, every skip still justified, every candidate seen is selected or skipped |
| `Allocator.AnchorNotSkipped` | scripts/astrea.py:3158-3190 | A skipped candidate is never pulled in later as an anchor |
| `Allocator.RunKeeps` | scripts/astrea.py:3142-3197 | The invariant holds in every state of every run |
| `Allocator.UniqueBundle` | scripts/astrea.py:3169-3176 | A bundle has nothing to drop: no item selected already, none twice |
| `Allocator.TakeBundle` | scripts/astrea.py:3180-3190 | Appends the bundle, records its names and charges its bytes |
| `Allocator.Allocate` | scripts/astrea.py:3142-3197 | The loop computes the run of passes, for any flat anchor rule, candidate list and budget |
| `Allocator.PolicyGuarantees` | scripts/astrea.py:3142-3197 | Within budget, no duplicates, every anchor first, selected and skipped names partition the candidates, and no skipped item with the anchor it lacks fits what is left |
| `Ranking.StepKeepsRanks` | scripts/astrea.py:3148-3197 | Every pass keeps: items that came up on their own stand in candidate order, anchors are pulled in right before an item that needs them and ranks above them, and what was skipped for its size did not fit when its turn came |
| `Ranking.RunKeepsRanks` | scripts/astrea.py:3133-3197 | That holds in every state of every run over sorted candidates |
| `Policy.CeilDiv` | scripts/astrea.py:2886-2887 | The least multiple count that covers the value |
| `Policy.RankedFacts` | scripts/astrea.py:3102-3140 | The ranked candidates are exactly the tensors of the base format that are scored and grow, with distinct names, by falling density, falling score, growth and name |
| `Policy.BuildPolicy` | scripts/astrea.py:3066-3197 | Refuses unsupported formats and negative budgets; otherwise ranks and allocates, and the policy is well ranked in the sense of `Policy.PolicyIsWellRanked` |
| `Policy.PolicyIsAllocation` | scripts/astrea.py:3066-3197 | A built policy is the end of an allocation run over the ranked candidates, with all that follows from the invariant |
| `Policy.BuiltPolicyIsSound` | scripts/astrea.py:3066-3197 | For every model, request and budget: within budget, no duplicates, anchors first; selected and skipped names partition exactly the tensors of the base format that are scored and grow |
| `Policy.PolicyIsWellRanked` | scripts/astrea.py:3133-3197 | Selected items that were not pulled in as anchors stand by falling score for each extra byte, then falling score, growth and name; an item skipped for its size, with the anchor it lacks, did not fit what was left after the selected items that rank above it; an anchor was pulled in right before an item that needs it and ranks above it |
| `Policy.PolicyFailsIff` | scripts/astrea.py:3080-3116 | There is no policy exactly when a format is not one of the ten, the budget is negative, or paro4 is asked for and a scored tensor is of the base format |
| `Policy.FormatTable` | scripts/astrea.py:188-225 | Which stored types are of which format |
| `Policy.ElementsIsProduct` | scripts/astrea.py:2879-2883 | The number of elements is the product of the dimensions |
| `Policy.SizeTable` | scripts/astrea.py:2890-2902 | So many bytes for each element or started block of elements: q8 takes 34 for each started 32 |
| `Policy.Fp4SizeTable` | scripts/astrea.py:2903-2909 | The FP4 formats: 16 bytes a row and 17 for each started 32 columns of a matrix, else half a byte an element |
| `Policy.CandidateForQ8` | scripts/astrea.py:3105-3131 | A tensor is a q8 candidate exactly when it is of the base format, scored, and 34 bytes for each started 32 elements are more than it takes; the candidate carries its name, alias, score and growth |
| `Promotion.SelectedItems` | scripts/astrea.py:1769-1781 | The matching items in policy order, a prefix of them that falls short only at the cap, where a cap below 1 counts as 1; the cap is kept exactly when it is at least 1, or 0 with nothing matching |
| `Promotion.CapKeptIff` | scripts/astrea.py:1779-1780 | The cap is kept exactly when it is at least 1, or 0 with nothing matching |
| `Promotion.CapZeroSelectsOne` | scripts/astrea.py:1779-1780 | Cap 0 on a policy of two tensors selects the first |
| `Promotion.ContainsIff` | scripts/astrea.py:1776 | The substring test |
| `Promotion.MatchesIff` | scripts/astrea.py:1773-1777 | An item passes exactly when it is named and there is no filter or one occurs in its name or its alias, which reads None when missing |
| `Promotion.MatchingByItem` | scripts/astrea.py:1771-1778 | Filtering is item by item, in order |
| `Promotion.Expand` | scripts/astrea.py:1728-1766 | The expansion loop computes the expansion step by step |
| `Promotion.ExpandStepKeeps` | scripts/astrea.py:1747-1764 | One name keeps the expansion distinct, anchors first and complete, and fails exactly when its anchor is not to hand |
| `Promotion.ExpansionFacts` | scripts/astrea.py:1728-1766 | Succeeds exactly when every requested name finds its anchor; then holds the requested names and their anchors, each once, anchors first, nothing else |
| `Promotion.AddedFacts` | scripts/astrea.py:1756-1763 | The reported anchors were needed by requested names, and every name that was not requested is among them |
| `Promotion.AvailableIff` | scripts/astrea.py:1815-1819 | An anchor may come from the model's records or from anything the policy lists |
| `Promotion.ExpansionStaysInside` | scripts/astrea.py:1811-1826 | For a policy that fits the model, any filter and cap: the expansion succeeds, covers the request and stays inside the selection |
| `Promotion.Rewrite` | scripts/astrea.py:1833-1869 | The promotion loop over the records, with its error cases |
| `Promotion.RewriteKeepsOrder` | scripts/astrea.py:1833-1869 | Record by record: selected tensors hold their packed bytes in Q8 form, the others are untouched |
| `Promotion.ComesOutMeans` | scripts/astrea.py:1833-1854 | A selected tensor was of the base format and gets type 3, group size 32 and the packed bytes, 34 for each started 32 elements, under its name and shape; any other stays |
| `Promotion.RewriteCost` | scripts/astrea.py:1842-1869 | Reported extra bytes are the growth of the selected tensors, which is the growth of the payload |
| `Promotion.PromotedFacts` | scripts/astrea.py:1833-1874 | The promoted names are the selected names the model has, each once |
| `Promotion.GrowthIsExtra` | scripts/astrea.py:1867-1898 | The growth of the tensors behind distinct policy items is what the policy accounts |
| `Promotion.WritePromotion` | scripts/astrea.py:1798-1898 | Restriction, expansion, source check, rewriting and count check in the source's order |
| `Promotion.BuiltPolicyFits` | scripts/astrea.py:3066-3197 | A policy built from a model fits it: anchored, within budget, each item backed by a tensor of the base format that grows by its extra bytes |
| `Promotion.PromotionStaysInBudget` | scripts/astrea.py:1798-1898 | For a policy built from this model, any filter, cap, source and quantiser: promoted bytes within the budget, an anchor-closed part of the selection, no other tensor changed; failure only for want of a request, a source tensor or a proper packing |
| `Candidate.PromoteFile` | scripts/astrea.py:1798-1876 | Policy checks, reader, promotion and writer in order; a file is produced exactly when each succeeds, and is the image of the model with the rewritten tensors |
| `Candidate.SomeNamingIsFaithful` | scripts/astrea.py:1659 | Whatever byte strings decode, some naming gives the bytes of every decoded name back |
| `Candidate.CandidateReadsBack` | scripts/astrea.py:1876 | For tensors that keep name and shape: writable exactly when the sizes fit, reads back as the model with those tensors, and the size differs by the growth of the payload |
| `Candidate.CandidateFileInBudget` | scripts/astrea.py:1798-1898 | For a policy built from the model file, any filter, cap, source and quantiser: the candidate file re-reads as the rewritten tensors, record by record of type 3 with the packed bytes or unchanged, and is larger than the model written back by the promoted bytes, at most the budget |
| `JsonScan.JsonObjectEnd` | scripts/astrea.py:349-371 | The loop is the scanner, including its failure |
| `JsonScan.FindJsonEnd` | scripts/hfq_inject_chat_template.py:12-23 | The differently nested loop is the same scanner |
| `JsonScan.PassesValue` | scripts/astrea.py:349-371 | A complete JSON value inside an object leaves the scanner where it was, at any nesting |
| `JsonScan.ScanIsExact` | scripts/astrea.py:349-371 | On any JSON object followed by any bytes the scanner returns exactly the object's length |
| `JsonScan.ScanPrefix` | scripts/astrea.py:349-371 | What follows the end found does not matter |
| `Hfq.EntryReads` | scripts/astrea.py:1608-1622 | A written index entry reads back as itself |
| `Hfq.EntryWrites` | scripts/astrea.py:1608-1622 | An entry that was read is the one that would be written |
| `Hfq.RecordsRead` | scripts/astrea.py:1606-1638 | Written records and payloads read back in order with cumulative offsets |
| `Hfq.RecordsWrite` | scripts/astrea.py:1606-1638 | Records that were read give back their index and payload bytes |
| `Hfq.HeaderReads` | scripts/astrea.py:1671-1677 | A written header reads back |
| `Hfq.HeaderWrites` | scripts/astrea.py:1589-1595 | A header that was read gives back its 32 bytes |
| `Hfq.ReadsBack` | scripts/astrea.py:1586-1684 | Reading what was written returns the same version, arch, metadata and records, with the end-of-file check satisfied |
| `Hfq.PaddedReads` | scripts/astrea.py:1586-1646 | Bytes between the index and the payloads are skipped by the reader |
| `Hfq.PaddingIsDropped` | scripts/astrea.py:1586-1684 | A padded file reads as its layout and is not what the writer writes for it |
| `Hfq.ReadFacts` | scripts/astrea.py:1586-1646 | What a successful read says about every part of the file |
| `Hfq.RewritesIffCanonical` | scripts/astrea.py:1586-1684 | Rewriting a file that was read reproduces it exactly when it is canonical |
| `Places.EntryAtIff` | scripts/astrea.py:1659-1667 | The bytes of an index entry are, at their offsets and low byte first: name length, name, type, dimension count, dimensions, group size, data size |
| `Places.ImageIsLaidOut` | scripts/astrea.py:1669-1681 | A written file has HFQM, version at 4, arch at 8, count at 12, 32 at 16, the data offset at 24, metadata at 32, the count and the entries behind it, and the payloads from the data offset to the end |
| `Places.ReadIsLaidOut` | scripts/astrea.py:1589-1640 | A file that reads has each field of the layout at its place |
| `Places.ReadsIffLaidOut` | scripts/astrea.py:1586-1646 | Exactly the files that hold a layout at these places, with names that decode and one metadata object before the data offset, read as it |
| `HfqFiles.PackDims` | scripts/astrea.py:1664-1665 | Succeeds exactly when every dimension fits four bytes |
| `HfqFiles.PackEntry` | scripts/astrea.py:1659-1667 | Succeeds exactly when every field is in range |
| `HfqFiles.WriteLayout` | scripts/astrea.py:1649-1684 | Succeeds exactly for layouts in range with matching payload sizes, and writes the image, every field at its place |
| `HfqFiles.ReadDims` | scripts/astrea.py:1616-1618 | The position-based loop mirrors the suffix parser |
| `HfqFiles.ReadEntry` | scripts/astrea.py:1608-1622 | One entry at a position, including names cut at the end of the file |
| `HfqFiles.ReadAll` | scripts/astrea.py:1604-1638 | The record loop, truncated payloads refused |
| `HfqFiles.ReadLayout` | scripts/astrea.py:1586-1646 | The reader with all its checks; a file that reads holds every field of the layout at its place |
| `Patch.ReadIndex` | scripts/astrea.py:487-575 | The index reader with all its checks |
| `Patch.LocateAll` | scripts/astrea.py:521-555 | The index loop with its cumulative offset |
| `Patch.LocateFacts` | scripts/astrea.py:521-555 | Offsets are back to back and depend only on the index bytes |
| `Patch.IndexPlaces` | scripts/astrea.py:487-555 | The count in the header and behind the metadata, the entries behind that, and each tensor where the one before it ends, the first at the data offset |
| `Patch.ReadersAgree` | scripts/astrea.py:487-575 | Both readers see the same tensors: same entries, and each payload at its offset |
| `Patch.LookUp` | scripts/astrea.py:551 | The last entry of the name, or none when no entry has it |
| `Patch.CandidateFile.constructor` | scripts/astrea.py:2040 | A candidate starts as a copy of the model |
| `Patch.CandidateFile.Patch` | scripts/astrea.py:1915-1924 | Refuses a patch of the wrong size; otherwise overwrites the tensor's bytes |
| `Patch.ApplyAllFramed` | scripts/astrea.py:2071-2078 | Patching separate tensors: each holds its packed bytes, every other byte is the source's |
| `Patch.AnyOrderSameFile` | scripts/astrea.py:2002-2022 | The patches give one file in every order |
| `Patch.RunPatchTasks` | scripts/astrea.py:2002-2022 | For every completion order the pool returns the serial result |
| `Patch.IndexKept` | scripts/astrea.py:487-575 | Rewriting bytes from the data offset on leaves the index as it was |
| `Patch.PatchedCandidate` | scripts/astrea.py:2053-2078 | Same length, same index, selected tensors hold their packed bytes, every other byte unchanged |
| `Patch.SelectTensors` | scripts/astrea.py:2053-2054 | Looks every selected name up, or fails on an unknown one |
| `Patch.PatchAll` | scripts/astrea.py:2069-2078 | Pool, then patches in task order; succeeds exactly when every patch has its tensor's size |
| `Patch.WriteCandidate` | scripts/astrea.py:2040-2078 | For a well-formed model and distinct names the written candidate obeys the frame, whatever order the workers finish in |
| `Inject.Inject` | scripts/hfq_inject_chat_template.py:25-66 | The script's steps and error cases |
| `Inject.RecordsShift` | scripts/astrea.py:1604-1638 | Records depend on the payload area through its contents, not its offset |
| `Inject.InjectionPreservesTensors` | scripts/hfq_inject_chat_template.py:25-66 | A file is written exactly when the metadata follows the header and the new offset fits; byte by byte only the metadata and the data offset change; it parses to the same version, arch, records and payloads in order with the new metadata, payloads shifted by the change in metadata length |
| `Inject.OffsetsShift` | scripts/astrea.py:521-555 | The same index read from another data offset moves every tensor by the same amount |
| `Dedup.TableDescribes` | scripts/harvest_ledgers.py:343-365 | Where the hash tells the rows' contents apart, the table holds one entry for every content: its least (box, path), its boxes, its repeat count |
| `Dedup.Fill` | scripts/harvest_ledgers.py:343-365 | The filling loop builds that table and counts the identical rows |
| `Dedup.ListBucket` | scripts/harvest_ledgers.py:371-377 | Lists a bucket by precedence and counts its losers |
| `Dedup.Dedup` | scripts/harvest_ledgers.py:336-378 | The whole function, whatever order the sets and maps are listed in; its output stands in order of key, filled fields, time and hash, and every row but the first of its key is marked |
| `Dedup.Conservation` | scripts/harvest_ledgers.py:343-378 | Listed plus identical rows are the input rows; collisions are the listed rows beyond one for each distinct key of the input rows |
| `Dedup.TableKeys` | scripts/harvest_ledgers.py:343-365 | The table has one bucket for every distinct key of the rows |
| `Dedup.GroupFacts` | scripts/harvest_ledgers.py:371-377 | The rows of one key are its entries, each once, in precedence order, the first unmarked and the rest marked |
| `Dedup.FirstOfKeyIsBest` | scripts/harvest_ledgers.py:368-377 | In the output each key's first row has at least as many filled fields, then is at least as new, as every row of that key |
| `Dedup.OutputIsArranged` | scripts/harvest_ledgers.py:367-377 | The whole output is in order of key, more filled fields, later time and hash, and marked beyond the first row of a key |
| `Dedup.PopulatedLaws` | scripts/harvest_ledgers.py:330-333 | No fields count nothing; null, empty text, empty list and empty dictionary count nothing; any other field counts one, new or filling an empty one |
| `Dedup.EmptierIsMarked` | scripts/harvest_ledgers.py:371-377 | Of two listed rows of a key where one fills a field the other leaves empty, the emptier comes later and is marked |
| `Dedup.SeenIsListed` | scripts/harvest_ledgers.py:343-378 | Where the hash tells the contents apart, every content seen is listed with its summary |
| `Dedup.KeptProvenance` | scripts/harvest_ledgers.py:360-363 | The kept provenance is the smallest box, and the smallest path on it |
| `Strings.StringLeIff` | scripts/harvest_ledgers.py:368-372 | The string order: a prefix first, else the smaller character at the first difference |
| `Dedup.TableOrderIndependent` | scripts/harvest_ledgers.py:343-365 | Where the hash tells the contents apart and ties agree, rearranged rows give the same table |
| `Dedup.OrderIrrelevantIff` | scripts/harvest_ledgers.py:336-378 | For every keying, hash and rows: the whole report is independent of the row order exactly when the hash tells the contents under one key apart and rows tied for the smallest (box, path) agree on the modification time; given the first, one time for each file is enough |
| `Dedup.ConfusionMatters` | scripts/harvest_ledgers.py:349-365 | If the hash confuses two contents under one key, two orders give different reports: the first content stays |
| `Dedup.TiesMatter` | scripts/harvest_ledgers.py:360-363 | If tied rows disagree on the modification time, two orders give different reports |
| `Dedup.SomeHashDistinguishes` | scripts/harvest_ledgers.py:347-349 | For any keys and rows some hash tells the contents apart |
| `Dedup.TwoMtimesOneFile` | scripts/harvest_ledgers.py:360-363 | One content from one file with two modification times: any hash tells the contents apart, and the order still decides |
| `Levenshtein.DistanceIsMinimum` | scripts/grade_dots_ocr_e2e.py:105-118 | The distance is the minimum cost over all edit scripts |
| `Levenshtein.BestScript` | scripts/grade_dots_ocr_e2e.py:114-116 | Some script achieves the distance |
| `Levenshtein.NoCheaperScript` | scripts/grade_dots_ocr_e2e.py:114-116 | No script is cheaper |
| `Levenshtein.TriangleInequality` | scripts/grade_dots_ocr_e2e.py:105-118 | Composing scripts gives the triangle inequality |
| `Levenshtein.Symmetry` | scripts/grade_dots_ocr_e2e.py:107-108 | The argument swap does not matter |
| `Levenshtein.ZeroIffEqual` | scripts/grade_dots_ocr_e2e.py:105-118 | Zero exactly for equal strings |
| `Levenshtein.DistanceBounds` | scripts/grade_dots_ocr_e2e.py:121-126 | At most the longer length, at least the difference of the lengths |
| `Levenshtein.NextRow` | scripts/grade_dots_ocr_e2e.py:112-117 | One pass fills the next row of the table |
| `Levenshtein.RollRows` | scripts/grade_dots_ocr_e2e.py:111-117 | After all passes the row holds the distances to every prefix |
| `Levenshtein.EditDistance` | scripts/grade_dots_ocr_e2e.py:105-118 | The rolling-row loop with its swap computes the distance |
| `Levenshtein.TextDistanceRatio` | scripts/grade_dots_ocr_e2e.py:121-126 | Always in [0, 1], 0 exactly for equal strings |
| `Intervals.Sweep` | scripts/analyze_tp_decode_trace.py:37-45 | On a sorted list the result is the number of instants covered less the shortfall |
| `Intervals.MergeIntervals` | scripts/analyze_tp_decode_trace.py:33-45 | For every input order: the number of instants covered, less the lengths below zero of the inverted intervals that nothing absorbs; equal to it exactly when there are none |
| `Intervals.InvertedUndercounts` | scripts/analyze_tp_decode_trace.py:33-45 | (5, 3) alone covers nothing and falls short by 2 |
| `Intervals.CollectedPoints` | scripts/analyze_tp_decode_trace.py:86-106 | The clipped spans cover exactly the instants of the window at which something runs |
| `Intervals.Collect` | scripts/analyze_tp_decode_trace.py:86-106 | The grouping loop builds each agent's list and the common one |
| `Intervals.BusyTime` | scripts/analyze_tp_decode_trace.py:133-136 | Merged spans number the busy instants |
| `Intervals.BusyBounds` | scripts/analyze_tp_decode_trace.py:133-170 | Each agent's busy time is at most any-GPU busy time, which is at most the window and at most the sum |
| `Intervals.Report` | scripts/analyze_tp_decode_trace.py:86-170 | Reported busy times are the numbers of busy instants, for each agent and for all |
| `TrainingMask.BuildMaskFollows` | scripts/dflash_diag_mask.py:42-53 | The two tables side by side obey the cell rule |
| `TrainingMask.VerifyRow` | scripts/dflash_diag_mask.py:100-119 | A row passes exactly when it is the built one |
| `TrainingMask.Verify` | scripts/dflash_diag_mask.py:96-120 | The cell-by-cell check accepts exactly the mask that is built |
| `TrainingMask.LayerSees` | scripts/dflash_train_poc.py:560-583 | A row is computed from exactly the context before its block's anchor and the noise rows of its block |
| `TrainingMask.LayerNonInterference` | scripts/dflash_train_poc.py:560-583 | One masked layer keeps blocks apart |
| `TrainingMask.NonInterference` | scripts/dflash_train_poc.py:560-583 | After any number of layers block k depends only on the context before its anchor and its own noise rows |
| `TrainingMask.FillBlocks` | scripts/dflash_train_poc.py:525-534 | Slot t of block k is the anchor token for t = 0 and the mask otherwise, at position anchor + t |
| `TrainingMask.WriteBlock` | scripts/dflash_train_poc.py:533-534 | Puts one block into its slice of the flat buffer and keeps what is before it |
| `TrainingMask.NoLabelLeak` | scripts/dflash_train_poc.py:511-599 | With a causal target nothing computed for block k changes however the tokens after its anchor change |
| `TrainingMask.ClampIs` | scripts/dflash_train_poc.py:462-463 | As many blocks as asked for, but no more than fit behind the first token, and at least one if any is asked for |
| `TrainingMask.DisjointIff` | scripts/dflash_train_poc.py:479-492 | Any legal draw gives pairwise disjoint blocks exactly when there is one block, the window holds a block, or the sequence is empty and a block is one token |
| `TrainingMask.InsideIff` | scripts/dflash_train_poc.py:479-492 | Blocks lie inside the sequence exactly when it is longer than a block |
| `TrainingMask.WindowHoldsBlockIff` | scripts/dflash_train_poc.py:484 | The window holds a block exactly when there is room for one block more than asked for |
| `TrainingMask.ClampIsNotEnough` | scripts/dflash_train_poc.py:462-463 | With 9 tokens and blocks of 4 the clamp lets through two blocks that overlap for every draw |

## Left out

- Floating point: rounding, NaN, infinities and the narrowing to 16- and 32-bit floats; the rotation, the quantisers and the policy scores are over exact reals, so the finiteness test of the refit is always true.
- Fp4.QuantizeRow: the row scale is kept as the row's largest magnitude; its half-precision bits and the reserved header bytes are not laid out, and log2 with ceil is the least exponent that is large enough.
- Mq4.LsRefit: blocks are taken one at a time; descent is about codes 0..15, which is what the quantiser passes. The round trip is at clip ratio 1, since a smaller one changes the values before they are rotated.
- Fwht.CpuFwht256: the batch dimension of the array forms is taken row by row.
- SpecDecode.SpecGenerateCapped: networks, embeddings, positions and batch size are behind the functions of the configuration; block size 1, where a block has no slot for a proposal, is included.
- TrainingMask.NonInterference: a layer is any function of the visible context and noise rows; attention, heads and the loss are not modelled.
- JsonScan.ScanIsExact: numbers and literal names are arbitrary runs of the bytes they may consist of and the four digits of a u-escape are plain bytes, so the texts covered include, and go beyond, the object texts of RFC 8259.
- Hfq.ReadsBack: names are their UTF-8 bytes and a predicate says which byte strings decode; metadata is one object for the scanner.
- Patch.IndexKept: needs payloads that start behind the header and an index that ends before them; `read_hfq_index` does not insist on either, and a patch could then overwrite what it reads. Parsing the metadata text is a predicate.
- Patch.PatchAll: the patch files and the fallback from processes to threads are not modelled; a worker is a function of its tensor.
- Inject.InjectionPreservesTensors: editing the metadata object is a function from text to text.
- Policy.BuildPolicy: methods, objectives, domains and the sensitivity files are not modelled; scores and aliases are maps, tensor names are distinct as the index dictionary makes them.
- Promotion.WritePromotion: splitting the filter text at commas is done by the caller; the source quantiser is a function that may fail, and expansion is on names, the only field of an item that the writer uses afterwards.
- Candidate.PromoteFile: decoding and encoding names are functions, of which the lemmas ask that encoding a decoded name gives its bytes back; the report beside the file is not modelled.
- Dedup.Dedup: the key and the content hash are arbitrary functions of the content, the `boxes` list is a set that starts with the row's own box, and the `collision` mark is a flag beside the content; rows are values, so one dictionary listed twice is two rows.
- Intervals.Report: queue and kernel tables, unit conversion and percentages are easier relatives of the agent rows.
- Levenshtein.TextDistanceRatio: the quotient is exact.
- The other scripts (harvesting, capture, reference and evaluation drivers, report rendering), the name-alias tables and the Rust crates are not part of this model.
