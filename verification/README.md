# Verified model of lerobot-coreai

A Dafny model of the algorithms on which lerobot-coreai bases its compatibility, parity, safety and
certification claims, with proofs of what those algorithms guarantee.

| part | modules |
|---|---|
| execution graphs of policies | `ExecutionGraph` |
| array transforms | `NestedLists`, `Permutations`, `AxisPermute`, `LeafMultisets`, `Transforms`, `TransformLaws`, `TransformMeaning` |
| feature contracts: ids, diff, payload and structure validation, compatibility | `FeatureContracts`, `ContractDiff`, `PayloadValidation`, `ContractCompatibility`, `CompatibilityWitnesses`, `JoinedContracts`, `ContractsUnderSymbols`, `ContractStructure` |
| parity metrics, reports and their replaying verifiers | `ParityMetrics`, `ProcessorParity`, `ModelConversion`, `CanonicalEvidence` |
| state machines: egress guard, action queues, event streams | `RealEgress`, `ActionQueues`, `ReferenceQueue`, `EpisodeEvents` |
| statistics, negotiation, normal forms | `Calibration`, `ActionStatistics`, `LiveMetrics`, `Negotiation`, `Capabilities` |
| certification | `CertificationBundle`, `OfficialEval` |
| shared | `Outcomes`, `Numbers`, `RealArithmetic`, `Sorting` |

Code of the original that updates state in place is a class or a loop here, tied by its contract to
a specification function; the laws are lemmas about those functions. Finite floats are reals, with
infinities and not-a-number as separate values wherever the code branches on them. Multiplication
and division of reals go through the named functions `Times` and `Over`. Square roots, clocks, the
supervisor's verdicts and the runner's answers are parameters. Hashes are symbolic constructors, and
so injective.

`dafny verify dfyconfig.toml` checks the project.

Where the code falls short of the property one would expect, the model keeps the code and the exact
condition is proved:

- An axis order is only checked for its rank. It keeps the leaves of every array exactly when it is a
  permutation (`LeafMultisets.KeepsLeavesIff`), and `[0, 0]` passes and loses leaves.
- Permute and an arithmetic operation may be swapped exactly when both shapes raise the same error or
  none and, without one, the order fixes the last axis, the operation scales, or the channels that
  change places have equal statistics (`TransformLaws.PermuteSwapsIff`, with two counterexamples in
  `MovingTheLastAxisExample` and `MissingChannelExample`).
- A diff without breaking entries does not compare several fields the validator uses. When a payload
  stays accepted, and when all do, is characterised by `ContractCompatibility.PayloadPreservedIff`,
  `ContractsUnderSymbols.NonBreakingUnderSymbolsIff` and
  `JoinedContracts.NonBreakingPreservesAcceptanceIff`, with a counterexample in
  `CompatibilityWitnesses.NonBreakingAloneIsNotEnough`.
- The offline verifier of a certificate does not look at its namespace or its command hash
  (`OfficialEval.NamespaceIsNotProtected`, `CommandHashIsNotProtected`); `MadeFromRunsIff` says what
  a certificate made from runs has beyond an accepted claim.
- The final rounding of a calibrated bound can take it below the samples it should cover. It never
  does exactly when the rounded clamp times the margin is at least 0.0000005
  (`Calibration.FinalBoundCoversIff`), which the default margin satisfies
  (`DefaultMarginSuffices`); without margin it can (`RoundingLosesTheSamples`). It can exceed the
  base bound of a conservative calibration exactly when rounding raises that bound
  (`ConservativeFinalIff`, `RoundingExceedsTheBase`).
- A parity report can be built, verified and truthful and still make the bundle verifier raise,
  since its relative error is infinite: exactly when some case has an all-zero reference that the
  candidate does not equal (`CertificationBundle.ClaimedParityLeafCanonicalIff`,
  `PassingReportWithoutRoot`).

## Model

| member | source | states |
|---|---|---|
| ExecutionGraph.Acyclic | src/lerobot_coreai/policy_execution_contract.py:103-119 | The recursive three-colour search terminates on every graph and answers true exactly when every edge endpoint is a declared node and no directed cycle exists; a true answer comes with a finish order that lists every node after all its successors, and a false one on a graph without dangling edges with an actual cycle. |
| ExecutionGraph.DepthFirstSearch.Visit | src/lerobot_coreai/policy_execution_contract.py:112-118 | Each visit keeps the colouring invariant (grey = the current path, black = the finished nodes, whose successors all finished earlier), leaves the path as it found it, and fails only with a closed walk in hand. |
| ExecutionGraph.FinishOrderExcludesCycles | src/lerobot_coreai/policy_execution_contract.py:103-119 | A finish order of a graph rules out every directed cycle, self-loops included: walks only go back in the order. |
| ExecutionGraph.GreyNodeClosesCycle | src/lerobot_coreai/policy_execution_contract.py:114-116 | Meeting a grey node again gives a closed walk along the current path. |
| ExecutionGraph.BlackStep | src/lerobot_coreai/policy_execution_contract.py:117 | Blackening a node whose successors are all finished keeps the invariant that finished nodes form a topological order. |
| ExecutionGraph.BuildAdjacency | src/lerobot_coreai/policy_execution_contract.py:107-109 | The adjacency lists hold exactly the declared edges. |
| ExecutionGraph.FewerNamesMeansDuplicate | src/lerobot_coreai/policy_execution_contract.py:134-136 | Comparing the number of names with the number of distinct names detects exactly a repeated node name. |
| ExecutionGraph.ValidateExecutionContract | src/lerobot_coreai/policy_execution_contract.py:122-153 | An error is reported if and only if the contract breaks the rule it names: schema, unique names, acyclicity and the rules per execution kind. |
| AxisPermute.PermuteLoop | src/lerobot_coreai/processor_transform_contract.py:43-69 | The in-place index computation and the recursive build compute the specification function for any input, ragged arrays, bad ranks and out-of-range or negative axes included, with the same errors. |
| Permutations.FillSourceIndex | src/lerobot_coreai/processor_transform_contract.py:61-66 | The buffer filled in place holds the source index of an output position. |
| AxisPermute.PermuteIndexLaw | src/lerobot_coreai/processor_transform_contract.py:43-69 | Index law: the leaf at any index of the permuted array is the leaf of the input at the source index, for every rank, every full shape and every in-range order, negative axes included. |
| AxisPermute.PermuteSucceedsIff | src/lerobot_coreai/processor_transform_contract.py:45-60 | On rectangular input permuting succeeds exactly when no dimension is empty, the rank matches and every axis is in range; otherwise it raises an index error, a rank mismatch or an index error, in this order. |
| AxisPermute.PermuteComposes | src/lerobot_coreai/processor_transform_contract.py:43-69 | Permuting by p and then q is permuting by i -> p[q[i]]. |
| AxisPermute.PermuteInverse | src/lerobot_coreai/processor_transform_contract.py:43-69 | Permuting by the inverse order undoes permuting. |
| AxisPermute.PermuteByIdentity | src/lerobot_coreai/processor_transform_contract.py:43-69 | The identity order returns the array itself. |
| LeafMultisets.PermutePreservesLeaves | src/lerobot_coreai/processor_transform_contract.py:43-69 | Permuting by a permutation keeps the multiset of leaves, at any rank. |
| LeafMultisets.CountIsCarriers | src/lerobot_coreai/processor_transform_contract.py:43-69 | The number of times a value occurs among the leaves is the number of indices that carry it, which turns a bijection of indices into an equality of multisets. |
| LeafMultisets.RepeatedAxisLosesALeaf | src/lerobot_coreai/processor_transform_contract.py:51-52 | The code checks only the rank: for every in-range order that is no permutation there is an array whose leaves are not kept. |
| LeafMultisets.KeepsLeavesIff | src/lerobot_coreai/processor_transform_contract.py:51-52 | The exact condition: an order keeps the leaves of every full array of its rank if and only if its axes are in range and form a permutation. |
| LeafMultisets.RepeatedAxisExample | src/lerobot_coreai/processor_transform_contract.py:51-52 | The order [0, 0] passes the check and loses leaves. |
| Transforms.ApplyOperations | src/lerobot_coreai/processor_transform_contract.py:78-107 | The loop over the operations computes the composition of the single operations, stopping at the first error. |
| Transforms.AffineLoop | src/lerobot_coreai/processor_transform_contract.py:110-123 | The recursive affine loop computes the specification function, errors included. |
| Transforms.AffineOnArray | src/lerobot_coreai/processor_transform_contract.py:110-123 | On a full array, normalizing and denormalizing are one line per channel applied at every leaf, or the error of the first channel that has one. |
| Transforms.ArithmeticOnArray | src/lerobot_coreai/processor_transform_contract.py:78-123 | Exactly when a scale, normalize or denormalize applies to every array of a shape, and that it then maps each leaf by the line of its channel. |
| Transforms.Line.Then | src/lerobot_coreai/processor_transform_contract.py:110-123 | Composing two lines is a line that evaluates as one after the other. |
| Transforms.Fusion | src/lerobot_coreai/processor_transform_contract.py:78-123 | Any list of scale, normalize and denormalize operations succeeds exactly when each of them applies, and then equals one fused affine map per channel. |
| Transforms.MapChannelsTwice | src/lerobot_coreai/processor_transform_contract.py:72-75 | Two leaf maps in a row are one leaf map. |
| TransformLaws.NormalizeAndDenormalizeAreInverse | src/lerobot_coreai/processor_transform_contract.py:94-123 | With the same mean and std, scalar or per channel, normalize and denormalize undo each other in both orders on every full array where they apply, and both orders fail on every other. |
| TransformLaws.CancellingPair | src/lerobot_coreai/processor_transform_contract.py:78-123 | Two operations whose lines cancel channel by channel give back the input. |
| TransformLaws.PermuteSwapsIff | src/lerobot_coreai/processor_transform_contract.py:78-123 | The exact condition for swapping a permute and an arithmetic operation as they run, errors included: on every array of a shape both orders give one result if and only if both shapes raise the same error or none, and without one the order fixes the last axis, the operation scales, or the channels that change places have equal mean and std. |
| TransformLaws.SameAcrossMeansSameStats | src/lerobot_coreai/processor_transform_contract.py:110-123 | Where nothing fails, an affine operation treats two channels alike on all numbers exactly when their mean and std entries are equal. |
| TransformLaws.PermuteCommutesIff | src/lerobot_coreai/processor_transform_contract.py:43-75 | For leaf maps, which never fail: permuting commutes with a per-channel map on every array of a shape exactly when the order fixes the last axis or the map does not tell the affected channels apart. |
| TransformLaws.PermuteCommutesWithArithmetic | src/lerobot_coreai/processor_transform_contract.py:78-123 | Permute commutes with scale and with scalar statistics always, and with per-channel statistics when the order fixes the last axis; errors included. |
| TransformLaws.PermuteCommutesWithCast | src/lerobot_coreai/processor_transform_contract.py:78-123 | Permute commutes with every cast. |
| TransformLaws.DisagreeingPipelines | src/lerobot_coreai/processor_transform_contract.py:78-123 | Whenever that condition fails, whatever the shape and the statistics, some array gives two different outcomes. |
| TransformLaws.MovingTheLastAxisExample | src/lerobot_coreai/processor_transform_contract.py:78-123 | A concrete pair of pipelines that differ: swapping the axes of a 2 x 2 matrix and shifting its second channel. |
| TransformLaws.MissingChannelExample | src/lerobot_coreai/processor_transform_contract.py:78-123 | A concrete pair of which one fails: statistics for two channels apply to a 3 x 2 matrix before its axes are swapped and not after. |
| TransformMeaning.CastMeaning | src/lerobot_coreai/processor_transform_contract.py:86-87 | On every full array a cast without a type or to a name starting with float changes nothing, and any other cast takes the leaf at every index to the integer next to it towards zero. |
| TransformMeaning.TruncatedIsUnique | src/lerobot_coreai/processor_transform_contract.py:87-87 | There is only one integer next to a number towards zero. |
| TransformMeaning.ScaleMeaning | src/lerobot_coreai/processor_transform_contract.py:88-90 | On every full array scaling multiplies the leaf at every index. |
| TransformMeaning.StandardizeMeaning | src/lerobot_coreai/processor_transform_contract.py:91-123 | On every full array with an axis, the leaf x at an index becomes (x - mean) / std, or x * std + mean, with the entries of its last coordinate, when every channel has its entries and no divisor is zero. |
| TransformMeaning.StandardizeFails | src/lerobot_coreai/processor_transform_contract.py:91-123 | Otherwise the error of the first channel that has one is raised. |
| TransformMeaning.StatisticsFromPipeline | src/lerobot_coreai/processor_transform_contract.py:91-104 | An operation without both of its own statistics takes both from the pipeline, and raises when there are none. |
| FeatureContracts.FeatureIdIsInjective | src/lerobot_coreai/feature_contract.py:126-127 | Feature ids of the form role:key@stage determine role, key and stage when the role has no colon and the stage no at sign. |
| ContractDiff.DiffContracts | src/lerobot_coreai/feature_contract_diff.py:34-73 | Both lists are determined entry by entry in the order of the two passes; the breaking and the non-breaking list hold exactly the changes of the respective kind; the breaking list is empty exactly when no required feature disappeared or appeared and every common feature is declared alike with no tighter bound. |
| ContractDiff.IndexSpecs | src/lerobot_coreai/feature_contract_diff.py:30-31 | Indexing by id keeps the last feature of each id, in the place where the id first occurs. |
| ContractDiff.FeatureBreakingMeaning | src/lerobot_coreai/feature_contract_diff.py:49-66 | An entry is reported as breaking for a common feature exactly when the compared field differs or a bound tightens. |
| ContractDiff.ReportIsComplete | src/lerobot_coreai/feature_contract_diff.py:39-72 | Walking the baseline ids and then the candidate ids misses no change and reports none twice under another kind. |
| ContractDiff.NothingBreakingMeaning | src/lerobot_coreai/feature_contract_diff.py:21-24 | What an empty breaking list guarantees about every feature of both contracts. |
| ContractDiff.RangeEntriesIff | src/lerobot_coreai/feature_contract_diff.py:59-67 | A range reduction is listed exactly when some value of the baseline range is lost, and an expansion exactly when none is lost and one is gained, judged by the bounds both declare. |
| PayloadValidation.ValidatePayload | src/lerobot_coreai/feature_contract_validation.py:130-186 | The result is ok exactly when the payload is acceptable: in closed mode no key outside the stage (task excepted), every required feature present, and every numeric value fitting its feature; failures and validated ids are determined in order. |
| PayloadValidation.ValidateSpec | src/lerobot_coreai/feature_contract_validation.py:149-185 | One feature adds exactly its failures and is listed as validated exactly when it is present and has none. |
| PayloadValidation.ReportStrays | src/lerobot_coreai/feature_contract_validation.py:143-148 | In closed mode exactly the keys that no feature of the stage declares are reported. |
| PayloadValidation.FitsLeafByLeaf | src/lerobot_coreai/feature_contract_validation.py:36-63 | For a finite domain a value fits exactly when it is an array of the resolved shape and the leaf at every index is a truth value or a finite number within the bounds, although the code flattens and compares only the extremes. |
| PayloadValidation.FitsWithoutFiniteness | src/lerobot_coreai/feature_contract_validation.py:36-63 | For a domain that need not be finite a value fits exactly when it has the resolved shape and its first number is not-a-number or no number is beyond a bound. |
| PayloadValidation.NumericLeavesInOrder | src/lerobot_coreai/feature_contract_validation.py:57-63 | The numbers that are checked are all the numbers among the leaves, in their order. |
| PayloadValidation.ResolvesIff | src/lerobot_coreai/feature_contract_validation.py:118-127 | A shape resolves to given dimensions exactly when every number stands for itself and every symbol for its value. |
| PayloadValidation.NoFailuresMeansAccepts | src/lerobot_coreai/feature_contract_validation.py:141-186 | The failure list is empty exactly when the declarative acceptance condition holds. |
| PayloadValidation.ResolveShapeLoop | src/lerobot_coreai/feature_contract_validation.py:118-127 | Resolving a shape replaces every symbol by its positive value or fails as a whole. |
| ContractsUnderSymbols.NonBreakingUnderSymbolsIff | src/lerobot_coreai/feature_contract_validation.py:130-186 | Any two disciplined contracts and any symbols, however features share keys and shapes: after a non-breaking change, everything the baseline accepts under these symbols is accepted by the candidate if and only if, read with these symbols, the baseline accepts nothing at the stage, or no feature asks more than the baseline features of its key do together, a closed candidate permits every key that can be carried, and a key new in the candidate asks nothing of a value that can be carried under it. |
| ContractsUnderSymbols.NonBreakingForAllSymbolsIff | src/lerobot_coreai/feature_contract_validation.py:130-186 | Everything accepted under any symbols stays accepted if and only if that condition holds for all symbols. |
| ContractsUnderSymbols.NonBreakingSharedUnderSymbolsIff | src/lerobot_coreai/feature_contract_validation.py:130-186 | The payloads that carry only keys both contracts share: under given symbols the candidate accepts all that the baseline accepts if and only if the baseline accepts nothing or no feature asks more than the baseline features of its key do together. |
| JoinedContracts.NonBreakingPreservesAcceptanceIff | src/lerobot_coreai/feature_contract_validation.py:130-186 | The condition for all symbols at once on the declarations themselves, without resolving symbols, when features that share a key declare one shape or shapes without symbols. |
| JoinedContracts.NonBreakingPreservesSharedIff | src/lerobot_coreai/feature_contract_validation.py:130-186 | The same for the payloads that carry only shared keys. |
| ContractsUnderSymbols.UnderAccepts | src/lerobot_coreai/feature_contract_validation.py:118-186 | Reading a contract with the symbols given changes nothing of what is accepted under them. |
| ContractCompatibility.PayloadPreservedIff | src/lerobot_coreai/feature_contract_validation.py:130-186 | One payload, any two disciplined contracts: after a non-breaking change that tightens no common feature where the diff does not look, a payload the baseline accepts is accepted by the candidate exactly when a closed candidate permits its keys and it fits the added features whose keys it carries. |
| ContractCompatibility.PayloadPreserved | src/lerobot_coreai/feature_contract_validation.py:130-186 | Hence such a payload stays accepted when it carries no key of a dropped feature (closed mode, task excepted) and none of an added non-text feature. |
| ContractCompatibility.LooserMeansFields | src/lerobot_coreai/feature_contract_diff.py:39-72 | For a feature the diff finds unchanged, asking no more than before is about required, modality, finiteness and new bounds, the fields the diff does not compare, and about nothing else when its arrays have leaves. |
| JoinedContracts.JoinAccepts | src/lerobot_coreai/feature_contract_validation.py:149-186 | Two features of one key accept together exactly what their join accepts; two shapes that differ without symbols leave nothing to accept. |
| JoinedContracts.JoinedOfUnique | src/lerobot_coreai/feature_contract_validation.py:141-186 | With one feature per key the joined baseline is the baseline itself. |
| ContractCompatibility.LeaflessFit | src/lerobot_coreai/feature_contract_validation.py:163-186 | A value that fits a shape with a zero dimension has no numeric leaf and is finite, so bounds ask nothing of it. |
| ContractCompatibility.EmptyIntervalPasses | src/lerobot_coreai/feature_contract_validation.py:174-180 | Numeric leaves pass an interval whose minimum exceeds its maximum only when the first of them is not a number. |
| CompatibilityWitnesses.TellShapesApart | src/lerobot_coreai/feature_contract_validation.py:118-127 | Two different declared shapes resolve differently under some assignment of all the symbols. |
| ContractCompatibility.SafeCandidateAccepts | src/lerobot_coreai/feature_contract_validation.py:130-186 | A safe candidate accepts every payload the baseline accepts, however many features share a key. |
| CompatibilityWitnesses.NonBreakingAloneIsNotEnough | src/lerobot_coreai/feature_contract_diff.py:39-72 | A concrete pair whose diff reports nothing breaking while the candidate rejects a payload the baseline accepts: a lower bound appears where there was none. |
| ContractStructure.ValidateStructure | src/lerobot_coreai/feature_contract_validation.py:66-115 | The single pass with a set of ids and a dictionary of owners reports exactly the errors of the declarative rules, and none exactly when every feature is sound, ids are unique and no two features normalize one key under different owners. |
| ContractStructure.CheckFeature | src/lerobot_coreai/feature_contract_validation.py:77-107 | The checks on one feature report exactly what can be said of it. |
| ContractStructure.NamesOkMeaning | src/lerobot_coreai/feature_contract_validation.py:97-101 | Names and shape agree exactly when the last number of the shape, if any, is the number of names. |
| ContractStructure.SoundIffUnbroken | src/lerobot_coreai/feature_contract_validation.py:66-115 | A feature is sound exactly when no error about it alone is true. |
| ContractStructure.OwnersExtend | src/lerobot_coreai/feature_contract_validation.py:108-114 | Comparing a new owner with the last recorded one detects exactly the disagreement with any earlier feature. |
| ContractStructure.ValidatedContractsAreDisciplined | src/lerobot_coreai/feature_contract_validation.py:66-115 | A structurally valid contract with canonical ids meets the id hypotheses of the compatibility theorem. |
| NestedLists.ShapeCheckersAgree | src/lerobot_coreai/processor_parity_metrics.py:13-39 | The parity rectangularity test holds exactly when the recursive shape of the payload validator is defined; both then give one shape, and the leaf count is the product of that shape. |
| NestedLists.RectShapeIsTheShape | src/lerobot_coreai/feature_contract_validation.py:36-45 | The recursive shape is the one and only tight shape of a value: it is found exactly when there is one. |
| NestedLists.ShapeLoop | src/lerobot_coreai/processor_parity_metrics.py:21-27 | The while loop down the first elements computes the leading shape. |
| NestedLists.LeafCount | src/lerobot_coreai/processor_parity_metrics.py:13-18 | A full array has as many leaves as the product of its shape. |
| NestedLists.FlattenAt | src/lerobot_coreai/processor_parity_metrics.py:13-18 | Flattening a full array puts the leaf at an index in its row-major place. |
| NestedLists.Extensionality | src/lerobot_coreai/processor_parity_metrics.py:13-39 | Two full arrays of one shape that agree at every index are equal. |
| ParityMetrics.ShapeMatchMeaning | src/lerobot_coreai/processor_parity_metrics.py:75-80 | The shape flag holds exactly for two rectangular arrays of one shape, which makes the extra length comparison redundant. |
| ParityMetrics.MeanAndMaxError | src/lerobot_coreai/processor_parity_metrics.py:84-95 | 0 <= mean error <= max error <= count times mean error. |
| ParityMetrics.MaxErrorPointwise | src/lerobot_coreai/processor_parity_metrics.py:84-95 | The max error is within a limit exactly when every pair of leaves is. |
| ParityMetrics.ErrorTriangle | src/lerobot_coreai/processor_parity_metrics.py:84-95 | Triangle inequality for the max and the mean error. |
| ParityMetrics.StagesCompose | src/lerobot_coreai/processor_parity_metrics.py:64-95 | Two stages within t1 and t2 compose to a stage within t1 + t2, for both errors, on all comparable finite arrays. |
| ParityMetrics.CauchySchwarz | src/lerobot_coreai/processor_parity_metrics.py:87-92 | Cauchy-Schwarz for the dot product of the code, by a quadratic that is nowhere negative. |
| ParityMetrics.CosineBounded | src/lerobot_coreai/processor_parity_metrics.py:87-93 | The cosine similarity lies in [-1, 1] for all arrays of one length, zero vectors included. |
| ParityMetrics.MetricsMeaning | src/lerobot_coreai/processor_parity_metrics.py:64-95 | For any two arrays: the recorded shapes are theirs, shapes match exactly for full arrays of one shape, the count and the non-finite counts are those of the leaves, and arrays that cannot be compared have infinite errors and no similarity. |
| ParityMetrics.RelativeMeaning | src/lerobot_coreai/processor_parity_metrics.py:86-90 | The relative error is within a limit exactly when the absolute differences sum to at most the limit times the reference magnitudes, or, for a reference of zeros, when the arrays agree and the limit is not negative. |
| ParityMetrics.CosineMeaning | src/lerobot_coreai/processor_parity_metrics.py:91-94 | The cosine is above or below a limit exactly when the dot product compares so with the limit times the product of the norms, zero norms aside. |
| ParityMetrics.CosineOfZeroVectors | src/lerobot_coreai/processor_parity_metrics.py:94-94 | With true roots, a vector of zeros has similarity one to another such vector and zero to any other. |
| ParityMetrics.DotIsSumOfProducts | src/lerobot_coreai/processor_parity_metrics.py:91-93 | The dot product is the sum of the products of all pairs. |
| ParityMetrics.ValuesAt | src/lerobot_coreai/processor_parity_metrics.py:70-71 | The values compared are the leaves by index, in row-major places. |
| ProcessorParity.HashDeterminesArray | src/lerobot_coreai/processor_parity.py:84-95 | Two arrays have one hash exactly when they are equal, non-finite sentinels included. |
| ProcessorParity.EvaluateArrays | src/lerobot_coreai/processor_parity.py:98-125 | The evaluation computes metrics, hashes, verdict and reasons as specified. |
| ProcessorParity.PassingMeansMeeting | src/lerobot_coreai/processor_parity.py:98-125 | A verdict passes exactly when the arrays are finite, of one shape and, in exact mode, equal, or else inside every explicit gate as stated on their leaves: each difference, the sum of differences, the relative sum, the cosine by its products, the count and the flags. |
| ProcessorParity.GatesMeaning | src/lerobot_coreai/processor_parity.py:110-123 | The gates find nothing exactly when every threshold holds of the metrics. |
| ProcessorParity.GateOnLeaves | src/lerobot_coreai/processor_parity.py:114-123 | For every threshold name, known or not, a gate on the metrics of comparable finite arrays holds exactly when its condition on the leaves does. |
| ProcessorParity.ReasonsMeaning | src/lerobot_coreai/processor_parity.py:98-125 | A reason is given exactly when it is true of the case, whichever it is. |
| ProcessorParity.BuiltReportMeaning | src/lerobot_coreai/processor_parity.py:67-150 | In every grade the built report records each case with its own identification, metrics, hashes and verdict, keeps the arrays exactly in certificate grade, and claims parity exactly when there are cases and the arrays of all of them meet their thresholds. |
| ProcessorParity.BuildRefuses | src/lerobot_coreai/processor_parity.py:128-140 | Building fails exactly for an unknown grade, and otherwise for a case of an unknown mode. |
| ProcessorParity.VerifyCase | src/lerobot_coreai/processor_parity.py:166-187 | The errors about one case are exactly the ways in which it differs from its replay. |
| ProcessorParity.VerifyReport | src/lerobot_coreai/processor_parity.py:155-193 | The verifier accepts exactly the reports that replay, and its errors are exactly the differences. |
| ProcessorParity.BuiltReportsVerify | src/lerobot_coreai/processor_parity.py:128-193 | Completeness: every report the builder makes is accepted. |
| ProcessorParity.VerifiedClaimIsTrue | src/lerobot_coreai/processor_parity.py:155-193 | Soundness: an accepted certificate-grade report that claims parity has cases, and every persisted pair of arrays meets its thresholds or is equal. |
| ProcessorParity.VerifiesIffRebuilt | src/lerobot_coreai/processor_parity.py:128-193 | A certificate-grade report is accepted exactly when rebuilding it from its own arrays gives it back, up to the wording of the reasons. |
| ModelConversion.Replay | src/lerobot_coreai/model_conversion_evidence.py:186-197 | The replay reports exactly the fields that differ and raises exactly when the tolerance is empty. |
| ModelConversion.VerifyEvidence | src/lerobot_coreai/model_conversion_evidence.py:163-213 | Accepts without error exactly the evidence that replays, embedded and external arrays alike; exactly when it raises instead. |
| ModelConversion.EvidenceVerifiesIffRebuilt | src/lerobot_coreai/model_conversion_evidence.py:119-213 | Certificate-grade evidence is accepted exactly when rebuilding it from its bundle gives it back. |
| ModelConversion.BuiltEvidenceVerifies | src/lerobot_coreai/model_conversion_evidence.py:119-213 | Completeness: all evidence the builder makes is accepted, with its arrays supplied again. |
| ModelConversion.ParityPassedMeets | src/lerobot_coreai/model_conversion_evidence.py:97-116 | For a nonempty tolerance the verdict passes exactly when the arrays meet it. |
| ModelConversion.InputsHashMeaning | src/lerobot_coreai/model_conversion_evidence.py:148-150 | Reference inputs have a hash exactly when all their leaves are finite. |
| ModelConversion.Sha256Meaning | src/lerobot_coreai/model_conversion_evidence.py:17-17 | The pattern of a content address admits exactly sixty-four hexadecimal digits after the name of the hash, and, by its end anchor, one line feed after them. |
| ModelConversion.IdentityMeaning | src/lerobot_coreai/model_conversion_evidence.py:22-53 | The schema of the identity chain demands exactly that no text is empty and every hash is a content address. |
| ModelConversion.VerifiedConversionIsTrue | src/lerobot_coreai/model_conversion_evidence.py:163-213 | Soundness: accepted evidence that claims a conversion is of certificate grade, has a valid identity and its outputs really meet the tolerance; supplied arrays are the bundled ones. |
| RealEgress.RealEgressGuard.SendAction | src/lerobot_coreai/real_egress.py:107-167 | One call of the guard: decision, block reason, what the adapter is handed and the new state, for every readiness, clock and verdict; the history grows by the event of the call. |
| RealEgress.RateLimiter.Allow | src/lerobot_coreai/real_egress.py:46-56 | Grants a slot exactly when the interval since the last granted one has passed, and only then moves the slot. |
| RealEgress.DeadmanSwitch.Beat | src/lerobot_coreai/real_egress.py:27-28 | A heartbeat records its time. |
| RealEgress.RealEgressGuard.Estop | src/lerobot_coreai/real_egress.py:99-101 | Triggering sets the e-stop and records it. |
| RealEgress.HandOversAreSpaced | src/lerobot_coreai/real_egress.py:46-56 | In every run, successive hand-overs to the adapter are at least 1/fps apart, whatever the clock values and although calls blocked later also use slots. |
| RealEgress.HandOversAreApart | src/lerobot_coreai/real_egress.py:46-56 | Any two hand-overs of a run, by the places of their events, are an interval apart. |
| RealEgress.HandOversPerWindow | src/lerobot_coreai/real_egress.py:46-56 | Any window of length T sees at most floor(T * fps) + 1 hand-overs. |
| RealEgress.HandOverEventsPerWindow | src/lerobot_coreai/real_egress.py:46-56 | The same bound on the number of events of the run that hand something over in the window. |
| RealEgress.WindowMeaning | src/lerobot_coreai/real_egress.py:46-56 | The hand-overs counted in a window are those at every time in it, each as often as it occurs. |
| RealEgress.NonPositiveFpsBlocksAll | src/lerobot_coreai/real_egress.py:46-49 | Without a positive rate nothing is ever handed over. |
| RealEgress.NothingAfterEstop | src/lerobot_coreai/real_egress.py:99-121 | Nothing is handed over after the e-stop, in any run. |
| RealEgress.HandOverIff | src/lerobot_coreai/real_egress.py:107-167 | A call hands an action to the adapter exactly when the session runs, no e-stop came before, the last heartbeat is recent or a disabled deadman is allowed, the last slot taken is an interval ago, the adapter is ready and the verdict allows; the adapter then receives the supervised action, and the call counts as sent exactly when the adapter does not raise. |
| RealEgress.SlotIsTheLastTaken | src/lerobot_coreai/real_egress.py:46-56 | The limiter judges by the last slot taken in the run, including those of calls that the adapter or the supervisor blocked afterwards. |
| RealEgress.EstopMeansTriggered | src/lerobot_coreai/real_egress.py:99-121 | In every run the e-stop is set exactly when it has been triggered. |
| RealEgress.HeartbeatIsTheLast | src/lerobot_coreai/real_egress.py:20-39 | The deadman judges by the last heartbeat of the run. |
| RealEgress.CallsAreSentOrBlocked | src/lerobot_coreai/real_egress.py:107-167 | In every run the calls are the sent plus the blocked ones. |
| RealEgress.BlockedIff | src/lerobot_coreai/real_egress.py:107-167 | In every run a call is blocked for a reason exactly when that reason is the first of the conditions, in the order of the gate and in terms of the run before it, that stands in its way; the adapter's failure is the last of them. |
| RealEgress.LatchesMeaning | src/lerobot_coreai/real_egress.py:107-167 | In every run the deadman latch is set exactly when some call was blocked by an unhealthy deadman, and the adapter latch exactly when the adapter raised on some action. |
| ActionQueues.ActionQueue.LoadChunk | src/lerobot_coreai/action_queue.py:37-62 | A chunk is accepted exactly when it is one action or a list of actions of one positive width whose entries are all finite numbers; the queue then grows by one row per action, entry j of row i being entry j of item i of the chunk. A rejected chunk leaves the queue unchanged, with the error of the first check that fails. |
| ActionQueues.ActionQueue.PopNext | src/lerobot_coreai/action_queue.py:64-69 | Pops the oldest row, or fails on an empty queue. |
| ActionQueues.ActionQueue.Reset | src/lerobot_coreai/action_queue.py:71-72 | Empties the queue. |
| ActionQueues.LoadErrorMeaning | src/lerobot_coreai/action_queue.py:37-62 | The checks in their order find no error exactly for well-formed chunks. |
| ActionQueues.ActionsMeaning | src/lerobot_coreai/action_queue.py:37-62 | The rows that enter the queue are the entries of the chunk, in their places, and no others. |
| ActionQueues.Policy.SelectNextAction | src/lerobot_coreai/policy.py:262-274 | The selector refills an empty queue from one prediction and pops; it is one step of the selection machine. |
| ActionQueues.CallsFollowChunks | src/lerobot_coreai/policy.py:262-274 | Any number of calls since a reset, whatever the chunks and whether calls fail in between: the actions returned and those queued are together the concatenated accepted chunks, and the failing calls are exactly the rejected chunks. |
| ActionQueues.SelectionsFollowChunks | src/lerobot_coreai/policy.py:262-274 | From a reset queue, n successful selections return exactly the first n rows of the concatenated predicted chunks, all of them well formed, and the queue holds the rest. |
| ActionQueues.SelectionsSucceedIff | src/lerobot_coreai/policy.py:262-274 | n selections succeed if and only if the chunks cover n actions before any of them is malformed. |
| ActionQueues.PredictionsAreLeast | src/lerobot_coreai/policy.py:262-274 | The number of predictions of any n calls is the least that covers them, a rejected chunk covering the call that fails on it. |
| ActionQueues.ConstantHorizonPredictions | src/lerobot_coreai/policy.py:262-274 | When the chunks needed have a constant horizon h, n selections succeed and take ceil(n / h) predictions. |
| ActionQueues.Policy.Reset | src/lerobot_coreai/policy.py:276-289 | A reset empties the queue and predicts nothing. |
| ActionQueues.RejectedChunkLeavesQueue | src/lerobot_coreai/policy.py:262-274 | A selection fails exactly when the queue is empty and the predicted chunk is not well formed, and then nothing is queued. |
| ReferenceQueue.ReferenceActionQueue.Next | src/lerobot_coreai/app_conformance.py:75-87 | One step of the queue machine, the deadline check and the order of the checks included. |
| ReferenceQueue.ReferenceActionQueue.Replace | src/lerobot_coreai/app_conformance.py:50-55 | A new chunk starts from its first action with its own context and deadline, valid again. |
| ReferenceQueue.ReferenceActionQueue.Clear | src/lerobot_coreai/app_conformance.py:57-62 | Clearing drops the actions and invalidates, for a known reason only. |
| ReferenceQueue.ReferenceActionQueue.Observe | src/lerobot_coreai/app_conformance.py:64-73 | A context that differs from the chunk's invalidates it. |
| ReferenceQueue.StateSinceReplace | src/lerobot_coreai/app_conformance.py:40-87 | Over every interleaving since a replace, the queue is invalidated exactly when some command invalidated it, and otherwise has given as many actions as it was asked for. |
| ReferenceQueue.NextInClosedForm | src/lerobot_coreai/app_conformance.py:75-87 | What any next returns, from the commands since the last replace alone: once invalidated it fails for good, even if the clock goes back; otherwise it returns the next action in time, or reports the end. |
| ReferenceQueue.ReturnedIsPrefix | src/lerobot_coreai/app_conformance.py:40-87 | The actions returned since a replace are an in-order prefix of its chunk, and exactly as many as asked for while nothing invalidated it. |
| ReferenceQueue.ReasonSinceReplace | src/lerobot_coreai/app_conformance.py:57-80 | Over every interleaving since a replace, the reason held is the last one given: by a clear, by a context for the first of session, artifact and contract that differs, or by the deadline if nothing came before. |
| ReferenceQueue.RefusalNamesTheLastReason | src/lerobot_coreai/app_conformance.py:75-80 | A refused next reports that reason, its own lateness included. |
| EpisodeEvents.ValidateEvents | src/lerobot_coreai/episode_staging.py:43-87 | The single pass accepts exactly the non-empty streams with all fields, one session, times that never decrease and sequences that strictly increase between any two events of a source, fresh samples and every declared feature; each complaint is reported exactly when it is true. |
| EpisodeEvents.TimesExtend | src/lerobot_coreai/episode_staging.py:65-66 | Comparing with the last time of a source is comparing with every earlier one. |
| EpisodeEvents.SequencesExtend | src/lerobot_coreai/episode_staging.py:67-68 | Comparing with the last sequence number of a source is comparing with every earlier one. |
| EpisodeEvents.FreshExtend | src/lerobot_coreai/episode_staging.py:75-83 | Comparing with the last sample of a feature keeps all its successive samples within the age. |
| EpisodeEvents.AcceptedSamplesSpan | src/lerobot_coreai/episode_staging.py:75-83 | In an accepted stream n + 1 samples of a feature span at most n times its maximum age. |
| Calibration.PercentileWithinSamples | src/lerobot_coreai/profile_calibration.py:69-76 | The percentile lies between two samples, and at 1 and 0 bounds all of them. |
| Calibration.PercentileLinear | src/lerobot_coreai/profile_calibration.py:69-76 | Between two neighbouring samples the percentile runs linearly in the rank and reaches both of them. |
| Calibration.PercentileInOrder | src/lerobot_coreai/profile_calibration.py:69-76 | For any ascending arrangement s of the samples: where (n - 1) p lies between j and j + 1, the percentile is s[j] plus that fraction of the step to s[j + 1]. |
| Calibration.PercentileOfFew | src/lerobot_coreai/profile_calibration.py:69-76 | There is a percentile exactly when there are samples, and that of one sample is the sample. |
| Calibration.PercentileMonotone | src/lerobot_coreai/profile_calibration.py:69-76 | The percentile is monotone in p. |
| Calibration.PercentileOfPermutation | src/lerobot_coreai/profile_calibration.py:69-76 | The percentile does not depend on the order of the samples. |
| Calibration.PercentileCovers | src/lerobot_coreai/profile_calibration.py:69-76 | At least floor((n - 1) q) + 1 samples do not exceed the percentile or any bound above it. |
| Calibration.FinalBoundCoversIff | src/lerobot_coreai/profile_calibration.py:203-213 | Outside conservative mode, for every quantile, nonnegative margin and clamp, and for all nonnegative samples of at least any given number: the emitted bound, rounded to six places, covers floor((n - 1) q) + 1 of its n samples if and only if the rounded clamp times the margin is at least half a unit of the sixth place. |
| Calibration.DefaultMarginSuffices | src/lerobot_coreai/profile_calibration.py:23-35 | The default margin of 0.10 meets that condition with each of the three clamps. |
| Calibration.LostSample | src/lerobot_coreai/profile_calibration.py:203-213 | When the condition fails, a sample just above the rounded clamp is rounded below itself. |
| Calibration.FinalBoundCovers | src/lerobot_coreai/profile_calibration.py:203-213 | Whatever the margin, the emitted bound covers as many samples rounded alike, and as many samples with half a unit of the last place to spare. |
| Calibration.RoundingLosesTheSamples | src/lerobot_coreai/profile_calibration.py:203-213 | A concrete loss at the supported quantile 0.95: without margin, any number of samples of 0.0600004 are calibrated to 0.06, which covers none of them. |
| Calibration.ConservativeFinalIff | src/lerobot_coreai/profile_calibration.py:203-213 | In conservative mode the emitted bound never exceeds the base bound, whatever was observed, if and only if rounding does not raise the base bound. |
| Calibration.RoundingExceedsTheBase | src/lerobot_coreai/profile_calibration.py:203-213 | A concrete base bound of 0.0500006 that a conservative calibration exceeds. |
| Calibration.RoundSixMonotone | src/lerobot_coreai/profile_calibration.py:213 | Rounding keeps the order of bounds. |
| Calibration.NearestMeaning | src/lerobot_coreai/profile_calibration.py:213-213 | A number rounds to a whole number exactly when it is at most a half away, and at just a half only to an even one. |
| Calibration.BoundMeaning | src/lerobot_coreai/profile_calibration.py:203-213 | The warning is given exactly when the raised percentile or the clamp exceeds the base bound; a conservative calibration then keeps the base bound, and every other bound is the larger of the two. |
| ActionStatistics.CollectSamples | src/lerobot_coreai/profile_calibration.py:131-148 | The accumulating loop over the recording, non-finite coordinates included, collects the specified samples. |
| ActionStatistics.StepsAreSamplesOrChanges | src/lerobot_coreai/profile_calibration.py:131-148 | Every step after the first action is either a jump sample or a shape change. |
| ActionStatistics.JumpsMeaning | src/lerobot_coreai/profile_calibration.py:138-147 | Finite jump samples are not negative, and counting those within a limit counts the steps on which no coordinate changes by more. |
| ActionStatistics.CoordinatesMeaning | src/lerobot_coreai/profile_calibration.py:138-141 | Counting absolute samples within a limit counts the finite coordinates within it. |
| ActionStatistics.NormsMeaning | src/lerobot_coreai/profile_calibration.py:142 | Counting L2 samples within a limit counts the actions whose finite coordinates lie in that ball. |
| ActionStatistics.CalibratedDeltaCoversRecording | src/lerobot_coreai/profile_calibration.py:127-213 | The emitted delta bound, calibrated on finite jump samples, is respected in every coordinate by at least floor((n - 1) q) + 1 of the n same-length steps when the margin outweighs the rounding; the bound before rounding always is. |
| ActionStatistics.CalibratedAbsCoversRecording | src/lerobot_coreai/profile_calibration.py:127-213 | The same for the emitted absolute bound, among all finite coordinates of any recording. |
| ActionStatistics.CalibratedL2CoversRecording | src/lerobot_coreai/profile_calibration.py:127-213 | The same for the emitted L2 bound, among all actions of any recording. |
| ActionStatistics.DistanceMeaning | src/lerobot_coreai/profile_calibration.py:143-147 | Which changes of a coordinate count as within a limit, infinities and not-a-number included. |
| ActionStatistics.InRangeMeaning | src/lerobot_coreai/profile_calibration.py:138-141 | The coordinates counted in range are the indices of finite coordinates between the negated limit and the limit. |
| ActionStatistics.SquareSumMeaning | src/lerobot_coreai/profile_calibration.py:142-142 | The square of the norm of an action is the sum of the squares of all its finite coordinates. |
| ActionStatistics.StepsWithinMeaning | src/lerobot_coreai/profile_calibration.py:143-147 | The steps counted are those indices at which no coordinate changes by more than the limit. |
| LiveMetrics.SpikesAreFewerThanHalf | src/lerobot_coreai/live_metrics.py:78-82 | For any non-empty list of nonnegative loop times, fewer than half of them exceed twice the mean. |
| LiveMetrics.SpikesMeaning | src/lerobot_coreai/live_metrics.py:78-82 | The spikes are the indices whose time, times the number of steps, exceeds twice the total time. |
| LiveMetrics.CountShapeChanges | src/lerobot_coreai/live_metrics.py:117-125 | The loop counts the adjacent unequal pairs among the recorded shapes, at most their number minus one. |
| Negotiation.ParseMeaning | src/lerobot_coreai/negotiation_algorithm.py:38-45 | A text parses to a protocol exactly when, stripped, it is a family, `.v` and a numeral of that value. |
| Negotiation.SplitIsUnique | src/lerobot_coreai/negotiation_algorithm.py:20 | A text can be split into family and version in at most one way, even when the family itself contains version suffixes. |
| Negotiation.ParseOfPrint | src/lerobot_coreai/negotiation_algorithm.py:38-45 | Parsing undoes printing for every family and every natural version. |
| Negotiation.ExpectedProtocolOnNames | src/lerobot_coreai/negotiation_algorithm.py:48-75 | On printed protocols negotiation succeeds exactly for the same family and the same version, or a newer one that declares the minimum compatible, and answers the runner's protocol. |
| Negotiation.FirstAnnouncedIsBest | src/lerobot_coreai/negotiation_algorithm.py:78-94 | The automatic encoding is the first of the plugin's preferences that is announced, and fails exactly when none is. |
| Negotiation.AnnouncingMoreIsSafe | src/lerobot_coreai/negotiation_algorithm.py:78-94 | Announcing more never turns success into failure, keeps an explicit request, and never picks a less preferred encoding. |
| Negotiation.DeclaringMoreKeepsTheContract | src/lerobot_coreai/negotiation_algorithm.py:97-113 | For the whole negotiation, declaring more encodings and more compatible versions keeps success, protocol and policy. |
| Negotiation.ContractMeaning | src/lerobot_coreai/negotiation_algorithm.py:90-113 | The whole negotiation answers a contract exactly when the policy is the supported one, both texts name protocols of one family between blanks, the runner's as old as the minimum or newer and declared compatible, and the encoding is the requested one, supported and announced, or else the most preferred announced one. |
| Negotiation.ProtocolMeaning | src/lerobot_coreai/negotiation_algorithm.py:48-75 | The protocol rule on arbitrary texts, stated by the protocols they name. |
| Negotiation.ParsesIffNames | src/lerobot_coreai/negotiation_algorithm.py:38-45 | A text parses to a protocol exactly when it is the family, `.v` and a numeral of the version, between blanks. |
| Negotiation.FamilyAlphabet | src/lerobot_coreai/negotiation_algorithm.py:20-20 | The characters a family may consist of, one by one. |
| Negotiation.ProtocolRefusals | src/lerobot_coreai/negotiation_algorithm.py:58-75 | Which error refuses a well-formed runner protocol, for every pair of protocols. |
| Negotiation.MalformedNames | src/lerobot_coreai/negotiation_algorithm.py:54-60 | A minimum that names no protocol is refused as such, and only then the runner's. |
| Negotiation.EncodingMeaning | src/lerobot_coreai/negotiation_algorithm.py:78-94 | An explicit request is answered with itself exactly when supported and announced; an automatic one with the first announced preference. |
| Negotiation.NoEncodingMeaning | src/lerobot_coreai/negotiation_algorithm.py:78-94 | Which error is raised without an encoding, for every request. |
| Capabilities.NormalFormIffEquivalent | src/lerobot_coreai/capabilities_normalize.py:172-249 | Equivalent valid payloads (the same up to list order, omitted or explicit defaults and the isolation alias) are normalized or refused alike, and accepted payloads with one normal form are equivalent. |
| Capabilities.SortedUniqueCanonical | src/lerobot_coreai/capabilities_normalize.py:117-123 | Two lists have one sorted form exactly when they have the same elements without duplicates. |
| Capabilities.OutputsAreCanonical | src/lerobot_coreai/capabilities_normalize.py:172-249 | The outputs are exactly the canonical records: strictly sorted lists, valid fields and the conditional contract met. |
| Capabilities.NormalizeIsIdempotent | src/lerobot_coreai/capabilities_normalize.py:172-249 | A canonical record is its own normal form. |
| Capabilities.TypedRoundTrip | src/lerobot_coreai/capabilities_normalize.py:252-283 | Converting to the typed object and back is the identity on the normal form. |
| Capabilities.StringOrderIsTotal | src/lerobot_coreai/capabilities_normalize.py:117-123 | The order the lists are sorted by is a total order on strings. |
| Capabilities.StringOrderMeaning | src/lerobot_coreai/capabilities_normalize.py:117-123 | The order is the dictionary's: a prefix comes first, else the first differing character decides. |
| Capabilities.NormalizesIff | src/lerobot_coreai/capabilities_normalize.py:172-249 | What any payload is normalized to, field by field, exactly: lists in strict order, omitted flags false, an omitted batch size one, the isolation that both names say, and only a record that fits its schema and meets the conditional contract. |
| Capabilities.SchemaRefuses | src/lerobot_coreai/capabilities_normalize.py:172-181 | The strict schema refuses exactly a batch size below one and names outside its vocabularies, spelt out, the isolation alias aside. |
| Capabilities.IsolationMeaning | src/lerobot_coreai/capabilities_normalize.py:211-222 | The isolation under two names resolves exactly to what every given name says, and conflicts exactly when two given names differ. |
| Capabilities.ViolationIsFirst | src/lerobot_coreai/capabilities_normalize.py:225-249 | The violation reported is the first broken rule of the conditional contract. |
| CertificationBundle.VerifyBundle | src/lerobot_coreai/certification_bundle.py:57-98 | Raises exactly when some leaf has no canonical hash or makes its own verifier raise, on the first such leaf; otherwise the errors are exactly the flaws and every root is the hash of its leaf; no error and nothing raised is exactly a bundle that holds. |
| CertificationBundle.HoldsIffFlawless | src/lerobot_coreai/certification_bundle.py:57-98 | A bundle holds exactly when all eleven leaves are there, none raises, and none of the errors the verifier can report is true. |
| CertificationBundle.BundleHoldsMeaning | src/lerobot_coreai/certification_bundle.py:57-98 | A bundle that holds, read off its leaves: all eleven there and hashable, the parity report and the conversion evidence accepted by their verifiers, the feature contract the report names, if any, the one in the bundle, and the model file of the artifact, if any, the converted one. |
| CertificationBundle.LevelMeaning | src/lerobot_coreai/certification_bundle.py:71-81 | A root is on the reverified level exactly when its own verifier can reject a leaf. |
| CertificationBundle.ParityBoundMeaning | src/lerobot_coreai/certification_bundle.py:82-88 | The first cross-binding for every kind of leaf. |
| CertificationBundle.ConversionBoundMeaning | src/lerobot_coreai/certification_bundle.py:89-97 | The second cross-binding for every kind of leaf. |
| CertificationBundle.PassingReportWithoutRoot | src/lerobot_coreai/certification_bundle.py:71-74 | A concrete parity report that is built, verified and truly claims parity, and that makes every bundle with it raise: its reference is zero, so its relative error is infinite. |
| CertificationBundle.ClaimedParityLeafCanonicalIff | src/lerobot_coreai/certification_bundle.py:71-74 | A parity leaf with a true claim can be hashed if and only if every case has a nonzero reference leaf or equal arrays. |
| CertificationBundle.CheckLeaves | src/lerobot_coreai/certification_bundle.py:71-81 | The pass over the keys raises on the first leaf that cannot be hashed or verified, and otherwise derives every root from its leaf and fails exactly the leaves whose own verifier rejects them. |
| CertificationBundle.CrossBind | src/lerobot_coreai/certification_bundle.py:82-97 | The two cross-bindings fail exactly when a leaf of any kind names a root or a model other than the one in the bundle. |
| CertificationBundle.Reverify | src/lerobot_coreai/certification_bundle.py:39-54 | Re-running a leaf's own verifier accepts exactly the leaves that hold, and raises exactly when it does. |
| CanonicalEvidence.ClaimedReportCanonicalIff | src/lerobot_coreai/rollout_evidence_schema.py:39-62 | A certificate-grade parity report with a true claim has a canonical hash if and only if every case has a nonzero reference leaf or equal arrays, although its arrays are finite. |
| CanonicalEvidence.ClaimedEvidenceCanonicalIff | src/lerobot_coreai/rollout_evidence_schema.py:39-62 | The same for conversion evidence with a true claim. |
| CanonicalEvidence.ReportCanonicalMeaning | src/lerobot_coreai/rollout_evidence_schema.py:37-62 | A parity report can be hashed exactly when every float that stands anywhere in it, in metrics or arrays, is finite. |
| CanonicalEvidence.EvidenceCanonicalMeaning | src/lerobot_coreai/rollout_evidence_schema.py:37-62 | The same for conversion evidence. |
| CanonicalEvidence.FiniteMetricsIff | src/lerobot_coreai/processor_parity_metrics.py:84-95 | The metrics of two comparable finite arrays are all finite if and only if the reference has a nonzero leaf or the arrays agree. |
| CanonicalEvidence.ZeroReferenceReport | src/lerobot_coreai/processor_parity.py:128-193 | A concrete report that the builder makes, the verifier accepts and whose claim is true, without canonical hash. |
| OfficialEval.CertifiedIffGenuine | src/lerobot_coreai/official_eval_certificate.py:111-212 | End to end, for any inputs: a matrix of executor runs and a bundle of leaves yield a certificate exactly when the hashes are well formed, the five required cases all ran, exited 0 and echoed the challenge, both reports passed, the first run's command is the official one (the other commands are not looked at), the executable is installed, and the bundle verifies without raising; that certificate claims certification, is test-only, binds eleven roots equal to its leaves' hashes and passes the offline verifier. |
| OfficialEval.MintIffGenuine | src/lerobot_coreai/authority.py:148-191 | A receipt of a run matrix is minted exactly when its hashes and resolution method are valid and the matrix is genuine. |
| OfficialEval.SingleRunMinted | src/lerobot_coreai/authority.py:148-191 | The receipt of a single run is minted exactly when its hashes and resolution method are valid, it invoked the evaluation from an installed path, echoed the challenge in the right environment, exited 0, ran the five cases and both reports passed. |
| OfficialEval.ReceiptSchemaMeaning | src/lerobot_coreai/authority.py:111-143 | The schema of a receipt demands exactly a known resolution method, a path, a command, cases and six content addresses. |
| OfficialEval.VerifyReceipt | src/lerobot_coreai/authority.py:158-191 | Mints exactly the flawless schema-valid receipts, stamped test-only; a refusal names exactly the flaws. |
| OfficialEval.SortKeepsSet | src/lerobot_coreai/official_eval_executor.py:140-166 | Sorting the case names keeps the set of cases. |
| OfficialEval.OfficialArgvIff | src/lerobot_coreai/authority.py:148-155 | A command is official exactly when its first word is lerobot-eval or ends in /lerobot-eval, or -m is one of its words and the evaluation module occurs in the words joined by spaces. |
| OfficialEval.InstalledPathIff | src/lerobot_coreai/authority.py:158-191 | A path counts as installed exactly when it is absolute and has none of the prefixes of temporary directories. |
| OfficialEval.JoinMeaning | src/lerobot_coreai/authority.py:155-155 | The joined text is the words in order with one space between neighbours. |
| OfficialEval.PromotedCertificateHolds | src/lerobot_coreai/official_eval_certificate.py:111-175 | Promoting a certificate-grade receipt with complete roots yields a certifying certificate that the offline verifier accepts. |
| OfficialEval.VerifyCertificate | src/lerobot_coreai/official_eval_certificate.py:178-212 | The offline verifier accepts exactly the certificates that hold, and its errors are exactly the flaws. |
| OfficialEval.AcceptedClaimIffPromotion | src/lerobot_coreai/official_eval_certificate.py:178-212 | What acceptance of a claim means: exactly that the certificate is the promotion of some certificate-grade receipt and a complete set of roots, up to the order of the cases and the fields the verifier does not look at, with the output digest as recomputed. |
| OfficialEval.MadeFromRunsIff | src/lerobot_coreai/official_eval_certificate.py:111-212 | Exactly which certificates come out of genuine runs and a verified bundle: those with an accepted claim that also have the test-only namespace, the fixed scope, sorted distinct cases, the hash of their own command, well-formed digests and roots whose leaves verify as a bundle. |
| OfficialEval.SameEvidenceHolds | src/lerobot_coreai/official_eval_certificate.py:178-212 | The verifier cannot tell apart certificates that differ only in namespace, order of the cases or the rest of the scope. |
| OfficialEval.NamespaceIsNotProtected | src/lerobot_coreai/official_eval_certificate.py:178-212 | Relabelling the namespace, test-only as production for one, never changes the verdict. |
| OfficialEval.RelabelledCertificateAccepted | src/lerobot_coreai/official_eval_certificate.py:111-212 | Genuine runs and a verified bundle exist together, and the test-only certificate they lead to is accepted, claim and all, when relabelled as production. |
| OfficialEval.CommandHashIsNotProtected | src/lerobot_coreai/official_eval_certificate.py:178-212 | Replacing the command hash never changes the verdict, although every certificate made from runs has the hash of its command. |
| OfficialEval.DiagnosticNeverCertifies | src/lerobot_coreai/official_eval_certificate.py:101-175 | A diagnostic report never certifies, and turning its flag on is refused. |

## Left out

- JoinedContracts.NonBreakingPreservesAcceptanceIff: assumes that non-text baseline features sharing a key declare one shape or shapes without symbols; `NonBreakingUnderSymbolsIff` and `NonBreakingForAllSymbolsIff` do not. Transitivity of non-breaking diffs is not claimed: a bound can be dropped and added again tighter.
- Calibration.PercentileWithinSamples: percentiles outside [0, 1] are not modelled.
- ActionStatistics.CalibratedDeltaCoversRecording: assumes finite jump samples, since percentiles are modelled over reals and an interpolation with an infinite sample can be not-a-number. The dominant shape is not part of this model.
- ParityMetrics.CosineBounded: over reals with a true root at the two sums of squares; with float overflow the cosine can become not-a-number and replays need not agree.
- ProcessorParity.HashDeterminesArray: text and boolean leaves of arrays are not modelled, and collisions of the real hash are excluded by construction.
- ProcessorParity.EvaluateArrays: a threshold that names a non-numeric attribute of the metrics raises a type error in the original and fails the case here.
- ModelConversion.VerifyEvidence: schema checks are predicates on the fields the verifier uses.
- PayloadValidation.ValidatePayload: the observed block of the result and the wording of messages are not modelled.
- EpisodeEvents.ValidateEvents: sources, sessions and features are strings or null, a boolean is not an integer, one complaint stands for all missing fields of an event, and each unrecorded feature is its own complaint.
- Negotiation.ParseMeaning: digits and white space are ASCII, while the original's regular expression and `strip` also take other Unicode digits and spaces.
- Negotiation.ParseOfPrint: the limit of current Python versions on converting numerals of more than 4300 digits is not modelled.
- RealEgress.RealEgressGuard.SendAction: traces and hashes of actions are not modelled; the session loop that latches a lost deadman or an adapter error is not part of this model.
- ActionQueues.Policy.SelectNextAction: an exception of the runner itself is not modelled, nor is the best-effort reset of the runner's session.
- ExecutionGraph.Acyclic: the recursion limit of Python is not modelled.
- ExecutionGraph.ValidateExecutionContract: the rule about fewer than one sampling step is kept although the schema makes it unreachable.
- CertificationBundle.VerifyBundle: the fields it compares are strings or absent, and the objects that hold them are objects; quantization parameters of evidence are not modelled, and thresholds are finite.
- OfficialEval.CertifiedIffGenuine: the sealed objects that only the authority can make are plain values produced by its minting function; signatures, trust policies and runtime receipts are not modelled. A root is symbolic and so always the hash of some leaf.
- Capabilities.NormalFormIffEquivalent: payloads whose fields have the wrong JSON type are rejected by a predicate instead of one error per type.
- LiveMetrics.CountShapeChanges: the other summary fields are left out; they are means, and percentiles like those of `Calibration` with p in percent.
- Files, network, subprocesses, command line, markdown and report builders.
- IEEE rounding, overflow and negative zero.
