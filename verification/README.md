# Verification models of the kernel-bench routing and oracle core

These Dafny modules model the parts of the benchmark repository where a mistake would silently pick
the wrong kernel or compare against the wrong numbers, and prove what those parts are for.

* **Route router.** A route captures tensor extents, strides and permutations by name, derives values
  from them and checks constraints. `Matching` is the Python evaluator (unbounded integers, a separate
  dictionary of derived values, numeric checks through `float`). `NativeSelector` is the C++ selector
  (one mutated capture map, checked 64-bit products, truncating division, match / no match /
  unsupported). `Catalog` says which checks the parser produces,
  `Lowering` is the generator between the two. `Parity` proves that native evaluation
  is Python's verdict on the checks the generator keeps, and unsupported exactly when a product the
  route reaches overflows. `SelectionParity` proves exactly when native selection is Python's.
  `RouteMeaning` states entry by entry what captures, derived values and checks mean. `RouteModel`,
  `Permutations`, `Strides`, `Int64` and `Doubles` hold the definitions and the algebra underneath.
* **Shape dictionaries.** `ShapeKeys` and `ShapeCodec` are the encoder, decoder, materializer and
  binding defaults that every generated configuration passes through. `ShapeRoundTrip`,
  `ShapeTheorems` and `ShapeAcceptance` prove the round trip, for tensors with any names, and that
  accepted tensors stay accepted; `ShapeEntries` states which entries the dictionaries hold and which
  inputs are errors.
* **Oracles.** `Q6K`, `Q45K` and `Q81X4` are the quantized block formats with their packers and
  unpackers over bytes; `Scatter` is the strided copy, `Broadcast` the batch broadcasting of the
  matmul, `Rope` the column pairing.
* **Command line.** `FlagText`, `Flags`, `FlagRoundTrip` and `FlagLines` are the flag printer of the execution
  descriptor and the parser of `run-loom-simple`.
* **Regression gate and dispatch.** `RegressionGate` is the comparison with its ten-row window,
  `Dispatch` the folding of a flat grid.

`dafny verify dfyconfig.toml` checks the whole project.

## Where the obvious claim is false

Each of these is proved with the exact condition under which the claim holds and, where that condition is not
a plain test on the data, with an input on which the claim fails.

* Python converts numeric checks to `float`. The two evaluators agree on every numeric check of a
  value exactly when the value survives that conversion (`Lowering.NumericChecksAgreeIffRepresentable`);
  2^53 + 1 is the first that does not (`Lowering.FirstNumericDisagreement`).
* A `multiple_of` of 0, which the catalog parser lets through, raises in Python and rejects natively
  (`Lowering.ZeroDivisorRaisesOnlyInPython`). Python's constraint chain raises exactly when a check it
  reaches reads a number inside its bounds and divides by zero (`Lowering.CheckRaisesIff`,
  `Lowering.ChecksRaiseIff`).
* The generator drops every constraint that names an attribute, so a native match is Python's acceptance
  exactly when Python also accepts the dropped checks (`Parity.NativeRefinesPython`). It accepts one exactly
  when missing attributes are ignored and the check asks nothing more of the captures, or finds it
  (`Parity.DroppedCheckAcceptsIff`); `Parity.DroppedEqualsCheckChangesTheVerdict` is an equals check that
  does ask. Dropping is harmless for all captures exactly when the check is led by an attribute or
  names one capture only (`Parity.DroppingIsHarmlessIffDroppable`).
* On a query without attributes native can select a route that declares attributes, which Python skips
  (`SelectionParity.DeclaringRouteIsSelectedNatively`). When native answers, its answer is Python's exactly
  when its winner declares no attributes, the dropped checks of the winner accept, and no route
  Python reaches divides by zero (`SelectionParity.SelectorsAgree`).
* A native product can overflow in a prefix although the whole product fits
  (`Strides.PrefixMayOverflowThoughProductFits`), but only for the products 0 and -2^63
  (`Strides.ProductFitsIffPrefixesFit`).
* Native evaluation rejects a query with surplus roles that Python accepts
  (`Parity.SurplusRoleIsRejectedNatively`). The two agree exactly unless there are surplus roles and Python
  accepts the tensors under the route's own (`Parity.VerdictsAgreeIffNoSurplus`).
* A derived value may take over the name the rank is read from; then the shape round trip can lose accepted
  tensors (`ShapeAcceptance.ShadowedRankIsLost`). They survive exactly when their rank fits the
  constraint (`ShapeAcceptance.AcceptedTensorsStayAccepted`).
* Routes without a rank constraint lose overrides: the round trip holds exactly when every tensor is a
  contiguous, unpermuted double of the anchor (`ShapeAcceptance.UnconstrainedRoundTripIff`).
* Q4_K and Q5_K packing keeps a block exactly when its fields fit their bit widths
  (`Q45K.Q4SurvivesIff`, `Q45K.Q5SurvivesIff`).
* RoPE pairs write every column once exactly for the rows of `Rope.ColumnsPartitionedIff`.
* The ten-row gate is complete exactly when fewer than ten cases are allowed
  (`RegressionGate.GateIsCompleteIff`); `RegressionGate.GateMissesBehindTenAllowed` builds a missed case.
* Descriptor validation admits configuration values and paths the flag text cannot carry
  (`FlagRoundTrip.PrintedDescriptorsParseBackIff`, `FlagRoundTrip.EmptyConfigValueIsLost`).

## Model

| member | source | states |
|---|---|---|
| `Int64.TruncatedDivision` | native/v2_route_selector/src/selector.cpp:101-119 | C++ division truncates: the quotient and remainder rebuild the dividend, and the remainder is smaller than the divisor and has the dividend's sign |
| `Int64.TruncModZero` | native/v2_route_selector/src/selector.cpp:463-471 | a remainder is zero under C++ truncation exactly when it is zero under Python's floor, for every sign |
| `Int64.CheckedMultiply` | native/v2_route_selector/src/selector.cpp:101-119 | succeeds exactly when the true product fits in 64 bits, then stores it, leaves the result alone otherwise, and forms no overflowing intermediate |
| `Doubles.FloatIsExactWhenRepresentable` | src/ggml_hrx_kernel_bench/routing/v2/matching.py:271-276 | rounding to the nearest binary64 value leaves an integer alone exactly when it is a multiple of the spacing at its magnitude |
| `Doubles.SmallIntegersAreExact` | src/ggml_hrx_kernel_bench/routing/v2/matching.py:271-276 | every integer up to 2^53 in magnitude is exact |
| `Doubles.RoundsToNearestEven` | src/ggml_hrx_kernel_bench/routing/v2/matching.py:271-276 | rounding gives the nearest multiple of the spacing, and of two equally near ones the even one |
| `Doubles.SpacingLeaves53Bits` | src/ggml_hrx_kernel_bench/routing/v2/matching.py:271-276 | the spacing is 1 below 2^53 and leaves 53 significant bits above |
| `Permutations.SortedIsIotaIffPermutation` | src/ggml_hrx_kernel_bench/routing/v2/layout.py:18-34 | Python's sorted test accepts exactly the sequences with every axis in range and no axis twice (pigeonhole) |
| `Permutations.ScanPermutation` | native/v2_route_selector/src/selector.cpp:274-287 | the seen-array scan accepts exactly the same sequences |
| `Permutations.InvertInPlace` | src/ggml_hrx_kernel_bench/routing/v2/layout.py:18-24 | the write-back loop yields, at every axis, the position of that axis in the permutation |
| `Permutations.InverseIsInvolution` | src/ggml_hrx_kernel_bench/routing/v2/layout.py:18-24 | inverting twice gives the permutation back |
| `Permutations.InverseIsTwoSided` | src/ggml_hrx_kernel_bench/routing/v2/layout.py:18-34 | chaining a permutation with its inverse, in either order, is the identity |
| `Permutations.ChainIsAssociative` | src/ggml_hrx_kernel_bench/routing/v2/layout.py:27-34 | chaining is associative and yields permutations |
| `Permutations.InverseOfChain` | src/ggml_hrx_kernel_bench/routing/v2/layout.py:18-34 | the inverse of a chain is the chain of the inverses in reverse order |
| `Permutations.SelectByPermutation` | src/ggml_hrx_kernel_bench/routing/v2/layout.py:45 | selecting by a permutation rearranges the extents, none lost or repeated |
| `Strides.ContiguousStrides` | src/ggml_hrx_kernel_bench/routing/v2/layout.py:9-15 | the running-product loop gives every axis the product of the extents before it |
| `Strides.PermutedContiguousStrides` | src/ggml_hrx_kernel_bench/routing/v2/layout.py:37-50 | None exactly when the lengths differ or the axes are no permutation; otherwise axis p[i] has the product of the permuted extents before i |
| `Strides.ScatterByPermutation` | src/ggml_hrx_kernel_bench/routing/v2/layout.py:47-49 | the write-back result, read in permuted order, is the base values |
| `Strides.CheckedStrides` | native/v2_route_selector/src/selector.cpp:289-303 | succeeds exactly when every running product it needs fits in 64 bits, the skipped last one excluded, and then equals Python's unbounded strides |
| `Strides.StridesSucceedIffTheyFit` | native/v2_route_selector/src/selector.cpp:289-303 | because the last multiplication is skipped, native strides succeed exactly when every stride itself fits |
| `Strides.CheckedProduct` | native/v2_route_selector/src/selector.cpp:325-341 | succeeds exactly when every prefix product fits and then equals the unbounded product |
| `Strides.PrefixMayOverflowThoughProductFits` | native/v2_route_selector/src/selector.cpp:325-341 | extents for which a prefix overflows though the whole product fits, for each of the products 0 and -2^63 |
| `Strides.ProductFitsIffPrefixesFit` | native/v2_route_selector/src/selector.cpp:325-341 | for every other product, the product fits in 64 bits exactly when all its prefixes do |
| `Strides.PositiveProductFitsIffPrefixesFit` | native/v2_route_selector/src/selector.cpp:325-341 | in particular for positive extents |
| `Strides.PermutedLayoutIsDense` | src/ggml_hrx_kernel_bench/routing/v2/layout.py:37-50 | for positive extents and any permutation, index vectors map one to one onto 0..product-1 |
| `Strides.IdentityPermutationIsContiguous` | src/ggml_hrx_kernel_bench/routing/v2/layout.py:9-50 | the identity permutation gives the contiguous strides, which are dense too |
| `RouteModel.ComputedValueFits` | native/v2_route_selector/src/selector.cpp:305-453 | values derived without overflow from 64-bit captures are 64-bit again |
| `Matching.StoreCapture` | src/ggml_hrx_kernel_bench/routing/v2/matching.py:160-169 | a new name is stored, a known one accepted only with an equal value, and the captures change in no other way |
| `Matching.CaptureConcreteTensor` | src/ggml_hrx_kernel_bench/routing/v2/matching.py:172-192 | one tensor's dtype, rank and permutation length are checked and its sizes, strides and permutation (identity when absent) stored |
| `Matching.RouteCaptures` | src/ggml_hrx_kernel_bench/routing/v2/matching.py:385-398 | captures of all descriptors in order, None on a missing role or a conflict |
| `Matching.ComputeValue` | src/ggml_hrx_kernel_bench/routing/v2/matching.py:195-268 | one derived value, resolved values shadowing captures, is the operation's meaning over the merged environment |
| `Matching.Product` | src/ggml_hrx_kernel_bench/routing/v2/matching.py:113-117 | the loop computes the product of all extents |
| `Matching.ResolveValues` | src/ggml_hrx_kernel_bench/routing/v2/matching.py:195-268 | the separate resolved dictionary, merged over the captures, is the environment of resolving the definitions one after the other |
| `Matching.PythonAcceptsTensors` | src/ggml_hrx_kernel_bench/routing/v2/matching.py:465-483 | the verdict is that of captures, derived values and the constraint chain, a zero divisor raising |
| `RouteMeaning.HeadThenTailIsTheVector` | src/ggml_hrx_kernel_bench/routing/v2/matching.py:235-246 | head and tail of a captured vector together are the vector, the head of the asked length or all of it |
| `RouteMeaning.ElementIsTheEntry` | src/ggml_hrx_kernel_bench/routing/v2/matching.py:228-234 | an element is the entry at its index and nothing past the end |
| `RouteMeaning.InverseSendsBack` | src/ggml_hrx_kernel_bench/routing/v2/matching.py:219-227 | the inverse exists exactly for permutations and sends p[i] to i |
| `RouteMeaning.ChainLooksUpFirstInSecond` | src/ggml_hrx_kernel_bench/routing/v2/matching.py:247-256 | chaining needs two permutations of one length and gives second[first[i]] |
| `RouteMeaning.StridesMultiplyUp` | src/ggml_hrx_kernel_bench/routing/v2/layout.py:9-15 | strides start at one and each is the one before times the extent before |
| `RouteMeaning.PermutedStridesMultiplyUp` | src/ggml_hrx_kernel_bench/routing/v2/layout.py:37-50 | axis p[0] has stride one and axis p[i + 1] that of axis p[i] times its extent |
| `RouteMeaning.ProductMultipliesUp` | src/ggml_hrx_kernel_bench/routing/v2/matching.py:113-117 | the empty product is one and one more extent multiplies it |
| `RouteMeaning.OperandsMustBeVectors` | src/ggml_hrx_kernel_bench/routing/v2/matching.py:195-268 | an operation whose source is missing or a scalar rejects the route |
| `RouteMeaning.ValuesAreDerivedInOrder` | src/ggml_hrx_kernel_bench/routing/v2/matching.py:195-268 | definitions are resolved in order over earlier ones, a repeated name being replaced |
| `RouteMeaning.CapturesSucceedIff` | src/ggml_hrx_kernel_bench/routing/v2/matching.py:160-192 | captures succeed exactly when all roles are there and fit their descriptors and no name is claimed for two values, whatever the order |
| `RouteMeaning.CapturesHoldTheTensors` | src/ggml_hrx_kernel_bench/routing/v2/matching.py:172-192 | captures hold each tensor's sizes, strides and permutation, the identity without one, under the descriptor's names |
| `RouteMeaning.RankChecksMean` | src/ggml_hrx_kernel_bench/routing/v2/matching.py:144-157 | rank and length checks bound the length of a vector, inclusively |
| `RouteMeaning.IotaChecksMean` | src/ggml_hrx_kernel_bench/routing/v2/matching.py:279-350 | iota accepts exactly the vectors counting up from zero |
| `RouteMeaning.NumericChecksMean` | src/ggml_hrx_kernel_bench/routing/v2/matching.py:97-110 | bounds are inclusive and multiple_of accepts exactly the multiples, for representable numbers |
| `RouteMeaning.NumericChecksNeedANumber` | src/ggml_hrx_kernel_bench/routing/v2/matching.py:279-350 | a numeric check without a number to read rejects |
| `RouteMeaning.EqualsChecksMean` | src/ggml_hrx_kernel_bench/routing/v2/matching.py:285-299 | equals accepts exactly when one value is bound to all names |
| `RouteMeaning.DividesChecksMean` | src/ggml_hrx_kernel_bench/routing/v2/matching.py:300-311 | divides accepts exactly when all names are vectors and the further ones elementwise multiples of the positive entries of the first |
| `RouteMeaning.LiteralChecksMean` | src/ggml_hrx_kernel_bench/routing/v2/matching.py:319-331 | a literal is compared with the whole capture or the indexed entry |
| `RouteMeaning.MissingNamesReject` | src/ggml_hrx_kernel_bench/routing/v2/matching.py:312-318 | a check on an unbound name rejects unless missing attributes are ignored |
| `RouteMeaning.AllChecksMustAccept` | src/ggml_hrx_kernel_bench/routing/v2/matching.py:353-366 | a list of checks accepts exactly when each does |
| `RouteMeaning.DerivableIff` | native/v2_route_selector/src/selector.cpp:305-453 | native derives strides exactly when all of them fit, products exactly when all prefixes fit, everything else always |
| `NativeSelector.StoreCapture` | native/v2_route_selector/src/selector.cpp:121-128 | store or compare a capture in the mutated map |
| `NativeSelector.CaptureOne` | native/v2_route_selector/src/selector.cpp:226-262 | one descriptor's checks and captures, the same function of tensor and captures as Python's |
| `NativeSelector.CaptureQuery` | native/v2_route_selector/src/selector.cpp:218-264 | captures succeed exactly when the tensor counts agree and every descriptor captures |
| `NativeSelector.ResolveOne` | native/v2_route_selector/src/selector.cpp:305-396 | the one-source operations: no match on a bad operand, unsupported on an overflowing product, else the unbounded value |
| `NativeSelector.ResolveTwo` | native/v2_route_selector/src/selector.cpp:397-447 | chained permutations and permuted strides: operands are rejected before any product is formed |
| `NativeSelector.ResolveValues` | native/v2_route_selector/src/selector.cpp:305-453 | the loop over one shadowing map of 64-bit values, stopping at the first failure |
| `NativeSelector.ScalarAccepts` | native/v2_route_selector/src/selector.cpp:455-471 | bounds and divisibility, with 0 rejecting and the undefined minimum-by-minus-one remainder avoided |
| `NativeSelector.AllEqual` | native/v2_route_selector/src/selector.cpp:474-489 | every name is captured with the first name's value |
| `NativeSelector.DividesAll` | native/v2_route_selector/src/selector.cpp:490-513 | every named vector is as long as the first and elementwise a multiple of its positive entries |
| `NativeSelector.VectorAccepts` | native/v2_route_selector/src/selector.cpp:526-555 | indexed bounds, exact length, rank range and iota on a captured vector |
| `NativeSelector.ConstraintAccepts` | native/v2_route_selector/src/selector.cpp:473-555 | a tagged constraint is evaluated to its meaning over the capture map |
| `NativeSelector.Evaluate` | native/v2_route_selector/src/selector.cpp:557-572 | match, no match or unsupported of one route on one query |
| `NativeSelector.Select` | native/v2_route_selector/src/selector.cpp:576-605 | attributes and unknown operations are unsupported; otherwise the routes are tried in order |
| `Lowering.LiteralChecksAreRefused` | scripts/generate_v2_route_selector.py:134-218 | the generator never inspects literal values, yet refuses every literal check the parser can produce |
| `Lowering.LoweredIff` | scripts/generate_v2_route_selector.py:155-218 | of the checks the parser produces exactly those without literal, with 64-bit integer bounds and divisors, natural indices and lengths and positive rank bounds are lowered |
| `Lowering.LoweringPreservesMeaning` | scripts/generate_v2_route_selector.py:155-218 | a lowered check accepts exactly the captures the Python priority chain accepts, for numbers that survive float conversion |
| `Lowering.NumericChecksAgreeIffRepresentable` | src/ggml_hrx_kernel_bench/routing/v2/matching.py:271-350 | all bounds and divisors give a 64-bit value the same answer in both evaluators exactly when the value is representable |
| `Lowering.FirstNumericDisagreement` | src/ggml_hrx_kernel_bench/routing/v2/matching.py:271-276 | 2^53 + 1 counts as even in Python only, and nothing smaller in magnitude differs |
| `Lowering.CheckRaisesIff` | src/ggml_hrx_kernel_bench/routing/v2/matching.py:97-110 | a check raises exactly when it reads a number, the number is inside its bounds and the divisor is zero |
| `Lowering.ChecksRaiseIff` | src/ggml_hrx_kernel_bench/routing/v2/matching.py:353-366 | the constraint chain raises exactly when some check divides by zero with every earlier check accepting |
| `Lowering.ZeroDivisorRaisesOnlyInPython` | src/ggml_hrx_kernel_bench/routing/v2/catalog.py:468-474 | a check the parser produces on which Python raises and native rejects |
| `Parity.ResolutionAgrees` | native/v2_route_selector/src/selector.cpp:305-453 | native resolution in one map is unsupported exactly when a reached definition overflows; otherwise both fail or both give the same environment |
| `Parity.NativeCaptureAgrees` | native/v2_route_selector/src/selector.cpp:218-264 | native captures equal Python's on queries with exactly the route's roles and fail on all others |
| `Parity.RolesMustMatch` | native/v2_route_selector/src/selector.cpp:222 | a query with other roles is rejected |
| `Parity.KeptAndDropped` | scripts/generate_v2_route_selector.py:221-253 | Python accepts all checks exactly when it accepts the kept ones and the dropped ones |
| `Parity.ConstraintsAgree` | scripts/generate_v2_route_selector.py:249-253 | the lowered constraint list holds exactly when Python accepts every kept check |
| `Parity.DroppedCheckAcceptsIff` | src/ggml_hrx_kernel_bench/routing/v2/matching.py:284-318 | without attributes a dropped check accepts exactly when missing attributes are ignored, it is no divides check, and an equals check led by a capture finds its captures equal |
| `Parity.DroppingIsHarmlessIffDroppable` | scripts/generate_v2_route_selector.py:221-253 | a dropped check accepts in all environments that bind its captures exactly when missing attributes are ignored and it is led by an attribute or names a single capture |
| `Parity.DroppedEqualsCheckChangesTheVerdict` | scripts/generate_v2_route_selector.py:221-253 | an equals check mixing two captures and an attribute is dropped although Python rejects by it |
| `Parity.NativeEvaluatesStripped` | native/v2_route_selector/src/selector.cpp:557-572 | native evaluation of any lowered route is Python's verdict on the route without its attribute checks, unless a reached product overflows |
| `Parity.NativeRefinesPython` | native/v2_route_selector/src/selector.cpp:557-572 | unsupported exactly when a reached product overflows; a match is Python's acceptance exactly when the dropped checks accept too; no match is never an acceptance, and is a raised exception exactly when a reached check divides by zero |
| `Parity.DroppedRouteChecksAcceptIff` | src/ggml_hrx_kernel_bench/routing/v2/matching.py:482 | the dropped checks of a route accept exactly when each finds what it still asks; when attributes are given but empty, only a route without such checks passes |
| `Parity.SelectorAcceptsTensors` | src/ggml_hrx_kernel_bench/routing/v2/matching.py:401-462 | the selector asked about one route refines Python for any tensors, with missing and surplus roles |
| `Parity.VerdictsAgreeIffNoSurplus` | native/v2_route_selector/src/selector.cpp:222 | on all tensors of a query native match is Python's acceptance exactly unless there are surplus roles and Python accepts the route's own |
| `Parity.SurplusRoleIsRejectedNatively` | native/v2_route_selector/src/selector.cpp:222 | a route and a surplus tensor for which Python accepts and native rejects |
| `Parity.SelectionIsFirstDecision` | native/v2_route_selector/src/selector.cpp:576-605 | a match is the first allowed route that matches with all earlier allowed ones rejecting; unsupported is such a first overflowing route; no match means all allowed routes reject |
| `Parity.SelectionIsExact` | native/v2_route_selector/src/selector.cpp:576-605 | on a whole query: unsupported exactly with attributes, an unknown operation or a first overflowing allowed route; otherwise the first matching one, or none |
| `Parity.NarrowerAllowListKeepsWinner` | native/v2_route_selector/src/selector.cpp:208-216 | an allow list narrowed to one still holding the winner keeps the winner |
| `Parity.SingletonAllowListEvaluates` | native/v2_route_selector/src/selector.cpp:208-216 | allowing one route id answers with that route's evaluation |
| `SelectionParity.SelectionRaisesIff` | src/ggml_hrx_kernel_bench/routing/v2/selection.py:304-329 | Python selection raises exactly when a route it reaches divides by zero |
| `SelectionParity.SelectorsAgree` | src/ggml_hrx_kernel_bench/routing/v2/selection.py:304-329 | for any generated table, when native answers, its answer is select_route_query's exactly when the winner declares no attributes, the winner's dropped checks accept, and no route Python reaches divides by zero |
| `SelectionParity.OrdinaryTablesAgree` | src/ggml_hrx_kernel_bench/routing/v2/selection.py:304-329 | on tables without attributes and zero divisors the two always agree when native answers |
| `SelectionParity.DeclaringRouteIsSelectedNatively` | src/ggml_hrx_kernel_bench/routing/v2/matching.py:83-94 | a route declaring an attribute is selected natively on a query without attributes while Python matches nothing |
| `SelectionParity.RejectedRoutesAreNotTaken` | src/ggml_hrx_kernel_bench/routing/v2/selection.py:304-329 | Python takes none of the routes native rejects |
| `SelectionParity.OverflowStopsNative` | native/v2_route_selector/src/selector.cpp:590-601 | native selection is unsupported exactly when the products of a route overflow with no earlier route matching |
| `Text.DecimalRoundTrip` | src/ggml_hrx_kernel_bench/routing/v2/matching.py:567-568 | a printed index parses back to itself |
| `ShapeKeys.RenderIsInjective` | src/ggml_hrx_kernel_bench/routing/v2/layout.py:91-107 | size, stride, permutation and dimension keys never collide, whatever the tensors are called |
| `ShapeKeys.DimensionNames` | src/ggml_hrx_kernel_bench/routing/v2/matching.py:598-605 | the d-digits test recognizes exactly the dimension keys and recovers their index |
| `ShapeCodec.EncodeDimensions` | src/ggml_hrx_kernel_bench/routing/v2/layout.py:91-99 | the loop writes exactly the sizes that differ from the anchor's and the strides that are not contiguous, and raises on a dimension the anchor lacks |
| `ShapeCodec.EncodePermutation` | src/ggml_hrx_kernel_bench/routing/v2/layout.py:106-107 | one entry per axis, in order |
| `ShapeCodec.EncodeRouteShape` | src/ggml_hrx_kernel_bench/routing/v2/layout.py:81-108 | anchor sizes, then each tensor's overrides and its captured, non-identity permutation |
| `ShapeCodec.DecodeShape` | src/ggml_hrx_kernel_bench/routing/v2/layout.py:69-78 | an error exactly on unequal lengths or a repeated name, else the pairs in order |
| `ShapeCodec.ConstraintForCapture` | src/ggml_hrx_kernel_bench/routing/v2/matching.py:521-543 | the last exact length and the tightest rank bounds of all checks on a capture |
| `ShapeCodec.MaterializeDimensions` | src/ggml_hrx_kernel_bench/routing/v2/matching.py:644-659 | a tensor's sizes and strides with its overrides, contiguous by default |
| `ShapeCodec.MaterializeTensors` | src/ggml_hrx_kernel_bench/routing/v2/matching.py:642-676 | every tensor rebuilt in order, with an error on a partly present permutation |
| `ShapeCodec.MaterializeRouteTensors` | src/ggml_hrx_kernel_bench/routing/v2/matching.py:589-676 | the rank from constraint or dictionary, its error cases, and the tensors of that rank or, without a constraint, the shared ones |
| `ShapeCodec.ShapeBindingDefaults` | src/ggml_hrx_kernel_bench/route_query_config.py:139-154 | the defaults of unknown shape keys, in binding order, no key twice |
| `ShapeEntries.KeyNames` | src/ggml_hrx_kernel_bench/routing/v2/layout.py:91-107 | the names of the entries |
| `ShapeEntries.DestinationLeads` | src/ggml_hrx_kernel_bench/routing/v2/layout.py:84-90 | the dictionary starts with the sizes of dst, or without a dst of the route's first tensor, under d0, d1 and so on, and that tensor has no size entries |
| `ShapeEntries.OverridesWherever` | src/ggml_hrx_kernel_bench/routing/v2/layout.py:91-99 | a size is written exactly where it differs from the leading one, a stride exactly where it is not the product of the sizes before |
| `ShapeEntries.PermutationsWherever` | src/ggml_hrx_kernel_bench/routing/v2/layout.py:100-107 | a permutation is written exactly when the route captures it and it is not the identity |
| `ShapeEntries.BoundsAreTightest` | src/ggml_hrx_kernel_bench/routing/v2/matching.py:521-543 | the bounds of a capture are its last exact length, its largest minimum and its smallest maximum |
| `ShapeEntries.FirstBoundedTensorDecides` | src/ggml_hrx_kernel_bench/routing/v2/matching.py:546-553 | a route's rank constraint is that of its first tensor with a bounded capture |
| `ShapeEntries.EveryDefaultIsAdded` | src/ggml_hrx_kernel_bench/route_query_config.py:139-154 | every resolvable binding on an entry not yet there gets its default |
| `ShapeEntries.DecodingFailsIff` | src/ggml_hrx_kernel_bench/routing/v2/layout.py:69-78 | decoding fails exactly on unequal lengths or a repeated name |
| `ShapeEntries.PermutationsAreReadWhole` | src/ggml_hrx_kernel_bench/routing/v2/matching.py:661-670 | a permutation is read when all entries are there, absent when none is, an error in between |
| `ShapeEntries.MaterializationFails` | src/ggml_hrx_kernel_bench/routing/v2/matching.py:619-643 | the error for a rank that is not positive, missing extents, extents out of sequence and ranks out of bounds |
| `ShapeEntries.NoExtentsFail` | src/ggml_hrx_kernel_bench/routing/v2/matching.py:637-641 | without extents the rank is the lower or else the upper bound, which is always an error |
| `ShapeEntries.UnconstrainedFailsIff` | src/ggml_hrx_kernel_bench/routing/v2/matching.py:593-618 | without a rank constraint it fails exactly when d0 is missing or the extents are out of sequence |
| `ShapeTheorems.DefaultOfKey` | src/ggml_hrx_kernel_bench/route_query_config.py:203-232 | the resolver inverts the key printer: a tensor key resolves to that tensor's own size or stride, and to nothing otherwise |
| `ShapeTheorems.BindingDefaultsAreHarmless` | src/ggml_hrx_kernel_bench/route_query_config.py:139-154 | every default added restates a size or stride or is never looked up, under a new name |
| `ShapeTheorems.ShapeRoundTrips` | src/ggml_hrx_kernel_bench/routing/v2/layout.py:69-108 | for a rank-constrained route, encoding, decoding and materializing returns the same sizes and strides, and permutations up to identity, absent and uncaptured ones, with any harmless extra entries |
| `ShapeTheorems.BindingDefaultsChangeNothing` | src/ggml_hrx_kernel_bench/route_query_config.py:139-154 | the round trip is the same with and without the route's binding defaults |
| `ShapeAcceptance.RouteValuesSurvive` | src/ggml_hrx_kernel_bench/routing/v2/matching.py:496-510 | captures and derived values are unchanged by the round trip |
| `ShapeAcceptance.AcceptanceBoundsFinalExtents` | src/ggml_hrx_kernel_bench/routing/v2/matching.py:521-553 | an accepting route bounds the length of what its rank-bounding name finally stands for, shadowed or not |
| `ShapeAcceptance.AcceptanceFixesRank` | src/ggml_hrx_kernel_bench/routing/v2/matching.py:546-553 | accepted tensors fit the rank constraint if that name keeps their rank and, for an exact rank, only if it does |
| `ShapeAcceptance.ConstrainedRoundTripIff` | src/ggml_hrx_kernel_bench/routing/v2/matching.py:589-676 | for a rank-constrained route the round trip gives the tensors back exactly when their rank fits the constraint |
| `ShapeAcceptance.AcceptedTensorsStayAccepted` | src/ggml_hrx_kernel_bench/routing/v2/matching.py:589-676 | tensors a rank-constrained route accepts come back, accepted with the same values, exactly when their rank fits the constraint |
| `ShapeAcceptance.UnshadowedTensorsStayAccepted` | src/ggml_hrx_kernel_bench/routing/v2/matching.py:589-676 | in particular whenever no derived value takes over the rank-bounding name |
| `ShapeAcceptance.ShadowedRankIsLost` | src/ggml_hrx_kernel_bench/routing/v2/matching.py:521-553 | a route that accepts a matrix, takes its rank from a shortened vector of the same name, and loses the matrix |
| `ShapeAcceptance.UnconstrainedRoundTripIff` | src/ggml_hrx_kernel_bench/routing/v2/matching.py:593-618 | without a rank constraint the round trip holds exactly for contiguous, unpermuted tensors of the anchor's sizes |
| `Bytes.ByteRoundTrip` | src/ggml_hrx_kernel_bench/oracles.py:206 | an integer below 256 survives conversion to uint8 and back |
| `Bytes.ByteValues` | src/ggml_hrx_kernel_bench/oracles.py:206 | the conversions are those of the built-in byte |
| `Bytes.BlockOfBuffer` | src/ggml_hrx_kernel_bench/oracles.py:223-227 | block i of a flattened buffer of equal blocks is found at i times the block size |
| `Q6K.OrLow` | src/ggml_hrx_kernel_bench/oracles.py:211-217 | one loop step ORs its nibbles into its 32 bytes of the low plane and touches nothing else |
| `Q6K.OrHigh` | src/ggml_hrx_kernel_bench/oracles.py:218 | one loop step ORs its two-bit fields into its 32 bytes of the high plane and touches nothing else |
| `Q6K.PackPlanes` | src/ggml_hrx_kernel_bench/oracles.py:211-218 | eight steps from zeroed planes leave the OR of all steps' fields in every byte |
| `Q6K.PackBlock` | src/ggml_hrx_kernel_bench/oracles.py:206-227 | the 210 bytes are both planes, the scales and the factor |
| `Q6K.PackBlocks` | src/ggml_hrx_kernel_bench/oracles.py:198-227 | blocks are laid out one after the other |
| `Q6K.UnpackBlock` | src/ggml_hrx_kernel_bench/oracles.py:280-300 | the unpacker's loops read every position's quant and scale byte |
| `Q6K.LowByteHoldsTwoNibbles` | src/ggml_hrx_kernel_bench/oracles.py:211-217 | after all steps a low-plane byte holds exactly the nibbles of its two segments |
| `Q6K.HighByteHoldsFourFields` | src/ggml_hrx_kernel_bench/oracles.py:218 | after all steps a high-plane byte holds exactly the fields of the four segments of its half |
| `Q6K.UnpackingInvertsPacking` | src/ggml_hrx_kernel_bench/oracles.py:280-300 | every quant in [-32, 31] comes back with the one of sixteen scales covering it, and the factor is intact |
| `Q6K.UnpackedBlockIsTheBlock` | src/ggml_hrx_kernel_bench/oracles.py:280-300 | unpacking a packed block returns its 256 quants and, for each, the scale of its run of sixteen |
| `Q6K.PackAndUnpack` | src/ggml_hrx_kernel_bench/oracles.py:206-300 | packing and unpacking, both in their loops, give the block back |
| `Q6K.NibbleLayout` | src/ggml_hrx_kernel_bench/oracles.py:211-217 | in which byte and nibble each quant has its low four bits |
| `Q6K.HighBitLayout` | src/ggml_hrx_kernel_bench/oracles.py:218 | in which byte and at which bits each quant has its two high bits |
| `Q6K.ScaleLayout` | src/ggml_hrx_kernel_bench/oracles.py:223-227 | scales and factor follow the planes, 210 bytes in all |
| `Q6K.UnpackingInvertsPackingOfBuffer` | src/ggml_hrx_kernel_bench/oracles.py:198-300 | the same for every block of a buffer of any number of blocks |
| `Q45K.ScalesSurviveIffSixBits` | src/ggml_hrx_kernel_bench/oracles.py:119-126 | all eight scales and minimums survive the 12-byte packing exactly when they fit in six bits |
| `Q45K.NibblesSurviveIffFourBits` | src/ggml_hrx_kernel_bench/oracles.py:159-163 | the nibble interleaving is undone exactly when every quant fits in four bits |
| `Q45K.FifthBitSurvives` | src/ggml_hrx_kernel_bench/oracles.py:129-132 | each group's fifth bit is read back from the weighted-sum plane |
| `Q45K.PackQ4Block` | src/ggml_hrx_kernel_bench/oracles.py:159-168 | the slice writes produce the two factors, the scales and the nibble pairs |
| `Q45K.PackQ5Block` | src/ggml_hrx_kernel_bench/oracles.py:183-194 | the same with the fifth-bit plane and the low nibbles |
| `Q45K.Q4SurvivesIff` | src/ggml_hrx_kernel_bench/oracles.py:230-250 | a Q4_K block survives packing and unpacking exactly when scales and minimums fit six bits and quants four |
| `Q45K.Q5SurvivesIff` | src/ggml_hrx_kernel_bench/oracles.py:253-277 | a Q5_K block survives packing and unpacking exactly when scales and minimums fit six bits and quants five |
| `Q45K.Q4Layout` | src/ggml_hrx_kernel_bench/oracles.py:119-168 | every byte of a Q4_K block in terms of factor, scales, minimums and quants |
| `Q45K.Q5Layout` | src/ggml_hrx_kernel_bench/oracles.py:183-194 | the same for Q5_K, with low nibbles |
| `Q45K.Q5FifthBitLayout` | src/ggml_hrx_kernel_bench/oracles.py:129-132 | bit g of plane byte j is bit 4 of quant j of group g |
| `Q45K.BlocksOfBuffers` | src/ggml_hrx_kernel_bench/oracles.py:230-277 | every block of a buffer of any number of blocks is found at its offset |
| `Q81X4.SlotsPartitionTheRow` | src/ggml_hrx_kernel_bench/oracles.py:655-665 | header and quant bytes of distinct blocks are disjoint, stay in their 144-byte group, and every byte belongs to exactly one block |
| `Q81X4.PackRow` | src/ggml_hrx_kernel_bench/oracles.py:640-666 | the header and quant writes, in the source's order, leave at every byte its owner's byte, zero for absent tail blocks |
| `Q81X4.RowLayout` | src/ggml_hrx_kernel_bench/oracles.py:655-665 | at which byte of the row each header byte and each quant of a block lies |
| `Q81X4.BlocksCoverColumns` | src/ggml_hrx_kernel_bench/oracles.py:641-644 | a block for every started 32 columns, a 144-byte group for every started four blocks |
| `Q81X4.BlocksReadBack` | src/ggml_hrx_kernel_bench/oracles.py:640-666 | each block is read back from the packed row and absent tail blocks stay zero |
| `Q81X4.RowsReadBack` | src/ggml_hrx_kernel_bench/oracles.py:666 | row r of the flat result starts at r times the row size |
| `Scatter.LinearInBuffer` | src/ggml_hrx_kernel_bench/oracles.py:866-888 | a wrapped index lies inside the buffer sized for the same extents |
| `Scatter.AccessesInBounds` | src/ggml_hrx_kernel_bench/oracles.py:711-720 | every source and destination index lies in its buffer, broadcast wrap and storage case included |
| `Scatter.CopyOracle` | src/ggml_hrx_kernel_bench/oracles.py:714-722 | a cell ends up with the last logical element written there or its initial value |
| `Scatter.ScatterIsCorrect` | src/ggml_hrx_kernel_bench/oracles.py:711-722 | with an injective destination every element lands in its own cell with its cast source and all other cells keep their initial value |
| `Scatter.EveryElementLands` | src/ggml_hrx_kernel_bench/oracles.py:711-722 | every logical index takes the cast source element at the sum of its wrapped coordinates times the source's strides to the same sum over the destination, a storage route wrapping the source at the common extents |
| `Scatter.OtherCellsStay` | src/ggml_hrx_kernel_bench/oracles.py:711-722 | a cell no logical index goes to keeps its initial value |
| `Scatter.LastElementWins` | src/ggml_hrx_kernel_bench/oracles.py:722 | with any destination a cell holds the last element in row-major order that goes there |
| `Scatter.BufferIsTight` | src/ggml_hrx_kernel_bench/oracles.py:866-867 | a buffer ends right behind the last cell its tensor reaches |
| `Scatter.BuffersOfPlan` | src/ggml_hrx_kernel_bench/oracles.py:714-718 | the source buffer is the longer of those for the source's own and the common extents |
| `Scatter.RowMajorInBox` | src/ggml_hrx_kernel_bench/oracles.py:878-888 | every element number is an index of the box, and its rank is the number again |
| `Scatter.RankInvertsRowMajor` | src/ggml_hrx_kernel_bench/oracles.py:878-888 | every index of the box is an element number's index |
| `Scatter.PermutedContiguousTargetIsInjective` | src/ggml_hrx_kernel_bench/oracles.py:711-722 | contiguous destinations, permuted or not, are injective and filled without gaps |
| `Broadcast.LookupsHitIffDivides` | src/ggml_hrx_kernel_bench/oracles.py:2041-2048 | along an axis all slice lookups hit exactly when the source extent divides the destination extent |
| `Broadcast.EachSliceUsedScaleTimes` | src/ggml_hrx_kernel_bench/oracles.py:2041-2048 | then each source slice is read scale times |
| `Broadcast.BroadcastSlices` | src/ggml_hrx_kernel_bench/oracles.py:2034-2048 | the slice loops raise exactly when the divides check rejects; otherwise each destination slice reads the source slice in whose run of scale2 and scale3 it lies, and each slice is used scale2 times scale3 times |
| `Rope.ColumnsPartitionedIff` | src/ggml_hrx_kernel_bench/oracles.py:2496-2541 | normal and NeoX pairs write every column exactly once exactly when the columns are even and, for NeoX, the rotated half is half the row or the rotated dimensions are even and below the row |
| `Rope.RotateRow` | src/ggml_hrx_kernel_bench/oracles.py:2496-2541 | any row: an exception before writing unless all pairs lie in the row, else every column holds the last value written there, all first columns before all second ones, or its initial value |
| `Rope.EveryColumnGetsItsOutput` | src/ggml_hrx_kernel_bench/oracles.py:2496-2541 | on a row the pairs partition every column ends up with the output of the one pair and side it belongs to |
| `Rope.RotatePartitionedRow` | src/ggml_hrx_kernel_bench/oracles.py:2496-2541 | on such a row columns 2p and 2p + 1, or for NeoX p and p + n_dims / 2, hold the first and second rotation of their own values, and all further columns are carried over |
| `Rope.PartitionedRowIsRotated` | src/ggml_hrx_kernel_bench/oracles.py:2496-2541 | the same of any row the writes have gone through |
| `FlagText.Split` | tools/run-loom-simple/run_loom_simple.cpp:35-48 | the loop yields the parts between delimiters |
| `FlagText.JoinRestoresSplit` | tools/run-loom-simple/run_loom_simple.cpp:35-48 | joining the parts with the delimiter restores any string |
| `FlagText.PartsHoldNoDelimiter` | tools/run-loom-simple/run_loom_simple.cpp:35-48 | no part holds the delimiter |
| `FlagText.JoinIsInjective` | src/ggml_hrx_kernel_bench/loom_execution_descriptor.py:1099 | delimiter-free fields are determined by their join |
| `FlagText.FieldsSurviveIff` | src/ggml_hrx_kernel_bench/loom_execution_descriptor.py:1099 | splitting a join gives as many parts as were joined exactly when no field holds the delimiter, and then the fields |
| `FlagText.NamesParse` | tools/run-loom-simple/run_loom_simple.cpp:94-130 | kind and element type names parse back |
| `FlagText.FlagNameParses` | tools/run-loom-simple/run_loom_simple.cpp:831-905 | every flag name is recognized as its flag |
| `Flags.RegisterPositions` | tools/run-loom-simple/run_loom_simple.cpp:319-335 | no duplicate is reported exactly when all scalar and binding positions differ, and the table then tells the outputs |
| `Flags.ValidateInvocation` | tools/run-loom-simple/run_loom_simple.cpp:308-356 | nothing is reported exactly when positions are distinct and every expectation is on a distinct output |
| `Flags.SortAscends` | tools/run-loom-simple/run_loom_simple.cpp:310-317 | sorting orders by position |
| `Flags.ReadArguments` | tools/run-loom-simple/run_loom_simple.cpp:831-911 | the index loop reads flags and values to the state the arguments denote, missing values and unknown flags failing |
| `Flags.ParseArgs` | tools/run-loom-simple/run_loom_simple.cpp:831-921 | an invocation exactly when no flag fails, nothing required is missing and validation passes, with scalars and bindings sorted |
| `Flags.PrepareExecution` | src/ggml_hrx_kernel_bench/loom_execution_descriptor.py:1025-1124 | the printed command in the order the source extends it |
| `FlagRoundTrip.BindingSurvivesIff` | tools/run-loom-simple/run_loom_simple.cpp:170-213 | a printed binding parses back unchanged exactly when its position and element count are in range and its path has no colon, and fails otherwise |
| `FlagRoundTrip.ScalarSurvivesIff` | tools/run-loom-simple/run_loom_simple.cpp:215-245 | the same for scalars with a finite, colon-free value |
| `FlagRoundTrip.ExpectationSurvivesIff` | tools/run-loom-simple/run_loom_simple.cpp:247-287 | the same for expectations with finite, non-negative tolerances |
| `FlagRoundTrip.ConfigSurvivesIff` | tools/run-loom-simple/run_loom_simple.cpp:139-149 | a configuration entry parses back to itself exactly when its key has no equals sign and its value is not empty |
| `FlagRoundTrip.WorkgroupsSurviveIff` | tools/run-loom-simple/run_loom_simple.cpp:151-168 | three positive counts are accepted exactly when each fits size_t |
| `FlagRoundTrip.ParsePairs` | tools/run-loom-simple/run_loom_simple.cpp:831-905 | the argument loop over printed flags applies them in order |
| `FlagRoundTrip.OrderIsUnique` | tools/run-loom-simple/run_loom_simple.cpp:310-317 | with distinct positions there is one ascending order, so an unstable sort gives the same result |
| `FlagRoundTrip.ExpectationsAreOnOutputs` | src/ggml_hrx_kernel_bench/loom_execution_descriptor.py:1105-1120 | printed expectations refer to distinct output bindings |
| `FlagRoundTrip.PrintedDescriptorsParseBackIff` | src/ggml_hrx_kernel_bench/loom_execution_descriptor.py:1041-1124 | for a validated descriptor the parser returns the same scalars, bindings and expectations, sorted by position, exactly when the flag text can carry the descriptor; otherwise it fails or alters a configuration entry |
| `FlagLines.EveryFieldArrives` | src/ggml_hrx_kernel_bench/loom_execution_descriptor.py:1041-1124 | in the parsed invocation every path, name, configuration, scalar, binding and expectation is where it belongs, and tools left out have their defaults |
| `FlagLines.CommandFrame` | src/ggml_hrx_kernel_bench/loom_execution_descriptor.py:1041-1051 | the command starts with kernel, root, target and output behind their flags and ends with the execution switch when asked for |
| `FlagLines.BindingIsSpelled` | src/ggml_hrx_kernel_bench/loom_execution_descriptor.py:1099 | position, kind, element type, element count and path, with colons |
| `FlagLines.ScalarIsSpelled` | src/ggml_hrx_kernel_bench/loom_execution_descriptor.py:1084 | position, element type and value, with colons |
| `FlagLines.ExpectationIsSpelled` | src/ggml_hrx_kernel_bench/loom_execution_descriptor.py:1118 | position, mode, path and tolerances, with colons |
| `FlagLines.WorkgroupsAreSpelled` | src/ggml_hrx_kernel_bench/loom_execution_descriptor.py:1056 | the three counts with commas |
| `FlagLines.Words` | tools/run-loom-simple/run_loom_simple.cpp:94-130 | the names of kinds and element types |
| `FlagLines.FlagWords` | tools/run-loom-simple/run_loom_simple.cpp:846-874 | the names of the path and workgroup flags |
| `FlagLines.MoreFlagWords` | tools/run-loom-simple/run_loom_simple.cpp:880-903 | the names of the switches and of the repeated flags |
| `FlagLines.SwitchesMean` | tools/run-loom-simple/run_loom_simple.cpp:880-884 | emitting alone, or executing, which also emits |
| `FlagLines.UnknownAndUnfinishedFlagsFail` | tools/run-loom-simple/run_loom_simple.cpp:836-911 | an unknown flag or a missing value fails the command line |
| `FlagLines.AcceptedBindingsAreSane` | tools/run-loom-simple/run_loom_simple.cpp:170-213 | what any accepted binding text satisfies |
| `FlagLines.AcceptedScalarsAndExpectationsAreSane` | tools/run-loom-simple/run_loom_simple.cpp:215-287 | what any accepted scalar and expectation satisfies |
| `FlagLines.AcceptedConfigsAreSane` | tools/run-loom-simple/run_loom_simple.cpp:139-149 | an accepted configuration text is its key, an equals sign and its value |
| `FlagLines.AcceptedWorkgroupsArePositive` | tools/run-loom-simple/run_loom_simple.cpp:151-168 | an accepted workgroup count is three positive 64-bit numbers |
| `FlagRoundTrip.AcceptedInvocationsAreOrdered` | tools/run-loom-simple/run_loom_simple.cpp:289-356 | any accepted command line has its required fields, strictly ascending unshared positions, and expectations on distinct outputs |
| `FlagRoundTrip.EmptyConfigValueIsLost` | tools/run-loom-simple/run_loom_simple.cpp:139-149 | a validated descriptor with an empty configuration value is never read back |
| `RegressionGate.CompareMaps` | src/ggml_hrx_kernel_bench/benchmarking/compare.py:128-165 | every baseline case is compared, missing or untimed, exactly one of them, and compared rows carry the exact ratio |
| `RegressionGate.CaseRegressions` | src/ggml_hrx_kernel_bench/benchmarking/compare.py:309-324 | the failure lists exactly the window rows outside the allowed set above the limit, and is reported exactly when there is one |
| `RegressionGate.WorstFirstDescends` | src/ggml_hrx_kernel_bench/benchmarking/compare.py:199 | the window is taken from the worst ratio down |
| `RegressionGate.GateIsCompleteForFewAllowed` | src/ggml_hrx_kernel_bench/benchmarking/compare.py:309-324 | with fewer than ten allowed cases a failure is reported exactly when some compared case outside them exceeds the limit |
| `RegressionGate.GateMissesBehindTenAllowed` | src/ggml_hrx_kernel_bench/benchmarking/compare.py:309-324 | for any ten allowed cases there is a comparison whose violation the window hides |
| `RegressionGate.GateIsCompleteIff` | src/ggml_hrx_kernel_bench/benchmarking/compare.py:284-324 | the gate is complete on all comparisons exactly when fewer than ten cases are allowed |
| `RegressionGate.CompareAndGate` | src/ggml_hrx_kernel_bench/benchmarking/compare.py:128-324 | comparison and gate together, with fewer than ten excused cases: failure exactly when some case timed on both sides is not excused and slower than the baseline by more than the limit |
| `Dispatch.CeilDivIsLeast` | src/ggml_hrx_kernel_bench/routing/v2/matching.py:733-734 | the ceiling quotient is the least count whose multiple covers |
| `Dispatch.FoldingIsTight` | src/ggml_hrx_kernel_bench/routing/v2/matching.py:737-743 | the folded grid covers the work, stays within the cap, has the least possible number of rows, and wastes fewer workgroups than rows |
| `Dispatch.UncappedGridIsFlat` | src/ggml_hrx_kernel_bench/routing/v2/matching.py:737-743 | without a positive cap the grid is one row of the least number of workgroups that cover the total |

## Left out

* Attribute-bearing queries, attribute values and attribute type matching: native answers unsupported, Python compares typed values; only attribute names and missing attributes are modelled.
* Synthetic tensors and route architectures in `select_route_query`: selection is over routes whose tensors are all given.
* Literal check values other than integers and integer lists, and NaN or infinite bounds; the values of such checks never reach the native form.
* `float()` overflow beyond 2^1024, and the `index > INT64_MAX` branches of the selector, which no vector of fewer than 2^63 elements reaches.
* Token normalization of dtypes and operation names, and the text of error messages: tokens are taken as already normalized, errors as their kind.
* JSON and YAML parsing, file access, process calls and generated C++ text: the lowering is modelled up to the descriptor it renders.
* Element, head and tail parameters and source counts: the catalog parser guarantees them, so an operation carries exactly what its kind needs; the native side models wrong source counts.
* Default shapes and the per-axis bounds of `_constraint_for_capture`, which materialization does not use.
* `_shape_binding_value_defaults` and `_shape_binding_attribute_defaults`: covered only as harmless extra entries of `ShapeTheorems.ShapeRoundTrips`.
* Floating-point payloads: scales as half-precision factors, casts, rotations and dot products are opaque bytes or functions; wins, losses, medians and geometric means are not modelled.
* numpy's whole-array slice writes are modelled as loops over their elements, block by block and row by row, since no two blocks or rows share a byte.
* The unpackers stop at the quant, scale and minimum they read; the multiplication that follows is floating point.
* Uint32 intermediates of the scale packing are modelled as bytes, because the result is truncated to a byte and no bit moves down across the byte boundary.
* `strtod` is a parameter of the flag parser: which texts denote finite numbers is left open, and tolerances are reals.
* Descriptor paths are taken as already resolved, and configuration values as already rendered; both are text.
* Time ratios of the regression gate are reals, and the case limit is always set; correctness and geometric-mean failures are not modelled.
* The matmul oracle's row and column writes and the RoPE view strides: only which slices and columns are used.
* Dispatch of launch expressions other than the total-size grid.
* Boolean positions of a descriptor: validation takes `True` for an integer, prints it as a word and the parser refuses it; positions are integers here.
- SelectionParity.SelectorsAgree: is over routes without synthetic tensors and numbers that survive `float()`; `Lowering.NumericChecksAgreeIffRepresentable` is exact for the latter.
- ShapeTheorems.ShapeRoundTrips: asks that axes are named d0, d1 and so on, that all tensors share one rank and that permutations have that length, which acceptance guarantees; the materializer builds no others. For the rank itself `ShapeAcceptance.ConstrainedRoundTripIff` is exact.
