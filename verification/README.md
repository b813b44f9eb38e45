# ParaSpace tooling: a verified model

A Dafny model of the deployment and marketplace tooling of ParaSpace, with proofs of what the tooling is for.
`dafny verify dfyconfig.toml` checks everything.

| file | what it models |
|---|---|
| `Arithmetic.dfy`, `Doubles.dfy` | division, powers of two; IEEE 754 binary64 rounding (to nearest, ties to even), on numbers scaled by a power of two |
| `Mwc.dfy` | the lag-48 multiply-with-carry recurrence as arithmetic on one large number X |
| `Uheprng.dfy` | the generator object: mash, seeding, the circular buffer updated in place, `random`, `randomBytes` |
| `Seeding.dfy` | what seeding computes, in terms of the one text that the hash goes through |
| `RandomRange.dfy` | how `random(range)` spreads its 2^53 numerators over the range, rounding included |
| `Bytes.dfy`, `Merkle.dfy` | the Merkle criteria tree over token ids, its proofs, and the on-chain verifier they are made for |
| `ParaProxy.dfy` | the selector-routing proxy: three storage tables kept in step, add, replace, remove, introspection |
| `Upgrade.dfy`, `UpgradeScripts.dfy` | planning cuts, the collision check, `upgradePool` and `resetPool` against the proxy |
| `Proposals.dfy` | wrapping calls for the timelock, batching, nonces, and decoding the pending proposals |
| `Linker.dfy` | the two library linkers: splicing at offsets and replacing placeholders |
| `Patches.dfy` | what splicing at offsets writes and leaves alone, on any bytecode |
| `Placeholders.dfy`, `PatternLinking.dfy` | what the pattern does to placeholders anywhere, for one library and for all |
| `OffsetLinking.dfy`, `LinkerAgreement.dfy` | which placeholders splicing fills, and exactly when the two linkers agree |
| `Hex.dfy`, `OrderHash.dfy`, `OrderTypes.dfy` | the hand-written Seaport order hash and its type strings against EIP-712's `hashStruct` and `encodeType` from the type table |
| `OrderPlaces.dfy` | the texts behind the order hash, place by place |
| `Executions.dfy` | the executions of a basic order |
| `Deploy.dfy` | deployment with retries and the write-once database |
| `Reserves.dfy` | reserve initialisation: memo tables, parallel lists, chunks, token implementations |
| `Results.dfy`, `Sequences.dfy` | shared datatypes and list functions |

Conventions. A fraction of the generator is stored multiplied by 2^32, and every operation the program performs on
doubles goes through `Doubles.Fl`; that nothing rounds is therefore proved, not assumed. A hash is an arbitrary function
with 32-byte results. Statements about hashes do not assume it injective, which no such function is: the lemma
returns two different texts with equal hashes whenever its conclusion about the data would fail. The proxy's meaning is
`Routing()`, a map from selector to implementation, and a refused update leaves it as it was, as a revert does.
Encodings of libraries (multisend, timelock calls) are functions with the laws in `Proposals.Lawful`.

Where the code falls short of its comments:

* `random` is described as returning an equally probable integer. With range 10 one numerator too few gives 8
  (`EightOutOfTen`). `FairExactlyWhen` says, by arithmetic on range and value, exactly when the count is floor or ceiling
  of 2^53/range; `NearlyFair` and `PowerOfTwoIsUniform` say what always holds. Beyond 2^53 the result is
  still below the range, but some values are never given (`SomeNeverGiven`).
* `calculateOrderHash` writes item and order types in decimal where hexadecimal digits are expected: it is EIP-712's
  hash if all types are below 10, and for other types only if the hash has a collision (`AgreesWithTypedData`;
  `TypeTenDiffers` is an order of type 10, hashed as one of type 16).
* `linkLibraries` hands its libraries object to either linker, but the two read the keys differently: splicing looks up
  the bare library name, the pattern hashes the key, and a compiler's placeholder is the hash of `file:Name`. With
  one object holding any library, the linkers never agree on compiled bytecode unless a bare name hashes like a
  qualified one (`NeverAgree`): with qualified keys splicing changes nothing (`QualifiedKey`), with bare keys, which
  `normalizeLibraryAddresses` makes, the pattern fails (`BareKey`). Each with its own keys, qualified for the
  pattern and the bare ones made from them for splicing, they give the same text if and only if every library is used
  and no placeholder of a library touches another one (`NormalizedAgree`; `LinkersAgree` is the condition for
  any two objects).
* Of two touching placeholders linking by pattern can fail on the second (`TouchingFails`), or, if its library has
  another placeholder elsewhere, succeed and leave damaged bytecode (`TouchingCorrupts`). Linking at offsets does not
  care (`Patches.LinkingFrame`).
* A planned upgrade is refused as a whole if a selector moves to an implementation earlier in the list, or if a selector
  is replaced by the implementation it already has, as happens when an incremental deployment returns the old one
  (`BatchUpgrade`, an if-and-only-if; `OrderMatters` is a batch refused in one order and accepted in the other, `SameImplementationRefused` one that replaces a selector by what it has). An upgrade that names
  one old facet twice never ends as intended (`ListedTwice`).
* Decoding proposals that were not wrapped for the timelock gives them back if and only if none of them is itself a call
  of the timelock with a known selector (`SafeRoundTrip`; `WrappedInSafeMode` is one that does not come back). A single proposal must
  also have data and not be made to multisend (`SingleRoundTrip`).
* The third replacement of `cleanString` never has an effect (`CleanStringHasNoControls`).
* In incremental mode a deployment whose initialisation or verification fails is stored all the same, and the retry
  returns it as a success (`FailureIsForgotten`).
* A seed that is empty once cleaned resets the hash and mixes nothing in (`BlankSeeding`).
* An unseeded generator is live exactly if none of its 48 random numbers is 0 (`Generator.constructor`).

## Model

| member | source | states |
|---|---|---|
| `Mwc.StepInRange` | `helpers/seaport-helpers/seeded-rng.js:114-120` | the product of a draw fits 53 bits, and digits and carry stay in their ranges |
| `Mwc.StepIsModular` | `helpers/seaport-helpers/seeded-rng.js:114-120` | b·X' = X + x0·(a·b^48 − 1): one draw as arithmetic on the number the buffer and carry spell |
| `Mwc.StepIsLehmer` | `helpers/seaport-helpers/seeded-rng.js:114-120` | a draw multiplies X by a·b^47 modulo a·b^48 − 1 |
| `Mwc.RunIsLehmer` | `helpers/seaport-helpers/seeded-rng.js:114-120` | n draws multiply X by the n-th power of that multiplier: the lag-48 generator is a Lehmer generator |
| `Mwc.DrawClosedForm` | `helpers/seaport-helpers/seeded-rng.js:114-120` | closed form of the whole stream: draw n from a power of the multiplier, the modulus and the base |
| `Mwc.StepLive` | `helpers/seaport-helpers/seeded-rng.js:114-120` | 0 < X < a·b^48 − 1 is kept by a draw |
| `Mwc.FixedPoints` | `helpers/seaport-helpers/seeded-rng.js:114-120` | a draw changes nothing exactly at X = 0 and X = a·b^48 − 1 |
| `Mwc.RunLive` | `helpers/seaport-helpers/seeded-rng.js:114-120` | every state of every run from a live state is live |
| `Mwc.PrevUndoesNext` | `helpers/seaport-helpers/seeded-rng.js:114-120` | a draw can be undone, so no two states are merged |
| `Mwc.NextUndoesPrev` | `helpers/seaport-helpers/seeded-rng.js:114-120` | every state in range is the result of a draw from a state in range |
| `Mwc.StateInjective` | `helpers/seaport-helpers/seeded-rng.js:114-120` | buffer and carry are determined by X |
| `Mwc.Recurs` | `helpers/seaport-helpers/seeded-rng.js:114-120` | every live state is reached again after fewer than a·b^48 − 1 draws |
| `Doubles.FlExact` | `helpers/seaport-helpers/seeded-rng.js:119` | numbers of at most 53 bits are not rounded |
| `Doubles.FlMonotone` | `helpers/seaport-helpers/seeded-rng.js:127-131` | rounding keeps the order of numbers |
| `Doubles.FlIsNearest` | `helpers/seaport-helpers/seeded-rng.js:127-131` | a result is the multiple of a power of two that is nearest, in a tie the even one, with 53 bits |
| `Uheprng.CleanStringHasNoControls` | `helpers/seaport-helpers/seeded-rng.js:164-169` | a cleaned string has no control character, so no character code resets the hash; the last replacement has no effect |
| `Uheprng.TrimmedIsMiddle` | `helpers/seaport-helpers/seeded-rng.js:164-169` | trimming leaves what is between the first and the last character that is no space |
| `Uheprng.DropControlsConcat` | `helpers/seaport-helpers/seeded-rng.js:164-169` | control characters are dropped part by part |
| `Uheprng.DropControlsOne` | `helpers/seaport-helpers/seeded-rng.js:164-169` | a single character is kept exactly from 0x20 on |
| `Uheprng.CarryOneIsLive` | `helpers/seaport-helpers/seeded-rng.js:219-226` | whatever the slots hold, carry 1 is clear of both fixed points |
| `Uheprng.RingStep` | `helpers/seaport-helpers/seeded-rng.js:114-120` | overwriting the slot at the advanced phase, wrap included, drops the oldest digit and appends the new one |
| `Uheprng.HexDigitIsTopBits` | `helpers/seaport-helpers/seeded-rng.js:127-132` | random(16) is exactly the top four bits of the first draw |
| `Uheprng.NumeratorIsTopBits` | `helpers/seaport-helpers/seeded-rng.js:127-132` | the numerator of random is the top 53 bits of the two draws put together |
| `Uheprng.Generator.constructor` | `helpers/seaport-helpers/seeded-rng.js:91-107` | an unseeded generator is live exactly if none of its random numbers is 0 |
| `Uheprng.Generator.Mash` | `helpers/seaport-helpers/seeded-rng.js:66-87` | updates the hash state by the data, or resets it when the data is falsy |
| `Uheprng.FalsyData` | `helpers/seaport-helpers/seeded-rng.js:66-87` | falsy are nothing, the empty string and 0: no output, and the hash is reset |
| `Uheprng.Generator.InitState` | `helpers/seaport-helpers/seeded-rng.js:219-226` | resets hash, slots, carry and phase to fixed values |
| `Uheprng.Generator.MixCode` | `helpers/seaport-helpers/seeded-rng.js:177-186` | one character code mixed into all slots without rounding, wrapping at 0 |
| `Uheprng.Generator.HashString` | `helpers/seaport-helpers/seeded-rng.js:173-188` | the cleaned string mixed in, character by character and slot by slot |
| `Uheprng.Generator.Seed` | `helpers/seaport-helpers/seeded-rng.js:190-204` | seeding erases history: hash state, slots, carry and phase are functions of the code units of the seed alone, and the generator is live |
| `Seeding.SeedingIs` | `helpers/seaport-helpers/seeded-rng.js:173-226` | with a cleaned seed that is not empty the hash ends having absorbed 48 spaces, the cleaned text, and each character code 48 times in decimal; slot j is, modulo 2^32, its fill output minus the sum of the outputs at its places in that text |
| `Seeding.BlankSeeding` | `helpers/seaport-helpers/seeded-rng.js:173-226` | a seed that is empty once cleaned is falsy: the hash is reset and the slots stay as filled |
| `Seeding.MixTextLost` | `helpers/seaport-helpers/seeded-rng.js:176-187` | mixing a text in, from any state and slots: what each slot loses is the sum at its places |
| `Seeding.SubWordCongruent` | `helpers/seaport-helpers/seeded-rng.js:181-184` | subtracting fractions and adding 1 below 0 is subtraction modulo 2^32 |
| `Seeding.AbsorbConcat` | `helpers/seaport-helpers/seeded-rng.js:66-87` | texts absorbed one after the other are absorbed as one text |
| `Seeding.DecimalReads` | `helpers/seaport-helpers/seeded-rng.js:70` | a number is absorbed as its decimal digits, without leading zeros |
| `Uheprng.Generator.RawPrng` | `helpers/seaport-helpers/seeded-rng.js:114-120` | the in-place draw is the step on the ring; no double rounds and `t | 0` is the floor |
| `Uheprng.Generator.Random` | `helpers/seaport-helpers/seeded-rng.js:127-132` | two draws, in order, make the numerator; only the product with the range, any whole double, is rounded |
| `Uheprng.Generator.RandomBytes` | `helpers/seaport-helpers/seeded-rng.js:251-253` | 2n digits using 4n steps, each digit the top four bits of every other draw |
| `RandomRange.RandomBelowRange` | `helpers/seaport-helpers/seeded-rng.js:127-132` | rounding never lifts the result to the range, for any range up to 2^53 |
| `RandomRange.RandomBelowAnyRange` | `helpers/seaport-helpers/seeded-rng.js:127-132` | the same for every whole double, however large |
| `RandomRange.SomeNeverGiven` | `helpers/seaport-helpers/seeded-rng.js:127-132` | for a range beyond 2^53 some value below it is given by no numerator |
| `RandomRange.Threshold` | `helpers/seaport-helpers/seeded-rng.js:127-132` | the result reaches v exactly from a computed numerator on |
| `RandomRange.HitCount` | `helpers/seaport-helpers/seeded-rng.js:127-132` | the exact number of numerators that give v |
| `RandomRange.NearlyFair` | `helpers/seaport-helpers/seeded-rng.js:122-132` | every value is hit 2^53/range times, give or take less than two |
| `RandomRange.LiftedReaches` | `helpers/seaport-helpers/seeded-rng.js:127-132` | rounding lifts a result exactly if the product misses the next value by less than half the spacing of the doubles, or by half of it at an odd multiple |
| `RandomRange.FairExactlyWhen` | `helpers/seaport-helpers/seeded-rng.js:122-132` | the count is floor or ceiling of 2^53/range exactly under an arithmetic condition on the two ends of the interval |
| `RandomRange.PowerOfTwoIsUniform` | `helpers/seaport-helpers/seeded-rng.js:122-132` | ranges that are powers of two are exactly uniform |
| `RandomRange.EightOutOfTen` | `helpers/seaport-helpers/seeded-rng.js:122-132` | range 10 is not fair: 8 is hit once less than floor(2^53/10) |
| `RandomRange.SeededRun` | `helpers/seaport-helpers/seeded-rng.js:91-132` | after any seed: always live, never standing still, following the closed form, every state recurring |
| `Merkle.SortedPairInjective` | `helpers/seaport-helpers/criteria.ts:75-87` | a sorted pair determines its two members |
| `Merkle.SortedPairIsNumeric` | `helpers/seaport-helpers/criteria.ts:75-87` | of two words the numerically smaller one comes first |
| `Merkle.ParentOfNode` | `helpers/seaport-helpers/criteria.ts:64-87` | the parent of a node is made from the node and its sibling, on whichever side; an odd node is promoted |
| `Merkle.GetNextLayer` | `helpers/seaport-helpers/criteria.ts:64-73` | the loop builds the layer of ceil(m/2) parents |
| `Merkle.GetLayers` | `helpers/seaport-helpers/criteria.ts:48-62` | terminates with the layers from the hashed leaves to one node; fails exactly on no elements |
| `Merkle.GetHexProof` | `helpers/seaport-helpers/criteria.ts:89-114` | fails exactly on a non-element; otherwise the siblings on the way up, missing ones left out |
| `Merkle.VerifyProof` | `contracts/dependencies/seaport/contracts/lib/CriteriaResolution.sol:243-289` | the contract's loop over the proof accepts exactly if the fold of sorted pair hashes is the root |
| `Merkle.HashPairIsNumeric` | `contracts/dependencies/seaport/contracts/lib/CriteriaResolution.sol:243-289` | the contract hashes the numerically smaller word first |
| `Merkle.ProofReachesRoot` | `helpers/seaport-helpers/criteria.ts:64-114` | from every node of every layer, its proof folds to the root |
| `Merkle.NodeSound` | `helpers/seaport-helpers/criteria.ts:48-87` | whoever reaches any node of any layer from the hash of 32 bytes holds an element, or a collision is returned |
| `Merkle.Soundness` | `helpers/seaport-helpers/criteria.ts:48-87` | a 32-byte leaf verifying against the root with any proof is an element, or a collision is returned |
| `Merkle.Completeness` | `helpers/seaport-helpers/criteria.ts:7-46` | exactly the ids of the list have proofs, and each of them verifies |
| `Merkle.OnlyMembersVerify` | `helpers/seaport-helpers/criteria.ts:7-46` | an id that verifies with any proof is in the list, or a collision is returned |
| `Merkle.ElementsOf` | `helpers/seaport-helpers/criteria.ts:8-14` | the elements are the encoded ids, sorted, each once |
| `Merkle.ElementsIncrease` | `helpers/seaport-helpers/criteria.ts:8-16` | the ids of the elements increase as numbers |
| `Merkle.SortSorts` | `helpers/seaport-helpers/criteria.ts:12` | sorting gives an ascending list of the same members |
| `Merkle.DropRepeatsStrict` | `helpers/seaport-helpers/criteria.ts:13-15` | dropping equal neighbours of a sorted list leaves each member once |
| `Merkle.PositionIndex` | `helpers/seaport-helpers/criteria.ts:17-23` | the index maps each element to its position |
| `Merkle.CollectProofs` | `helpers/seaport-helpers/criteria.ts:30-39` | one proof per element under its id, and the length of the longest |
| `Merkle.MerkleTree` | `helpers/seaport-helpers/criteria.ts:7-46` | root, proofs and maxProofLength of the tree over the elements; fails exactly on the empty list |
| `Merkle.DependsOnSetOnly` | `helpers/seaport-helpers/criteria.ts:7-46` | the whole result is the same for lists with the same ids, whatever their order and repeats |
| `Merkle.MaxProofLengthIsLog` | `helpers/seaport-helpers/criteria.ts:37-39` | maxProofLength is ceil(log2 n), and the smallest element's proof is that long |
| `Merkle.LayerCount` | `helpers/seaport-helpers/criteria.ts:56-59` | the number of layers is the height of the tree plus one |
| `Merkle.SmallRoots` | `helpers/seaport-helpers/criteria.ts:48-87` | the roots over one, two and three elements, written out |
| `Bytes.LeafRoundTrip` | `helpers/seaport-helpers/criteria.ts:9-11` | the 32-byte encoding of an id is decoded to the id |
| `Bytes.LessIsNumeric` | `helpers/seaport-helpers/criteria.ts:12` | texts of one length compare as the numbers they spell |
| `ParaProxy.Proxy.AddFacet` | `contracts/protocol/libraries/paraspace-upgradeability/lib/ParaProxyLib.sol:224-236` | an address without code is refused; otherwise listed, routing unchanged |
| `ParaProxy.Proxy.AddFunction` | `contracts/protocol/libraries/paraspace-upgradeability/lib/ParaProxyLib.sol:238-254` | the three tables stay in step and the selector is routed to the implementation |
| `ParaProxy.Proxy.RemoveFunction` | `contracts/protocol/libraries/paraspace-upgradeability/lib/ParaProxyLib.sol:256-325` | swap-and-pop of selector and address lists, exactly, keeps the tables in step; only the selector leaves the routing |
| `ParaProxy.SelectorAdded` | `contracts/protocol/libraries/paraspace-upgradeability/lib/ParaProxyLib.sol:238-254` | appending a new selector keeps entries and lists pointing at each other |
| `ParaProxy.SelectorRemoved` | `contracts/protocol/libraries/paraspace-upgradeability/lib/ParaProxyLib.sol:270-295` | moving the last selector into the gap keeps entries and lists pointing at each other |
| `ParaProxy.AddressRemoved` | `contracts/protocol/libraries/paraspace-upgradeability/lib/ParaProxyLib.sol:297-324` | moving the last address into the gap keeps address list and positions in step |
| `ParaProxy.Proxy.AddFunctions` | `contracts/protocol/libraries/paraspace-upgradeability/lib/ParaProxyLib.sol:114-153` | accepted exactly if the cut is admissible and all its selectors are free, one after the other |
| `ParaProxy.Proxy.ReplaceFunctions` | `contracts/protocol/libraries/paraspace-upgradeability/lib/ParaProxyLib.sol:155-195` | accepted exactly if each selector is routed elsewhere and not to the proxy |
| `ParaProxy.Proxy.ReplaceFunction` | `contracts/protocol/libraries/paraspace-upgradeability/lib/ParaProxyLib.sol:175-194` | one selector moved to another implementation, refused exactly if absent, its own or the proxy's; tables kept in step |
| `ParaProxy.Proxy.RemoveFunctions` | `contracts/protocol/libraries/paraspace-upgradeability/lib/ParaProxyLib.sol:197-222` | accepted exactly with the zero address and selectors routed, not to the proxy |
| `ParaProxy.Proxy.UpdateImplementation` | `contracts/protocol/libraries/paraspace-upgradeability/lib/ParaProxyLib.sol:78-112` | all cuts in order or no change at all; the storage refines updates of a plain routing map |
| `ParaProxy.Proxy.FacetAddress` | `contracts/protocol/libraries/paraspace-upgradeability/ParaProxyInterfaces.sol:66-73` | the implementation of a selector, zero exactly if there is none |
| `ParaProxy.Proxy.FacetFunctionSelectors` | `contracts/protocol/libraries/paraspace-upgradeability/ParaProxyInterfaces.sol:41-48` | exactly the selectors routed to an implementation, each once |
| `ParaProxy.Proxy.Facets` | `contracts/protocol/libraries/paraspace-upgradeability/ParaProxyInterfaces.sol:20-36` | each implementation in use once, with its selectors, covering the routing, in the order of the storage |
| `ParaProxy.InUse` | `contracts/protocol/libraries/paraspace-upgradeability/lib/ParaProxyLib.sol:132-135` | an implementation has an empty list exactly if nothing is routed to it |
| `Upgrade.PlanImplementation` | `scripts/upgrade/pool.ts:36-61` | remove, replace and add cuts, in this order, empty ones omitted |
| `Upgrade.CutsInOrder` | `scripts/upgrade/pool.ts:36-61` | removals before replacements before additions, none empty, only removals without an implementation |
| `Upgrade.PlanCuts` | `scripts/upgrade/pool.ts:36-82` | the flattened plan of all implementations |
| `Sequences.WithinConcat` | `scripts/upgrade/pool.ts:38-40` | selecting the replaced selectors goes part by part, so it keeps their order |
| `Sequences.WithoutConcat` | `scripts/upgrade/pool.ts:38-40` | the same for the added and the removed ones |
| `Upgrade.RemoveEffect` | `contracts/protocol/libraries/paraspace-upgradeability/lib/ParaProxyLib.sol:197-222` | when the selectors of a Remove cut are accepted, and what they erase |
| `Upgrade.ReplaceEffect` | `contracts/protocol/libraries/paraspace-upgradeability/lib/ParaProxyLib.sol:155-195` | when the selectors of a Replace cut are accepted, and the routing after them |
| `Upgrade.AddEffect` | `contracts/protocol/libraries/paraspace-upgradeability/lib/ParaProxyLib.sol:114-153` | when the selectors of an Add cut are accepted, and the routing after them |
| `Upgrade.CutOutcome` | `contracts/protocol/libraries/paraspace-upgradeability/lib/ParaProxyLib.sol:78-222` | when a whole cut is accepted, and the routing after it: never an empty one, removals without an implementation, the others with one in use or with code |
| `Upgrade.OneImplementation` | `scripts/upgrade/pool.ts:36-61` | the planned cuts are accepted exactly if the lists are acceptable, and then give exactly the intended routing |
| `Upgrade.PlanIsEach` | `scripts/upgrade/pool.ts:36-82` | the flattened plan does what the implementations do one after the other |
| `Upgrade.NextAcceptable` | `scripts/upgrade/pool.ts:174-219` | within a prepared batch the next implementation is accepted exactly if nothing moves backward and its old selectors can be moved |
| `Upgrade.BatchUpgrade` | `scripts/upgrade/pool.ts:36-82` | the batch is accepted exactly if no selector moves backward, is the proxy's own, or is replaced by its own implementation; then the routing is the old one minus all olds plus all news |
| `Upgrade.OrderMatters` | `scripts/upgrade/pool.ts:36-82` | a batch refused in one order and accepted in the other |
| `Upgrade.SameImplementationRefused` | `scripts/upgrade/pool.ts:36-82` | a batch that replaces a selector by the implementation it has is refused |
| `Upgrade.ListedTwice` | `scripts/upgrade/pool.ts:36-82` | with one old selector listed twice the batch is refused or loses a selector it installs |
| `UpgradeScripts.CheckCollisions` | `helpers/contracts-deployments.ts:821-843` | passes exactly if no selector repeats |
| `UpgradeScripts.NoCollisionMeansDisjoint` | `helpers/contracts-deployments.ts:821-843` | no repeat in the concatenation exactly if the lists are repeat-free and pairwise disjoint |
| `UpgradeScripts.GetPoolSignatures` | `helpers/contracts-deployments.ts:788-855` | succeeds exactly if all nine lists are repeat-free and pairwise disjoint, stated also list by list |
| `UpgradeScripts.CollisionMeansTwice` | `helpers/contracts-deployments.ts:788-855` | the check passes exactly if every selector occurs at most once in the nine lists, counted list by list |
| `UpgradeScripts.UpgradeProxyImplementations` | `scripts/upgrade/pool.ts:31-85` | the proxy ends as the plan says, or unchanged |
| `UpgradeScripts.UpgradeOutcome` | `scripts/upgrade/pool.ts:157-220` | for different old facets, in terms of the routing alone: exactly when the proxy accepts, new implementations already in use included, then routing exactly as intended |
| `UpgradeScripts.FacetTwice` | `scripts/upgrade/pool.ts:157-220` | one old facet in use given twice: refused, or not the intended routing |
| `UpgradeScripts.UpgradePool` | `scripts/upgrade/pool.ts:157-220` | the script as a run: refused if the old lists cannot be read; with different old facets accepted exactly under that condition with old facets gone and components installed, or no change; with one given twice never the intended routing; an ordinary upgrade succeeds component by component |
| `UpgradeScripts.OrdinaryUpgradeSucceeds` | `scripts/upgrade/pool.ts:157-220` | with different old facets, each component taking over from its own one alone, the upgrade is accepted; core, marketplace, parameters and ape staking each have their selectors, the other selectors of the old facets are gone, the rest is unchanged |
| `UpgradeScripts.RemoveFacets` | `scripts/upgrade/pool.ts:94-102` | removing whole facets is accepted exactly if none is the proxy itself |
| `UpgradeScripts.FacetRemovals` | `scripts/upgrade/pool.ts:94-102` | one Remove cut with the full list of every facet but one |
| `UpgradeScripts.ResetSelectors` | `scripts/upgrade/pool.ts:87-120` | succeeds exactly if facets() and facetAddress are routed and nothing outside the kept facet to the proxy itself; only that facet is left |
| `UpgradeScripts.InstallOutcome` | `scripts/upgrade/pool.ts:140-154` | installing without superseding is accepted exactly if no selector is routed |
| `UpgradeScripts.ResetPool` | `scripts/upgrade/pool.ts:122-155` | the two-transaction run: what is left and installed, and the state a refused second half leaves; success component by component if nothing is in the way |
| `UpgradeScripts.OrdinaryResetSucceeds` | `scripts/upgrade/pool.ts:122-155` | if the kept facet has none of the components' selectors, the reset succeeds, each component has its selectors and of the rest only the kept facet is left |
| `UpgradeScripts.CheckedResetSucceeds` | `scripts/upgrade/pool.ts:122-155` | with lists that passed the collision check the reset always succeeds and leaves exactly the interface and component selectors |
| `Proposals.UnwrapWrap` | `helpers/contracts-helpers.ts:901-959` | a call wrapped for the timelock is taken apart into the call itself |
| `Proposals.WrapAllCarries` | `helpers/contracts-helpers.ts:1025-1039` | call i is wrapped for the configured operation on its target and data, at the time given for it or else the clock's |
| `Proposals.SelectorTexts` | `helpers/hardhat-constants.ts:277-283` | the three selectors as the text of a call begins with them |
| `Proposals.KnownSelectors` | `helpers/hardhat-constants.ts:272-286` | exactly the thirteen selectors of the table are known |
| `Proposals.HexNumberSnoc` | `tasks/dev/safe.ts:53` | the number that hexadecimal digits spell, digit by digit |
| `Proposals.ProposeSafeTransaction` | `helpers/contracts-helpers.ts:1099-1155` | one proposal at the static nonce plus index, or at the next free nonce; nonce 0 counts as absent |
| `Proposals.FirstNonceIs` | `helpers/contracts-helpers.ts:1117-1126` | a given nonce goes before the configured one, both before the next free one; 0 given counts as none |
| `Proposals.NextNonceIs` | `helpers/contracts-helpers.ts:1125` | the next nonce is the Safe's own or follows a pending one |
| `Proposals.DryRunEncodedData` | `helpers/contracts-helpers.ts:974-1006` | a single call, wrapped or not, as one proposal of its own |
| `Proposals.ProposeMultiSafeTransactions` | `helpers/contracts-helpers.ts:1157-1169` | chunks at consecutive nonces, wherever the first comes from |
| `Proposals.DryRunMultipleEncodedData` | `helpers/contracts-helpers.ts:1025-1050` | all calls, wrapped or not, proposed in order in batches |
| `Proposals.DecodeSafeTxs` | `tasks/dev/safe.ts:25-67` | the reduction collects the calls of the kept proposals in order |
| `Proposals.SortTxsSorts` | `tasks/dev/safe.ts:25-38` | ascending by nonce and date, same members |
| `Proposals.SortedDecode` | `tasks/dev/safe.ts:25-67` | sorting, keeping the last per nonce and concatenating is going through the nonces and taking the latest of each |
| `Proposals.DecodedByNonce` | `tasks/dev/safe.ts:25-67` | the printed list is a function of the set of pending proposals |
| `Proposals.BatchDecodes` | `tasks/dev/safe.ts:25-67` | a new batch replaces what its nonces decoded to and leaves all other nonces alone |
| `Proposals.TimeLockRoundTrip` | `helpers/contracts-helpers.ts:1025-1039` | proposing through the timelock and decoding gives the calls back in order, older proposals at the same nonces notwithstanding |
| `Proposals.SafeRoundTrip` | `helpers/contracts-helpers.ts:1040-1050` | without the timelock the calls come back exactly if none is a timelock call with a known selector |
| `Proposals.SingleTimeLockRoundTrip` | `helpers/contracts-helpers.ts:985-991` | a single call proposed through the timelock comes back, between what lower and higher nonces gave |
| `Proposals.SingleRoundTrip` | `helpers/contracts-helpers.ts:992-993` | a single call proposed as it is comes back exactly if it has data, is not made to multisend and is no timelock call |
| `Proposals.UnwrapChanges` | `tasks/dev/safe.ts:48-62` | the decoder changes exactly the calls of the timelock with a known selector |
| `Proposals.WrappedInSafeMode` | `helpers/contracts-helpers.ts:1040-1050` | a call wrapped by hand and proposed in Safe mode decodes to the call inside |
| `Proposals.ProposeThenDecode` | `helpers/contracts-helpers.ts:1008-1064` | the round trip as a run: the calls between what was pending at lower and at higher nonces; with fresh nonces after everything pending |
| `Sequences.ChunksConcatenate` | `helpers/contracts-helpers.ts:1164` | the chunks concatenate to the list, none empty, none too long, all but the last of full size |
| `Linker.LinkRawLibraries` | `helpers/contracts-helpers.ts:1288-1297` | libraries linked one after the other, the first failure ends it |
| `Linker.EncodedNameIs` | `helpers/contracts-helpers.ts:1270-1277` | a name between dollar signs as it is, of any other one the characters 2 to 35 of its hash |
| `Linker.DropPrefixFirst` | `helpers/contracts-helpers.ts:1269` | the first 0x of an address is dropped, wherever it stands |
| `Linker.MatchLengthIs` | `helpers/contracts-helpers.ts:1279` | a match is one or more underscores, the name between dollar signs, and one or more underscores, both runs whole; there is one exactly if its length is positive |
| `Linker.OccursSomewhere` | `helpers/contracts-helpers.ts:1280-1284` | the pattern is found exactly if it matches at some position |
| `Linker.LinkLibraries` | `helpers/contracts-helpers.ts:1299-1342` | splicing by references where recorded, by pattern otherwise |
| `Linker.SpliceInto` | `helpers/contracts-helpers.ts:1327-1332` | all fixups of one library in order |
| `Patches.LinkingFrame` | `helpers/contracts-helpers.ts:1310-1337` | on any bytecode with fitting, disjoint fixups: length kept, every fixup of a supplied library holds its address, every other character unchanged, linking again changes nothing |
| `Patches.PatchMember` | `helpers/contracts-helpers.ts:1316-1325` | what is written is exactly the recorded fixups of supplied libraries with their addresses |
| `Patches.OrderIrrelevant` | `helpers/contracts-helpers.ts:1310-1337` | no order matters: of references, of fixups inside a reference, of libraries |
| `Placeholders.ReplaceTears` | `helpers/contracts-helpers.ts:1278-1285` | what replacing the pattern does to placeholders anywhere, touching or damaged, and when the pattern is found |
| `Placeholders.TearLength` | `helpers/contracts-helpers.ts:1278-1285` | replacing never lengthens, and shortens exactly where a placeholder found touches another |
| `PatternLinking.ReplaceFills` | `helpers/contracts-helpers.ts:1264-1286` | the pattern is found exactly if its library has a placeholder, and fills exactly these where none touches another |
| `PatternLinking.RawLinkedExactly` | `helpers/contracts-helpers.ts:1288-1297` | linking by pattern succeeds at the original length exactly if every library is used and no supplied placeholder touches another; then it fills every placeholder of the libraries |
| `OffsetLinking.SplicedFills` | `helpers/contracts-helpers.ts:1310-1337` | on compiled bytecode splicing fills exactly the placeholders of libraries found by bare name, touching or not, whatever was filled before |
| `LinkerAgreement.LinkersAgree` | `helpers/contracts-helpers.ts:1264-1342` | on compiled bytecode the two linkers, each with its own object, give the same text if and only if every library is used, none of their placeholders touches another, and both find the same address, or none, for every reference |
| `LinkerAgreement.NeverAgree` | `helpers/contracts-helpers.ts:1264-1342` | with one object for both and any library in it they never agree on compiled bytecode, unless a bare name hashes like a qualified one |
| `LinkerAgreement.QualifiedKey` | `helpers/contracts-helpers.ts:1271-1325` | with a qualified key the pattern fills the placeholder and splicing changes nothing |
| `LinkerAgreement.BareKey` | `helpers/contracts-helpers.ts:1271-1325` | with a bare key splicing fills the placeholder and the pattern fails |
| `LinkerAgreement.LookupNormalized` | `helpers/contracts-helpers.ts:413-423` | under a bare name stands the last library with that name after the last colon |
| `LinkerAgreement.NormalizedAgree` | `helpers/contracts-helpers.ts:413-423` | with qualified keys for the pattern and their normalized form for splicing the linkers agree if and only if every library is used and no placeholder of one touches another |
| `PatternLinking.LibrariesReordered` | `helpers/contracts-helpers.ts:1288-1297` | where placeholders are apart the order of the libraries changes neither success nor text |
| `PatternLinking.TouchingFails` | `helpers/contracts-helpers.ts:1278-1285` | of two touching placeholders alone the second cannot be linked by pattern any more |
| `PatternLinking.TouchingCorrupts` | `helpers/contracts-helpers.ts:1278-1285` | with another placeholder elsewhere linking succeeds and leaves the damaged one in the bytecode |
| `OrderHash.HandWrittenIsReread` | `helpers/seaport-helpers/encoding.ts:210-304` | the hand-written hash is hashStruct of the order with decimal types read as hexadecimal |
| `OrderPlaces.HandWrittenPlaces` | `helpers/seaport-helpers/encoding.ts:210-304` | what is hashed, 64 digits by 64 digits, for each item, each list and the order: type hash and members, each at its place |
| `OrderPlaces.HashStructPlaces` | `helpers/seaport-helpers/eip-712-types/order.js:1-30` | the same for hashStruct |
| `OrderHash.RereadSame` | `helpers/seaport-helpers/encoding.ts:233` | that rereading changes nothing exactly if all types are below 10 |
| `OrderHash.AgreesWithTypedData` | `helpers/seaport-helpers/encoding.ts:210-304` | equals hashStruct if all types are below 10; if not, equality is a collision |
| `OrderHash.TypeTenDiffers` | `helpers/seaport-helpers/encoding.ts:210-304` | an order of type 10 is hashed as one of type 16 |
| `OrderHash.HashItemInjective` | `helpers/seaport-helpers/eip-712-types/order.js:15-28` | items with equal hashStruct are equal, or a collision is returned |
| `OrderHash.ArrayInjective` | `helpers/seaport-helpers/encoding.ts:225-249` | item lists of any length with equal hash are equal, or a collision is returned |
| `OrderHash.HashStructInjective` | `helpers/seaport-helpers/eip-712-types/order.js:1-30` | orders with equal hashStruct are equal, or a collision is returned |
| `OrderHash.OrderHashInjective` | `helpers/seaport-helpers/encoding.ts:210-304` | orders with equal hand-written hash are equal, or a collision is returned |
| `OrderTypes.TypeHashesAgree` | `helpers/seaport-helpers/encoding.ts:211-223` | so the three type hashes are those of the table |
| `OrderTypes.TypeStringsAgree` | `helpers/seaport-helpers/encoding.ts:211-217` | the three type strings written by hand, as flat text, are encodeType of the table, referenced structs sorted by name |
| `OrderTypes.OrderHashIsTyped` | `helpers/seaport-helpers/encoding.ts:210-304` | hash and type hashes together: EIP-712 by the table, for types below 10 |
| `Hex.PadHexString` | `helpers/seaport-helpers/encoding.ts:235-238` | toHexString, cut and padded, is the 64-digit form of a 256-bit number |
| `Hex.DecimalReread` | `helpers/seaport-helpers/encoding.ts:233` | decimal digits read as hexadecimal are the same number exactly below 10, and larger from 10 on |
| `Hex.DecimalReads` | `helpers/seaport-helpers/encoding.ts:233` | types are written in decimal digits, without leading zeros |
| `Hex.JoinInjective` | `helpers/seaport-helpers/encoding.ts:225-249` | joined 64-digit parts can be told apart again |
| `Hex.JoinAt` | `helpers/seaport-helpers/encoding.ts:225-249` | part k of joined 64-digit parts is the k-th 64 digits |
| `Executions.GetBasicOrderExecutions` | `helpers/seaport-helpers/encoding.ts:306-354` | one execution more than considerations, each given in full; fails exactly without an offer or a consideration |
| `Executions.ExecutionFields` | `helpers/seaport-helpers/encoding.ts:306-354` | each execution, field by field: type, token, identifier, recipient, payer and conduit key |
| `Executions.Conservation` | `helpers/seaport-helpers/encoding.ts:306-354` | part by part: the offerer side sums to the offered end amount, the fulfiller side to the first consideration and the other extras |
| `Executions.AccountsConserve` | `helpers/seaport-helpers/encoding.ts:306-354` | by the offerer field: the offerer pays exactly the offered end amount, another fulfiller the first consideration and the extras of other types |
| `Deploy.Attempt` | `helpers/contracts-helpers.ts:456-501` | one attempt on the database: entry kept, written before initialisation, other entries untouched |
| `Deploy.Retry` | `helpers/contracts-helpers.ts:425-437` | retries after failures until the limit; the answer is that of the last attempt |
| `Deploy.WithSaveAndVerify` | `helpers/contracts-helpers.ts:439-502` | at most max(1, limit) attempts, the first success or the last error |
| `Deploy.StoredOrAnew` | `helpers/contracts-helpers.ts:456-461` | the stored address is returned exactly in incremental mode and if it is not zero; otherwise the attempt goes as without that mode |
| `Deploy.DeploysAnew` | `helpers/contracts-helpers.ts:439-502` | without incremental mode every attempt deploys anew: the answer is the first good deployment, the entry the last address deployed, good or not |
| `Deploy.NeverGood` | `helpers/contracts-helpers.ts:425-437` | if nothing goes well exactly max(1, limit) attempts are made |
| `Deploy.FailureIsForgotten` | `helpers/contracts-helpers.ts:439-502` | in incremental mode a deployment whose initialisation or verification failed is returned as a success by the retry |
| `Deploy.UsableStays` | `helpers/contracts-helpers.ts:456-461` | in incremental mode a usable entry survives any number of attempts |
| `Deploy.WriteOnce` | `helpers/contracts-helpers.ts:456-481` | over any interleaving of incremental runs for any contracts, with any failures, a usable address of any contract stays |
| `Deploy.DeployContract` | `helpers/contracts-helpers.ts:439-502` | the call as a step of the whole database |
| `Deploy.OneAddress` | `helpers/contracts-helpers.ts:425-502` | in a history of incremental runs all successful runs for a contract return the address of the first, at once |
| `Reserves.StrategyTable.constructor` | `helpers/init-helpers.ts:111-113` | the memo tables start empty |
| `Reserves.StrategyTable.Resolve` | `helpers/init-helpers.ts:210-237` | a name not seen yet gets the zero address, the default, or one deployment; no name is deployed twice |
| `Reserves.MemoIsDirect` | `helpers/init-helpers.ts:210-237` | if names determine strategies the table holds what deploying each strategy would give |
| `Reserves.Implementations.Obtain` | `helpers/init-helpers.ts:391-641` | the implementation of a kind: not empty, of that kind, shared by all its tokens, deployed at most once |
| `Reserves.XTokenKinds` | `helpers/init-helpers.ts:398-641` | which tokens get which implementation, read from the implementation |
| `Reserves.DebtKinds` | `helpers/init-helpers.ts:398-641` | the same for debt tokens |
| `Reserves.TypesOfImpls` | `helpers/init-helpers.ts:320-338` | which implementation identifiers make a token delegation aware, non-fungible or generic |
| `Reserves.ResolveReserve` | `helpers/init-helpers.ts:210-305` | the three addresses recorded for an asset are those of its own strategies |
| `Reserves.CollectReserves` | `helpers/init-helpers.ts:172-343` | entry k of every parallel list comes from the k-th reserve whose token is set |
| `Reserves.KeptPositions` | `helpers/init-helpers.ts:172-178` | the kept reserves are exactly those with a token, in their order |
| `Reserves.BuildInputs` | `helpers/init-helpers.ts:345-369` | input k takes all its fields, names included, from entry k of the lists and from its symbol's data |
| `Reserves.LabelsInParts` | `helpers/init-helpers.ts:358-367` | names and symbols part by part: prefix, separator, asset name |
| `Reserves.SlicesConcatenate` | `helpers/misc-utils.ts:265-274` | the reduction cuts a list into consecutive chunks that concatenate to it |
| `Reserves.FillChunk` | `helpers/init-helpers.ts:388-650` | every input of a chunk leaves with both implementations, its other fields unchanged |
| `Reserves.FillChunks` | `helpers/init-helpers.ts:381-650` | the same over all chunks, order and sizes kept |
| `Reserves.InitReserves` | `helpers/init-helpers.ts:172-650` | one complete input, every field of it, for each kept reserve, in order, in chunks of four, the last possibly shorter |
| `Reserves.OwnStrategies` | `helpers/init-helpers.ts:210-305` | the memoised initialisation refines the unmemoised one: each input has its own strategies' addresses |

## Left out

- Uheprng.MashCore: the floating-point body of mash is an arbitrary deterministic function of hash state and character with 32-bit outputs.
- Uheprng.Generator.Seed: string seeds only; other seeds go through JSON, and a missing seed through Math.random.
- Uheprng.Generator.constructor: the 48 random numbers are a parameter; addEntropy, done, random.random, floatBetween, intBetween and string are not modelled.
- Uheprng.Generator.Random: the range is a whole number that a double holds; fractional and negative ranges are not modelled.
- Merkle.MerkleTree: the tree works on words and ids; hexadecimal texts of nodes and decimal keys of proofs are not modelled, nor ids of 2^256 and more.
- Merkle.VerifyProof: reads the contract's scratch space as a pair of words; the revert is the value false.
- ParaProxy.Proxy.UpdateImplementation: the owner check, the event, the initialisation call (the scripts pass none) and the truncation of positions to 96 bits are not modelled; a revert is the value false with the storage restored.
- ParaProxy.Proxy.Facets: facetAddresses and supportsInterface are not modelled.
- UpgradeScripts.UpgradePool: deploying the components and DRY_RUN proposals; which selectors a contract has is a parameter, and the introspection selectors are taken to be routed to the introspection functions.
- UpgradeScripts.CheckedResetSucceeds: assumes that the kept facet routes interface functions only, which the proxy's own deployment settles.
- Proposals.DryRunMultipleEncodedData: the Safe modes only; signing, estimating and posting are not modelled, and the timelock's answers used for logging are dropped. The clock is a parameter.
- Proposals.UnwrapWrap: timelock signatures are named rather than spelled, and decoding a call is a function even where the library would throw on malformed data.
- Proposals.SortTxsSorts: proposals with equal nonce and date are excluded, since the comparator orders them arbitrarily.
- Proposals.NextNonce: stands for the service's next nonce, one above the highest pending one and at least the Safe's own.
- Linker.LinkRawLibraries: library names are matched literally, so names with characters special to regular expressions are outside; failures carry the library name instead of the whole message. Addresses with dollar signs, special in a replacement text, do not occur.
- LinkerAgreement.LinkersAgree: bytecode is digits and placeholders of 40 characters, and different references have different placeholders; underscores and dollar signs outside placeholders are not modelled.
- OrderHash.AgreesWithTypedData: numbers are BigNumbers; toHex on strings keeps state between calls and is left out.
- Deploy.WithSaveAndVerify: the database entry is the address alone; the gas, verification service and log lines of a deployment are not modelled.
- Reserves.InitReserves: constructor arguments, the auxiliary contracts deployed for ape coins, and the transactions that submit the chunks are not modelled; the inputs of a chunk are values, not shared objects.
- Flashbots, Etherscan, Tenderly, Defender and console work, market configurations, and the one-line deployment wrappers.
