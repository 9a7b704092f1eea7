# Likelihood caches of two RevBayes tree distributions, modelled in Dafny

RevBayes evaluates the probability of character data on a phylogeny with
two engines that share a caching protocol.

The **pruning engine** (`AbstractSiteHomogeneousCharEvoModel`) compresses an
alignment into distinct site patterns. It keeps two partial-likelihood
buffers per node in one flat array, addressed by `activeLikelihoodOffset`,
`nodeOffset` and `siteOffset`. It fills them post-order with Felsenstein's
pruning algorithm and sums the log likelihood at the root.

The **state-dependent speciation-extinction engine**
(`StateDependentSpeciationExtinctionProcess`) checks that a tree is
admissible. It integrates a pair of extinction and speciation vectors per
branch, merges them at internal nodes, optionally rescales them, and weights
the root vector by the root frequencies. It also assembles the SIMMAP text of
a sampled character history.

Both engines keep, per node, a `dirty` flag, a `changed` latch and an
`active` buffer index. Their protocol works like this:
- A tree-change event flags the node and its path to the root, swapping each
  buffer once.
- `touch` flags every node.
- `keep` clears the flags.
- `restore` clears them and swaps every latched buffer back.
- `computeLnProbability` recomputes the dirty nodes only.

The amino-acid character (`AminoAcidState`) is a set of twenty flags parsed
from a one-letter code.

The model is organised by module:
- `TreeArena` (tree.dfy) is the tree, an arena of nodes with parent and child
  indices.
- `DirtyCache` (dirty_cache.dfy) is the protocol, as functions on the flags.
- The pruning engine is `SitePatterns`, `SiteData`, `PatternCompression`,
  `StateBits`, `BufferLayout`, `Pruning`, `PruningData`, `CacheFrames` and the
  class `PruningEngine.SiteHomogeneousCharEvoModel`.
- The speciation-extinction engine is `SseVectors`, `SseValidity`,
  `SseModel`, `SseCache`, `SseInvariants`, `Simmap` and the class
  `SseEngine.StateDependentSpeciationExtinctionProcess`.
- The amino-acid character is `AminoAcid`.

The engines are classes whose fields are the source's fields:
- The pruning buffer is an `array<real>`.
- The speciation-extinction vectors are `seq` fields that the methods
  reassign.

Each method is proved against a function of the inputs. For a node,
"holds" means its active buffer equals that function. The cache invariant
has two parts:
- dirtiness is closed towards the root;
- every clean node other than the root holds.

Doubles are modelled as `real`. The natural logarithm and the ODE integrator
are function-valued parameters.

## Model

Paths are relative to the repository root. `H` below is
`src/core/distributions/phylogenetics/substitution/AbstractSiteHomogeneousCharEvoModel.h`,
`C` is `src/core/distributions/phylogenetics/tree/birthdeath/StateDependentSpeciationExtinctionProcess.cpp`
and `A` is `src/core/datatypes/phylogenetics/AminoAcidState.cpp` (the table
spells them out).

| member | source | states |
|---|---|---|
| DirtyCache.FlagDirtyExact | src/core/distributions/phylogenetics/substitution/AbstractSiteHomogeneousCharEvoModel.h:622-648 | Under the invariant, flagging node i changes exactly the clean nodes on the path from i to the root: each becomes dirty and latched, with its buffer swapped unless it was latched. Every other node is unchanged. |
| DirtyCache.FlagDirtyMarksPath | src/core/distributions/phylogenetics/substitution/AbstractSiteHomogeneousCharEvoModel.h:622-648 | After flagging i, a node is dirty iff it was dirty before or lies on the path from i to the root. |
| DirtyCache.FlagDirtyKeepsClosed | src/core/distributions/phylogenetics/substitution/AbstractSiteHomogeneousCharEvoModel.h:622-648 | Flagging keeps every dirty node's parent dirty. |
| DirtyCache.FlagDirtyIdempotent | src/core/distributions/phylogenetics/substitution/AbstractSiteHomogeneousCharEvoModel.h:628-646 | Flagging the same node twice is the same as flagging it once. |
| DirtyCache.FlagDirtySwapsOnce | src/core/distributions/phylogenetics/substitution/AbstractSiteHomogeneousCharEvoModel.h:640-644 | A buffer is swapped only on a node that was not latched. The node is latched afterwards. Latches and dirty flags are never cleared by flagging. |
| DirtyCache.FlagDirtyTracks | src/core/distributions/phylogenetics/substitution/AbstractSiteHomogeneousCharEvoModel.h:640-644 | Flagging keeps the rule that a node's buffer is the one chosen at the last keep or restore, swapped iff the node is latched. |
| DirtyCache.FlagDirtyLatches | src/core/distributions/phylogenetics/substitution/AbstractSiteHomogeneousCharEvoModel.h:637-644 | Flagging keeps every dirty node latched. |
| DirtyCache.TouchAllEffect | src/core/distributions/phylogenetics/substitution/AbstractSiteHomogeneousCharEvoModel.h:829-845 | A touch leaves every node dirty and latched, with its buffer swapped iff it was not latched. |
| DirtyCache.TouchAllTracks | src/core/distributions/phylogenetics/substitution/AbstractSiteHomogeneousCharEvoModel.h:837-844 | A touch keeps the buffer-swapped-iff-latched rule. |
| DirtyCache.TouchAllClosed | src/core/distributions/phylogenetics/substitution/AbstractSiteHomogeneousCharEvoModel.h:831-834 | After a touch the dirty flags are closed towards the root. |
| DirtyCache.KeepStartsProposal | src/core/distributions/phylogenetics/substitution/AbstractSiteHomogeneousCharEvoModel.h:604-617 | Keep leaves the buffers alone and clears every dirty flag and every latch. The buffers it leaves become the base that restore returns to. |
| DirtyCache.RestoreUndoes | src/core/distributions/phylogenetics/substitution/AbstractSiteHomogeneousCharEvoModel.h:707-729 | When the flags follow a base, restore gives back exactly the base buffers, with every flag and latch cleared. |
| DirtyCache.RestoreAbsorbsFlag | src/core/distributions/phylogenetics/substitution/AbstractSiteHomogeneousCharEvoModel.h:707-729 | Under the invariant, a restore after a tree-change event gives the same flags as a restore without it. |
| DirtyCache.TouchAbsorbsFlag | src/core/distributions/phylogenetics/substitution/AbstractSiteHomogeneousCharEvoModel.h:826-847 | A touch after a tree-change event gives the same flags as a touch without it. |
| DirtyCache.RunTracks | src/core/distributions/phylogenetics/substitution/AbstractSiteHomogeneousCharEvoModel.h:622-648 | Any sequence of tree-change events and touches keeps both the closure invariant and the buffer-swapped-iff-latched rule. |
| DirtyCache.ProposalRollback | src/core/distributions/phylogenetics/substitution/AbstractSiteHomogeneousCharEvoModel.h:604-729 | After a keep, any sequence of tree changes and touches followed by a restore gives back the flags the keep left. |
| DirtyCache.CleanTopCleanBelow | src/core/distributions/phylogenetics/substitution/AbstractSiteHomogeneousCharEvoModel.h:563-589 | Under the invariant, a clean node has a clean subtree, so the recursion may stop at a clean node. |
| DirtyCache.CleanRootCleanTree | src/core/distributions/phylogenetics/substitution/AbstractSiteHomogeneousCharEvoModel.h:324-342 | Under the invariant, a clean root means that no node is dirty. |
| DirtyCache.AllClear | src/core/distributions/phylogenetics/substitution/AbstractSiteHomogeneousCharEvoModel.h:607-615 | The flag-clearing loop of keep and restore yields n cleared flags. |
| BufferLayout.OffsetInBuffer | src/core/distributions/phylogenetics/substitution/AbstractSiteHomogeneousCharEvoModel.h:305-310 | Address b·activeLikelihoodOffset + n·nodeOffset + p·siteOffset + c lies inside the buffer of 2·nodes·patterns·chars entries for every in-range (buffer, node, pattern, character). |
| BufferLayout.OffsetInjective | src/core/distributions/phylogenetics/substitution/AbstractSiteHomogeneousCharEvoModel.h:148-150 | Two in-range addresses that are equal have the same buffer, node, pattern and character, so no two entries alias. |
| StateBits.ObservedStateSum | src/core/distributions/phylogenetics/substitution/AbstractSiteHomogeneousCharEvoModel.h:526-542 | Shifting the observed-state mask right bit by bit adds exactly the transition probabilities of the states in the mask. |
| StateBits.GapSum | src/core/distributions/phylogenetics/substitution/AbstractSiteHomogeneousCharEvoModel.h:488-499 | The gap loop returns the sum of the whole matrix row. |
| StateBits.TipSum | src/core/distributions/phylogenetics/substitution/AbstractSiteHomogeneousCharEvoModel.h:476-548 | A tip entry is the row sum for a gap and the masked row sum for an observed state set. |
| StateBits.GapIsFullSet | src/core/distributions/phylogenetics/substitution/AbstractSiteHomogeneousCharEvoModel.h:476-548 | A gap gives the same tip entry as an observation with every state in the mask. |
| StateBits.AllStatesSum | src/core/distributions/phylogenetics/substitution/AbstractSiteHomogeneousCharEvoModel.h:526-542 | A mask with every state of the row set sums the whole row. |
| StateBits.DecodeOneHot | src/core/distributions/phylogenetics/substitution/AbstractSiteHomogeneousCharEvoModel.h:765-773 | Shifting a non-empty state set right until only 1 is left counts the position of its highest set bit. For a one-hot set that is exactly the index of its state. |
| SitePatterns.DistinctIsDistinct | src/core/distributions/phylogenetics/substitution/AbstractSiteHomogeneousCharEvoModel.h:240-263 | No pattern is recorded twice. |
| SitePatterns.NumPatterns | src/core/distributions/phylogenetics/substitution/AbstractSiteHomogeneousCharEvoModel.h:256-259 | The number of patterns equals the number of distinct site keys. |
| SitePatterns.FirstsMeaning | src/core/distributions/phylogenetics/substitution/AbstractSiteHomogeneousCharEvoModel.h:248-262 | The kept sites are in increasing order, and kept site p has the p-th pattern's key. A site is kept iff no earlier site has its key. |
| SitePatterns.CountsMeaning | src/core/distributions/phylogenetics/substitution/AbstractSiteHomogeneousCharEvoModel.h:240-253 | The count of pattern p is the number of sites whose key is that pattern's key. |
| SitePatterns.CountsSum | src/core/distributions/phylogenetics/substitution/AbstractSiteHomogeneousCharEvoModel.h:245-253 | The pattern counts add up to the number of sites. |
| SitePatterns.CountsPositive | src/core/distributions/phylogenetics/substitution/AbstractSiteHomogeneousCharEvoModel.h:245-253 | Every pattern count is at least 1. |
| SitePatterns.WeightedEqualsSiteSum | src/core/distributions/phylogenetics/substitution/AbstractSiteHomogeneousCharEvoModel.h:221-265 | When a site's value depends only on its key, the count-weighted sum over patterns equals the sum over all sites. |
| SitePatterns.UncompressedIsSiteSum | src/core/distributions/phylogenetics/substitution/AbstractSiteHomogeneousCharEvoModel.h:266-271 | Without compression (every count 1, one pattern per site) the weighted sum is the plain site sum. |
| SiteData.KeyPrefixSymbols | src/core/distributions/phylogenetics/substitution/AbstractSiteHomogeneousCharEvoModel.h:229-238 | When every cell prints as one symbol, character t of a site key is tip t's symbol at that site. |
| SiteData.KeyDeterminesColumn | src/core/distributions/phylogenetics/substitution/AbstractSiteHomogeneousCharEvoModel.h:229-249 | When every cell prints as one symbol, two sites with the same key have identical columns. Merging them into one pattern is therefore sound. |
| SiteData.AmbiguousKeys | src/core/distributions/phylogenetics/substitution/AbstractSiteHomogeneousCharEvoModel.h:229-238 | When cells print as strings of different lengths, two different columns can build the same key by concatenation. |
| PatternCompression.SiteKey | src/core/distributions/phylogenetics/substitution/AbstractSiteHomogeneousCharEvoModel.h:229-238 | The pattern string built for a site is the concatenation of the tips' strings in node order, i.e. the site's key. |
| PatternCompression.RecordKey | src/core/distributions/phylogenetics/substitution/AbstractSiteHomogeneousCharEvoModel.h:240-263 | A key already in the map bumps its pattern's count. A new key appends count 1 and is mapped to the next pattern index. The map keeps sending every recorded key to its pattern index. |
| PatternCompression.FindPatterns | src/core/distributions/phylogenetics/substitution/AbstractSiteHomogeneousCharEvoModel.h:221-265 | The site loop returns the count of every distinct key in order of first appearance. It flags a site unique iff it is the first with its key. |
| PatternCompression.FlaggedFirsts | src/core/distributions/phylogenetics/substitution/AbstractSiteHomogeneousCharEvoModel.h:255-290 | The sites flagged unique are exactly the first occurrences of the patterns, in order. |
| PatternCompression.FlaggedAll | src/core/distributions/phylogenetics/substitution/AbstractSiteHomogeneousCharEvoModel.h:266-271 | Without compression every site is flagged, and pattern s is site s. |
| PatternCompression.SelectSites | src/core/distributions/phylogenetics/substitution/AbstractSiteHomogeneousCharEvoModel.h:284-299 | A tip's state and gap rows are its column restricted to the flagged sites, in order. |
| PatternCompression.TipColumns | src/core/distributions/phylogenetics/substitution/AbstractSiteHomogeneousCharEvoModel.h:275-301 | Every tip's rows of charMatrix and gapMatrix hold the tip's states and gap flags at the kept sites. |
| PatternCompression.CompressData | src/core/distributions/phylogenetics/substitution/AbstractSiteHomogeneousCharEvoModel.h:207-301 | Both branches of compress produce the pattern counts, the number of patterns and the tip matrices defined by the alignment and the compression setting. |
| Pruning.PartialDependsOnSubtree | src/core/distributions/phylogenetics/substitution/AbstractSiteHomogeneousCharEvoModel.h:560-590 | A node's partial likelihood at a pattern depends only on the matrices and tip columns inside its subtree. |
| Pruning.PartialUnaffected | src/core/distributions/phylogenetics/substitution/AbstractSiteHomogeneousCharEvoModel.h:595-600 | A new transition matrix on node n leaves the partial likelihood of every node whose subtree avoids n unchanged. |
| Pruning.BranchChangeKeepsCoherence | src/core/distributions/phylogenetics/substitution/AbstractSiteHomogeneousCharEvoModel.h:595-648 | After a branch's matrix changes and its path is flagged, every clean node still holds its partial likelihood for the new matrices. |
| Pruning.BranchChangeKeepsInvariant | src/core/distributions/phylogenetics/substitution/AbstractSiteHomogeneousCharEvoModel.h:595-648 | A tree-change event keeps the full cache invariant and leaves the root dirty. |
| Pruning.KeepKeepsInvariant | src/core/distributions/phylogenetics/substitution/AbstractSiteHomogeneousCharEvoModel.h:604-617 | A keep after a computation (root clean) keeps the cache invariant with every node clean. |
| Pruning.TouchKeepsInvariant | src/core/distributions/phylogenetics/substitution/AbstractSiteHomogeneousCharEvoModel.h:826-847 | A touch by another parameter keeps the cache invariant, whatever the new inputs, and leaves the root dirty. |
| Pruning.KeepRecordsCache | src/core/distributions/phylogenetics/substitution/AbstractSiteHomogeneousCharEvoModel.h:604-617 | A keep at a computed cache records a restore point: the inputs, the active buffers and the log probability of that moment, with every non-root node holding. |
| Pruning.KeptFlagStep | src/core/distributions/phylogenetics/substitution/AbstractSiteHomogeneousCharEvoModel.h:595-648 | Flagging a node dirty keeps the restore point: the latch bits still track the kept buffers and nothing is written. |
| Pruning.KeptTouchStep | src/core/distributions/phylogenetics/substitution/AbstractSiteHomogeneousCharEvoModel.h:826-847 | Flagging and latching every node keeps the restore point. |
| Pruning.RestoreReturnsToKeep | src/core/distributions/phylogenetics/substitution/AbstractSiteHomogeneousCharEvoModel.h:707-729 | A restore from a state that keeps a restore point makes the kept buffers active again, with every flag clear and every node holding for the kept inputs. |
| CacheFrames.RootFillFrame | src/core/distributions/phylogenetics/substitution/AbstractSiteHomogeneousCharEvoModel.h:324-337 | Filling the two subtrees of the root writes only the active blocks of nodes that were dirty. |
| CacheFrames.KeptSlotsSurvive | src/core/distributions/phylogenetics/substitution/AbstractSiteHomogeneousCharEvoModel.h:324-340 | A recomputation that writes only dirty nodes' active blocks leaves the restore point intact. |
| PruningData.PatternIsItsSite | src/core/distributions/phylogenetics/substitution/AbstractSiteHomogeneousCharEvoModel.h:284-299 | The root likelihood of compressed pattern p equals that of the site it was taken from, computed without compression. |
| PruningData.SameColumnsSameRoot | src/core/distributions/phylogenetics/substitution/AbstractSiteHomogeneousCharEvoModel.h:365-388 | Patterns whose tip columns agree have the same root likelihood. |
| PruningData.CompressionKeepsLnProb | src/core/distributions/phylogenetics/substitution/AbstractSiteHomogeneousCharEvoModel.h:207-312 | When every cell prints as one symbol, the count-weighted log probability of the compressed data equals that of the uncompressed data, which is the plain per-site sum. |
| PruningData.UnweightedRootSumDependsOnCompression | src/core/distributions/phylogenetics/substitution/AbstractSiteHomogeneousCharEvoModel.h:365-388 | On a two-tip tree with two identical sites, the root sum as written (one log term per pattern) gives different values with and without compression. The count-weighted sum agrees with the uncompressed one. |
| PruningEngine.SiteHomogeneousCharEvoModel.constructor | src/core/distributions/phylogenetics/substitution/AbstractSiteHomogeneousCharEvoModel.h:128-151 | Every node starts dirty, unlatched, on buffer 0, with one pattern per site, and the buffer and offsets sized for the tree. |
| PruningEngine.SiteHomogeneousCharEvoModel.SetValue | src/core/distributions/phylogenetics/substitution/AbstractSiteHomogeneousCharEvoModel.h:733-739 | Storing an alignment compresses it: patterns, counts, tip matrices, buffer and offsets are those of the new alignment. |
| PruningEngine.SiteHomogeneousCharEvoModel.Compress | src/core/distributions/phylogenetics/substitution/AbstractSiteHomogeneousCharEvoModel.h:207-312 | The fields hold the compressed data of the alignment. The buffer is reallocated to 2·nodes·patterns·chars entries, with offsets nodes·patterns·chars, patterns·chars and chars. |
| PruningEngine.SiteHomogeneousCharEvoModel.RecursivelyFlagNodeDirty | src/core/distributions/phylogenetics/substitution/AbstractSiteHomogeneousCharEvoModel.h:622-648 | The flags become those of flagging the node, as stated by the DirtyCache lemmas. |
| PruningEngine.SiteHomogeneousCharEvoModel.FireTreeChangeEvent | src/core/distributions/phylogenetics/substitution/AbstractSiteHomogeneousCharEvoModel.h:595-600 | With the node's new matrix in place and its path flagged, the cache invariant still holds and the root is dirty. The buffers and values saved by the last keep still hold, so a later restore returns to them. |
| PruningEngine.SiteHomogeneousCharEvoModel.KeepSpecialization | src/core/distributions/phylogenetics/substitution/AbstractSiteHomogeneousCharEvoModel.h:604-617 | The flags become Keep of the old flags. When the cache was computed and consistent, it stays consistent, and its inputs, active buffers and log probability are recorded as the point a restore returns to. |
| PruningEngine.SiteHomogeneousCharEvoModel.RestoreSpecialization | src/core/distributions/phylogenetics/substitution/AbstractSiteHomogeneousCharEvoModel.h:707-729 | The flags become Restore of the old flags and the restored matrices and frequencies are in place. After a keep, the active buffers are those of the keep. When the restored values are the kept ones, every node holds its partial likelihoods again. When the cached log probability is still the kept one, the whole cache is consistent. The cached log probability itself is left unchanged. |
| PruningEngine.SiteHomogeneousCharEvoModel.TouchSpecialization | src/core/distributions/phylogenetics/substitution/AbstractSiteHomogeneousCharEvoModel.h:826-847 | A touch by the tree changes nothing. A touch by any other parameter flags and latches every node and keeps the cache consistent. The point saved by the last keep survives. |
| PruningEngine.SiteHomogeneousCharEvoModel.ComputeTipLikelihood | src/core/distributions/phylogenetics/substitution/AbstractSiteHomogeneousCharEvoModel.h:450-555 | The tip's active block holds its partial likelihoods at every pattern. Nothing else in the buffer changes. |
| PruningEngine.SiteHomogeneousCharEvoModel.ComputeTipPattern | src/core/distributions/phylogenetics/substitution/AbstractSiteHomogeneousCharEvoModel.h:476-548 | One pattern's row of the tip's active block holds its partial likelihoods. Nothing else changes. |
| PruningEngine.SiteHomogeneousCharEvoModel.ComputeInternalNodeLikelihood | src/core/distributions/phylogenetics/substitution/AbstractSiteHomogeneousCharEvoModel.h:394-446 | When both children hold, the node's active block holds its partial likelihoods. Nothing else in the buffer changes. |
| PruningEngine.SiteHomogeneousCharEvoModel.ComputeInternalPattern | src/core/distributions/phylogenetics/substitution/AbstractSiteHomogeneousCharEvoModel.h:411-444 | One pattern's row of the node's active block becomes the matrix-weighted product of the children's rows. Nothing else changes. |
| PruningEngine.SiteHomogeneousCharEvoModel.FillLikelihoodVector | src/core/distributions/phylogenetics/substitution/AbstractSiteHomogeneousCharEvoModel.h:560-590 | Afterwards every node of the subtree holds and its dirty flags are cleared. Only the active blocks of the subtree's dirty nodes changed. |
| PruningEngine.SiteHomogeneousCharEvoModel.ComputeRootLikelihood | src/core/distributions/phylogenetics/substitution/AbstractSiteHomogeneousCharEvoModel.h:347-390 | lnProb is the count-weighted sum over patterns of log Σ f·L·R at the root. This is the corrected form; see Findings. |
| PruningEngine.SiteHomogeneousCharEvoModel.ComputeLnProbability | src/core/distributions/phylogenetics/substitution/AbstractSiteHomogeneousCharEvoModel.h:315-343 | When the root is dirty or the cache consistent, returns the log probability of the current data and leaves every node clean and the cache consistent. The point saved by the last keep survives the recomputation. A clean root returns the cached value without touching the buffer. With one symbol per cell the result equals the per-site sum over the uncompressed alignment. |
| PruningEngine.SiteHomogeneousCharEvoModel.AsWrittenAgrees | src/core/distributions/phylogenetics/substitution/AbstractSiteHomogeneousCharEvoModel.h:365-388 | The weighted log probability of the compressed data equals the unweighted sum over the uncompressed sites. |
| PruningEngine.RootLnLikelihood | src/core/distributions/phylogenetics/substitution/AbstractSiteHomogeneousCharEvoModel.h:358-388 | Walking both children's rows one siteOffset at a time yields the count-weighted sum of log root likelihoods. |
| PruningEngine.RootSum | src/core/distributions/phylogenetics/substitution/AbstractSiteHomogeneousCharEvoModel.h:368-382 | The inner root loop returns Σ f[s]·L[s]·R[s] for one pattern. |
| PruningEngine.TransitionDot | src/core/distributions/phylogenetics/substitution/AbstractSiteHomogeneousCharEvoModel.h:421-434 | The terminal-state loop returns Σ P[c1][c2]·L[c2]·R[c2]. |
| PruningEngine.FillTipRow | src/core/distributions/phylogenetics/substitution/AbstractSiteHomogeneousCharEvoModel.h:476-548 | The row of one pattern becomes the tip row for the observed set or gap. Nothing else in the array changes. |
| PruningEngine.FillCombinedRow | src/core/distributions/phylogenetics/substitution/AbstractSiteHomogeneousCharEvoModel.h:415-440 | The row of one pattern becomes the children's rows combined through the matrix. Nothing else in the array changes. |
| AminoAcid.ToUpper | src/core/datatypes/phylogenetics/AminoAcidState.cpp:71 | Maps each of a–z to the letter 32 code points below it, in A–Z, and leaves every other character alone. |
| AminoAcid.LastSet | src/core/datatypes/phylogenetics/AminoAcidState.cpp:112-119 | Returns the index of a set flag, or -1 iff none is set. |
| AminoAcid.LabelsDistinct | src/core/datatypes/phylogenetics/AminoAcidState.cpp:21 | The twenty labels are distinct upper-case letters. |
| AminoAcid.AminoAcidState.Default | src/core/datatypes/phylogenetics/AminoAcidState.cpp:27-30 | The default state is the parse of 'n', with at least one flag set. |
| AminoAcid.AminoAcidState.Copy | src/core/datatypes/phylogenetics/AminoAcidState.cpp:34-37 | The copy has the same flags, so it is well formed when the original is. |
| AminoAcid.AminoAcidState.FromChar | src/core/datatypes/phylogenetics/AminoAcidState.cpp:41-44 | The state is the parse of the character, with at least one flag set. |
| AminoAcid.AminoAcidState.Equals | src/core/datatypes/phylogenetics/AminoAcidState.cpp:48-57 | True iff all twenty flags agree. |
| AminoAcid.AminoAcidState.NotEquals | src/core/datatypes/phylogenetics/AminoAcidState.cpp:61-64 | True iff some flag differs. |
| AminoAcid.AminoAcidState.AddState | src/core/datatypes/phylogenetics/AminoAcidState.cpp:68-89 | Adds the flag of the matching label (case-insensitive). With no match it sets every flag. |
| AminoAcid.AminoAcidState.SetState | src/core/datatypes/phylogenetics/AminoAcidState.cpp:142-148 | Clears all flags, then adds the character; at least one flag is then set. |
| AminoAcid.AminoAcidState.GetState | src/core/datatypes/phylogenetics/AminoAcidState.cpp:108-123 | Returns '?' when several flags are set, otherwise the label of the one set flag. |
| AminoAcid.SetStateMatches | src/core/datatypes/phylogenetics/AminoAcidState.cpp:71-80 | A character matching label i (in either case) sets flag i and no other. |
| AminoAcid.AddStateMonotone | src/core/datatypes/phylogenetics/AminoAcidState.cpp:68-89 | Adding never clears a flag. For a label it sets exactly the old flags plus that label's flag. |
| AminoAcid.NoMatchIsAmbiguous | src/core/datatypes/phylogenetics/AminoAcidState.cpp:84-88 | A character that is no label ('?', '-' or '*', say) sets all twenty flags and reads back as '?'. |
| AminoAcid.SetStateIsValid | src/core/datatypes/phylogenetics/AminoAcidState.cpp:142-148 | After setState at least one flag is set. |
| AminoAcid.GetStateMeaning | src/core/datatypes/phylogenetics/AminoAcidState.cpp:108-123 | getState is '?' iff more than one flag is set, and otherwise the label of a set flag. |
| AminoAcid.RoundTrip | src/core/datatypes/phylogenetics/AminoAcidState.cpp:21-148 | Parsing a label in either case and reading it back gives the upper-case label, with exactly one flag set. |
| AminoAcid.ParseOfGetState | src/core/datatypes/phylogenetics/AminoAcidState.cpp:108-148 | For an unambiguous state, parsing getState's character gives back the same flags. |
| AminoAcid.DefaultIsN | src/core/datatypes/phylogenetics/AminoAcidState.cpp:27-30 | 'n' is asparagine: the default state is unambiguous and reads back as 'N'. |
| SseVectors.SumEvents | src/core/distributions/phylogenetics/tree/birthdeath/StateDependentSpeciationExtinctionProcess.cpp:318-329 | The event-map loop returns Σ rate·L[ns+j]·R[ns+k] over the events whose ancestor state is i. |
| SseVectors.MergeDescendants | src/core/distributions/phylogenetics/tree/birthdeath/StateDependentSpeciationExtinctionProcess.cpp:311-338 | The merge keeps the left child's extinction entries. Each speciation entry is the cladogenetic sum, or the product of the children's entries times the speciation rate at a speciation node. |
| SseVectors.TipLikelihood | src/core/distributions/phylogenetics/tree/birthdeath/StateDependentSpeciationExtinctionProcess.cpp:261-274 | A tip's extinction entries are the extinction values. Its speciation entries are the sampling values for allowed states (all states when missing or a gap) and 0 otherwise. |
| SseVectors.ClampNegatives | src/core/distributions/phylogenetics/tree/birthdeath/StateDependentSpeciationExtinctionProcess.cpp:2415-2427 | Negative entries become 0 and every other entry is kept. |
| SseVectors.ClampProjects | src/core/distributions/phylogenetics/tree/birthdeath/StateDependentSpeciationExtinctionProcess.cpp:2415-2427 | The clamp yields non-negative entries, keeps non-negative ones, and clamping twice equals clamping once. |
| SseVectors.FindMaxSpeciation | src/core/distributions/phylogenetics/tree/birthdeath/StateDependentSpeciationExtinctionProcess.cpp:392-399 | The loop returns the maximum of 0 and the speciation entries. |
| SseVectors.MaxPrefixIsMax | src/core/distributions/phylogenetics/tree/birthdeath/StateDependentSpeciationExtinctionProcess.cpp:392-399 | That maximum bounds every speciation entry and is 0 or one of them. |
| SseVectors.DivideSpeciation | src/core/distributions/phylogenetics/tree/birthdeath/StateDependentSpeciationExtinctionProcess.cpp:402-405 | Only the speciation entries are divided. |
| SseVectors.RescaleSpeciation | src/core/distributions/phylogenetics/tree/birthdeath/StateDependentSpeciationExtinctionProcess.cpp:389-407 | Returns the rescaled vector and the log of max·numStates. |
| SseVectors.RescaledMeaning | src/core/distributions/phylogenetics/tree/birthdeath/StateDependentSpeciationExtinctionProcess.cpp:389-407 | With a positive maximum, rescaling is exact: entry times divisor gives back the entry. Extinction entries are unchanged, every speciation entry is at most 1/numStates, and the largest one equals it. |
| SseVectors.SumRootProbability | src/core/distributions/phylogenetics/tree/birthdeath/StateDependentSpeciationExtinctionProcess.cpp:537-543 | The loop returns Σ freq[i]·v[ns+i]. |
| SseVectors.CalculateTotalSpeciationRatePerState | src/core/distributions/phylogenetics/tree/birthdeath/StateDependentSpeciationExtinctionProcess.cpp:1811-1837 | Per ancestor state: the sum of the rates of its cladogenetic events, or the anagenetic speciation rate. |
| SseVectors.DiagonalEventsAgree | src/core/distributions/phylogenetics/tree/birthdeath/StateDependentSpeciationExtinctionProcess.cpp:294-337 | An event map with only the events (i → i, i) at rate λ[i] gives the same merge and the same total rates as the speciation rates λ. |
| SseVectors.CladoSumBounded | src/core/distributions/phylogenetics/tree/birthdeath/StateDependentSpeciationExtinctionProcess.cpp:318-329 | With child entries in [0, 1], the cladogenetic sum lies between 0 and the state's total speciation rate. |
| SseVectors.GapIsFullObservation | src/core/distributions/phylogenetics/tree/birthdeath/StateDependentSpeciationExtinctionProcess.cpp:258-269 | A missing or gap tip starts like a tip that allows every state. |
| SseVectors.AmbiguousTipIsSumOfSingles | src/core/distributions/phylogenetics/tree/birthdeath/StateDependentSpeciationExtinctionProcess.cpp:251-274 | A tip allowing every state starts with the sum over the single-state tips' speciation entries. |
| SseValidity.CheckChronology | src/core/distributions/phylogenetics/tree/birthdeath/StateDependentSpeciationExtinctionProcess.cpp:129-148 | Accepts iff no non-root node is older than its parent. |
| SseValidity.CheckSampledAncestors | src/core/distributions/phylogenetics/tree/birthdeath/StateDependentSpeciationExtinctionProcess.cpp:151-169 | Accepts iff every sampled ancestor is a fossil with zero branch length. |
| SseValidity.CheckRootChildren | src/core/distributions/phylogenetics/tree/birthdeath/StateDependentSpeciationExtinctionProcess.cpp:195-203 | Accepts iff neither root child is older than the root. |
| SseValidity.CheckTree | src/core/distributions/phylogenetics/tree/birthdeath/StateDependentSpeciationExtinctionProcess.cpp:127-203 | Accepts iff every check of computeLnProbability passes. The checks are: chronology, sampled ancestors, no sampled-ancestor root child without an origin, root age within and (without origin) equal to the process age, and root children younger than the root. |
| SseValidity.AgesIncreaseTowardsRoot | src/core/distributions/phylogenetics/tree/birthdeath/StateDependentSpeciationExtinctionProcess.cpp:129-148 | When chronology holds, every ancestor is at least as old as its descendant. |
| SseValidity.SubtreeNoOlder | src/core/distributions/phylogenetics/tree/birthdeath/StateDependentSpeciationExtinctionProcess.cpp:129-148 | When chronology holds, no node of a subtree is older than its top. |
| SseValidity.RootChildrenCheckRedundant | src/core/distributions/phylogenetics/tree/birthdeath/StateDependentSpeciationExtinctionProcess.cpp:195-203 | The root-children check never rejects a tree that passed the chronology check. |
| SseValidity.AdmissibleRootAge | src/core/distributions/phylogenetics/tree/birthdeath/StateDependentSpeciationExtinctionProcess.cpp:187-193 | An admissible tree's root is no older than the origin, equals the process age without an origin, and getRootAge returns it. |
| SseModel.TipStartWithoutFossils | src/core/distributions/phylogenetics/tree/birthdeath/StateDependentSpeciationExtinctionProcess.cpp:242-274 | A tip that is not a sampled fossil starts at 1−ρ in every extinction entry. Its speciation entries are ρ for every allowed state and 0 otherwise. |
| SseModel.FossilTipStart | src/core/distributions/phylogenetics/tree/birthdeath/StateDependentSpeciationExtinctionProcess.cpp:245-249 | With serial sampling, a fossil tip starts from ψ and from the extinction probabilities at its age. |
| SseModel.PlainTipStart | src/core/distributions/phylogenetics/tree/birthdeath/StateDependentSpeciationExtinctionProcess.cpp:242-243 | Other tips start from the constant vectors ρ and 1−ρ. |
| SseModel.NoDataTipsSeeEverything | src/core/distributions/phylogenetics/tree/birthdeath/StateDependentSpeciationExtinctionProcess.cpp:251-258 | Without character data every speciation entry of a tip is ρ. |
| SseModel.RootMergeWithoutRate | src/core/distributions/phylogenetics/tree/birthdeath/StateDependentSpeciationExtinctionProcess.cpp:453-487 | At the root, with no sampled-ancestor child, the merge is not a speciation event and carries no speciation rate. |
| SseModel.InternalMergeWithRate | src/core/distributions/phylogenetics/tree/birthdeath/StateDependentSpeciationExtinctionProcess.cpp:304-337 | At other internal nodes, with no sampled-ancestor child, the merge is a speciation event and multiplies in the rate. |
| SseModel.SampledAncestorMerge | src/core/distributions/phylogenetics/tree/birthdeath/StateDependentSpeciationExtinctionProcess.cpp:304-308 | With a sampled-ancestor child, the merge is a speciation event iff there is no serial sampling. |
| SseModel.CombinedKeepsLeftExtinction | src/core/distributions/phylogenetics/tree/birthdeath/StateDependentSpeciationExtinctionProcess.cpp:313 | A merged vector's extinction entries are the left child's. |
| SseModel.IntegratedBranchesNonNegative | src/core/distributions/phylogenetics/tree/birthdeath/StateDependentSpeciationExtinctionProcess.cpp:345-351 | Every integrated branch ends with non-negative entries. |
| SseModel.AgeChangeElsewhere | src/core/distributions/phylogenetics/tree/birthdeath/StateDependentSpeciationExtinctionProcess.cpp:342-351 | A node whose subtree does not contain n and whose parent is not n keeps its vector and scaling factor when n's age changes. |
| SseCache.FreshStore | src/core/distributions/phylogenetics/tree/birthdeath/StateDependentSpeciationExtinctionProcess.cpp:2439-2440 | Freshly sized storage has two zero vectors of 2·numStates entries and two zero scaling factors per node. |
| SseCache.FlagDirtyKeepsCoherence | src/core/distributions/phylogenetics/tree/birthdeath/StateDependentSpeciationExtinctionProcess.cpp:868-894 | Flagging a node keeps every clean non-root node holding its vector. |
| SseCache.FlagAgeChangeKeeps | src/core/distributions/phylogenetics/tree/birthdeath/StateDependentSpeciationExtinctionProcess.cpp:551-556 | Flagging a node and its children keeps closure, latching and tracking. Restore and touch absorb it. |
| SseCache.FlagAgeChangeClean | src/core/distributions/phylogenetics/tree/birthdeath/StateDependentSpeciationExtinctionProcess.cpp:551-556 | A node left clean by the age-change events is neither n, nor a child of n, nor on their paths to the root. |
| SseCache.AgeChangeKeepsCoherence | src/core/distributions/phylogenetics/tree/birthdeath/StateDependentSpeciationExtinctionProcess.cpp:551-556 | Changing n's age and flagging n and its children keeps every clean node holding, for the new ages. |
| SseInvariants.FlagDirtyStep | src/core/distributions/phylogenetics/tree/birthdeath/StateDependentSpeciationExtinctionProcess.cpp:868-894 | A tree-change event keeps the flag invariant and the cache invariant. |
| SseInvariants.RatesStep | src/core/distributions/phylogenetics/tree/birthdeath/StateDependentSpeciationExtinctionProcess.cpp:2344-2379 | New parameter values keep the flag invariant. |
| SseInvariants.AgeStep | src/core/distributions/phylogenetics/tree/birthdeath/StateDependentSpeciationExtinctionProcess.cpp:551-556 | An age change with n and its children flagged keeps both invariants. |
| SseInvariants.KeepStep | src/core/distributions/phylogenetics/tree/birthdeath/StateDependentSpeciationExtinctionProcess.cpp:1546-1565 | A keep clears the flags. When every non-root node was computed, the current buffers become the kept ones. |
| SseInvariants.NewValuesStep | src/core/distributions/phylogenetics/tree/birthdeath/StateDependentSpeciationExtinctionProcess.cpp:1637-1642 | Re-aging the root to a new process age keeps the process well formed. The flags it raises vanish under a restore or a touch. |
| SseInvariants.RestoreStep | src/core/distributions/phylogenetics/tree/birthdeath/StateDependentSpeciationExtinctionProcess.cpp:1634-1670 | A restore keeps the flag invariant. Back at the kept inputs, the buffers are the kept ones and the cache invariant holds. |
| SseInvariants.TouchStep | src/core/distributions/phylogenetics/tree/birthdeath/StateDependentSpeciationExtinctionProcess.cpp:2360-2377 | A touch by a parameter keeps the cache invariant, whatever the new inputs. |
| SseInvariants.FreshStep | src/core/distributions/phylogenetics/tree/birthdeath/StateDependentSpeciationExtinctionProcess.cpp:2434-2444 | Freshly sized vectors satisfy the cache invariant. |
| SseInvariants.RootStep | src/core/distributions/phylogenetics/tree/birthdeath/StateDependentSpeciationExtinctionProcess.cpp:423-547 | After both root subtrees are recomputed and the root buffer is written, the cache invariant holds. |
| SseEngine.StateDependentSpeciationExtinctionProcess.constructor | src/core/distributions/phylogenetics/tree/birthdeath/StateDependentSpeciationExtinctionProcess.cpp:38-89 | Starts with five nodes' worth of fresh flags and zero vectors, consistent and nothing kept. |
| SseEngine.StateDependentSpeciationExtinctionProcess.ResizeVectors | src/core/distributions/phylogenetics/tree/birthdeath/StateDependentSpeciationExtinctionProcess.cpp:2434-2444 | Sizes the vectors for n nodes: all dirty, unlatched, zero vectors. The cache stays consistent. |
| SseEngine.StateDependentSpeciationExtinctionProcess.RecursivelyFlagNodeDirty | src/core/distributions/phylogenetics/tree/birthdeath/StateDependentSpeciationExtinctionProcess.cpp:868-894 | The flags become those of flagging the node. Inputs and stored vectors are unchanged. |
| SseEngine.StateDependentSpeciationExtinctionProcess.FireTreeChangeEvent | src/core/distributions/phylogenetics/tree/birthdeath/StateDependentSpeciationExtinctionProcess.cpp:551-556 | Flags the node's path and keeps the cache consistent. |
| SseEngine.StateDependentSpeciationExtinctionProcess.FlagAgeChangeEvents | src/core/distributions/phylogenetics/tree/birthdeath/StateDependentSpeciationExtinctionProcess.cpp:551-556 | The events of an age change flag n and its children. |
| SseEngine.StateDependentSpeciationExtinctionProcess.SetNodeAge | src/core/distributions/phylogenetics/tree/birthdeath/StateDependentSpeciationExtinctionProcess.cpp:2349-2352 | Sets n's age and raises the age-change flags. |
| SseEngine.StateDependentSpeciationExtinctionProcess.KeepSpecialization | src/core/distributions/phylogenetics/tree/birthdeath/StateDependentSpeciationExtinctionProcess.cpp:1546-1565 | Clears flags and latches. When the cache was complete, the current inputs and buffers are kept. |
| SseEngine.StateDependentSpeciationExtinctionProcess.RestoreSpecialization | src/core/distributions/phylogenetics/tree/birthdeath/StateDependentSpeciationExtinctionProcess.cpp:1634-1670 | Takes the restored values and re-ages the root for the process age without origin. The flags become Restore of the old flags, and back at the kept inputs the kept buffers are active and consistent. |
| SseEngine.StateDependentSpeciationExtinctionProcess.TouchSpecialization | src/core/distributions/phylogenetics/tree/birthdeath/StateDependentSpeciationExtinctionProcess.cpp:2344-2379 | A touch by the tree changes nothing. A parameter touch takes the new values, re-ages the root for the process age without origin, flags everything and keeps the cache consistent. |
| SseEngine.StateDependentSpeciationExtinctionProcess.TouchByParameter | src/core/distributions/phylogenetics/tree/birthdeath/StateDependentSpeciationExtinctionProcess.cpp:2360-2377 | A parameter touch flags every node and keeps the cache consistent. |
| SseEngine.StateDependentSpeciationExtinctionProcess.ComputeNodeProbability | src/core/distributions/phylogenetics/tree/birthdeath/StateDependentSpeciationExtinctionProcess.cpp:226-420 | Every node of the subtree then holds its vector and scaling factor, and the subtree's dirty flags are cleared. Only the active slots of its dirty nodes changed. |
| SseEngine.StateDependentSpeciationExtinctionProcess.ComputeTipProbability | src/core/distributions/phylogenetics/tree/birthdeath/StateDependentSpeciationExtinctionProcess.cpp:237-274 | The tip's slot holds its integrated, clamped and optionally rescaled start vector. |
| SseEngine.StateDependentSpeciationExtinctionProcess.ComputeInternalNodeProbability | src/core/distributions/phylogenetics/tree/birthdeath/StateDependentSpeciationExtinctionProcess.cpp:277-417 | After both children, the node's slot holds the merged, integrated vector, with the scaling factor summed over the subtree. |
| SseEngine.StateDependentSpeciationExtinctionProcess.ComputeRootLikelihood | src/core/distributions/phylogenetics/tree/birthdeath/StateDependentSpeciationExtinctionProcess.cpp:423-548 | Returns log Σ freq·D at the root plus the children's scaling factors, and leaves every non-root node clean and holding. |
| SseEngine.StateDependentSpeciationExtinctionProcess.ComputeLnProbability | src/core/distributions/phylogenetics/tree/birthdeath/StateDependentSpeciationExtinctionProcess.cpp:124-223 | Returns −∞ without touching the cache iff the tree fails a check. Otherwise it returns the survival conditioning plus the root likelihood plus the tree-shape term. |
| SseEngine.StateDependentSpeciationExtinctionProcess.ComputeLnProbabilityTimes | src/core/distributions/phylogenetics/tree/birthdeath/StateDependentSpeciationExtinctionProcess.cpp:205-220 | Resizes when the node count changed, then returns the conditioning plus the root likelihood. |
| SseEngine.TipProbability | src/core/distributions/phylogenetics/tree/birthdeath/StateDependentSpeciationExtinctionProcess.cpp:240-274 | Builds a tip's start vector from ρ, or from ψ and the extinction probabilities for a fossil, and from its observation. |
| SseEngine.InternalValue | src/core/distributions/phylogenetics/tree/birthdeath/StateDependentSpeciationExtinctionProcess.cpp:281-417 | Computes the node's vector and, when rescaling, its scaling factor summed with the children's. |
| SseEngine.MergeAt | src/core/distributions/phylogenetics/tree/birthdeath/StateDependentSpeciationExtinctionProcess.cpp:289-338 | Merges the children's stored vectors as the model's merge does. |
| SseEngine.FinishNode | src/core/distributions/phylogenetics/tree/birthdeath/StateDependentSpeciationExtinctionProcess.cpp:342-417 | Integrates a non-sampled-ancestor branch, clamps it and rescales it as configured. |
| SseEngine.RootVector | src/core/distributions/phylogenetics/tree/birthdeath/StateDependentSpeciationExtinctionProcess.cpp:426-498 | Merges the root's children, with no rate at a plain root, and integrates up to the origin when there is one. |
| SseEngine.RootValue | src/core/distributions/phylogenetics/tree/birthdeath/StateDependentSpeciationExtinctionProcess.cpp:537-547 | Computes the root vector, its probability under the root frequencies, and the summed scaling factor. |
| SseEngine.ConditionOnSurvival | src/core/distributions/phylogenetics/tree/birthdeath/StateDependentSpeciationExtinctionProcess.cpp:171-217 | Returns −lineages·log pSurvival(0, processAge) under survival conditioning, otherwise 0. There are two lineages, or one with an origin. |
| SseEngine.NumericallyIntegrateProcess | src/core/distributions/phylogenetics/tree/birthdeath/StateDependentSpeciationExtinctionProcess.cpp:2385-2428 | Integrates with the current parameter values and clamps negative entries to 0. |
| SseEngine.StartingState | src/core/distributions/phylogenetics/tree/birthdeath/StateDependentSpeciationExtinctionProcess.cpp:1586-1591 | The extinction start vector: 1−ρ in the extinction entries and ρ in the speciation entries. |
| SseEngine.ExtinctionProbabilities | src/core/distributions/phylogenetics/tree/birthdeath/StateDependentSpeciationExtinctionProcess.cpp:1582-1596 | pExtinction integrates the start vector from start to end. |
| SseEngine.AverageExtinction | src/core/distributions/phylogenetics/tree/birthdeath/StateDependentSpeciationExtinctionProcess.cpp:1604-1611 | Returns Σ freq[i]·E[i]. |
| SseEngine.SurvivalProbability | src/core/distributions/phylogenetics/tree/birthdeath/StateDependentSpeciationExtinctionProcess.cpp:1599-1614 | pSurvival is 1 − Σ freq·E. |
| Simmap.SumTimes | src/core/distributions/phylogenetics/tree/birthdeath/StateDependentSpeciationExtinctionProcess.cpp:1104-1108 | The loop returns the sum of the recorded durations. |
| Simmap.RecordTransition | src/core/distributions/phylogenetics/tree/birthdeath/StateDependentSpeciationExtinctionProcess.cpp:1101-1113 | A state change appends the new state and the time since the last change, so the durations then add up to the slice end. |
| Simmap.CloseHistory | src/core/distributions/phylogenetics/tree/birthdeath/StateDependentSpeciationExtinctionProcess.cpp:1181-1188 | Closing a branch appends the remaining time, so the durations add up to the branch length. |
| Simmap.RecordedDurations | src/core/distributions/phylogenetics/tree/birthdeath/StateDependentSpeciationExtinctionProcess.cpp:1166-1177 | When the running sums are the change times, each duration is the gap between consecutive changes. |
| Simmap.MakeSimmapString | src/core/distributions/phylogenetics/tree/birthdeath/StateDependentSpeciationExtinctionProcess.cpp:1191-1200 | The loop writes the segments "state,duration" from the last to the first, joined by ':' and between braces. |
| Simmap.SimmapTextReadsBack | src/core/distributions/phylogenetics/tree/birthdeath/StateDependentSpeciationExtinctionProcess.cpp:1191-1200 | When printed states and durations contain no ':', cutting the text between the braces at ':' gives back exactly the segments, in reverse order. |

## Left out

- The ODE solver (runge_kutta_dopri5 through integrate_adaptive) is a function-valued parameter of the process, and so is the natural logarithm. The clamp after it is modelled.
- Floating point: doubles are read as reals, so rounding, NaN and infinity are not modelled. The one infinity the source returns, −∞ for an inadmissible tree, is a datatype case.
- SseVectors.RescaledMeaning: requires a positive maximum speciation entry. With all entries 0 the source divides 0 by 0, a NaN that reals cannot express.
- Sampling and simulation use a random number generator, so they are not modelled. This covers redrawValue, simulate (except its one-hot decoding loop, StateBits.DecodeOneHot), simulateTree, drawJointConditionalAncestralStates and the stochastic character map.
- The stochastic-map path (sample_character_history set, per-slice branch likelihoods, time_in_state and the average rates) is not modelled. Only the SIMMAP bookkeeping of one branch is: recording transitions, closing the history and assembling the text.
- lnProbTreeShape is a parameter of ComputeLnProbability. Its factorials and the counts of extinct tips and sampled ancestors are not modelled.
- The DAG plumbing is not modelled: addParameter, swapParameter, the listener registration, dag_node->touchAffected, keepAffected, restoreAffected, clone, destructors and the copy constructor of the pruning engine. Keep, restore and touch are modelled by the flag changes they make.
- updateTransitionProbabilities (the rate matrix times the clock rate, exponentiated) is not modelled. The transition matrices are a field of the pruning engine, and FireTreeChangeEvent carries the branch's new matrix.
- The anagenetic rate matrix Q and the clock rate of the speciation-extinction process reach the likelihood only through the integrator, so they are not fields.
- setValue of the speciation-extinction process is not modelled. It installs a tree, re-registers listeners, attaches placeholder character data and draws a character map. Its resizeVectors call is ResizeVectors.
- TopologyNode::setAge is not part of this model. SetNodeAge assumes it fires tree-change events for the node and for its children, in that order.
- TreeDiscreteCharacterData, Tree and the other data classes are not part of this model. Alignments are sequences of cells printed by a parameter function, and tips carry a state set and a gap flag.
- The per-cell string of a site key is a parameter. SiteData.AmbiguousKeys shows that merging patterns is sound only when every cell prints as one symbol. The soundness of compression, and ComputeLnProbability's agreement with the per-site sum, are proved only under that condition (SymbolPerCell).
- PruningEngine.SiteHomogeneousCharEvoModel.RestoreSpecialization: restoreSpecialization (AbstractSiteHomogeneousCharEvoModel.h:707-729) clears the flags and swaps back the buffers but never resets lnProb, and computeLnProbability (lines 324-342) returns the cached lnProb whenever the root is clean. So after a rejected proposal that was computed, the engine returns the rejected proposal's log probability until the next event or touch. The model keeps this behaviour. It promises a consistent cache after a restore only when the cached value is still the one of the last keep, and ComputeLnProbability promises the current log probability only when the root is dirty or the cache is consistent. Whether the caller outside the engine restores its own stored value is not part of this model.
- SseEngine.StateDependentSpeciationExtinctionProcess.useScaling: in the source, rescaling is a global user setting read on every node computation (StateDependentSpeciationExtinctionProcess.cpp:389), and the root adds the scaling factors the children stored (lines 545-547). The model fixes the setting for the object's whole life. It does not model factors that are stale because the setting was toggled between computations. It also does not prove that rescaling leaves the log probability unchanged, which would need the logarithm to be additive and the integrator to be homogeneous.
- StateBits.ObservedStateSum: requires the state mask to have no bit at or above numChars. With such a bit the source reads past the matrix row.
- StateBits.DecodeOneHot: requires a non-empty state set. On the empty set the source loops forever.
- The model's SetValue leaves the dirty flags alone. In the source the DAG touches the engine after a new value.
- The per-tip rows are built by appending the kept sites rather than by resizing and writing at patternIndex. The resulting rows are the same.
- The pruning tree is fixed once the engine is built: internal nodes are bifurcating and the root is not a tip. Tips are the nodes with index below the number of tips.

## Findings

| source | as written | input that shows it | evidently intended | confidence | as-written member | corrected member |
|---|---|---|---|---|---|---|
| src/core/distributions/phylogenetics/substitution/AbstractSiteHomogeneousCharEvoModel.h:365-388 | computeRootLikelihood adds log(tmp) once per pattern. It never multiplies by patternCounts, so compressing identical sites changes lnProb. | A two-tip tree with one character and two identical sites. Compressed, the sum has one log ½ term; uncompressed, it has two. | lnProb = Σ_p patternCounts[p]·log L_p, the same value with and without compression. | not executed | PruningData.UnweightedRootSumDependsOnCompression | PruningData.CompressionKeepsLnProb |
