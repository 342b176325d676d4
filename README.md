# Lossless genetic codec and dependency-gated evolution, in Dafny

This project models two demonstration programs and proves properties of the models.

**`huffman_pheno_avl.py` — `LosslessGeneticAVL`**

- *Phenotype codec* (`codec.dfy`, module `PhenotypeCodec`):
  - the Huffman-style encoder built from a table of trait frequencies:
    - a repeated extract-two-lightest-and-merge loop over a min-heap;
    - `generate_codes`, where '0' means left and '1' means right;
  - `encode_phenotype`;
  - `decode_phenotype`, which walks the tree one bit at a time and restarts at the root after each leaf.
- *Genotype bookkeeping* (`genetics.dfy`, module `GeneticAVL`):
  - a class holding the list of mother-father pairs and the `MF_n`-keyed genotype dictionary;
  - the Hamming distance over the zipped genotypes, used as the balance factor;
  - `share_genetic_material`;
  - the nested-loop diamond scan.

**`bio_governance_engine.py`** (`governance.dfy`, module `BioGovernance`)

- `GenomicDependencyGraph`: a gene catalog with `add_gene` and the early-return resolver `resolve_dependencies`.
- `ActiveGovernor`:
  - `observe` bands a resistance score into SAFE, MONITORED or CRITICAL and logs it;
  - for CRITICAL it runs the containment protocol on the last mutation.
- The acquisition loop of `run_rift_simulation`: each step is acquired only if its dependencies are already in the genome, and the governor is notified after each acquisition.

How the models are built:

- Loops and state changes are imperative Dafny. Each is proved against the following:
  - **The decoder loop** against the recursive decoding function `DecodeFrom`.
  - **The diamond scan** (outer and inner loop) against the recursive `RowsUpTo` / `RowUpTo`, and so against `Diamonds`.
  - **The acquisition loop** against the recursive `Evolve`.
  - **One pass of the heap merge loop** (`MergeTwoLightest`) against an explicit statement of which trees it merges:
    - it takes off the heap a lightest tree `left` and then a lightest remaining tree `right`;
    - the other trees stay;
    - the parent of `left` and `right`, with the sum of their frequencies, is pushed.
  - **The merge loop itself** (`MergeHeap`) against loop invariants: the heap keeps the table's traits and total frequency, every node sums its children, and each pass makes one more merge.
  - **`add_mf_pair` and `add_gene`**, which update class fields, against their new state, given in full as a one-key update of the old map (and, for `add_mf_pair`, a one-pair extension of the list). `add_mf_pair` also keeps the class invariant that the genotype tree holds exactly `MF_1..MF_n`, one entry per pair.
- The source's properties are then proved about those functions and states:
  - a prefix-free code and a lossless round trip;
  - the exact set and order of diamonds;
  - that acquisition is dependency-gated;
  - the threat banding.

Behaviour of the code that the model keeps and proves:

- **A table with one trait gives that trait the empty code `""`.** The merge loop never runs, and `generate_codes` records the root's empty path. So:
  - a phenotype of that trait encodes to the empty string and decodes to the empty list (`SingleTraitLosesInput`);
  - any non-empty input to the decoder of that tree steps to a missing child (`LeafRootRejectsBits`).
- **The resolver does no cycle check.** It only tests the target's direct dependencies against the current genome (`ResolveDependencies`, `Resolvable`).
- **Ties in the heap fall to `heapq`'s order**, since `__lt__` compares frequency only. The model takes any minimum, so every result above is proved for every tie order.

## Model

| member | source | states |
|---|---|---|
| PhenotypeCodec.LeafCount | huffman_pheno_avl.py:30-37 | every merge joins two trees, so a built tree has exactly one more leaf than merged nodes |
| PhenotypeCodec.InitialHeap | huffman_pheno_avl.py:27 | the initial heap has one leaf per table entry: the same traits, the same total frequency, no merges |
| PhenotypeCodec.MinExists | huffman_pheno_avl.py:31-32 | a non-empty heap has a minimum-frequency element for `heappop` to return |
| PhenotypeCodec.HeapPop | huffman_pheno_avl.py:31-32 | `heappop` returns a tree of minimum frequency; the remaining heap is the old heap minus that one tree (as a multiset); traits, total frequency and merge count are split exactly between the two |
| PhenotypeCodec.MergeTwoLightest | huffman_pheno_avl.py:31-37 | one iteration pops `left`, a lightest tree of the heap, then `right`, a lightest of the rest. The new heap is the untouched `others` plus `Node(left, right, left.freq + right.freq)`. The heap shrinks by one, keeps its traits and total frequency, and gains one merge. Every node still sums its children |
| PhenotypeCodec.TwoPopsOrder | huffman_pheno_avl.py:31-32 | two successive `heappop`s take two trees off the heap, lighter first, and leave only trees no lighter than the second |
| PhenotypeCodec.LightestOfMultiset | huffman_pheno_avl.py:31 | a tree no heavier than any heap position is no heavier than any tree in the heap |
| PhenotypeCodec.MergeAccounts | huffman_pheno_avl.py:34-37 | pushing the merged parent of the two popped trees restores the heap's traits and total frequency, adds one merge, and keeps every node summing its children |
| PhenotypeCodec.MergeHeap | huffman_pheno_avl.py:27-40 | the root holds exactly the table's traits; it has `len(table) - 1` merged nodes and the table's total frequency; every merged node's frequency is the sum of its children's |
| PhenotypeCodec.RootShape | huffman_pheno_avl.py:30-40 | the root is a single leaf exactly when the table has one trait |
| PhenotypeCodec.CodeRecorded | huffman_pheno_avl.py:43-52 | `generate_codes` records a code for a trait exactly when the trait is at a leaf of the tree |
| PhenotypeCodec.CodeIsPath | huffman_pheno_avl.py:43-52 | with distinct traits, a trait's code is the prefix followed by its root-to-leaf path, '0' left and '1' right |
| PhenotypeCodec.PathReachesLeaf | huffman_pheno_avl.py:43-52 | following a trait's path from the root ends exactly at that trait's leaf |
| PhenotypeCodec.PathsPrefixFree | huffman_pheno_avl.py:43-52 | the path of one trait is never a prefix of the path of a different trait |
| PhenotypeCodec.CodesPrefixFree | huffman_pheno_avl.py:43-52 | the code table from the root is prefix-free |
| PhenotypeCodec.CodeTableFacts | huffman_pheno_avl.py:40-53 | for a tree over the table's traits: exactly the table's traits get codes; each code leads from the root to its trait; the codes are prefix-free |
| PhenotypeCodec.BuildPhenotypeEncoder | huffman_pheno_avl.py:25-53 | returns the root and its codes; one code per table trait; each code reaches its trait; the codes are prefix-free; the root has the table's total frequency and `len(table) - 1` merges |
| PhenotypeCodec.Encode | huffman_pheno_avl.py:95 | the join succeeds exactly when every trait has a code; otherwise the failure names the first trait without one (the `KeyError`) |
| PhenotypeCodec.EncodePhenotype | huffman_pheno_avl.py:92-96 | encoding succeeds exactly when every phenotype trait is in the frequency table; the codes are those of the built tree |
| PhenotypeCodec.DecodePhenotype | huffman_pheno_avl.py:98-113 | the bit-by-bit loop computes the decoding function `DecodeFrom`, including the missing-child failure |
| PhenotypeCodec.DecodePath | huffman_pheno_avl.py:103-111 | decoding a trait's path from a merged node emits that trait and continues from the root |
| PhenotypeCodec.DecodeEncoded | huffman_pheno_avl.py:92-113 | decoding the encoding of known traits, followed by any bits, yields those traits ahead of what the trailing bits decode to |
| PhenotypeCodec.RoundTrip | huffman_pheno_avl.py:92-113 | for a tree with at least two distinct traits, decoding the encoding of any sequence of known traits gives back exactly that sequence |
| PhenotypeCodec.BuiltRoundTrip | huffman_pheno_avl.py:92-113 | the round trip holds for every tree the builder can produce from a table of two or more traits, whatever the tie order |
| PhenotypeCodec.PartialPathDecodesNothing | huffman_pheno_avl.py:103-113 | a strict prefix of a code decodes to nothing: unfinished bits are dropped |
| PhenotypeCodec.TrailingBitsDropped | huffman_pheno_avl.py:103-113 | an encoding followed by part of a code still decodes to exactly the encoded traits |
| PhenotypeCodec.AsBinary | huffman_pheno_avl.py:104-107 | mapping every character other than '0' to '1' keeps the length and the positions of the '0's |
| PhenotypeCodec.NonZeroStepsRight | huffman_pheno_avl.py:104-107 | the decoder treats every character other than '0' as a right step |
| PhenotypeCodec.SingleTraitLosesInput | huffman_pheno_avl.py:43-52 | with one trait, its code is `""`, so any phenotype of that trait encodes to `""` and decodes to the empty list |
| PhenotypeCodec.LeafRootRejectsBits | huffman_pheno_avl.py:104-109 | with a single-leaf root, any non-empty input steps to a missing child |
| PhenotypeCodec.DemoTableTraits | huffman_pheno_avl.py:128-134 | the demonstration table lists five distinct traits |
| PhenotypeCodec.DemoPhenotypeKnown | huffman_pheno_avl.py:136 | the demonstration phenotype uses only traits of the table |
| PhenotypeCodec.LosslessDemo | huffman_pheno_avl.py:136-143 | the demonstration phenotype decodes back to itself (`Lossless: True`) |
| GeneticAVL.GeneticDistance | huffman_pheno_avl.py:72-74 | the Hamming distance over the zipped genotypes is at most the length of either |
| GeneticAVL.DistanceSymmetric | huffman_pheno_avl.py:72-74 | the distance does not depend on the order of the two genotypes |
| GeneticAVL.DistanceZeroIff | huffman_pheno_avl.py:72-74 | the distance is 0 exactly when the genotypes agree on their common prefix |
| GeneticAVL.DistanceFullIff | huffman_pheno_avl.py:72-74 | the distance equals the shorter length exactly when the genotypes differ at every zipped position |
| GeneticAVL.IdenticalDistanceZero | huffman_pheno_avl.py:72-74 | a genotype is at distance 0 from itself |
| GeneticAVL.Decimal | huffman_pheno_avl.py:62 | the decimal rendering of `n` is never empty and is one digit exactly when `n < 10` |
| GeneticAVL.DecimalInjective | huffman_pheno_avl.py:62 | two numbers have the same decimal rendering exactly when they are equal |
| GeneticAVL.NodeIdInjective | huffman_pheno_avl.py:62 | `MF_a` and `MF_b` are the same id exactly when `a == b` |
| GeneticAVL.CharsMembers | huffman_pheno_avl.py:88-89 | `set(genotype)` holds exactly the characters of the genotype |
| GeneticAVL.ShareIff | huffman_pheno_avl.py:86-90 | two pairs share genetic material exactly when some character occurs in both mothers' genotypes or in both fathers' genotypes |
| GeneticAVL.ShareSymmetric | huffman_pheno_avl.py:86-90 | sharing genetic material does not depend on the order of the two pairs |
| GeneticAVL.RowUpToMembers | huffman_pheno_avl.py:80-83 | after row `a` reaches column `b`, it holds exactly the diamonds `(a, j)` with `j < b` |
| GeneticAVL.RowUpToOrdered | huffman_pheno_avl.py:80-83 | one row's diamonds are found in increasing column order |
| GeneticAVL.RowsUpToMembers | huffman_pheno_avl.py:79-83 | rows before `a` hold exactly the diamonds whose first index is below `a` |
| GeneticAVL.RowsUpToOrdered | huffman_pheno_avl.py:79-83 | the rows' diamonds are in the order the nested loops visit them |
| GeneticAVL.DiamondsExact | huffman_pheno_avl.py:76-84 | the diamond list holds exactly the pairs `i < j` that share genetic material, each once, in scan order |
| GeneticAVL.RowUpToSnoc | huffman_pheno_avl.py:80-83 | one inner iteration appends `(i+1, j+1)` exactly when pairs i and j share genetic material |
| GeneticAVL.RowStep | huffman_pheno_avl.py:82-83 | one inner iteration appends the label `("MF_{i+1}", "MF_{j+1}")` exactly when the pairs share genetic material |
| GeneticAVL.RowsStep | huffman_pheno_avl.py:79-83 | one outer iteration appends that row's labels |
| GeneticAVL.ScanRow | huffman_pheno_avl.py:80-83 | the inner loop returns the labels of exactly the diamonds of its row, in order |
| GeneticAVL.LabelsConcat | huffman_pheno_avl.py:83 | labelling distributes over concatenation |
| GeneticAVL.LabelsOne | huffman_pheno_avl.py:83 | a single found pair `(i, j)` is labelled `("MF_i", "MF_j")` |
| GeneticAVL.LosslessGeneticAVL.constructor | huffman_pheno_avl.py:9-12 | a new instance has no pairs and an empty genotype tree |
| GeneticAVL.LosslessGeneticAVL.AddMFPair | huffman_pheno_avl.py:55-70 | appends the pair and returns `MF_n`, where n is the new number of pairs; that id was not in use; the tree gains exactly that entry (genotype, phenotype, Hamming balance factor); tree and list stay in step |
| GeneticAVL.AddKeepsMatch | huffman_pheno_avl.py:58-68 | filing the next pair under `MF_{n+1}` keeps the tree holding exactly `MF_1..MF_n+1`, the k-th for the k-th pair |
| GeneticAVL.LosslessGeneticAVL.FindDiamondDependencies | huffman_pheno_avl.py:76-84 | returns the labels of exactly the pairs that share genetic material, in scan order |
| GeneticAVL.SharedMotherChar | huffman_pheno_avl.py:88 | a character common to the two mothers' genotypes makes the pairs share genetic material |
| GeneticAVL.DemoDiamonds | huffman_pheno_avl.py:119-124 | in the three demonstration pairs, every pair of pairs is a diamond |
| GeneticAVL.DemoPrefixes | huffman_pheno_avl.py:119-121 | the demonstration pairs are added in this order |
| GeneticAVL.DemoLabels | huffman_pheno_avl.py:83 | the demonstration diamonds are labelled `MF_1`/`MF_2`, `MF_1`/`MF_3`, `MF_2`/`MF_3` |
| GeneticAVL.DiamondDemo | huffman_pheno_avl.py:116-125 | the demonstration returns ids `MF_1..MF_3` and diamonds `(MF_1,MF_2), (MF_1,MF_3), (MF_2,MF_3)` |
| BioGovernance.ResolvableMonotone | bio_governance_engine.py:55-60 | a gene that resolves against a genome resolves against any larger genome |
| BioGovernance.NoDependenciesResolve | bio_governance_engine.py:50-60 | a gene without dependencies resolves exactly when it is in the catalog |
| BioGovernance.GenomicDependencyGraph.constructor | bio_governance_engine.py:37-39 | a new graph has no genes and no strains |
| BioGovernance.GenomicDependencyGraph.AddGene | bio_governance_engine.py:41-43 | files the gene under its id, replacing an earlier gene with the same id; every other entry is unchanged |
| BioGovernance.GenomicDependencyGraph.ResolveDependencies | bio_governance_engine.py:45-60 | true exactly when the target is in the catalog and each of its direct dependencies is in the genome |
| BioGovernance.StatusBands | bio_governance_engine.py:77-82 | CRITICAL exactly above 0.8; MONITORED exactly in (0.4, 0.8]; SAFE exactly at or below 0.4; never PANDEMIC |
| BioGovernance.StatusMonotone | bio_governance_engine.py:77-82 | a higher score never gives a lower threat level |
| BioGovernance.ActiveGovernor.constructor | bio_governance_engine.py:67-69 | stores the threshold and starts with an empty log |
| BioGovernance.ActiveGovernor.Observe | bio_governance_engine.py:71-90 | appends exactly one entry with the banded status; raises an alert exactly when the score is above 0.8, and that alert is the containment report |
| BioGovernance.ContainmentAlert | bio_governance_engine.py:92-95 | the report names the strain and a cause taken from the mutations (the last one) |
| BioGovernance.GenomeOnlyGrows | bio_governance_engine.py:131-143 | the genome after some of the steps is contained in the genome after all of them |
| BioGovernance.AcquiredOnlyWhenResolved | bio_governance_engine.py:131-143 | a gene is in the final genome exactly when some step named it and it resolved against the genome acquired before that step |
| BioGovernance.EvolveFacts | bio_governance_engine.py:127-145 | every log entry names the strain and carries its score's banded status; there are at least as many entries as genes and no more than steps; genes are catalog genes named by steps; resistance is the last entry's score, or 0.0 before any |
| BioGovernance.ListOf | bio_governance_engine.py:143 | `list(genome)` holds each gene of the genome exactly once |
| BioGovernance.RunAcquisition | bio_governance_engine.py:127-145 | the loop ends with the genome, resistance and governor log of `Evolve`; it raises one alert per CRITICAL entry, each naming the strain and a gene of the genome |
| BioGovernance.DemoFirstTwo | bio_governance_engine.py:131-143 | g01 and then g02 are both acquired, with resistance 0.3 |
| BioGovernance.DemoCriticals | bio_governance_engine.py:79-80 | of the scenario's entries (0.1, 0.3, 0.95) only the last is CRITICAL |
| BioGovernance.DemoEvolution | bio_governance_engine.py:110-145 | in the scenario order, all three genes are acquired; resistance ends at 0.95; the log is SAFE, SAFE, CRITICAL, with one containment |
| BioGovernance.DemoOutOfOrder | bio_governance_engine.py:45-60 | in reverse order, mecA and g02 are refused and only g01 is acquired |
| BioGovernance.RunRiftSimulation | bio_governance_engine.py:100-147 | the simulation ends with genome {g01, g02, mecA}, resistance 0.95, the log SAFE, SAFE, CRITICAL and one alert for STAPH_V1 |

## Left out

- Console output is not modelled. This covers `print`, `time.sleep` and `time.strftime`. A log line is modelled by its strain, score and status, not by its formatted text.
- `heapq` tie order is not modelled: `HeapPop` may return any tree of minimum frequency. Every property above is proved for every such choice.
- Huffman optimality (minimum expected code length) is not proved. The source only depends on the result being a prefix code.
- The `code` field of `HuffmanNode` is not modelled. It only duplicates the code table entry at each leaf.
- The `phenotype_map` and `active_strains` fields are written once in their constructors and never read. `active_strains` is kept and `phenotype_map` is omitted.
- `alert_threshold` is stored but never read. `observe` uses the constant 0.8, and so does the model.
- Floats are modelled as exact reals. No rounding is modelled, including in the merged frequencies.
- PhenotypeCodec.BuildPhenotypeEncoder requires a non-empty table with distinct traits:
  - the source fails with an `IndexError` on `heap[0]` when the table is empty;
  - dictionary keys are distinct.
- PhenotypeCodec.LosslessDemo decodes with the tree that produced the codes. The source rebuilds the tree for decoding, which gives the same tree only because `heapq` is deterministic, and the model's extract-min is not.
- BioGovernance.ActiveGovernor.Observe requires at least one mutation when the score is above 0.8. The source would fail on `mutations[-1]` otherwise, and the acquisition loop always passes a non-empty genome.
- BioGovernance.ListOf leaves the order of `list(genome)` open. The source's order depends on string hashing. So `ContainmentAlert`'s cause is only known to be some gene of the genome.
- The unused imports (`random`, `uuid`, `defaultdict`) and `GeneNode.__hash__` play no part in the modelled behaviour.
- No AVL balancing is modelled. The source performs none: `balance_factor` is only the Hamming distance.
