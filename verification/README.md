# accord-rs result layer in Dafny

A model of the two pure parts of the result layer of `accord-rs`, a consensus
caller for aligned sequencing reads:

- **Alignment statistics** (`src/accord/data/stats.rs`). Per-read data
  (`AlnData`) is taken from an alignment record: its sequence length, mapping
  quality, flags, and the alignment score (`AS`) and edit distance (`NM`)
  optional fields, which must hold unsigned integers. A `DistributionStats`
  holds nearest-rank quantiles of unsigned observations. For each requested
  factor `f`, the observations are sorted and the element at index
  `max(round(n * f) - 1, 0)` is taken. `AlnStats` holds four such
  distributions, one each for read length, mapping quality, alignment score
  and edit distance, all over the same reads and the same factors.
- **The consensus summary** (`src/accord/data/consensus.rs`). The pileup's
  per-position base counters (`base -> count` at each reference position) are
  transposed into one count vector per base (`base -> count at each
  position`), with zeros where a base was not seen. The summary also keeps the
  coverage, the total number of reads seen, and the number of valid reads,
  which is the sample size of the alignment statistics.

Modules: `Results` (a result type for the source's panics), `Sorting`
(ascending sort as the unique sorted permutation, and counting), `Stats` and
`Consensus`. Integers are unbounded: `usize` is `nat`. The `u8`, `u16` and
`u32` values are subset types of `nat`. Quantile factors are exact `real`s.
Rounding is half away from zero, which for non-negative `x` is
`floor(x + 1/2)`. The conversion of a negative rounded value to `usize`
saturates at 0.

Every panic of the source becomes a `Failure`:

- more factors than observations (`MoreQuantilesThanNumbers`);
- a factor whose rank lies beyond the last observation, which in Rust is an
  out-of-bounds index and needs a factor above 1 (`RankOutOfRange`);
- a missing optional field (`MissingTag`);
- an optional field that is not an unsigned integer (`NotUnsigned`).

Notes on the code:

- `from_numbers` and `AlnStats::from_data` accept an empty input when no
  quantile factors are requested (the mean is then NaN); the model's
  `FromNumbers` and `FromData` succeed there too.
- The doc comment of `Quantile` (stats.rs:50-53) reads the factor as "the
  fraction of values at most the value". Because the rank is rounded rather
  than rounded up, this holds only up to half an observation.
  `Stats.QuantileCoversFraction` and `Stats.CoverageWithinHalf` state what
  holds, and `Stats.RoundedRankFallsShort` shows the shortfall: of the values
  1 to 4, the factor 0.3 gives the value 1, and only a quarter of the values
  are at most 1.

## Model

| member | source | states |
|---|---|---|
| `Sorting.Sort` | src/accord/data/stats.rs:89 | the sorted observations are in ascending order and are a permutation of the input (same multiset, same length) |
| `Sorting.SortedPermutationUnique` | src/accord/data/stats.rs:89 | two ascending sequences with the same multiset of elements are equal, so the sorted order is determined by the observations alone |
| `Sorting.SortIgnoresOrder` | src/accord/data/stats.rs:89 | sorting two permutations of the same observations gives the same sequence |
| `Stats.ExtractUnsigned` | src/accord/data/stats.rs:31-47 | succeeds exactly when the tag is present and holds a U8, U16 or U32 value, and the result then fits in 32 bits; a missing tag gives `MissingTag` and any other value type gives `NotUnsigned` with that value |
| `Stats.ExtractUnsignedLossless` | src/accord/data/stats.rs:35-40 | a value stored as U8, U16 or U32 is read back unchanged after widening |
| `Stats.FromRecord` | src/accord/data/stats.rs:21-29 | the read data copies the record's length, mapping quality and flags and takes score from `AS` and distance from `NM`; it fails exactly when either field fails, and a failing `AS` is reported first |
| `Stats.FromRecordRoundTrip` | src/accord/data/stats.rs:21-29 | a read's data stored in a record, with score and distance as 32-bit unsigned `AS` and `NM` fields, is read back unchanged whatever the other fields hold |
| `Stats.Rank` | src/accord/data/stats.rs:98 | the rank is the nearest whole number to `n*f` (within half of it, ties upwards) when `n*f` is non-negative, and 0 when it is negative |
| `Stats.RankIndex` | src/accord/data/stats.rs:102 | the index is one below the rank, or 0 when the rank is 0 |
| `Stats.QuantilesOf` | src/accord/data/stats.rs:95-112 | one quantile per factor in factor order, each carrying its factor and the sorted element at the factor's rank index; fails exactly when some index is out of range, naming a factor of the list |
| `Stats.CalculateQuants` | src/accord/data/stats.rs:87-113 | succeeds exactly when there are at least as many numbers as factors and every rank is at most n; fewer numbers than factors gives `MoreQuantilesThanNumbers`; on success, the i-th quantile has factor `factors[i]` and value `sorted[max(round(n*f)-1, 0)]`, and every value is one of the numbers |
| `Stats.RankInBounds` | src/accord/data/stats.rs:98-106 | a factor in [0, 1] has rank at most n, so for n >= 1 its index is in bounds |
| `Stats.UnitFactorsAreDefined` | src/accord/data/stats.rs:91-106 | with all factors in [0, 1] and no more factors than numbers, the quantile computation never fails |
| `Stats.RankMonotone` | src/accord/data/stats.rs:98-102 | a larger factor never gets a smaller rank or index |
| `Stats.LowFactorGivesMinimum` | src/accord/data/stats.rs:98-106 | a factor whose rank is at most 1, in particular 0, yields a value at most every observation |
| `Stats.UnitFactorGivesMaximum` | src/accord/data/stats.rs:98-106 | the factor 1 yields a value at least every observation |
| `Stats.QuantilesMonotone` | src/accord/data/stats.rs:89-106 | of two factors, the larger one never yields the smaller quantile value, so ascending factors give non-decreasing values |
| `Stats.QuantileSplitsSorted` | src/accord/data/stats.rs:89-106 | the sorted observations up to the quantile's index are at most its value, and those from the index on are at least its value |
| `Stats.QuantileCoversFraction` | src/accord/data/stats.rs:50-53 | at least `round(n*f)` observations, and at least one, are at most the quantile value |
| `Stats.CoverageWithinHalf` | src/accord/data/stats.rs:50-53 | a count of at least `round(n*f)`, and at least one, exceeds `n*f - 1/2`, so the fraction the factor names is missed by less than half an observation |
| `Stats.RoundedRankFallsShort` | src/accord/data/stats.rs:50-53 | the values 1 to 4, in any order, with the factor 0.3 give the value 1, and fewer than 0.3 of them are at most 1 |
| `Stats.QuantilesIgnoreOrder` | src/accord/data/stats.rs:89 | the quantiles of two permutations of the same observations are identical, including failures |
| `Stats.QuantilesFromSortedPermutation` | src/accord/data/stats.rs:89-106 | the quantiles are the lookups in any sorted permutation of the numbers |
| `Stats.FiveObservations` | src/accord/data/stats.rs:87-113 | the numbers 1 to 5, in any order, with factors 0, 0.5 and 1 give the values 1, 3 and 5 |
| `Stats.FromNumbers` | src/accord/data/stats.rs:73-85 | fails exactly when the quantiles fail; on success the sample size is the number of observations and there is one quantile per factor, carrying that factor |
| `Stats.SplitColumns` | src/accord/data/stats.rs:166-176 | the four columns each have one entry per read, and the i-th entry is the i-th read's length, mapping quality (widened), score or distance |
| `Stats.CalculateDistributions` | src/accord/data/stats.rs:160-184 | succeeds exactly when quantiles are defined for the factors over as many observations as there are reads; the four distributions are those of the four columns over the same factors |
| `Stats.FromData` | src/accord/data/stats.rs:144-158 | the statistics are the distributions of the reads' four columns over the same factors, all four with sample size equal to the number of reads, and they fail exactly when quantiles over as many observations as there are reads fail |
| `Stats.GetSampleSize` | src/accord/data/stats.rs:195-197 | the sample size is the number of reads the statistics were built from |
| `Consensus.BaseCharInjective` | src/accord/data/consensus.rs:98 | converting base bytes to characters never merges two bases |
| `Consensus.ExpandBaseCounts` | src/accord/data/consensus.rs:93-107 | the keys are exactly the characters of bases with an entry at some position; every vector is as long as the reference; a base's cell at a position is its count there, or 0 when it has no entry there; this holds for every visiting order of a counter's bases |
| `Consensus.WriteCellExtends` | src/accord/data/consensus.rs:99-102 | writing one base's count at the current position, creating its zero-filled vector if needed, extends the partial transposition by that cell and leaves all other cells as they were |
| `Consensus.ExpansionIsUnique` | src/accord/data/consensus.rs:96-102 | two tables meeting that description are equal, so the result does not depend on the hash map's iteration order |
| `Consensus.New` | src/accord/data/consensus.rs:50-70 | the coverage is stored unchanged, the base counts are the transposition of the analysis's counts, the total is the number of reads seen, and the sequences, path and statistics are passed through |
| `Consensus.ValidReads` | src/accord/data/consensus.rs:73-76 | the number of valid reads is the number of reads the stored alignment statistics were built from |

## Left out

- Mean, sum of squares, variance and standard deviation (stats.rs:77-84 and
  123-129). They are `f64` arithmetic with `powi` and `sqrt`, and an empty
  input gives NaN. `DistributionStats` holds only the quantiles and the
  sample size.
- `Stats.CalculateQuants`: factors are exact reals, so NaN factors are not
  modelled. Neither is the rounding of the `f64` product `n * f`, nor the
  saturation of the rank conversion at `usize::MAX` (such a rank is out of
  bounds either way).
- Integer widths of `usize`: the sum of observations (stats.rs:77) and the
  counters are unbounded here. Overflow is not modelled.
- `Consensus.ValidReads`: `valid_reads` (consensus.rs:75) calls
  `sample_size()` on the statistics, which `stats.rs` does not define. The
  model uses the one accessor there, `get_sample_size` (the sample size of
  the length distribution).
- `invalid_reads` (consensus.rs:80-82) calls `mapped_reads()`, which is not
  part of this model. Its subtraction also runs opposite to its doc comment,
  so there is nothing reliable to state.
- Reading from an htslib record (stats.rs:21-29): a `Record` is an abstract
  tuple of length, mapping quality, flags and a map from tag to optional-field
  value. The array value types are folded into two alternatives. The library's
  other lookup errors are all modelled as a missing tag.
- `Seq`, `AnalysisResult`, `BaseCounts` and `InDel` are defined in files that
  are not part of this model. Their shapes are assumed: a named base
  sequence; coverage, per-position counters keyed by byte, and the reads seen
  as a sequence of names. The commented-out indel list is not modelled.
- The Python bindings (`py_from_numbers`, `py_from_data`, `#[new]`,
  `#[getter]`), `__repr__` and the plain field getters (consensus.rs:109-115).
- The command-line entry point, argument parsing and the default quality
  requirements (app.rs, cli.rs), and module wiring (lib.rs, accord.rs).
- The calculator, pileup, quality gate and indel code are not part of this
  model.
