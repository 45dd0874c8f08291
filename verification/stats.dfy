/** Alignment statistics of `src/accord/data/stats.rs`: per-read data taken
    from an alignment record, nearest-rank quantiles over unsigned
    observations, and the four distributions summarising a set of reads. */
module Stats {
  import opened Results
  import opened Sorting

  type Uint8 = x: nat | x < 0x100
  type Uint16 = x: nat | x < 0x1_0000
  type Uint32 = x: nat | x < 0x1_0000_0000

  // ---------------------------------------------------------------------------
  // Per-read data
  // ---------------------------------------------------------------------------

  /** A value of an optional (auxiliary) field of an alignment record, one
      alternative per value type the BAM format can store. The array types are
      folded into two alternatives, as they are all rejected alike here. */
  datatype Aux =
    | Char(c: Uint8)
    | I8(i8: int)
    | U8(u8: Uint8)
    | I16(i16: int)
    | U16(u16: Uint16)
    | I32(i32: int)
    | U32(u32: Uint32)
    | Float(f: real)
    | Double(d: real)
    | String(s: string)
    | HexByteArray(h: string)
    | IntArray(ints: seq<int>)
    | FloatArray(floats: seq<real>)
  {
    /** One of the three unsigned integer types. */
    predicate IsUnsignedInt() {
      U8? || U16? || U32?
    }
  }

  /** What the model reads of an alignment record: its sequence length,
      mapping quality, flag bits and optional fields by two-letter tag. */
  datatype Record = Record(seqLen: nat, mapq: Uint8, flags: Uint16, aux: map<string, Aux>)

  datatype AuxError =
    | MissingTag(tag: string)
    | NotUnsigned(tag: string, value: Aux)

  /** Relevant data of one aligned read. */
  datatype AlnData = AlnData(length: nat, mapq: Uint8, flags: Uint16, score: nat, distance: nat)

  const ScoreTag: string := "AS"
  const DistanceTag: string := "NM"

  /** Reads an unsigned integer optional field, widening it to an unbounded
      number. A missing tag, or a value of any other type, is an error. */
  function ExtractUnsigned(record: Record, tag: string): (r: Result<nat, AuxError>)
    ensures r.Success? <==> tag in record.aux && record.aux[tag].IsUnsignedInt()
    ensures r.Success? ==> r.value < 0x1_0000_0000
    ensures tag !in record.aux ==> r == Failure(MissingTag(tag))
    ensures tag in record.aux && !record.aux[tag].IsUnsignedInt() ==>
              r == Failure(NotUnsigned(tag, record.aux[tag]))
  {
    if tag !in record.aux then Failure(MissingTag(tag))
    else
      match record.aux[tag]
      case U8(v) => Success(v)
      case U16(v) => Success(v)
      case U32(v) => Success(v)
      case _ => Failure(NotUnsigned(tag, record.aux[tag]))
  }

  /** The widening is lossless: a value stored under any of the three
      unsigned types is read back unchanged. */
  lemma ExtractUnsignedLossless(record: Record, tag: string, v: Uint32)
    requires tag in record.aux
    requires (v < 0x100 && record.aux[tag] == U8(v))
          || (v < 0x1_0000 && record.aux[tag] == U16(v))
          || record.aux[tag] == U32(v)
    ensures ExtractUnsigned(record, tag) == Success(v)
  {
  }

  /** Builds the per-read data of a record. The alignment score (`AS`) is
      read before the edit distance (`NM`), so its error is the one reported
      when both fields are unusable. */
  function FromRecord(record: Record): (r: Result<AlnData, AuxError>)
    ensures r.Success? <==>
              ExtractUnsigned(record, ScoreTag).Success? && ExtractUnsigned(record, DistanceTag).Success?
    ensures r.Success? ==>
              && r.value.length == record.seqLen
              && r.value.mapq == record.mapq
              && r.value.flags == record.flags
              && r.value.score == ExtractUnsigned(record, ScoreTag).value
              && r.value.distance == ExtractUnsigned(record, DistanceTag).value
    ensures ExtractUnsigned(record, ScoreTag).Failure? ==>
              r == Failure(ExtractUnsigned(record, ScoreTag).error)
    ensures ExtractUnsigned(record, ScoreTag).Success? && ExtractUnsigned(record, DistanceTag).Failure? ==>
              r == Failure(ExtractUnsigned(record, DistanceTag).error)
  {
    var score :- ExtractUnsigned(record, ScoreTag);
    var distance :- ExtractUnsigned(record, DistanceTag);
    Success(AlnData(record.seqLen, record.mapq, record.flags, score, distance))
  }

  /** Storing a read's score and distance as 32-bit unsigned `AS` and `NM`
      fields of a record with its length, mapping quality and flags gives back
      that read's data. */
  lemma FromRecordRoundTrip(data: AlnData, aux: map<string, Aux>)
    requires data.score < 0x1_0000_0000 && data.distance < 0x1_0000_0000
    ensures FromRecord(Record(data.length, data.mapq, data.flags,
                              aux[ScoreTag := U32(data.score)][DistanceTag := U32(data.distance)]))
         == Success(data)
  {
    var record := Record(data.length, data.mapq, data.flags,
                         aux[ScoreTag := U32(data.score)][DistanceTag := U32(data.distance)]);
    assert ScoreTag != DistanceTag;
    ExtractUnsignedLossless(record, ScoreTag, data.score);
    ExtractUnsignedLossless(record, DistanceTag, data.distance);
  }

  // ---------------------------------------------------------------------------
  // Nearest-rank quantiles
  // ---------------------------------------------------------------------------

  /** A quantile factor with its value. At least `round(n * factor)` of the
      `n` observations, and at least one, are at most the value; this can fall
      short of the fraction `factor` by up to half an observation (see
      `QuantileCoversFraction` and `RoundedRankFallsShort`). */
  datatype Quantile = Quantile(factor: real, value: nat)

  /** Distribution of unsigned observations. Mean and sum of squares are not
      part of the model. */
  datatype DistributionStats = DistributionStats(quantiles: seq<Quantile>, sampleSize: nat)

  datatype StatsError =
    | MoreQuantilesThanNumbers(factors: nat, numbers: nat)
    | RankOutOfRange(factor: real, rank: nat, size: nat)

  /** The 1-based rank of factor `f` among `n` observations: `n * f` rounded
      half away from zero, then converted to an unsigned size, which turns
      every negative value into 0. For non-negative `x` rounding half away
      from zero is `floor(x + 1/2)`; for negative `x` both that and the
      rounded value are at most 0. */
  function Rank(n: nat, f: real): (r: nat)
    ensures n as real * f >= 0.0 ==> r as real - 0.5 <= n as real * f < r as real + 0.5
    ensures n as real * f < 0.0 ==> r == 0
  {
    var rounded := (n as real * f + 0.5).Floor;
    if rounded < 0 then 0 else rounded
  }

  /** The 0-based index of the rank, never below 0 (saturating subtraction). */
  function RankIndex(n: nat, f: real): (r: nat)
    ensures r <= Rank(n, f) && r + 1 >= Rank(n, f)
    ensures r == 0 || r + 1 == Rank(n, f)
  {
    if Rank(n, f) == 0 then 0 else Rank(n, f) - 1
  }

  /** When quantiles of `n` observations can be taken for `factors`: no more
      factors than observations, and every rank within the observations. */
  predicate QuantilesDefined(n: nat, factors: seq<real>) {
    && |factors| <= n
    && forall i :: 0 <= i < |factors| ==> Rank(n, factors[i]) <= n
  }

  /** Looks up one quantile per factor, in factor order, in the sorted
      observations; the first factor whose index falls outside them fails. */
  function QuantilesOf(sorted: seq<nat>, factors: seq<real>): (r: Result<seq<Quantile>, StatsError>)
    ensures r.Success? <==> forall i :: 0 <= i < |factors| ==> RankIndex(|sorted|, factors[i]) < |sorted|
    ensures r.Success? ==>
              && |r.value| == |factors|
              && forall i :: 0 <= i < |factors| ==>
                   r.value[i] == Quantile(factors[i], sorted[RankIndex(|sorted|, factors[i])])
    ensures r.Failure? ==> r.error.RankOutOfRange? && r.error.factor in factors
  {
    if |factors| == 0 then Success([])
    else
      var index := RankIndex(|sorted|, factors[0]);
      if index >= |sorted| then Failure(RankOutOfRange(factors[0], Rank(|sorted|, factors[0]), |sorted|))
      else
        var rest :- QuantilesOf(sorted, factors[1..]);
        Success([Quantile(factors[0], sorted[index])] + rest)
  }

  /** Nearest-rank quantiles of `numbers`: sorts them and, for each factor
      `f`, takes the element at index `max(round(n * f) - 1, 0)`. Fails when
      there are more factors than numbers, and when a factor's rank lies
      beyond the last observation. */
  function CalculateQuants(numbers: seq<nat>, factors: seq<real>): (r: Result<seq<Quantile>, StatsError>)
    ensures r.Success? <==> QuantilesDefined(|numbers|, factors)
    ensures |numbers| < |factors| ==> r == Failure(MoreQuantilesThanNumbers(|factors|, |numbers|))
    ensures r.Success? ==>
              && |r.value| == |factors|
              && forall i :: 0 <= i < |factors| ==>
                   && r.value[i].factor == factors[i]
                   && r.value[i].value == Sort(numbers)[RankIndex(|numbers|, factors[i])]
    ensures r.Success? ==> forall i :: 0 <= i < |r.value| ==> r.value[i].value in numbers
  {
    var n := |numbers|;
    var sorted := Sort(numbers);
    if n < |factors| then Failure(MoreQuantilesThanNumbers(|factors|, n))
    else
      var quantiles := QuantilesOf(sorted, factors);
      assert quantiles.Success? ==> forall i :: 0 <= i < |quantiles.value| ==> quantiles.value[i].value in numbers by {
        if quantiles.Success? {
          forall i | 0 <= i < |quantiles.value|
            ensures quantiles.value[i].value in numbers
          {
            assert quantiles.value[i].value in multiset(sorted);
          }
        }
      }
      quantiles
  }

  /** The distribution of some numbers: their quantiles and their count. */
  function FromNumbers(numbers: seq<nat>, factors: seq<real>): (r: Result<DistributionStats, StatsError>)
    ensures r.Success? <==> QuantilesDefined(|numbers|, factors)
    ensures r.Success? ==> r.value.sampleSize == |numbers| && |r.value.quantiles| == |factors|
    ensures r.Success? ==> forall i :: 0 <= i < |factors| ==> r.value.quantiles[i].factor == factors[i]
  {
    var quantiles :- CalculateQuants(numbers, factors);
    Success(DistributionStats(quantiles, |numbers|))
  }

  // ---------------------------------------------------------------------------
  // Properties of the quantiles
  // ---------------------------------------------------------------------------

  /** Factors in the closed unit interval. */
  predicate UnitFactors(factors: seq<real>) {
    forall i :: 0 <= i < |factors| ==> 0.0 <= factors[i] <= 1.0
  }

  /** A factor in [0, 1] never ranks beyond the last observation. */
  lemma RankInBounds(n: nat, f: real)
    requires 0.0 <= f <= 1.0
    ensures Rank(n, f) <= n
    ensures n > 0 ==> RankIndex(n, f) < n
  {
    assert n as real * f <= n as real * 1.0;
    assert (n as real * f + 0.5).Floor <= n;
  }

  /** With factors in [0, 1] and at least as many numbers as factors, every
      quantile lookup succeeds. */
  lemma UnitFactorsAreDefined(numbers: seq<nat>, factors: seq<real>)
    requires UnitFactors(factors) && |factors| <= |numbers|
    ensures CalculateQuants(numbers, factors).Success?
  {
    forall i | 0 <= i < |factors|
      ensures Rank(|numbers|, factors[i]) <= |numbers|
    {
      RankInBounds(|numbers|, factors[i]);
    }
  }

  /** The rank, and with it the index, never decreases as the factor grows. */
  lemma RankMonotone(n: nat, f: real, g: real)
    requires f <= g
    ensures Rank(n, f) <= Rank(n, g)
    ensures RankIndex(n, f) <= RankIndex(n, g)
  {
    var a, b := n as real * f + 0.5, n as real * g + 0.5;
    assert a <= b by {
      var d := g - f;
      assert d >= 0.0 && n as real * d >= 0.0;
      assert n as real * g == n as real * f + n as real * d;
    }
    assert a.Floor <= b.Floor by {
      assert a.Floor as real <= a <= b < b.Floor as real + 1.0;
    }
  }

  /** A factor whose rank is at most 1 (in particular 0) yields the least
      observation. */
  lemma LowFactorGivesMinimum(numbers: seq<nat>, factors: seq<real>, i: nat)
    requires QuantilesDefined(|numbers|, factors)
    requires i < |factors| && Rank(|numbers|, factors[i]) <= 1
    ensures forall x :: x in numbers ==> CalculateQuants(numbers, factors).value[i].value <= x
  {
    var sorted := Sort(numbers);
    forall x | x in numbers
      ensures sorted[0] <= x
    {
      assert x in multiset(sorted);
      SortedHeadIsLeast(sorted, x);
    }
  }

  /** The factor 1 yields the greatest observation. */
  lemma UnitFactorGivesMaximum(numbers: seq<nat>, factors: seq<real>, i: nat)
    requires QuantilesDefined(|numbers|, factors)
    requires i < |factors| && factors[i] == 1.0
    ensures forall x :: x in numbers ==> x <= CalculateQuants(numbers, factors).value[i].value
  {
    var sorted := Sort(numbers);
    assert Rank(|numbers|, 1.0) == |numbers|;
    forall x | x in numbers
      ensures x <= sorted[|sorted| - 1]
    {
      assert x in multiset(sorted);
      var k :| 0 <= k < |sorted| && sorted[k] == x;
    }
  }

  /** Quantiles of ascending factors are non-decreasing, as "the fraction of
      observations at most the value" requires. */
  lemma QuantilesMonotone(numbers: seq<nat>, factors: seq<real>, i: nat, j: nat)
    requires QuantilesDefined(|numbers|, factors)
    requires i < |factors| && j < |factors|
    ensures factors[i] <= factors[j] ==>
              CalculateQuants(numbers, factors).value[i].value <= CalculateQuants(numbers, factors).value[j].value
  {
    if factors[i] <= factors[j] {
      RankMonotone(|numbers|, factors[i], factors[j]);
    }
  }

  /** The quantile at index `i` splits the sorted observations: all of the
      first `Rank` of them are at most its value and all from its index on are
      at least its value. */
  lemma QuantileSplitsSorted(numbers: seq<nat>, factors: seq<real>, i: nat)
    requires QuantilesDefined(|numbers|, factors)
    requires i < |factors|
    ensures var v := CalculateQuants(numbers, factors).value[i].value;
            var k := RankIndex(|numbers|, factors[i]);
            && (forall j :: 0 <= j <= k ==> Sort(numbers)[j] <= v)
            && (forall j :: k <= j < |numbers| ==> v <= Sort(numbers)[j])
  {
  }

  /** What the factor of a quantile means: at least `Rank` of the
      observations, and at least one, are at most the quantile's value. As the
      rank is `n * f` rounded to the nearest whole number, this is a fraction
      `f` of the observations up to half an observation. */
  lemma QuantileCoversFraction(numbers: seq<nat>, factors: seq<real>, i: nat)
    requires QuantilesDefined(|numbers|, factors)
    requires i < |factors|
    ensures var v := CalculateQuants(numbers, factors).value[i].value;
            && CountAtMost(numbers, v) >= Rank(|numbers|, factors[i])
            && CountAtMost(numbers, v) >= 1
  {
    var n, f := |numbers|, factors[i];
    var v := CalculateQuants(numbers, factors).value[i].value;
    var sorted := Sort(numbers);
    CountAtMostPrefix(sorted, RankIndex(n, f) + 1, v);
    CountAtMostPermutation(sorted, numbers, v);
  }

  /** A count of at least the rank, and at least one, falls short of the
      fraction `f` of `n` observations by less than half an observation. */
  lemma CoverageWithinHalf(c: nat, n: nat, f: real)
    requires c >= Rank(n, f) && c >= 1
    ensures c as real + 0.5 > n as real * f
  {
  }

  /** The shortfall happens: of the observations 1 to 4, in any order, the
      factor 0.3 has rank round(1.2) = 1 and yields 1, yet only a quarter of
      the observations, less than 0.3 of them, are at most 1. */
  lemma RoundedRankFallsShort(numbers: seq<nat>)
    requires multiset(numbers) == multiset{1, 2, 3, 4}
    ensures CalculateQuants(numbers, [0.3]) == Success([Quantile(0.3, 1)])
    ensures CountAtMost(numbers, 1) as real < |numbers| as real * 0.3
  {
    FourObservations(numbers);
    CountAtMostPermutation([1, 2, 3, 4], numbers, 1);
    OneToFourCount();
    assert |numbers| as real * 0.3 == 1.2;
  }

  /** The quantile half of `RoundedRankFallsShort`. */
  lemma FourObservations(numbers: seq<nat>)
    requires multiset(numbers) == multiset{1, 2, 3, 4}
    ensures |numbers| == 4
    ensures CalculateQuants(numbers, [0.3]) == Success([Quantile(0.3, 1)])
  {
    var sorted: seq<nat> := [1, 2, 3, 4];
    assert |numbers| == 4 by {
      assert |numbers| == |multiset(numbers)|;
    }
    assert multiset(sorted) == multiset{1, 2, 3, 4};
    assert Sorted(sorted);
    QuantilesFromSortedPermutation(numbers, sorted, [0.3]);
    OneToFourQuantile();
  }

  /** Exactly one of the observations 1 to 4 is at most 1. */
  lemma OneToFourCount()
    ensures CountAtMost([1, 2, 3, 4], 1) == 1
  {
    var s: seq<nat> := [1, 2, 3, 4];
    assert CountAtMost(s[3..], 1) == 0;
    assert CountAtMost(s[2..], 1) == 0;
    assert CountAtMost(s[1..], 1) == 0;
  }

  /** The lookup of `RoundedRankFallsShort` in the sorted observations. */
  lemma OneToFourQuantile()
    ensures QuantilesOf([1, 2, 3, 4], [0.3]) == Success([Quantile(0.3, 1)])
  {
    assert RankIndex(4, 0.3) == 0 by {
      assert 4 as real * 0.3 + 0.5 == 1.7;
    }
    var r := QuantilesOf([1, 2, 3, 4], [0.3]);
    assert r.Success?;
    assert r.value[0] == Quantile(0.3, 1);
    assert r.value == [Quantile(0.3, 1)];
  }

  /** Quantiles depend only on the multiset of observations, not on their
      order. */
  lemma QuantilesIgnoreOrder(xs: seq<nat>, ys: seq<nat>, factors: seq<real>)
    requires multiset(xs) == multiset(ys)
    ensures CalculateQuants(xs, factors) == CalculateQuants(ys, factors)
  {
    assert |xs| == |multiset(xs)| == |multiset(ys)| == |ys|;
    SortIgnoresOrder(xs, ys);
  }

  /** The quantiles are those looked up in any sorted permutation of the
      observations. */
  lemma QuantilesFromSortedPermutation(numbers: seq<nat>, sorted: seq<nat>, factors: seq<real>)
    requires Sorted(sorted) && multiset(sorted) == multiset(numbers)
    requires |factors| <= |numbers|
    ensures CalculateQuants(numbers, factors) == QuantilesOf(sorted, factors)
  {
    SortIsTheSortedPermutation(numbers, sorted);
  }

  /** The observations 1 to 5, in any order: the factor 0 gives the least,
      0.5 the third (2.5 rounds up to rank 3) and 1 the greatest. */
  lemma FiveObservations(numbers: seq<nat>)
    requires multiset(numbers) == multiset{1, 2, 3, 4, 5}
    ensures CalculateQuants(numbers, [0.0, 0.5, 1.0])
         == Success([Quantile(0.0, 1), Quantile(0.5, 3), Quantile(1.0, 5)])
  {
    var sorted: seq<nat> := [1, 2, 3, 4, 5];
    assert |numbers| == 5 by {
      assert |numbers| == |multiset(numbers)|;
    }
    assert multiset(sorted) == multiset{1, 2, 3, 4, 5};
    assert Sorted(sorted);
    QuantilesFromSortedPermutation(numbers, sorted, [0.0, 0.5, 1.0]);
    OneToFiveQuantiles();
  }

  /** The lookups of `FiveObservations` in the sorted observations. */
  lemma OneToFiveQuantiles()
    ensures QuantilesOf([1, 2, 3, 4, 5], [0.0, 0.5, 1.0])
         == Success([Quantile(0.0, 1), Quantile(0.5, 3), Quantile(1.0, 5)])
  {
    assert RankIndex(5, 0.0) == 0 by {
      assert 5 as real * 0.0 + 0.5 == 0.5;
    }
    assert RankIndex(5, 0.5) == 2 by {
      assert 5 as real * 0.5 + 0.5 == 3.0;
    }
    assert RankIndex(5, 1.0) == 4 by {
      assert 5 as real * 1.0 + 0.5 == 5.5;
    }
    var sorted: seq<nat>, factors := [1, 2, 3, 4, 5], [0.0, 0.5, 1.0];
    var expected := [Quantile(0.0, 1), Quantile(0.5, 3), Quantile(1.0, 5)];
    assert forall i :: 0 <= i < |factors| ==> RankIndex(|sorted|, factors[i]) < |sorted|;
    var r := QuantilesOf(sorted, factors);
    assert forall i :: 0 <= i < 3 ==> r.value[i] == expected[i];
    assert r.value == expected;
  }

  // ---------------------------------------------------------------------------
  // Alignment statistics
  // ---------------------------------------------------------------------------

  /** The four per-read metrics that are summarised. */
  datatype Metric = Length | Quality | Score | Distance

  /** One metric of one read; the mapping quality is widened from a byte. */
  function MetricOf(data: AlnData, metric: Metric): nat {
    match metric
    case Length => data.length
    case Quality => data.mapq
    case Score => data.score
    case Distance => data.distance
  }

  /** The column of one metric over all reads, in read order. */
  function Column(data: seq<AlnData>, metric: Metric): seq<nat> {
    seq(|data|, i requires 0 <= i < |data| => MetricOf(data[i], metric))
  }

  /** Statistics of the seen alignments: one distribution per metric. */
  datatype AlnStats = AlnStats(
    lengthDistribution: DistributionStats,
    qualityDistribution: DistributionStats,
    scoreDistribution: DistributionStats,
    editingDistanceDistribution: DistributionStats)

  /** `stats` holds the distributions of the four columns of `data`, all taken
      over the same factors. */
  predicate IsStatsOf(stats: AlnStats, data: seq<AlnData>, factors: seq<real>) {
    && FromNumbers(Column(data, Length), factors) == Success(stats.lengthDistribution)
    && FromNumbers(Column(data, Quality), factors) == Success(stats.qualityDistribution)
    && FromNumbers(Column(data, Score), factors) == Success(stats.scoreDistribution)
    && FromNumbers(Column(data, Distance), factors) == Success(stats.editingDistanceDistribution)
  }

  /** Splits the reads into four parallel columns in one pass: the i-th entry
      of each column is the corresponding metric of the i-th read. */
  method SplitColumns(data: seq<AlnData>)
    returns (lengths: seq<nat>, qualities: seq<nat>, scores: seq<nat>, distances: seq<nat>)
    ensures lengths == Column(data, Length)
    ensures qualities == Column(data, Quality)
    ensures scores == Column(data, Score)
    ensures distances == Column(data, Distance)
  {
    lengths, qualities, scores, distances := [], [], [], [];
    for i := 0 to |data|
      invariant lengths == Column(data[..i], Length)
      invariant qualities == Column(data[..i], Quality)
      invariant scores == Column(data[..i], Score)
      invariant distances == Column(data[..i], Distance)
    {
      assert data[..i + 1] == data[..i] + [data[i]];
      lengths := lengths + [data[i].length];
      qualities := qualities + [data[i].mapq];
      scores := scores + [data[i].score];
      distances := distances + [data[i].distance];
    }
    assert data[..|data|] == data;
  }

  /** The four distributions of the reads, over the same factors. Each column
      has one entry per read, so they all fail or all succeed together. */
  method CalculateDistributions(data: seq<AlnData>, factors: seq<real>)
    returns (r: Result<(DistributionStats, DistributionStats, DistributionStats, DistributionStats), StatsError>)
    ensures r.Success? <==> QuantilesDefined(|data|, factors)
    ensures r.Success? ==> IsStatsOf(AlnStats(r.value.0, r.value.1, r.value.2, r.value.3), data, factors)
  {
    var lengths, qualities, scores, distances := SplitColumns(data);
    var lengthDistribution :- FromNumbers(lengths, factors);
    // the other columns are as long as the first, so they cannot fail now
    var qualityDistribution := FromNumbers(qualities, factors).value;
    var scoreDistribution := FromNumbers(scores, factors).value;
    var editingDistanceDistribution := FromNumbers(distances, factors).value;
    return Success((lengthDistribution, qualityDistribution, scoreDistribution, editingDistanceDistribution));
  }

  /** Alignment statistics of a list of reads. */
  method FromData(data: seq<AlnData>, factors: seq<real>) returns (r: Result<AlnStats, StatsError>)
    ensures r.Success? <==> QuantilesDefined(|data|, factors)
    ensures r.Success? ==> IsStatsOf(r.value, data, factors)
    ensures r.Success? ==>
              && r.value.lengthDistribution.sampleSize == |data|
              && r.value.qualityDistribution.sampleSize == |data|
              && r.value.scoreDistribution.sampleSize == |data|
              && r.value.editingDistanceDistribution.sampleSize == |data|
  {
    var distributions :- CalculateDistributions(data, factors);
    var (lengthDistribution, qualityDistribution, scoreDistribution, editingDistanceDistribution) := distributions;
    return Success(AlnStats(lengthDistribution, qualityDistribution, scoreDistribution, editingDistanceDistribution));
  }

  /** The number of reads the statistics were built from. */
  function GetSampleSize(stats: AlnStats): (r: nat)
    ensures forall data, factors :: IsStatsOf(stats, data, factors) ==> r == |data|
  {
    stats.lengthDistribution.sampleSize
  }
}
