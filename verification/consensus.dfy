/** The result of a consensus calculation, `src/accord/data/consensus.rs`:
    the per-position base counts are expanded into one count vector per base,
    and the read totals are derived from the analysis and the statistics. */
module Consensus {
  import opened Stats

  /** A base as the pileup stores it: one byte. */
  type Byte = b: int | 0 <= b < 0x100

  /** Counts of each base observed at one reference position. */
  type Counter = map<Byte, nat>

  /** One counter per reference position. */
  type BaseCounts = seq<Counter>

  /** Count vector per base character, indexed by reference position. */
  type ExpandedBaseCounts = map<char, seq<nat>>

  /** A labelled sequence of bases. */
  datatype Seq = Seq(name: string, bases: seq<Byte>)

  /** What the pileup analysis hands over: per-position coverage and base
      counts, and the reads it has seen (admitted or not). */
  datatype AnalysisResult = AnalysisResult(coverage: seq<nat>, baseCounts: BaseCounts, readsSeen: seq<string>)

  /** Summary of a consensus calculation. */
  datatype Consensus = Consensus(
    refSeq: Seq,
    alnPath: string,
    consensusSeq: Seq,
    alnStats: AlnStats,
    coverage: seq<nat>,
    baseCounts: ExpandedBaseCounts,
    totalReads: nat)

  /** The character of a base byte (a Latin-1 code point). */
  function BaseChar(b: Byte): char {
    b as char
  }

  /** Distinct bytes give distinct characters. */
  lemma BaseCharInjective(a: Byte, b: Byte)
    requires BaseChar(a) == BaseChar(b)
    ensures a == b
  {
    assert BaseChar(a) as int == a;
  }

  /** The bases with an entry at any of the first `upto` positions. */
  function BasesUpTo(counts: BaseCounts, upto: nat): set<Byte>
    requires upto <= |counts|
  {
    set p, b | 0 <= p < upto && b in counts[p] :: b
  }

  /** The bases with an entry at any position. */
  function Bases(counts: BaseCounts): set<Byte> {
    BasesUpTo(counts, |counts|)
  }

  /** The characters of a set of bases. */
  function Chars(bases: set<Byte>): set<char> {
    set b | b in bases :: BaseChar(b)
  }

  /** `expanded` is the transposition of `counts`: one vector per base that
      occurs anywhere, each as long as the reference, holding the base's count
      where the base has an entry and 0 where it has none. */
  ghost predicate IsExpansion(counts: BaseCounts, expanded: ExpandedBaseCounts) {
    && expanded.Keys == Chars(Bases(counts))
    && (forall c :: c in expanded ==> |expanded[c]| == |counts|)
    && (forall p, b :: 0 <= p < |counts| && b in counts[p] ==>
          BaseChar(b) in expanded && expanded[BaseChar(b)][p] == counts[p][b])
    && (forall p, b :: 0 <= p < |counts| && b in Bases(counts) && b !in counts[p] ==>
          BaseChar(b) in expanded && expanded[BaseChar(b)][p] == 0)
  }

  /** Positions before `pos` are transposed, and so are the bases `done` of
      position `pos`; every vector already created is zero elsewhere. */
  ghost predicate PartlyExpanded(counts: BaseCounts, expanded: ExpandedBaseCounts, pos: nat, done: set<Byte>)
    requires pos <= |counts|
  {
    && (pos == |counts| ==> done == {})
    && (pos < |counts| ==> done <= counts[pos].Keys)
    && expanded.Keys == Chars(BasesUpTo(counts, pos) + done)
    && (forall c :: c in expanded ==> |expanded[c]| == |counts|)
    && (forall p, b :: 0 <= p < pos && b in counts[p] ==>
          BaseChar(b) in expanded && expanded[BaseChar(b)][p] == counts[p][b])
    && (forall b :: b in done ==>
          BaseChar(b) in expanded && expanded[BaseChar(b)][pos] == counts[pos][b])
    && (forall p, b :: Unwritten(counts, pos, done, p, b) ==>
          BaseChar(b) in expanded && expanded[BaseChar(b)][p] == 0)
  }

  /** Base `b` already has a vector, but its cell at position `p` has not
      been written (yet, or at all). */
  ghost predicate Unwritten(counts: BaseCounts, pos: nat, done: set<Byte>, p: int, b: Byte)
    requires pos <= |counts|
  {
    && 0 <= p < |counts|
    && b in BasesUpTo(counts, pos) + done
    && !(p < pos && b in counts[p])
    && !(p == pos && b in done)
  }

  /** The bases up to position `pos + 1` are those up to `pos` and those of
      position `pos`. */
  lemma BasesUpToNext(counts: BaseCounts, pos: nat)
    requires pos < |counts|
    ensures BasesUpTo(counts, pos + 1) == BasesUpTo(counts, pos) + counts[pos].Keys
  {
    forall b | b in BasesUpTo(counts, pos + 1)
      ensures b in BasesUpTo(counts, pos) + counts[pos].Keys
    {
      var p :| 0 <= p < pos + 1 && b in counts[p];
      if p < pos {
        assert b in BasesUpTo(counts, pos);
      }
    }
    forall b | b in counts[pos].Keys
      ensures b in BasesUpTo(counts, pos + 1)
    {
      assert 0 <= pos < pos + 1 && b in counts[pos];
    }
    forall b | b in BasesUpTo(counts, pos)
      ensures b in BasesUpTo(counts, pos + 1)
    {
      var p :| 0 <= p < pos && b in counts[p];
      assert 0 <= p < pos + 1 && b in counts[p];
    }
  }

  /** Writes `count` into the vector of `base` at `pos`, creating the vector
      zero-filled, as long as the reference, if the base has none yet. */
  function WriteCell(expanded: ExpandedBaseCounts, length: nat, base: char, pos: nat, count: nat): ExpandedBaseCounts
    requires pos < length
    requires forall c :: c in expanded ==> |expanded[c]| == length
  {
    var baseCoverage := if base in expanded then expanded[base] else seq(length, _ => 0);
    expanded[base := baseCoverage[pos := count]]
  }

  /** Writing the cell of one more base of position `pos` extends the
      partial transposition by that base. */
  lemma WriteCellExtends(counts: BaseCounts, expanded: ExpandedBaseCounts, pos: nat, done: set<Byte>, b: Byte)
    requires pos < |counts| && b in counts[pos] && b !in done
    requires PartlyExpanded(counts, expanded, pos, done)
    ensures PartlyExpanded(counts, WriteCell(expanded, |counts|, BaseChar(b), pos, counts[pos][b]), pos, done + {b})
  {
    var e' := WriteCell(expanded, |counts|, BaseChar(b), pos, counts[pos][b]);
    var done' := done + {b};
    assert e'.Keys == Chars(BasesUpTo(counts, pos) + done');
    forall b' | b' != b
      ensures BaseChar(b') != BaseChar(b)
    {
      if BaseChar(b') == BaseChar(b) {
        BaseCharInjective(b', b);
      }
    }
    assert forall p, b' :: 0 <= p < pos && b' in counts[p] ==>
             BaseChar(b') in e' && e'[BaseChar(b')][p] == counts[p][b'];
    assert forall b' :: b' in done' ==>
             BaseChar(b') in e' && e'[BaseChar(b')][pos] == counts[pos][b'];
    forall p, b' | Unwritten(counts, pos, done', p, b')
      ensures BaseChar(b') in e' && e'[BaseChar(b')][p] == 0
    {
      assert p != pos || b' != b;
      if b' == b {
        if BaseChar(b) in expanded {
          var x :| x in BasesUpTo(counts, pos) + done && BaseChar(x) == BaseChar(b);
          BaseCharInjective(x, b);
          assert Unwritten(counts, pos, done, p, b);
        }
      } else {
        assert Unwritten(counts, pos, done, p, b');
        assert BaseChar(b') != BaseChar(b);
        assert e'[BaseChar(b')] == expanded[BaseChar(b')];
      }
    }
  }

  /** Once every base of position `pos` is written, the next position starts
      with nothing written. */
  lemma NextPosition(counts: BaseCounts, expanded: ExpandedBaseCounts, pos: nat)
    requires pos < |counts|
    requires PartlyExpanded(counts, expanded, pos, counts[pos].Keys)
    ensures PartlyExpanded(counts, expanded, pos + 1, {})
  {
    BasesUpToNext(counts, pos);
  }

  /** Nothing is transposed before the first position. */
  lemma NothingExpanded(counts: BaseCounts)
    ensures PartlyExpanded(counts, map[], 0, {})
  {
    assert BasesUpTo(counts, 0) == {};
  }

  /** With every position transposed, the partial transposition is the
      whole one. */
  lemma FullyExpanded(counts: BaseCounts, expanded: ExpandedBaseCounts)
    requires PartlyExpanded(counts, expanded, |counts|, {})
    ensures IsExpansion(counts, expanded)
  {
    forall p, b | 0 <= p < |counts| && b in Bases(counts) && b !in counts[p]
      ensures BaseChar(b) in expanded && expanded[BaseChar(b)][p] == 0
    {
      assert Unwritten(counts, |counts|, {}, p, b);
    }
  }

  /** Turns the per-position base counters into one count vector per base,
      filled with zeros where a base has no entry. Positions are visited in
      order; the bases of one position are visited in an arbitrary order, as
      a hash map yields them, and the result does not depend on it. */
  method ExpandBaseCounts(counts: BaseCounts) returns (expanded: ExpandedBaseCounts)
    ensures IsExpansion(counts, expanded)
  {
    expanded := map[];
    NothingExpanded(counts);
    for pos := 0 to |counts|
      invariant PartlyExpanded(counts, expanded, pos, {})
    {
      var counter := counts[pos];
      var pending := counter.Keys;
      ghost var done: set<Byte> := {};
      while pending != {}
        invariant done == counter.Keys - pending
        invariant PartlyExpanded(counts, expanded, pos, done)
        decreases pending
      {
        var baseByte :| baseByte in pending;
        WriteCellExtends(counts, expanded, pos, done, baseByte);
        expanded := WriteCell(expanded, |counts|, BaseChar(baseByte), pos, counter[baseByte]);
        pending := pending - {baseByte};
        done := done + {baseByte};
      }
      NextPosition(counts, expanded, pos);
    }
    FullyExpanded(counts, expanded);
  }

  /** The transposition is unique. Whatever order a counter's bases are
      visited in, each cell is written at most once, so every run of
      `ExpandBaseCounts` yields the same table. */
  lemma ExpansionIsUnique(counts: BaseCounts, e1: ExpandedBaseCounts, e2: ExpandedBaseCounts)
    requires IsExpansion(counts, e1) && IsExpansion(counts, e2)
    ensures e1 == e2
  {
    forall c | c in e1
      ensures e1[c] == e2[c]
    {
      var b :| b in Bases(counts) && BaseChar(b) == c;
      forall p | 0 <= p < |counts|
        ensures e1[c][p] == e2[c][p]
      {
        if b in counts[p] {
          assert e1[c][p] == counts[p][b] == e2[c][p];
        } else {
          assert e1[c][p] == 0 == e2[c][p];
        }
      }
    }
  }

  /** Assembles the summary of a consensus calculation from the analysis of
      the reads: the coverage is kept as it is, the base counts are expanded
      and the total is the number of reads seen. */
  method New(refSeq: Seq, alnPath: string, consensusSeq: Seq, alnStats: AlnStats, analysis: AnalysisResult)
    returns (c: Consensus)
    ensures c.refSeq == refSeq && c.alnPath == alnPath && c.consensusSeq == consensusSeq
    ensures c.alnStats == alnStats
    ensures c.coverage == analysis.coverage
    ensures IsExpansion(analysis.baseCounts, c.baseCounts)
    ensures c.totalReads == |analysis.readsSeen|
  {
    var coverage := analysis.coverage;
    var baseCounts := ExpandBaseCounts(analysis.baseCounts);
    var totalReads := |analysis.readsSeen|;
    c := Consensus(refSeq, alnPath, consensusSeq, alnStats, coverage, baseCounts, totalReads);
  }

  /** Number of reads considered in the consensus generation: the number of
      reads the alignment statistics were built from. */
  function ValidReads(c: Consensus): (r: nat)
    ensures forall data, factors :: IsStatsOf(c.alnStats, data, factors) ==> r == |data|
  {
    GetSampleSize(c.alnStats)
  }
}
