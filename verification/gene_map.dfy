/** `getTxpToGeneMap` (src/AlevinHash.cpp; line numbers below refer to it):
    the transcript catalog built from the parsed names, the fold over the
    (transcript, gene) pairs of the gene-map file that numbers genes in order
    of first sight, and the final check that every transcript index received
    a gene. */
module GeneMap {
  import opened Wrappers

  /** One `transcript gene` pair of the gene-map file. */
  datatype Pair = Pair(txp: string, gene: string)

  /** The two tables the function fills (`txpToGeneMap`, `geneIdxMap`) and
      the next fresh gene index (`geneCount`). */
  datatype GeneMaps = GeneMaps(txpToGene: map<nat, nat>, geneIdx: map<string, nat>, geneCount: nat)

  /** The empty tables the only caller passes in (lines 204-205). */
  function NoMaps(): GeneMaps
  {
    GeneMaps(map[], map[], 0)
  }

  // ------------------------------------------------------------ the catalog

  /** `txpIdxMap` (lines 9-13): every listed name to its index, assigned in
      order, so a repeated name keeps its last index. */
  function Catalog(ts: seq<string>): map<string, nat>
    decreases |ts|
  {
    if |ts| == 0 then map[] else Catalog(ts[..|ts| - 1])[ts[|ts| - 1] := |ts| - 1]
  }

  /** `i` is the last position of the name it holds. */
  predicate LastAt(ts: seq<string>, i: nat)
  {
    i < |ts| && forall j :: i < j < |ts| ==> ts[j] != ts[i]
  }

  /** No name is listed twice. */
  predicate Distinct(ts: seq<string>)
  {
    forall i, j :: 0 <= i < j < |ts| ==> ts[i] != ts[j]
  }

  /** The catalog holds exactly the listed names, each at its last position. */
  lemma {:induction false} CatalogSpec(ts: seq<string>)
    ensures forall name :: name in Catalog(ts) <==> name in ts
    ensures forall name :: name in Catalog(ts) ==> LastAt(ts, Catalog(ts)[name]) && ts[Catalog(ts)[name]] == name
    decreases |ts|
  {
    if |ts| > 0 {
      var n := |ts|;
      var init := ts[..n - 1];
      CatalogSpec(init);
      forall name
        ensures name in Catalog(ts) <==> name in ts
      {
        if name != ts[n - 1] {
          if name in ts {
            var i :| 0 <= i < n && ts[i] == name;
            assert init[i] == name;
          }
          if name in init {
            var i :| 0 <= i < n - 1 && init[i] == name;
            assert ts[i] == name;
          }
        }
      }
      forall name | name in Catalog(ts)
        ensures LastAt(ts, Catalog(ts)[name]) && ts[Catalog(ts)[name]] == name
      {
        if name != ts[n - 1] {
          var i := Catalog(init)[name];
          assert Catalog(ts)[name] == i;
          assert init[i] == ts[i];
        }
      }
    }
  }

  /** Every last position is the catalog index of the name it holds. */
  lemma CatalogLast(ts: seq<string>, i: nat)
    requires LastAt(ts, i)
    ensures ts[i] in Catalog(ts) && Catalog(ts)[ts[i]] == i
  {
    CatalogSpec(ts);
    assert ts[i] in ts;
    var c := Catalog(ts)[ts[i]];
    assert LastAt(ts, c) && ts[c] == ts[i];
  }

  /** With distinct names, every name's catalog index is its position. */
  lemma CatalogDistinct(ts: seq<string>)
    requires Distinct(ts)
    ensures forall i :: 0 <= i < |ts| ==> ts[i] in Catalog(ts) && Catalog(ts)[ts[i]] == i
  {
    forall i | 0 <= i < |ts|
      ensures ts[i] in Catalog(ts) && Catalog(ts)[ts[i]] == i
    {
      CatalogLast(ts, i);
    }
  }

  // ------------------------------------------------------------ the fold

  /** One pair (lines 19-35): a pair whose transcript is not listed changes
      nothing; otherwise the gene keeps its index or receives the next fresh
      one, and the transcript's entry is set to it, replacing any earlier one. */
  function Step(cat: map<string, nat>, st: GeneMaps, p: Pair): (st': GeneMaps)
    ensures p.txp !in cat ==> st' == st
    ensures p.txp in cat ==> p.gene in st'.geneIdx
                             && st'.txpToGene == st.txpToGene[cat[p.txp] := st'.geneIdx[p.gene]]
                             && st'.geneIdx.Keys == st.geneIdx.Keys + {p.gene}
    ensures forall g :: g in st.geneIdx ==> g in st'.geneIdx && st'.geneIdx[g] == st.geneIdx[g]
    ensures p.txp in cat && p.gene !in st.geneIdx
            ==> st'.geneIdx[p.gene] == st.geneCount && st'.geneCount == st.geneCount + 1
    ensures p.txp !in cat || p.gene in st.geneIdx ==> st'.geneCount == st.geneCount
  {
    if p.txp !in cat then st
    else
      var tid := cat[p.txp];
      if p.gene in st.geneIdx then
        GeneMaps(st.txpToGene[tid := st.geneIdx[p.gene]], st.geneIdx, st.geneCount)
      else
        GeneMaps(st.txpToGene[tid := st.geneCount], st.geneIdx[p.gene := st.geneCount], st.geneCount + 1)
  }

  /** The pairs in file order, from the given tables. */
  function Build(cat: map<string, nat>, pairs: seq<Pair>): (st: GeneMaps)
    ensures forall g :: g in st.geneIdx ==> st.geneIdx[g] < st.geneCount
    ensures forall tid :: tid in st.txpToGene ==> st.txpToGene[tid] < st.geneCount
    ensures st.txpToGene.Keys <= cat.Values
    decreases |pairs|
  {
    if |pairs| == 0 then NoMaps() else Step(cat, Build(cat, pairs[..|pairs| - 1]), pairs[|pairs| - 1])
  }

  /** Reading the last pair once more changes nothing: the source's loop
      tests for end of file before the read that finds it, so a file that
      ends in a line break hands the last pair over twice. */
  lemma StepTwice(cat: map<string, nat>, st: GeneMaps, p: Pair)
    ensures Step(cat, Step(cat, st, p), p) == Step(cat, st, p)
  {
    if p.txp in cat {
      var st' := Step(cat, st, p);
      var tid := cat[p.txp];
      assert st'.txpToGene[tid := st'.geneIdx[p.gene]] == st'.txpToGene;
    }
  }

  lemma TrailingRepeat(cat: map<string, nat>, pairs: seq<Pair>)
    requires |pairs| > 0
    ensures Build(cat, pairs + [pairs[|pairs| - 1]]) == Build(cat, pairs)
  {
    var all := pairs + [pairs[|pairs| - 1]];
    assert all[..|all| - 1] == pairs;
    var init := pairs[..|pairs| - 1];
    StepTwice(cat, Build(cat, init), pairs[|pairs| - 1]);
  }

  // ------------------------------------------------------------ gene numbering

  /** The genes of the pairs whose transcript is listed, in file order. */
  function KnownGenes(cat: map<string, nat>, pairs: seq<Pair>): seq<string>
    decreases |pairs|
  {
    if |pairs| == 0 then []
    else
      var p := pairs[|pairs| - 1];
      KnownGenes(cat, pairs[..|pairs| - 1]) + (if p.txp in cat then [p.gene] else [])
  }

  /** The distinct words of a list, in order of first appearance. */
  function FirstSeen(ws: seq<string>): seq<string>
    decreases |ws|
  {
    if |ws| == 0 then []
    else
      var fs := FirstSeen(ws[..|ws| - 1]);
      if ws[|ws| - 1] in fs then fs else fs + [ws[|ws| - 1]]
  }

  /** The words first seen are distinct and are exactly the words of the list. */
  lemma {:induction false} FirstSeenSpec(ws: seq<string>)
    ensures Distinct(FirstSeen(ws))
    ensures forall w :: w in FirstSeen(ws) <==> w in ws
    decreases |ws|
  {
    if |ws| > 0 {
      var init := ws[..|ws| - 1];
      FirstSeenSpec(init);
      assert ws == init + [ws[|ws| - 1]];
    }
  }

  /** A gene's index is its position among the distinct genes of the listed
      transcripts' pairs, in order of first sight; the next fresh index is
      their number. */
  lemma {:induction false} BuildGenes(cat: map<string, nat>, pairs: seq<Pair>)
    ensures Build(cat, pairs).geneCount == |FirstSeen(KnownGenes(cat, pairs))|
    ensures forall g :: g in Build(cat, pairs).geneIdx <==> g in FirstSeen(KnownGenes(cat, pairs))
    ensures forall k :: 0 <= k < |FirstSeen(KnownGenes(cat, pairs))|
              ==> Build(cat, pairs).geneIdx[FirstSeen(KnownGenes(cat, pairs))[k]] == k
    decreases |pairs|
  {
    if |pairs| > 0 {
      var init := pairs[..|pairs| - 1];
      var p := pairs[|pairs| - 1];
      BuildGenes(cat, init);
      var fs0 := FirstSeen(KnownGenes(cat, init));
      var st0 := Build(cat, init);
      var kg := KnownGenes(cat, pairs);
      if p.txp !in cat {
        assert kg == KnownGenes(cat, init);
      } else {
        assert kg[..|kg| - 1] == KnownGenes(cat, init);
        assert kg[|kg| - 1] == p.gene;
        if p.gene in fs0 {
          assert FirstSeen(kg) == fs0;
        } else {
          var fs := fs0 + [p.gene];
          assert FirstSeen(kg) == fs;
          assert Build(cat, pairs).geneIdx == st0.geneIdx[p.gene := |fs0|];
          forall k | 0 <= k < |fs|
            ensures Build(cat, pairs).geneIdx[fs[k]] == k
          {
            if k < |fs0| {
              assert fs[k] == fs0[k];
            }
          }
          forall g
            ensures g in Build(cat, pairs).geneIdx <==> g in fs
          {
          }
        }
      }
    }
  }

  /** Some gene holds index `k`. */
  ghost predicate IndexHeld(geneIdx: map<string, nat>, k: nat)
  {
    exists g :: g in geneIdx && geneIdx[g] == k
  }

  /** Gene indices are dense and one-to-one: the stored indices are exactly
      `0 .. geneCount - 1`, each held by one gene. */
  lemma GeneIndicesDense(cat: map<string, nat>, pairs: seq<Pair>)
    ensures forall g :: g in Build(cat, pairs).geneIdx ==> Build(cat, pairs).geneIdx[g] < Build(cat, pairs).geneCount
    ensures forall k :: 0 <= k < Build(cat, pairs).geneCount ==> IndexHeld(Build(cat, pairs).geneIdx, k)
    ensures forall g1, g2 :: g1 in Build(cat, pairs).geneIdx && g2 in Build(cat, pairs).geneIdx && g1 != g2
              ==> Build(cat, pairs).geneIdx[g1] != Build(cat, pairs).geneIdx[g2]
  {
    var st := Build(cat, pairs);
    var fs := FirstSeen(KnownGenes(cat, pairs));
    BuildGenes(cat, pairs);
    forall g | g in st.geneIdx
      ensures exists k :: 0 <= k < |fs| && fs[k] == g && st.geneIdx[g] == k
    {
      var k :| 0 <= k < |fs| && fs[k] == g;
    }
    forall k | 0 <= k < st.geneCount
      ensures IndexHeld(st.geneIdx, k)
    {
      assert fs[k] in fs;
      assert fs[k] in st.geneIdx && st.geneIdx[fs[k]] == k;
    }
  }

  /** A gene keeps its index once it has one: every earlier table of genes
      is contained in every later one. */
  lemma {:induction false} GeneIndexStable(cat: map<string, nat>, pairs: seq<Pair>, m: nat)
    requires m <= |pairs|
    ensures forall g :: g in Build(cat, pairs[..m]).geneIdx
              ==> g in Build(cat, pairs).geneIdx && Build(cat, pairs).geneIdx[g] == Build(cat, pairs[..m]).geneIdx[g]
    decreases |pairs|
  {
    if m < |pairs| {
      var init := pairs[..|pairs| - 1];
      assert init[..m] == pairs[..m];
      GeneIndexStable(cat, init, m);
    } else {
      assert pairs[..m] == pairs;
    }
  }

  // ------------------------------------------------------------ transcript entries

  /** A transcript index has an entry exactly when some pair names a listed
      transcript with that catalog index. */
  lemma {:induction false} TxpKeys(cat: map<string, nat>, pairs: seq<Pair>)
    ensures forall tid :: tid in Build(cat, pairs).txpToGene
              <==> exists i :: 0 <= i < |pairs| && pairs[i].txp in cat && cat[pairs[i].txp] == tid
    decreases |pairs|
  {
    if |pairs| > 0 {
      var init := pairs[..|pairs| - 1];
      TxpKeys(cat, init);
      forall tid
        ensures tid in Build(cat, pairs).txpToGene
                <==> exists i :: 0 <= i < |pairs| && pairs[i].txp in cat && cat[pairs[i].txp] == tid
      {
        if exists i :: 0 <= i < |pairs| && pairs[i].txp in cat && cat[pairs[i].txp] == tid {
          var i :| 0 <= i < |pairs| && pairs[i].txp in cat && cat[pairs[i].txp] == tid;
          if i < |pairs| - 1 {
            assert init[i] == pairs[i];
          }
        }
        if exists i :: 0 <= i < |init| && init[i].txp in cat && cat[init[i].txp] == tid {
          var i :| 0 <= i < |init| && init[i].txp in cat && cat[init[i].txp] == tid;
          assert pairs[i] == init[i];
        }
      }
    }
  }

  /** A later pair overwrites an earlier one: a transcript's entry is the
      index of the gene of the last pair that names it. */
  lemma {:induction false} LastPairWins(cat: map<string, nat>, pairs: seq<Pair>, i: nat)
    requires i < |pairs| && pairs[i].txp in cat
    requires forall j :: i < j < |pairs| && pairs[j].txp in cat ==> cat[pairs[j].txp] != cat[pairs[i].txp]
    ensures cat[pairs[i].txp] in Build(cat, pairs).txpToGene && pairs[i].gene in Build(cat, pairs).geneIdx
    ensures Build(cat, pairs).txpToGene[cat[pairs[i].txp]] == Build(cat, pairs).geneIdx[pairs[i].gene]
    decreases |pairs|
  {
    var init := pairs[..|pairs| - 1];
    if i < |pairs| - 1 {
      assert init[i] == pairs[i];
      forall j | i < j < |init| && init[j].txp in cat
        ensures cat[init[j].txp] != cat[init[i].txp]
      {
        assert init[j] == pairs[j];
      }
      LastPairWins(cat, init, i);
    }
  }

  /** Every entry holds the index of some gene. */
  lemma {:induction false} TxpGenesNamed(cat: map<string, nat>, pairs: seq<Pair>)
    ensures forall tid :: tid in Build(cat, pairs).txpToGene
              ==> exists g :: g in Build(cat, pairs).geneIdx && Build(cat, pairs).txpToGene[tid] == Build(cat, pairs).geneIdx[g]
    decreases |pairs|
  {
    if |pairs| > 0 {
      var init := pairs[..|pairs| - 1];
      var p := pairs[|pairs| - 1];
      var st0 := Build(cat, init);
      var st := Build(cat, pairs);
      TxpGenesNamed(cat, init);
      forall tid | tid in st.txpToGene
        ensures exists g :: g in st.geneIdx && st.txpToGene[tid] == st.geneIdx[g]
      {
        if p.txp in cat && tid == cat[p.txp] {
          assert st.txpToGene[tid] == st.geneIdx[p.gene];
        } else {
          var g :| g in st0.geneIdx && st0.txpToGene[tid] == st0.geneIdx[g];
          assert st.txpToGene[tid] == st.geneIdx[g];
        }
      }
    }
  }

  // ------------------------------------------------------------ the check

  /** The transcript indices `0 .. n - 1`. */
  function Below(n: nat): set<nat>
  {
    if n == 0 then {} else Below(n - 1) + {n - 1}
  }

  lemma {:induction false} BelowSpec(n: nat)
    ensures forall k: nat :: k in Below(n) <==> k < n
    ensures |Below(n)| == n
  {
    if n > 0 {
      BelowSpec(n - 1);
      assert Below(n) == Below(n - 1) + {n - 1};
      assert n - 1 !in Below(n - 1);
    }
  }

  /** The part of a set missing from a larger one. */
  lemma SubsetCard(a: set<nat>, b: set<nat>)
    requires a <= b
    ensures |b - a| == |b| - |a|
    ensures |a| == |b| ==> a == b
  {
    assert b == a + (b - a);
    assert a * (b - a) == {};
  }

  /** `getTxpToGeneMap`: the tables, or the number of transcripts left
      without a gene (lines 39-45). */
  function GetTxpToGeneMap(transcripts: seq<string>, pairs: seq<Pair>): (r: Result<GeneMaps, nat>)
    ensures r.Success? ==> r.value.txpToGene.Keys == Below(|transcripts|)
    ensures r.Failure? ==> 0 < r.error <= |transcripts|
  {
    var st := Build(Catalog(transcripts), pairs);
    TxpKeysBelow(transcripts, pairs);
    BelowSpec(|transcripts|);
    SubsetCard(st.txpToGene.Keys, Below(|transcripts|));
    if |st.txpToGene| < |transcripts| then Failure(|transcripts| - |st.txpToGene|) else Success(st)
  }

  /** Every entry is keyed by a transcript index. */
  lemma TxpKeysBelow(transcripts: seq<string>, pairs: seq<Pair>)
    ensures Build(Catalog(transcripts), pairs).txpToGene.Keys <= Below(|transcripts|)
  {
    var cat := Catalog(transcripts);
    CatalogSpec(transcripts);
    TxpKeys(cat, pairs);
    BelowSpec(|transcripts|);
    forall tid | tid in Build(cat, pairs).txpToGene
      ensures tid in Below(|transcripts|)
    {
      var i :| 0 <= i < |pairs| && pairs[i].txp in cat && cat[pairs[i].txp] == tid;
    }
  }

  /** Transcript index `k` has an entry exactly when it is the last position
      of its name and some pair names that transcript. */
  lemma CoveredIff(transcripts: seq<string>, pairs: seq<Pair>, k: nat)
    requires k < |transcripts|
    ensures k in Build(Catalog(transcripts), pairs).txpToGene
            <==> LastAt(transcripts, k) && exists i :: 0 <= i < |pairs| && pairs[i].txp == transcripts[k]
  {
    var cat := Catalog(transcripts);
    CatalogSpec(transcripts);
    TxpKeys(cat, pairs);
    if LastAt(transcripts, k) {
      CatalogLast(transcripts, k);
    }
    if k in Build(cat, pairs).txpToGene {
      var i :| 0 <= i < |pairs| && pairs[i].txp in cat && cat[pairs[i].txp] == k;
    }
  }

  /** Every transcript is named by some pair. */
  predicate Covered(transcripts: seq<string>, pairs: seq<Pair>)
  {
    forall k :: 0 <= k < |transcripts| ==> exists i :: 0 <= i < |pairs| && pairs[i].txp == transcripts[k]
  }

  /** The check passes exactly when the transcript names are distinct and
      every one of them is named by some pair; a repeated name always fails,
      since its earlier index never receives a gene. */
  lemma GetSucceedsIff(transcripts: seq<string>, pairs: seq<Pair>)
    ensures GetTxpToGeneMap(transcripts, pairs).Success? <==> Distinct(transcripts) && Covered(transcripts, pairs)
  {
    var n := |transcripts|;
    var keys := Build(Catalog(transcripts), pairs).txpToGene.Keys;
    TxpKeysBelow(transcripts, pairs);
    BelowSpec(n);
    SubsetCard(keys, Below(n));
    if GetTxpToGeneMap(transcripts, pairs).Success? {
      assert keys == Below(n);
      forall k | 0 <= k < n
        ensures LastAt(transcripts, k) && exists i :: 0 <= i < |pairs| && pairs[i].txp == transcripts[k]
      {
        assert k in Below(n);
        CoveredIff(transcripts, pairs, k);
      }
      forall i, j | 0 <= i < j < n
        ensures transcripts[i] != transcripts[j]
      {
        assert LastAt(transcripts, i);
      }
    }
    if Distinct(transcripts) && Covered(transcripts, pairs) {
      forall k | k in Below(n)
        ensures k in keys
      {
        CoveredIff(transcripts, pairs, k);
      }
    }
  }

  /** On failure the reported number is the number of transcript indices
      left without a gene, and it is positive. */
  lemma GetFailureCounts(transcripts: seq<string>, pairs: seq<Pair>)
    ensures GetTxpToGeneMap(transcripts, pairs).Failure?
            ==> GetTxpToGeneMap(transcripts, pairs).error > 0
                && GetTxpToGeneMap(transcripts, pairs).error
                   == |Below(|transcripts|) - Build(Catalog(transcripts), pairs).txpToGene.Keys|
  {
    TxpKeysBelow(transcripts, pairs);
    BelowSpec(|transcripts|);
    SubsetCard(Build(Catalog(transcripts), pairs).txpToGene.Keys, Below(|transcripts|));
  }

  /** On success every transcript index has an entry, and every entry holds
      a gene index below the number of genes. */
  lemma GetSuccessComplete(transcripts: seq<string>, pairs: seq<Pair>)
    ensures GetTxpToGeneMap(transcripts, pairs).Success?
            ==> forall k :: 0 <= k < |transcripts| ==> k in GetTxpToGeneMap(transcripts, pairs).value.txpToGene
    ensures GetTxpToGeneMap(transcripts, pairs).Success?
            ==> forall tid :: tid in GetTxpToGeneMap(transcripts, pairs).value.txpToGene
                  ==> GetTxpToGeneMap(transcripts, pairs).value.txpToGene[tid]
                      < GetTxpToGeneMap(transcripts, pairs).value.geneCount
  {
    var cat := Catalog(transcripts);
    var st := Build(cat, pairs);
    var keys := st.txpToGene.Keys;
    TxpKeysBelow(transcripts, pairs);
    BelowSpec(|transcripts|);
    SubsetCard(keys, Below(|transcripts|));
    if GetTxpToGeneMap(transcripts, pairs).Success? {
      assert keys == Below(|transcripts|);
      forall k | 0 <= k < |transcripts|
        ensures k in st.txpToGene
      {
        assert k in Below(|transcripts|);
      }
    }
    TxpGenesNamed(cat, pairs);
    GeneIndicesDense(cat, pairs);
  }

  /** A gene-map file that cannot be opened reads as no pairs: the check
      then fails for every transcript, unless there are none. */
  lemma NoPairs(transcripts: seq<string>)
    ensures GetTxpToGeneMap(transcripts, [])
            == if |transcripts| == 0 then Success(NoMaps()) else Failure(|transcripts|)
  {
  }
}
