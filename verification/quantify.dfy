/** `salmonHashQuantify` (src/AlevinHash.cpp) up to the hand-over to the
    optimizer: read the equivalence-class file, stop when it yields no reads,
    then build the transcript-to-gene tables for the transcripts it names. */
module Quantify {
  import opened Wrappers
  import opened Tokens
  import opened BfhFormat
  import opened EqClassMap
  import opened Aggregation
  import opened BfhSemantics
  import opened BfhReader
  import opened BfhProperties
  import opened GeneMap

  /** Why the run stops: the file yields no reads (exit code 74, line 194),
      or some transcripts have no gene (exit code 1, line 44). */
  datatype QuantError = BfhUnreadable | GenesMissing(count: nat)

  /** What the optimizer is handed: the parse result and the gene tables. */
  datatype Quantified = Quantified(bfh: BfhResult, genes: GeneMaps)

  /** Lines 179-209: the parse with an empty class table and the caller's
      frequency table, the zero-reads check, then the gene tables built from
      empty ones. */
  function SalmonHashQuantify(ts: seq<Tok>, bcLength: nat, encode: Encoder, freq0: map<string, nat>,
                              pairs: seq<Pair>): (r: Result<Quantified, QuantError>)
    ensures r.Success? ==> r.value.bfh.total > 0
    ensures r.Success? ==> r.value.genes.txpToGene.Keys == Below(|r.value.bfh.txpNames|)
    ensures r.Failure? && r.error.GenesMissing? ==> 0 < r.error.count
  {
    var r := ReadBfh(ts, bcLength, encode, freq0);
    if NumReads(r) == 0 then Failure(BfhUnreadable)
    else
      match GetTxpToGeneMap(r.value.txpNames, pairs)
      case Failure(n) => Failure(GenesMissing(n))
      case Success(g) => Success(Quantified(r.value, g))
  }

  /** Everything the run needs of its inputs. */
  predicate Runs(f: Bfh, bcLength: nat, pairs: seq<Pair>)
  {
    Valid(f, bcLength) && DeclaredSum(f.classes) > 0 && Distinct(f.txpNames) && Covered(f.txpNames, pairs)
  }

  /** On the spelling of a file the run succeeds exactly when the file is
      acceptable, declares some reads, lists its transcripts once each, and
      every transcript is named in the gene-map file. */
  lemma QuantifySpelled(f: Bfh, rest: seq<Tok>, bcLength: nat, encode: Encoder,
                        freq0: map<string, nat>, pairs: seq<Pair>)
    ensures SalmonHashQuantify(Encode(f) + rest, bcLength, encode, freq0, pairs).Success? <==> Runs(f, bcLength, pairs)
  {
    var ts := Encode(f) + rest;
    ReadSpelled(f, rest, bcLength, encode, freq0);
    if Valid(f, bcLength) {
      var r := ReadBfh(ts, bcLength, encode, freq0).value;
      TotalIsDeclared(f, rest, bcLength, encode, freq0, r);
      SpelledResult(f, rest, bcLength, encode, freq0, r);
      GetSucceedsIff(f.txpNames, pairs);
    }
  }

  /** The run succeeds exactly when the stream starts with the spelling of a
      file it can run on. */
  lemma QuantifySucceedsIff(ts: seq<Tok>, bcLength: nat, encode: Encoder, freq0: map<string, nat>,
                            pairs: seq<Pair>)
    ensures SalmonHashQuantify(ts, bcLength, encode, freq0, pairs).Success?
            <==> exists f: Bfh, rest: seq<Tok> :: ts == Encode(f) + rest && Runs(f, bcLength, pairs)
  {
    if SalmonHashQuantify(ts, bcLength, encode, freq0, pairs).Success? {
      ReadBfhSucceedsIff(ts, bcLength, encode, freq0);
      var f: Bfh, rest: seq<Tok> :| ts == Encode(f) + rest && Valid(f, bcLength);
      QuantifySpelled(f, rest, bcLength, encode, freq0, pairs);
    }
    if exists f: Bfh, rest: seq<Tok> :: ts == Encode(f) + rest && Runs(f, bcLength, pairs) {
      var f: Bfh, rest: seq<Tok> :| ts == Encode(f) + rest && Runs(f, bcLength, pairs);
      QuantifySpelled(f, rest, bcLength, encode, freq0, pairs);
    }
  }

  /** An acceptable file that declares no reads stops the run as an
      unreadable one does. */
  lemma EmptyFileFatal(f: Bfh, rest: seq<Tok>, bcLength: nat, encode: Encoder, freq0: map<string, nat>,
                       pairs: seq<Pair>)
    requires DeclaredSum(f.classes) == 0
    ensures SalmonHashQuantify(Encode(f) + rest, bcLength, encode, freq0, pairs) == Failure(BfhUnreadable)
  {
    ReadSpelled(f, rest, bcLength, encode, freq0);
    if Valid(f, bcLength) {
      TotalIsDeclared(f, rest, bcLength, encode, freq0, ReadBfh(Encode(f) + rest, bcLength, encode, freq0).value);
    }
  }

  /** When the run succeeds, every transcript of every stored class label
      has a gene, and that gene's index is below the number of genes. */
  lemma LabelsHaveGenes(ts: seq<Tok>, bcLength: nat, encode: Encoder, freq0: map<string, nat>,
                        pairs: seq<Pair>, q: Quantified)
    requires SalmonHashQuantify(ts, bcLength, encode, freq0, pairs) == Success(q)
    ensures forall key, t :: key in q.bfh.countMap && 0 <= t < |key.txps|
              ==> key.txps[t] in q.genes.txpToGene && q.genes.txpToGene[key.txps[t]] < q.genes.geneCount
  {
    ReadBfhSucceedsIff(ts, bcLength, encode, freq0);
    var f: Bfh, rest: seq<Tok> :| ts == Encode(f) + rest && Valid(f, bcLength);
    LabelsInRange(f, rest, bcLength, encode, freq0, q.bfh);
    GetSuccessComplete(q.bfh.txpNames, pairs);
  }
}
