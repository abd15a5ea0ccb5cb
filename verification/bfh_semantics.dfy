/** What a decoded equivalence-class file means: when it is acceptable, the
    UMI entries it lists in order, and the result the parse owes for it. */
module BfhSemantics {
  import opened Wrappers
  import opened BfhFormat
  import opened EqClassMap
  import opened Aggregation

  /** Everything the parse hands back on success: the total read count, the
      class table, the per-barcode frequency table and the two name lists. */
  datatype BfhResult = BfhResult(total: nat, countMap: ClassMap, freq: map<string, nat>,
                                 txpNames: seq<string>, bcNames: seq<string>)

  // ------------------------------------------------------------ sums

  /** The sum of the UMI counts of a list of entries. */
  function UmiSum(us: seq<UmiEntry>): nat
  {
    if |us| == 0 then 0 else us[0].count + UmiSum(us[1..])
  }

  /** The sum of the UMI counts of a list of barcode groups: one class's
      validator sum. */
  function GroupsSum(gs: seq<BarcodeGroup>): nat
  {
    if |gs| == 0 then 0 else UmiSum(gs[0].umis) + GroupsSum(gs[1..])
  }

  /** The sum of the validator sums of a list of classes. */
  function ClassesSum(cs: seq<EqClass>): nat
  {
    if |cs| == 0 then 0 else GroupsSum(cs[0].groups) + ClassesSum(cs[1..])
  }

  /** The sum of the counts the classes declare. */
  function DeclaredSum(cs: seq<EqClass>): nat
  {
    if |cs| == 0 then 0 else cs[0].count + DeclaredSum(cs[1..])
  }

  // ------------------------------------------------------------ acceptance

  /** Every barcode has the protocol's length. */
  predicate BarcodesOk(bcs: seq<string>, bcLength: nat)
  {
    forall i :: 0 <= i < |bcs| ==> |bcs[i]| == bcLength
  }

  /** Every barcode group names a listed barcode. */
  predicate GroupsInRange(gs: seq<BarcodeGroup>, numBcs: nat)
  {
    forall j :: 0 <= j < |gs| ==> gs[j].bc < numBcs
  }

  /** Every class's barcode groups name listed barcodes. */
  predicate AllGroupsInRange(cs: seq<EqClass>, numBcs: nat)
  {
    forall i :: 0 <= i < |cs| ==> GroupsInRange(cs[i].groups, numBcs)
  }

  /** Every transcript index of a label names a listed transcript. */
  predicate LabelInRange(txps: seq<nat>, numTxps: nat)
  {
    forall t :: 0 <= t < |txps| ==> txps[t] < numTxps
  }

  /** A class is acceptable when its indices are in range and its declared
      count equals the sum of its UMI counts. */
  predicate ClassOk(c: EqClass, numTxps: nat, numBcs: nat)
  {
    && LabelInRange(c.txps, numTxps)
    && GroupsInRange(c.groups, numBcs)
    && GroupsSum(c.groups) == c.count
  }

  predicate ClassesOk(cs: seq<EqClass>, numTxps: nat, numBcs: nat)
  {
    forall i :: 0 <= i < |cs| ==> ClassOk(cs[i], numTxps, numBcs)
  }

  /** A file the parse accepts. */
  predicate Valid(f: Bfh, bcLength: nat)
  {
    BarcodesOk(f.bcNames, bcLength) && ClassesOk(f.classes, |f.txpNames|, |f.bcNames|)
  }

  // ------------------------------------------------------------ entries

  /** The UMI entries of one barcode group, in context. */
  function UmiRecs(us: seq<UmiEntry>, key: TranscriptGroup, bc: nat, bcName: string): seq<Rec>
  {
    if |us| == 0 then [] else [Rec(key, bc, bcName, us[0].umi, us[0].count)] + UmiRecs(us[1..], key, bc, bcName)
  }

  /** The UMI entries of one class's barcode groups, in order. */
  function GroupRecs(gs: seq<BarcodeGroup>, key: TranscriptGroup, bcNames: seq<string>): seq<Rec>
    requires GroupsInRange(gs, |bcNames|)
  {
    if |gs| == 0 then []
    else UmiRecs(gs[0].umis, key, gs[0].bc, bcNames[gs[0].bc]) + GroupRecs(gs[1..], key, bcNames)
  }

  /** The UMI entries of a list of classes, in file order. */
  function ClassRecs(cs: seq<EqClass>, bcNames: seq<string>): seq<Rec>
    requires AllGroupsInRange(cs, |bcNames|)
  {
    if |cs| == 0 then []
    else GroupRecs(cs[0].groups, TranscriptGroup(cs[0].txps), bcNames) + ClassRecs(cs[1..], bcNames)
  }

  /** The UMI entries of a whole file in file order; a file naming an
      unlisted barcode has none (the parse rejects such a file anyway). */
  function Entries(f: Bfh): seq<Rec>
  {
    if AllGroupsInRange(f.classes, |f.bcNames|) then ClassRecs(f.classes, f.bcNames) else []
  }

  /** The result the parse owes for a decoded file: nothing when the file is
      not acceptable; otherwise the tables after every UMI entry in file
      order, starting from an empty class table and the given frequencies. */
  function Interpret(f: Bfh, bcLength: nat, encode: Encoder, freq0: map<string, nat>): Option<BfhResult>
  {
    if Valid(f, bcLength) then
      var acc := AggRecs(ClassRecs(f.classes, f.bcNames), encode, Acc(map[], freq0));
      Some(BfhResult(ClassesSum(f.classes), acc.countMap, acc.freq, f.txpNames, f.bcNames))
    else None
  }
}
