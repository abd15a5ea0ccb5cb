/** `readBfh` (src/AlevinHash.cpp; line numbers below refer to it): the
    token-by-token read of the equivalence-class file, with the checks made
    where the source makes them, and its agreement with decoding the file
    first and interpreting it afterwards. */
module BfhReader {
  import opened Wrappers
  import opened Tokens
  import opened Loops
  import opened BfhFormat
  import opened EqClassMap
  import opened Aggregation
  import opened BfhSemantics

  /** The tables so far and a running sum of UMI counts. */
  datatype Tally = Tally(acc: Acc, sum: nat)

  /** Reads the barcode list, failing at the first barcode whose length is
      not `bcLength` (lines 74-82). */
  function ReadBarcodes(ts: seq<Tok>, n: nat, bcLength: nat): (r: Option<Parsed<seq<string>>>)
    ensures r.Some? ==> |r.value.value| == n && BarcodesOk(r.value.value, bcLength)
    decreases n
  {
    if n == 0 then Some(Parsed([], ts))
    else
      var b :- ReadStr(ts);
      if |b.value| != bcLength then None
      else
        var more :- ReadBarcodes(b.rest, n - 1, bcLength);
        BarcodesOkCons(b.value, more.value, bcLength);
        Some(Parsed([b.value] + more.value, more.rest))
  }

  /** One UMI entry (lines 118-133): its count goes into the validator sum,
      and the entry into the tables, which stay as they are when the UMI
      does not pack. */
  function ReadUmi(ts: seq<Tok>, key: TranscriptGroup, bc: nat, bcName: string, encode: Encoder,
                   t: Tally): Option<Parsed<Tally>>
  {
    var umiSeq :- ReadStr(ts);
    var umiCount :- ReadNat(umiSeq.rest);
    var rec := Rec(key, bc, bcName, umiSeq.value, umiCount.value);
    Some(Parsed(Tally(AddEntry(t.acc, rec, encode), t.sum + umiCount.value), umiCount.rest))
  }

  function UmiReader(key: TranscriptGroup, bc: nat, bcName: string, encode: Encoder)
    : (seq<Tok>, Tally) -> Option<Parsed<Tally>>
  {
    (ts: seq<Tok>, t: Tally) => ReadUmi(ts, key, bc, bcName, encode, t)
  }

  /** The innermost loop (lines 116-136). */
  function ReadUmis(ts: seq<Tok>, k: nat, key: TranscriptGroup, bc: nat, bcName: string, encode: Encoder,
                    t: Tally): Option<Parsed<Tally>>
  {
    Repeat(ts, k, UmiReader(key, bc, bcName, encode), t)
  }

  /** One barcode group (lines 110-115 and the UMI loop): an index outside
      the barcode list fails. */
  function ReadGroup(ts: seq<Tok>, key: TranscriptGroup, bcNames: seq<string>, encode: Encoder,
                     t: Tally): Option<Parsed<Tally>>
  {
    var bc :- ReadNat(ts);
    var ugroupSize :- ReadNat(bc.rest);
    if bc.value >= |bcNames| then None
    else ReadUmis(ugroupSize.rest, ugroupSize.value, key, bc.value, bcNames[bc.value], encode, t)
  }

  function GroupReader(key: TranscriptGroup, bcNames: seq<string>, encode: Encoder)
    : (seq<Tok>, Tally) -> Option<Parsed<Tally>>
  {
    (ts: seq<Tok>, t: Tally) => ReadGroup(ts, key, bcNames, encode, t)
  }

  /** The barcode-group loop (lines 109-137). */
  function ReadGroups(ts: seq<Tok>, j: nat, key: TranscriptGroup, bcNames: seq<string>, encode: Encoder,
                      t: Tally): Option<Parsed<Tally>>
  {
    Repeat(ts, j, GroupReader(key, bcNames, encode), t)
  }

  /** One class (lines 97-146): a label, the declared count, the barcode
      groups with a validator sum starting at 0, then the comparison of the
      declared count with the validator sum; a mismatch fails the whole
      parse. A transcript index outside the transcript list fails too. */
  function ReadClass(ts: seq<Tok>, numTxps: nat, bcNames: seq<string>, encode: Encoder,
                     t: Tally): Option<Parsed<Tally>>
  {
    var labelSize :- ReadNat(ts);
    var txps :- ReadNats(labelSize.rest, labelSize.value);
    if !LabelInRange(txps.value, numTxps) then None
    else
      var count :- ReadNat(txps.rest);
      var bgroupSize :- ReadNat(count.rest);
      var validated :- ReadGroups(bgroupSize.rest, bgroupSize.value, TranscriptGroup(txps.value),
                                  bcNames, encode, Tally(t.acc, 0));
      if count.value != validated.value.sum then None
      else Some(Parsed(Tally(validated.value.acc, t.sum + validated.value.sum), validated.rest))
  }

  function ClassReader(numTxps: nat, bcNames: seq<string>, encode: Encoder)
    : (seq<Tok>, Tally) -> Option<Parsed<Tally>>
  {
    (ts: seq<Tok>, t: Tally) => ReadClass(ts, numTxps, bcNames, encode, t)
  }

  /** The class loop (lines 96-155); `numReads` is the running sum. */
  function ReadClasses(ts: seq<Tok>, i: nat, numTxps: nat, bcNames: seq<string>, encode: Encoder,
                       t: Tally): Option<Parsed<Tally>>
  {
    Repeat(ts, i, ClassReader(numTxps, bcNames, encode), t)
  }

  /** The whole parse (lines 48-160): the header, the transcript names, the
      checked barcodes, then the classes, starting from an empty class table
      and the caller's frequency table. */
  function ReadBfh(ts: seq<Tok>, bcLength: nat, encode: Encoder, freq0: map<string, nat>): (r: Option<BfhResult>)
    ensures r.Some? ==> BarcodesOk(r.value.bcNames, bcLength)
  {
    var numTxps :- ReadNat(ts);
    var numBcs :- ReadNat(numTxps.rest);
    var numEqclasses :- ReadNat(numBcs.rest);
    var txpNames :- ReadStrs(numEqclasses.rest, numTxps.value);
    var bcNames :- ReadBarcodes(txpNames.rest, numBcs.value, bcLength);
    var classes :- ReadClasses(bcNames.rest, numEqclasses.value, numTxps.value, bcNames.value, encode,
                               Tally(Acc(map[], freq0), 0));
    Some(BfhResult(classes.value.sum, classes.value.acc.countMap, classes.value.acc.freq,
                   txpNames.value, bcNames.value))
  }

  /** The source's return value: the total read count, 0 on failure. */
  function NumReads(r: Option<BfhResult>): nat
  {
    if r.Some? then r.value.total else 0
  }

  // ------------------------------------------------------------ barcodes

  /** What reading the barcode list owes: the listed words when every one
      has the protocol length, nothing otherwise. */
  function BarcodesOutcome(d: Option<Parsed<seq<string>>>, bcLength: nat): Option<Parsed<seq<string>>>
  {
    match d
    case None => None
    case Some(p) => if BarcodesOk(p.value, bcLength) then Some(p) else None
  }

  lemma BarcodesOkCons(b: string, bcs: seq<string>, bcLength: nat)
    ensures BarcodesOk([b] + bcs, bcLength) <==> |b| == bcLength && BarcodesOk(bcs, bcLength)
  {
    var all := [b] + bcs;
    if |b| == bcLength && BarcodesOk(bcs, bcLength) {
      forall i | 0 <= i < |all|
        ensures |all[i]| == bcLength
      {
        if i > 0 {
          assert all[i] == bcs[i - 1];
        }
      }
    }
    if BarcodesOk(all, bcLength) {
      assert all[0] == b;
      forall i | 0 <= i < |bcs|
        ensures |bcs[i]| == bcLength
      {
        assert all[i + 1] == bcs[i];
      }
    }
  }

  /** The barcode read fails exactly when the list is short or some barcode
      has the wrong length. */
  lemma {:induction false} ReadBarcodesAgrees(ts: seq<Tok>, n: nat, bcLength: nat)
    ensures ReadBarcodes(ts, n, bcLength) == BarcodesOutcome(ReadStrs(ts, n), bcLength)
    decreases n
  {
    if n > 0 && ReadStr(ts).Some? {
      var b := ReadStr(ts).value;
      ReadBarcodesAgrees(b.rest, n - 1, bcLength);
      match ReadStrs(b.rest, n - 1)
      case None =>
      case Some(q) =>
        var bcs := [b.value] + q.value;
        assert ReadStrs(ts, n) == Some(Parsed(bcs, q.rest));
        BarcodesOkCons(b.value, q.value, bcLength);
    }
  }

  // ------------------------------------------------------------ what each item does

  /** A UMI entry is never rejected by the reader. */
  function AnyUmi(): UmiEntry -> bool
  {
    (e: UmiEntry) => true
  }

  function UmiNext(key: TranscriptGroup, bc: nat, bcName: string, encode: Encoder): (Tally, UmiEntry) -> Tally
  {
    (t: Tally, e: UmiEntry) => Tally(AddEntry(t.acc, Rec(key, bc, bcName, e.umi, e.count), encode), t.sum + e.count)
  }

  function GroupOk(numBcs: nat): BarcodeGroup -> bool
  {
    (g: BarcodeGroup) => g.bc < numBcs
  }

  function GroupNext(key: TranscriptGroup, bcNames: seq<string>, encode: Encoder): (Tally, BarcodeGroup) -> Tally
  {
    (t: Tally, g: BarcodeGroup) =>
      if g.bc < |bcNames| then Thread(g.umis, UmiNext(key, g.bc, bcNames[g.bc], encode), t) else t
  }

  function ClassOkIn(numTxps: nat, numBcs: nat): EqClass -> bool
  {
    (c: EqClass) => ClassOk(c, numTxps, numBcs)
  }

  function ClassNext(bcNames: seq<string>, encode: Encoder): (Tally, EqClass) -> Tally
  {
    (t: Tally, c: EqClass) =>
      var v := Thread(c.groups, GroupNext(TranscriptGroup(c.txps), bcNames, encode), Tally(t.acc, 0));
      Tally(v.acc, t.sum + v.sum)
  }

  lemma GroupsOkIff(gs: seq<BarcodeGroup>, numBcs: nat)
    ensures AllOk(gs, GroupOk(numBcs)) <==> GroupsInRange(gs, numBcs)
  {
    assert forall j :: 0 <= j < |gs| ==> (GroupOk(numBcs)(gs[j]) <==> gs[j].bc < numBcs);
  }

  lemma ClassesOkIff(cs: seq<EqClass>, numTxps: nat, numBcs: nat)
    ensures AllOk(cs, ClassOkIn(numTxps, numBcs)) <==> ClassesOk(cs, numTxps, numBcs)
  {
    assert forall i :: 0 <= i < |cs| ==> (ClassOkIn(numTxps, numBcs)(cs[i]) <==> ClassOk(cs[i], numTxps, numBcs));
  }

  // ------------------------------------------------------------ threading is folding

  /** Threading a group's entries folds their records and adds their counts. */
  lemma {:induction false} ThreadUmis(us: seq<UmiEntry>, key: TranscriptGroup, bc: nat, bcName: string,
                                      encode: Encoder, t: Tally)
    ensures Thread(us, UmiNext(key, bc, bcName, encode), t)
            == Tally(AggRecs(UmiRecs(us, key, bc, bcName), encode, t.acc), t.sum + UmiSum(us))
    decreases |us|
  {
    if |us| > 0 {
      var next := UmiNext(key, bc, bcName, encode);
      var recs := UmiRecs(us, key, bc, bcName);
      ThreadUmis(us[1..], key, bc, bcName, encode, next(t, us[0]));
      assert recs[1..] == UmiRecs(us[1..], key, bc, bcName);
    }
  }

  /** Threading a class's groups folds their records and adds their counts. */
  lemma {:induction false} ThreadGroups(gs: seq<BarcodeGroup>, key: TranscriptGroup, bcNames: seq<string>,
                                        encode: Encoder, t: Tally)
    requires GroupsInRange(gs, |bcNames|)
    ensures Thread(gs, GroupNext(key, bcNames, encode), t)
            == Tally(AggRecs(GroupRecs(gs, key, bcNames), encode, t.acc), t.sum + GroupsSum(gs))
    decreases |gs|
  {
    if |gs| > 0 {
      var g := gs[0];
      var first := UmiRecs(g.umis, key, g.bc, bcNames[g.bc]);
      var t1 := GroupNext(key, bcNames, encode)(t, g);
      ThreadUmis(g.umis, key, g.bc, bcNames[g.bc], encode, t);
      assert GroupsInRange(gs[1..], |bcNames|) by {
        assert forall j :: 0 <= j < |gs[1..]| ==> gs[1..][j] == gs[j + 1];
      }
      ThreadGroups(gs[1..], key, bcNames, encode, t1);
      AggRecsAppend(first, GroupRecs(gs[1..], key, bcNames), encode, t.acc);
    }
  }

  /** Threading the classes folds their records and adds their counts. */
  lemma {:induction false} ThreadClasses(cs: seq<EqClass>, bcNames: seq<string>, encode: Encoder, t: Tally)
    requires AllGroupsInRange(cs, |bcNames|)
    ensures Thread(cs, ClassNext(bcNames, encode), t)
            == Tally(AggRecs(ClassRecs(cs, bcNames), encode, t.acc), t.sum + ClassesSum(cs))
    decreases |cs|
  {
    if |cs| > 0 {
      var c := cs[0];
      var key := TranscriptGroup(c.txps);
      var first := GroupRecs(c.groups, key, bcNames);
      assert GroupsInRange(c.groups, |bcNames|);
      ThreadGroups(c.groups, key, bcNames, encode, Tally(t.acc, 0));
      var t1 := ClassNext(bcNames, encode)(t, c);
      assert AllGroupsInRange(cs[1..], |bcNames|) by {
        assert forall i :: 0 <= i < |cs[1..]| ==> cs[1..][i] == cs[i + 1];
      }
      ThreadClasses(cs[1..], bcNames, encode, t1);
      AggRecsAppend(first, ClassRecs(cs[1..], bcNames), encode, t.acc);
    }
  }

  // ------------------------------------------------------------ agreement

  /** One UMI entry reads as it decodes. */
  lemma ReadUmiAgrees(key: TranscriptGroup, bc: nat, bcName: string, encode: Encoder)
    ensures ReadsAs(UmiReader(key, bc, bcName, encode), DecodeUmi, AnyUmi(), UmiNext(key, bc, bcName, encode))
  {
  }

  /** Reading a group's UMI entries is decoding them and threading them. */
  lemma ReadUmisAgrees(ts: seq<Tok>, k: nat, key: TranscriptGroup, bc: nat, bcName: string, encode: Encoder,
                       t: Tally)
    ensures ReadUmis(ts, k, key, bc, bcName, encode, t)
            == Outcome(DecodeUmis(ts, k), AnyUmi(), UmiNext(key, bc, bcName, encode), t)
  {
    ReadUmiAgrees(key, bc, bcName, encode);
    RepeatAgrees(ts, k, UmiReader(key, bc, bcName, encode), DecodeUmi, AnyUmi(), UmiNext(key, bc, bcName, encode), t);
  }

  /** One barcode group reads as it decodes: nothing when its index is out
      of range. */
  lemma ReadGroupAgreesAt(ts: seq<Tok>, key: TranscriptGroup, bcNames: seq<string>, encode: Encoder, t: Tally)
    ensures ReadGroup(ts, key, bcNames, encode, t)
            == match DecodeGroup(ts)
               case None => None
               case Some(p) =>
                 if GroupOk(|bcNames|)(p.value) then Some(Parsed(GroupNext(key, bcNames, encode)(t, p.value), p.rest))
                 else None
  {
    match ReadNat(ts)
    case None =>
    case Some(bc) =>
      match ReadNat(bc.rest)
      case None =>
      case Some(size) =>
        if bc.value < |bcNames| {
          ReadUmisAgrees(size.rest, size.value, key, bc.value, bcNames[bc.value], encode, t);
          match DecodeUmis(size.rest, size.value)
          case None =>
          case Some(pu) =>
            assert AllOk(pu.value, AnyUmi());
        }
  }

  lemma ReadGroupAgrees(key: TranscriptGroup, bcNames: seq<string>, encode: Encoder)
    ensures ReadsAs(GroupReader(key, bcNames, encode), DecodeGroup, GroupOk(|bcNames|), GroupNext(key, bcNames, encode))
  {
    forall ts, t
      ensures GroupReader(key, bcNames, encode)(ts, t)
              == match DecodeGroup(ts)
                 case None => None
                 case Some(p) =>
                   if GroupOk(|bcNames|)(p.value) then Some(Parsed(GroupNext(key, bcNames, encode)(t, p.value), p.rest))
                   else None
    {
      ReadGroupAgreesAt(ts, key, bcNames, encode, t);
    }
  }

  /** Reading a class's barcode groups is decoding them and threading them. */
  lemma ReadGroupsAgrees(ts: seq<Tok>, j: nat, key: TranscriptGroup, bcNames: seq<string>, encode: Encoder,
                         t: Tally)
    ensures ReadGroups(ts, j, key, bcNames, encode, t)
            == Outcome(DecodeGroups(ts, j), GroupOk(|bcNames|), GroupNext(key, bcNames, encode), t)
  {
    ReadGroupAgrees(key, bcNames, encode);
    RepeatAgrees(ts, j, GroupReader(key, bcNames, encode), DecodeGroup, GroupOk(|bcNames|),
                 GroupNext(key, bcNames, encode), t);
  }

  /** The validator sum of a class with in-range groups is the sum of its
      UMI counts. */
  lemma ThreadGroupsSum(gs: seq<BarcodeGroup>, key: TranscriptGroup, bcNames: seq<string>, encode: Encoder, t: Tally)
    requires GroupsInRange(gs, |bcNames|)
    ensures Thread(gs, GroupNext(key, bcNames, encode), t).sum == t.sum + GroupsSum(gs)
  {
    ThreadGroups(gs, key, bcNames, encode, t);
  }

  /** One class reads as it decodes: nothing when it is not acceptable. */
  lemma ReadClassAgreesAt(ts: seq<Tok>, numTxps: nat, bcNames: seq<string>, encode: Encoder, t: Tally)
    ensures ReadClass(ts, numTxps, bcNames, encode, t)
            == match DecodeClass(ts)
               case None => None
               case Some(p) =>
                 if ClassOkIn(numTxps, |bcNames|)(p.value)
                 then Some(Parsed(ClassNext(bcNames, encode)(t, p.value), p.rest))
                 else None
  {
    match ReadNat(ts)
    case None =>
    case Some(labelSize) =>
      match ReadNats(labelSize.rest, labelSize.value)
      case None =>
      case Some(txps) =>
        match ReadNat(txps.rest)
        case None =>
        case Some(count) =>
          match ReadNat(count.rest)
          case None =>
          case Some(size) =>
            var key := TranscriptGroup(txps.value);
            var t0 := Tally(t.acc, 0);
            ReadGroupsAgrees(size.rest, size.value, key, bcNames, encode, t0);
            match DecodeGroups(size.rest, size.value)
            case None =>
            case Some(pg) =>
              GroupsOkIff(pg.value, |bcNames|);
              if GroupsInRange(pg.value, |bcNames|) {
                ThreadGroupsSum(pg.value, key, bcNames, encode, t0);
              }
  }

  lemma ReadClassAgrees(numTxps: nat, bcNames: seq<string>, encode: Encoder)
    ensures ReadsAs(ClassReader(numTxps, bcNames, encode), DecodeClass, ClassOkIn(numTxps, |bcNames|),
                    ClassNext(bcNames, encode))
  {
    forall ts, t
      ensures ClassReader(numTxps, bcNames, encode)(ts, t)
              == match DecodeClass(ts)
                 case None => None
                 case Some(p) =>
                   if ClassOkIn(numTxps, |bcNames|)(p.value)
                   then Some(Parsed(ClassNext(bcNames, encode)(t, p.value), p.rest))
                   else None
    {
      ReadClassAgreesAt(ts, numTxps, bcNames, encode, t);
    }
  }

  /** Reading the classes is decoding them and threading them. */
  lemma ReadClassesAgrees(ts: seq<Tok>, i: nat, numTxps: nat, bcNames: seq<string>, encode: Encoder, t: Tally)
    ensures ReadClasses(ts, i, numTxps, bcNames, encode, t)
            == Outcome(DecodeClasses(ts, i), ClassOkIn(numTxps, |bcNames|), ClassNext(bcNames, encode), t)
  {
    ReadClassAgrees(numTxps, bcNames, encode);
    RepeatAgrees(ts, i, ClassReader(numTxps, bcNames, encode), DecodeClass, ClassOkIn(numTxps, |bcNames|),
                 ClassNext(bcNames, encode), t);
  }

  /** An acceptable class list names only listed barcodes. */
  lemma ClassesOkInRange(cs: seq<EqClass>, numTxps: nat, numBcs: nat)
    requires ClassesOk(cs, numTxps, numBcs)
    ensures AllGroupsInRange(cs, numBcs)
  {
    forall i | 0 <= i < |cs|
      ensures GroupsInRange(cs[i].groups, numBcs)
    {
      assert ClassOk(cs[i], numTxps, numBcs);
    }
  }

  /** The parse succeeds exactly on a stream that starts with an acceptable
      file, and then returns what that file means. */
  lemma ReadBfhAgrees(ts: seq<Tok>, bcLength: nat, encode: Encoder, freq0: map<string, nat>)
    ensures ReadBfh(ts, bcLength, encode, freq0)
            == match Decode(ts)
               case None => None
               case Some(p) => Interpret(p.value, bcLength, encode, freq0)
  {
    match ReadNat(ts)
    case None =>
    case Some(numTxps) =>
      match ReadNat(numTxps.rest)
      case None =>
      case Some(numBcs) =>
        match ReadNat(numBcs.rest)
        case None =>
        case Some(numEqclasses) =>
          match ReadStrs(numEqclasses.rest, numTxps.value)
          case None =>
          case Some(txpNames) =>
            ReadStrsSpells(numEqclasses.rest, numTxps.value);
            ReadBarcodesAgrees(txpNames.rest, numBcs.value, bcLength);
            match ReadStrs(txpNames.rest, numBcs.value)
            case None =>
            case Some(bcNames) =>
              var t0 := Tally(Acc(map[], freq0), 0);
              ReadClassesAgrees(bcNames.rest, numEqclasses.value, numTxps.value, bcNames.value, encode, t0);
              match DecodeClasses(bcNames.rest, numEqclasses.value)
              case None =>
              case Some(pc) =>
                var cs := pc.value;
                ClassesOkIff(cs, numTxps.value, |bcNames.value|);
                if ClassesOk(cs, numTxps.value, |bcNames.value|) {
                  ClassesOkInRange(cs, numTxps.value, |bcNames.value|);
                  ThreadClasses(cs, bcNames.value, encode, t0);
                }
  }
}
