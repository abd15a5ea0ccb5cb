/** What a successful `readBfh` promises about its result, stated against
    the decoded file: when it succeeds, the returned total, the class table
    and the frequency table, each related to independent sums over the
    file's UMI entries; and where it fails. */
module BfhProperties {
  import opened Wrappers
  import opened Tokens
  import opened BfhFormat
  import opened EqClassMap
  import opened Aggregation
  import opened BfhSemantics
  import opened BfhReader

  // ------------------------------------------------------------ sums over entries

  lemma {:induction false} CountSumAppend(a: seq<Rec>, b: seq<Rec>)
    ensures CountSum(a + b) == CountSum(a) + CountSum(b)
    decreases |a|
  {
    if |a| == 0 {
      assert a + b == b;
    } else {
      assert (a + b)[1..] == a[1..] + b;
      CountSumAppend(a[1..], b);
    }
  }

  lemma {:induction false} UmiRecsCount(us: seq<UmiEntry>, key: TranscriptGroup, bc: nat, bcName: string)
    ensures CountSum(UmiRecs(us, key, bc, bcName)) == UmiSum(us)
    decreases |us|
  {
    if |us| > 0 {
      var r := Rec(key, bc, bcName, us[0].umi, us[0].count);
      var tail := UmiRecs(us[1..], key, bc, bcName);
      assert ([r] + tail)[1..] == tail;
      UmiRecsCount(us[1..], key, bc, bcName);
    }
  }

  lemma {:induction false} GroupRecsCount(gs: seq<BarcodeGroup>, key: TranscriptGroup, bcNames: seq<string>)
    requires GroupsInRange(gs, |bcNames|)
    ensures CountSum(GroupRecs(gs, key, bcNames)) == GroupsSum(gs)
    decreases |gs|
  {
    if |gs| > 0 {
      assert GroupsInRange(gs[1..], |bcNames|) by {
        forall j | 0 <= j < |gs[1..]|
          ensures gs[1..][j].bc < |bcNames|
        {
          assert gs[1..][j] == gs[j + 1];
        }
      }
      UmiRecsCount(gs[0].umis, key, gs[0].bc, bcNames[gs[0].bc]);
      GroupRecsCount(gs[1..], key, bcNames);
      CountSumAppend(UmiRecs(gs[0].umis, key, gs[0].bc, bcNames[gs[0].bc]), GroupRecs(gs[1..], key, bcNames));
    }
  }

  lemma AllGroupsInRangeTail(cs: seq<EqClass>, numBcs: nat)
    requires |cs| > 0 && AllGroupsInRange(cs, numBcs)
    ensures AllGroupsInRange(cs[1..], numBcs)
  {
    forall i | 0 <= i < |cs[1..]|
      ensures GroupsInRange(cs[1..][i].groups, numBcs)
    {
      assert cs[1..][i] == cs[i + 1];
    }
  }

  /** Summed over every UMI entry, packable or not, the counts of a class
      list make its validator sum. */
  lemma {:induction false} ClassRecsCount(cs: seq<EqClass>, bcNames: seq<string>)
    requires AllGroupsInRange(cs, |bcNames|)
    ensures CountSum(ClassRecs(cs, bcNames)) == ClassesSum(cs)
    decreases |cs|
  {
    if |cs| > 0 {
      AllGroupsInRangeTail(cs, |bcNames|);
      var key := TranscriptGroup(cs[0].txps);
      GroupRecsCount(cs[0].groups, key, bcNames);
      ClassRecsCount(cs[1..], bcNames);
      CountSumAppend(GroupRecs(cs[0].groups, key, bcNames), ClassRecs(cs[1..], bcNames));
    }
  }

  /** In an acceptable class list the validator sums add up to the declared
      counts. */
  lemma {:induction false} DeclaredIsValidated(cs: seq<EqClass>, numTxps: nat, numBcs: nat)
    requires ClassesOk(cs, numTxps, numBcs)
    ensures DeclaredSum(cs) == ClassesSum(cs)
    decreases |cs|
  {
    if |cs| > 0 {
      assert ClassOk(cs[0], numTxps, numBcs);
      assert ClassesOk(cs[1..], numTxps, numBcs) by {
        forall i | 0 <= i < |cs[1..]|
          ensures ClassOk(cs[1..][i], numTxps, numBcs)
        {
          assert cs[1..][i] == cs[i + 1];
        }
      }
      DeclaredIsValidated(cs[1..], numTxps, numBcs);
    }
  }

  // ------------------------------------------------------------ keys of entries

  /** Every entry's class label names listed transcripts. */
  predicate KeysInRange(recs: seq<Rec>, numTxps: nat)
  {
    forall i :: 0 <= i < |recs| ==> LabelInRange(recs[i].key.txps, numTxps)
  }

  lemma KeysInRangeAppend(a: seq<Rec>, b: seq<Rec>, numTxps: nat)
    requires KeysInRange(a, numTxps) && KeysInRange(b, numTxps)
    ensures KeysInRange(a + b, numTxps)
  {
    forall i | 0 <= i < |a + b|
      ensures LabelInRange((a + b)[i].key.txps, numTxps)
    {
      if i >= |a| {
        assert (a + b)[i] == b[i - |a|];
      }
    }
  }

  lemma {:induction false} UmiRecsKeys(us: seq<UmiEntry>, key: TranscriptGroup, bc: nat, bcName: string, numTxps: nat)
    requires LabelInRange(key.txps, numTxps)
    ensures KeysInRange(UmiRecs(us, key, bc, bcName), numTxps)
    decreases |us|
  {
    if |us| > 0 {
      UmiRecsKeys(us[1..], key, bc, bcName, numTxps);
      KeysInRangeAppend([Rec(key, bc, bcName, us[0].umi, us[0].count)], UmiRecs(us[1..], key, bc, bcName), numTxps);
    }
  }

  lemma {:induction false} GroupRecsKeys(gs: seq<BarcodeGroup>, key: TranscriptGroup, bcNames: seq<string>,
                                         numTxps: nat)
    requires GroupsInRange(gs, |bcNames|) && LabelInRange(key.txps, numTxps)
    ensures KeysInRange(GroupRecs(gs, key, bcNames), numTxps)
    decreases |gs|
  {
    if |gs| > 0 {
      assert GroupsInRange(gs[1..], |bcNames|) by {
        forall j | 0 <= j < |gs[1..]|
          ensures gs[1..][j].bc < |bcNames|
        {
          assert gs[1..][j] == gs[j + 1];
        }
      }
      UmiRecsKeys(gs[0].umis, key, gs[0].bc, bcNames[gs[0].bc], numTxps);
      GroupRecsKeys(gs[1..], key, bcNames, numTxps);
      KeysInRangeAppend(UmiRecs(gs[0].umis, key, gs[0].bc, bcNames[gs[0].bc]), GroupRecs(gs[1..], key, bcNames),
                        numTxps);
    }
  }

  /** Every entry of an acceptable class list carries an in-range label. */
  lemma {:induction false} ClassRecsKeys(cs: seq<EqClass>, bcNames: seq<string>, numTxps: nat)
    requires ClassesOk(cs, numTxps, |bcNames|) && AllGroupsInRange(cs, |bcNames|)
    ensures KeysInRange(ClassRecs(cs, bcNames), numTxps)
    decreases |cs|
  {
    if |cs| > 0 {
      assert ClassOk(cs[0], numTxps, |bcNames|);
      assert ClassesOk(cs[1..], numTxps, |bcNames|) by {
        forall i | 0 <= i < |cs[1..]|
          ensures ClassOk(cs[1..][i], numTxps, |bcNames|)
        {
          assert cs[1..][i] == cs[i + 1];
        }
      }
      AllGroupsInRangeTail(cs, |bcNames|);
      var key := TranscriptGroup(cs[0].txps);
      GroupRecsKeys(cs[0].groups, key, bcNames, numTxps);
      ClassRecsKeys(cs[1..], bcNames, numTxps);
      KeysInRangeAppend(GroupRecs(cs[0].groups, key, bcNames), ClassRecs(cs[1..], bcNames), numTxps);
    }
  }

  // ------------------------------------------------------------ the parse

  /** An acceptable file's entries are its class list's entries. */
  lemma ValidEntries(f: Bfh, bcLength: nat)
    requires Valid(f, bcLength)
    ensures AllGroupsInRange(f.classes, |f.bcNames|)
    ensures Entries(f) == ClassRecs(f.classes, f.bcNames)
  {
    ClassesOkInRange(f.classes, |f.txpNames|, |f.bcNames|);
  }

  /** Reading the spelling of a file is interpreting the file, whatever
      follows it. */
  lemma ReadSpelled(f: Bfh, rest: seq<Tok>, bcLength: nat, encode: Encoder, freq0: map<string, nat>)
    ensures ReadBfh(Encode(f) + rest, bcLength, encode, freq0) == Interpret(f, bcLength, encode, freq0)
    ensures ReadBfh(Encode(f) + rest, bcLength, encode, freq0).Some? <==> Valid(f, bcLength)
  {
    ReadBfhAgrees(Encode(f) + rest, bcLength, encode, freq0);
    DecodeEncode(f, rest);
  }

  /** The parse succeeds exactly when the stream starts with a file in the
      layout and that file is acceptable: every barcode of the protocol's
      length, every index in range, every declared count met. */
  lemma ReadBfhSucceedsIff(ts: seq<Tok>, bcLength: nat, encode: Encoder, freq0: map<string, nat>)
    ensures ReadBfh(ts, bcLength, encode, freq0).Some?
            <==> exists f: Bfh, rest: seq<Tok> :: ts == Encode(f) + rest && Valid(f, bcLength)
  {
    ReadBfhAgrees(ts, bcLength, encode, freq0);
    DecodeSucceedsIff(ts);
    if exists f: Bfh, rest: seq<Tok> :: ts == Encode(f) + rest && Valid(f, bcLength) {
      var f: Bfh, rest: seq<Tok> :| ts == Encode(f) + rest && Valid(f, bcLength);
      ReadSpelled(f, rest, bcLength, encode, freq0);
    }
  }

  /** What a successful parse of a file's spelling returns. */
  lemma SpelledResult(f: Bfh, rest: seq<Tok>, bcLength: nat, encode: Encoder, freq0: map<string, nat>,
                      r: BfhResult)
    requires ReadBfh(Encode(f) + rest, bcLength, encode, freq0) == Some(r)
    ensures Valid(f, bcLength)
    ensures r.total == ClassesSum(f.classes)
    ensures r.countMap == AggRecs(Entries(f), encode, Acc(map[], freq0)).countMap
    ensures r.freq == AggRecs(Entries(f), encode, Acc(map[], freq0)).freq
    ensures r.txpNames == f.txpNames && r.bcNames == f.bcNames
  {
    ReadSpelled(f, rest, bcLength, encode, freq0);
    ValidEntries(f, bcLength);
  }

  /** A barcode of the wrong length fails the parse before any class is
      read: whatever follows it, including the rest of the barcode list. */
  lemma {:induction false} ReadBarcodesStops(bcs: seq<string>, tail: seq<Tok>, n: nat, bcLength: nat, i: nat)
    requires i < |bcs| <= n && |bcs[i]| != bcLength
    ensures ReadBarcodes(Strs(bcs) + tail, n, bcLength) == None
    decreases i
  {
    assert Strs(bcs) + tail == [S(bcs[0])] + (Strs(bcs[1..]) + tail);
    if i > 0 {
      ReadBarcodesStops(bcs[1..], tail, n - 1, bcLength, i - 1);
    }
  }

  /** The parse fails on a barcode of the wrong length, wherever it stands
      in the list and whatever follows it in the stream. */
  lemma BadBarcodeFails(txps: seq<string>, numBcs: nat, numEqclasses: nat, bcs: seq<string>, tail: seq<Tok>,
                        bcLength: nat, encode: Encoder, freq0: map<string, nat>, i: nat)
    requires i < |bcs| <= numBcs && |bcs[i]| != bcLength
    ensures ReadBfh([N(|txps|), N(numBcs), N(numEqclasses)] + (Strs(txps) + (Strs(bcs) + tail)),
                    bcLength, encode, freq0) == None
  {
    var ts := [N(|txps|), N(numBcs), N(numEqclasses)] + (Strs(txps) + (Strs(bcs) + tail));
    assert ts[3..] == Strs(txps) + (Strs(bcs) + tail);
    ReadStrsOfStrs(txps, Strs(bcs) + tail);
    ReadBarcodesStops(bcs, tail, numBcs, bcLength, i);
  }

  // ------------------------------------------------------------ the result

  /** The returned total is the sum of the counts the classes declare, and
      equally the sum of the counts of every UMI entry, packable or not. */
  lemma TotalIsDeclared(f: Bfh, rest: seq<Tok>, bcLength: nat, encode: Encoder, freq0: map<string, nat>,
                        r: BfhResult)
    requires ReadBfh(Encode(f) + rest, bcLength, encode, freq0) == Some(r)
    ensures r.total == DeclaredSum(f.classes)
    ensures r.total == CountSum(Entries(f))
  {
    SpelledResult(f, rest, bcLength, encode, freq0, r);
    ValidEntries(f, bcLength);
    DeclaredIsValidated(f.classes, |f.txpNames|, |f.bcNames|);
    ClassRecsCount(f.classes, f.bcNames);
  }
  /** The returned number is the sentinel 0 exactly when the file is not
      acceptable or declares no reads at all; otherwise it is the declared
      total. */
  lemma NumReadsZeroIff(f: Bfh, rest: seq<Tok>, bcLength: nat, encode: Encoder, freq0: map<string, nat>)
    ensures NumReads(ReadBfh(Encode(f) + rest, bcLength, encode, freq0)) == 0
            <==> !Valid(f, bcLength) || DeclaredSum(f.classes) == 0
    ensures Valid(f, bcLength) ==> NumReads(ReadBfh(Encode(f) + rest, bcLength, encode, freq0)) == DeclaredSum(f.classes)
  {
    ReadSpelled(f, rest, bcLength, encode, freq0);
    if Valid(f, bcLength) {
      TotalIsDeclared(f, rest, bcLength, encode, freq0, ReadBfh(Encode(f) + rest, bcLength, encode, freq0).value);
    }
  }


  /** A class's stored total is the sum of the packable counts filed under
      its label, across every class of the file that carries that label. */
  lemma ClassCountIsKeySum(f: Bfh, rest: seq<Tok>, bcLength: nat, encode: Encoder, freq0: map<string, nat>,
                           r: BfhResult, key: TranscriptGroup)
    requires ReadBfh(Encode(f) + rest, bcLength, encode, freq0) == Some(r)
    ensures CountOf(r.countMap, key) == KeySum(Entries(f), key, encode)
  {
    SpelledResult(f, rest, bcLength, encode, freq0, r);
    AggRecsClassCount(Entries(f), encode, Acc(map[], freq0), key);
  }

  /** A label is a key of the class table exactly when some packable UMI
      entry is filed under it. */
  lemma ClassKeys(f: Bfh, rest: seq<Tok>, bcLength: nat, encode: Encoder, freq0: map<string, nat>,
                  r: BfhResult, key: TranscriptGroup)
    requires ReadBfh(Encode(f) + rest, bcLength, encode, freq0) == Some(r)
    ensures key in r.countMap
            <==> exists i :: 0 <= i < |Entries(f)| && Entries(f)[i].key == key && Encodes(Entries(f)[i], encode)
  {
    SpelledResult(f, rest, bcLength, encode, freq0, r);
    AggRecsClassKeys(Entries(f), encode, Acc(map[], freq0), key);
  }

  /** The count stored for a (label, barcode, packed UMI) triple is the sum
      of the counts of the entries that carry it. */
  lemma TripleCount(f: Bfh, rest: seq<Tok>, bcLength: nat, encode: Encoder, freq0: map<string, nat>,
                    r: BfhResult, key: TranscriptGroup, bc: nat, umi: nat)
    requires ReadBfh(Encode(f) + rest, bcLength, encode, freq0) == Some(r)
    ensures UmiCount(ValueOf(r.countMap, key).barcodes, bc, umi) == TripleSum(Entries(f), key, bc, umi, encode)
  {
    SpelledResult(f, rest, bcLength, encode, freq0, r);
    AggRecsUmiCount(Entries(f), encode, Acc(map[], freq0), key, bc, umi);
  }

  /** A barcode's frequency grows by exactly the packable counts of the
      entries under its name. */
  lemma FreqCount(f: Bfh, rest: seq<Tok>, bcLength: nat, encode: Encoder, freq0: map<string, nat>,
                  r: BfhResult, name: string)
    requires ReadBfh(Encode(f) + rest, bcLength, encode, freq0) == Some(r)
    ensures FreqOf(r.freq, name) == FreqOf(freq0, name) + NameSum(Entries(f), name, encode)
  {
    SpelledResult(f, rest, bcLength, encode, freq0, r);
    AggRecsFreq(Entries(f), encode, Acc(map[], freq0), name);
  }

  /** Every stored class value's total is the sum of its per-barcode,
      per-UMI counts. */
  lemma ClassValuesConsistent(f: Bfh, rest: seq<Tok>, bcLength: nat, encode: Encoder, freq0: map<string, nat>,
                              r: BfhResult)
    requires ReadBfh(Encode(f) + rest, bcLength, encode, freq0) == Some(r)
    ensures AllConsistent(r.countMap)
  {
    SpelledResult(f, rest, bcLength, encode, freq0, r);
    AggRecsConsistent(Entries(f), encode, Acc(map[], freq0));
  }

  /** Every transcript index of a stored label names a listed transcript. */
  lemma LabelsInRange(f: Bfh, rest: seq<Tok>, bcLength: nat, encode: Encoder, freq0: map<string, nat>,
                      r: BfhResult)
    requires ReadBfh(Encode(f) + rest, bcLength, encode, freq0) == Some(r)
    ensures forall key :: key in r.countMap ==> LabelInRange(key.txps, |r.txpNames|)
  {
    SpelledResult(f, rest, bcLength, encode, freq0, r);
    ValidEntries(f, bcLength);
    ClassRecsKeys(f.classes, f.bcNames, |f.txpNames|);
    forall key | key in r.countMap
      ensures LabelInRange(key.txps, |r.txpNames|)
    {
      AggRecsClassKeys(Entries(f), encode, Acc(map[], freq0), key);
    }
  }

  // ------------------------------------------------------------ a label seen once

  lemma {:induction false} KeySumAppend(a: seq<Rec>, b: seq<Rec>, key: TranscriptGroup, encode: Encoder)
    ensures KeySum(a + b, key, encode) == KeySum(a, key, encode) + KeySum(b, key, encode)
    decreases |a|
  {
    if |a| == 0 {
      assert a + b == b;
    } else {
      assert (a + b)[1..] == a[1..] + b;
      KeySumAppend(a[1..], b, key, encode);
    }
  }

  /** Every UMI string of the entries packs. */
  predicate UmisPack(us: seq<UmiEntry>, encode: Encoder)
  {
    forall u :: 0 <= u < |us| ==> encode(us[u].umi).Some?
  }

  /** Every UMI string of the groups packs. */
  predicate GroupsPack(gs: seq<BarcodeGroup>, encode: Encoder)
  {
    forall j :: 0 <= j < |gs| ==> UmisPack(gs[j].umis, encode)
  }

  /** Entries filed under one label count toward that label exactly when
      they pack, and never toward another label. */
  lemma {:induction false} UmiRecsKeySum(us: seq<UmiEntry>, k: TranscriptGroup, bc: nat, bcName: string,
                                         key: TranscriptGroup, encode: Encoder)
    ensures k != key ==> KeySum(UmiRecs(us, k, bc, bcName), key, encode) == 0
    ensures k == key && UmisPack(us, encode) ==> KeySum(UmiRecs(us, k, bc, bcName), key, encode) == UmiSum(us)
    decreases |us|
  {
    if |us| > 0 {
      var r := Rec(k, bc, bcName, us[0].umi, us[0].count);
      var tail := UmiRecs(us[1..], k, bc, bcName);
      assert ([r] + tail)[1..] == tail;
      if UmisPack(us, encode) {
        assert encode(us[0].umi).Some?;
        assert UmisPack(us[1..], encode) by {
          forall u | 0 <= u < |us[1..]|
            ensures encode(us[1..][u].umi).Some?
          {
            assert us[1..][u] == us[u + 1];
          }
        }
      }
      UmiRecsKeySum(us[1..], k, bc, bcName, key, encode);
    }
  }

  lemma {:induction false} GroupRecsKeySum(gs: seq<BarcodeGroup>, k: TranscriptGroup, bcNames: seq<string>,
                                           key: TranscriptGroup, encode: Encoder)
    requires GroupsInRange(gs, |bcNames|)
    ensures k != key ==> KeySum(GroupRecs(gs, k, bcNames), key, encode) == 0
    ensures k == key && GroupsPack(gs, encode) ==> KeySum(GroupRecs(gs, k, bcNames), key, encode) == GroupsSum(gs)
    decreases |gs|
  {
    if |gs| > 0 {
      assert GroupsInRange(gs[1..], |bcNames|) by {
        forall j | 0 <= j < |gs[1..]|
          ensures gs[1..][j].bc < |bcNames|
        {
          assert gs[1..][j] == gs[j + 1];
        }
      }
      if GroupsPack(gs, encode) {
        assert UmisPack(gs[0].umis, encode);
        assert GroupsPack(gs[1..], encode) by {
          forall j | 0 <= j < |gs[1..]|
            ensures UmisPack(gs[1..][j].umis, encode)
          {
            assert gs[1..][j] == gs[j + 1];
          }
        }
      }
      var head := UmiRecs(gs[0].umis, k, gs[0].bc, bcNames[gs[0].bc]);
      UmiRecsKeySum(gs[0].umis, k, gs[0].bc, bcNames[gs[0].bc], key, encode);
      GroupRecsKeySum(gs[1..], k, bcNames, key, encode);
      KeySumAppend(head, GroupRecs(gs[1..], k, bcNames), key, encode);
    }
  }

  /** When class `i` is the only class with its label, the packable counts
      under that label are exactly those of class `i`. */
  lemma {:induction false} ClassRecsKeySumOnce(cs: seq<EqClass>, bcNames: seq<string>, i: nat, encode: Encoder)
    requires AllGroupsInRange(cs, |bcNames|) && i < |cs|
    requires forall j :: 0 <= j < |cs| && j != i ==> cs[j].txps != cs[i].txps
    ensures GroupsInRange(cs[i].groups, |bcNames|)
    ensures KeySum(ClassRecs(cs, bcNames), TranscriptGroup(cs[i].txps), encode)
            == KeySum(GroupRecs(cs[i].groups, TranscriptGroup(cs[i].txps), bcNames), TranscriptGroup(cs[i].txps), encode)
    decreases |cs|
  {
    var key := TranscriptGroup(cs[i].txps);
    AllGroupsInRangeTail(cs, |bcNames|);
    var head := GroupRecs(cs[0].groups, TranscriptGroup(cs[0].txps), bcNames);
    KeySumAppend(head, ClassRecs(cs[1..], bcNames), key, encode);
    if i == 0 {
      ClassRecsKeySumNone(cs[1..], bcNames, key, encode);
    } else {
      GroupRecsKeySum(cs[0].groups, TranscriptGroup(cs[0].txps), bcNames, key, encode);
      assert cs[1..][i - 1] == cs[i];
      forall j | 0 <= j < |cs[1..]| && j != i - 1
        ensures cs[1..][j].txps != cs[1..][i - 1].txps
      {
        assert cs[1..][j] == cs[j + 1];
      }
      ClassRecsKeySumOnce(cs[1..], bcNames, i - 1, encode);
    }
  }

  /** Classes none of which carries the label contribute nothing to it. */
  lemma {:induction false} ClassRecsKeySumNone(cs: seq<EqClass>, bcNames: seq<string>, key: TranscriptGroup,
                                               encode: Encoder)
    requires AllGroupsInRange(cs, |bcNames|)
    requires forall j :: 0 <= j < |cs| ==> TranscriptGroup(cs[j].txps) != key
    ensures KeySum(ClassRecs(cs, bcNames), key, encode) == 0
    decreases |cs|
  {
    if |cs| > 0 {
      AllGroupsInRangeTail(cs, |bcNames|);
      var head := GroupRecs(cs[0].groups, TranscriptGroup(cs[0].txps), bcNames);
      GroupRecsKeySum(cs[0].groups, TranscriptGroup(cs[0].txps), bcNames, key, encode);
      forall j | 0 <= j < |cs[1..]|
        ensures TranscriptGroup(cs[1..][j].txps) != key
      {
        assert cs[1..][j] == cs[j + 1];
      }
      ClassRecsKeySumNone(cs[1..], bcNames, key, encode);
      KeySumAppend(head, ClassRecs(cs[1..], bcNames), key, encode);
    }
  }

  /** A label that occurs in one class only, all of whose UMIs pack, stores
      exactly the count that class declares (and so is a key of the table
      when that count is positive). */
  lemma ClassSeenOnce(f: Bfh, rest: seq<Tok>, bcLength: nat, encode: Encoder, freq0: map<string, nat>,
                      r: BfhResult, i: nat)
    requires ReadBfh(Encode(f) + rest, bcLength, encode, freq0) == Some(r)
    requires i < |f.classes| && GroupsPack(f.classes[i].groups, encode)
    requires forall j :: 0 <= j < |f.classes| && j != i ==> f.classes[j].txps != f.classes[i].txps
    ensures CountOf(r.countMap, TranscriptGroup(f.classes[i].txps)) == f.classes[i].count
    ensures f.classes[i].count > 0 ==> TranscriptGroup(f.classes[i].txps) in r.countMap
  {
    var c := f.classes[i];
    var key := TranscriptGroup(c.txps);
    SpelledResult(f, rest, bcLength, encode, freq0, r);
    ValidEntries(f, bcLength);
    assert ClassOk(c, |f.txpNames|, |f.bcNames|);
    ClassCountIsKeySum(f, rest, bcLength, encode, freq0, r, key);
    ClassRecsKeySumOnce(f.classes, f.bcNames, i, encode);
    GroupRecsKeySum(c.groups, key, f.bcNames, key, encode);
  }
}
