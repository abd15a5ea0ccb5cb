/** The layout of the equivalence-class (BFH) file as structured data, its
    spelling as tokens, and a pure decoder that reads that layout without
    judging it. The reader in BfhReader interleaves reading with checks; this
    module is the independent account of what it reads. */
module BfhFormat {
  import opened Wrappers
  import opened Tokens
  import opened Loops

  /** One `umiSequence umiCount` entry. */
  datatype UmiEntry = UmiEntry(umi: string, count: nat)

  /** One `barcodeIndex umiGroupCount` group with its UMI entries. */
  datatype BarcodeGroup = BarcodeGroup(bc: nat, umis: seq<UmiEntry>)

  /** One equivalence class: its transcript label, the declared read count
      and its barcode groups. */
  datatype EqClass = EqClass(txps: seq<nat>, count: nat, groups: seq<BarcodeGroup>)

  /** A whole file; the three header counts are the lengths of the lists. */
  datatype Bfh = Bfh(txpNames: seq<string>, bcNames: seq<string>, classes: seq<EqClass>)

  // ---------------------------------------------------------------- spelling

  function EncodeUmis(us: seq<UmiEntry>): seq<Tok>
  {
    if |us| == 0 then [] else [S(us[0].umi), N(us[0].count)] + EncodeUmis(us[1..])
  }

  function EncodeGroup(g: BarcodeGroup): seq<Tok>
  {
    [N(g.bc), N(|g.umis|)] + EncodeUmis(g.umis)
  }

  function EncodeGroups(gs: seq<BarcodeGroup>): seq<Tok>
  {
    if |gs| == 0 then [] else EncodeGroup(gs[0]) + EncodeGroups(gs[1..])
  }

  function EncodeClass(c: EqClass): seq<Tok>
  {
    [N(|c.txps|)] + (Nats(c.txps) + ([N(c.count), N(|c.groups|)] + EncodeGroups(c.groups)))
  }

  function EncodeClasses(cs: seq<EqClass>): seq<Tok>
  {
    if |cs| == 0 then [] else EncodeClass(cs[0]) + EncodeClasses(cs[1..])
  }

  /** The token spelling of a whole file, header first. */
  function Encode(f: Bfh): seq<Tok>
  {
    [N(|f.txpNames|), N(|f.bcNames|), N(|f.classes|)]
      + (Strs(f.txpNames) + (Strs(f.bcNames) + EncodeClasses(f.classes)))
  }

  // ---------------------------------------------------------------- decoding

  /** One `umiSequence umiCount` entry. */
  function DecodeUmi(ts: seq<Tok>): Option<Parsed<UmiEntry>>
  {
    var u :- ReadStr(ts);
    var c :- ReadNat(u.rest);
    Some(Parsed(UmiEntry(u.value, c.value), c.rest))
  }

  function DecodeUmis(ts: seq<Tok>, k: nat): Option<Parsed<seq<UmiEntry>>>
  {
    DecodeMany(ts, k, DecodeUmi)
  }

  function DecodeGroup(ts: seq<Tok>): Option<Parsed<BarcodeGroup>>
  {
    var bc :- ReadNat(ts);
    var size :- ReadNat(bc.rest);
    var umis :- DecodeUmis(size.rest, size.value);
    Some(Parsed(BarcodeGroup(bc.value, umis.value), umis.rest))
  }

  function DecodeGroups(ts: seq<Tok>, j: nat): Option<Parsed<seq<BarcodeGroup>>>
  {
    DecodeMany(ts, j, DecodeGroup)
  }

  function DecodeClass(ts: seq<Tok>): Option<Parsed<EqClass>>
  {
    var size :- ReadNat(ts);
    var txps :- ReadNats(size.rest, size.value);
    var count :- ReadNat(txps.rest);
    var groupCount :- ReadNat(count.rest);
    var groups :- DecodeGroups(groupCount.rest, groupCount.value);
    Some(Parsed(EqClass(txps.value, count.value, groups.value), groups.rest))
  }

  function DecodeClasses(ts: seq<Tok>, i: nat): Option<Parsed<seq<EqClass>>>
  {
    DecodeMany(ts, i, DecodeClass)
  }

  /** Reads a whole file; whatever follows the last class is left over. */
  function Decode(ts: seq<Tok>): Option<Parsed<Bfh>>
  {
    var numTxps :- ReadNat(ts);
    var numBcs :- ReadNat(numTxps.rest);
    var numClasses :- ReadNat(numBcs.rest);
    var txps :- ReadStrs(numClasses.rest, numTxps.value);
    var bcs :- ReadStrs(txps.rest, numBcs.value);
    var classes :- DecodeClasses(bcs.rest, numClasses.value);
    Some(Parsed(Bfh(txps.value, bcs.value, classes.value), classes.rest))
  }

  // ---------------------------------------------------------------- what a decode consumed

  /** Whatever the UMI decoder returns is spelled by the tokens it consumed. */
  lemma {:induction false} DecodeUmisSpells(ts: seq<Tok>, k: nat)
    ensures DecodeUmis(ts, k).Some? ==>
              && |DecodeUmis(ts, k).value.value| == k
              && ts == EncodeUmis(DecodeUmis(ts, k).value.value) + DecodeUmis(ts, k).value.rest
    decreases k
  {
    if k > 0 && DecodeUmis(ts, k).Some? {
      var u := DecodeUmi(ts).value;
      var more := DecodeUmis(u.rest, k - 1).value;
      DecodeUmisSpells(u.rest, k - 1);
      var us := [u.value] + more.value;
      assert DecodeUmis(ts, k).value == Parsed(us, more.rest);
      assert us[1..] == more.value;
      assert ts == [S(u.value.umi), N(u.value.count)] + (EncodeUmis(more.value) + more.rest);
      Assoc([S(u.value.umi), N(u.value.count)], EncodeUmis(more.value), more.rest);
    }
  }

  lemma DecodeGroupSpells(ts: seq<Tok>)
    ensures DecodeGroup(ts).Some? ==> ts == EncodeGroup(DecodeGroup(ts).value.value) + DecodeGroup(ts).value.rest
  {
    if DecodeGroup(ts).Some? {
      var bc := ReadNat(ts).value;
      var size := ReadNat(bc.rest).value;
      var umis := DecodeUmis(size.rest, size.value).value;
      DecodeUmisSpells(size.rest, size.value);
      var g := BarcodeGroup(bc.value, umis.value);
      assert ts == [N(g.bc)] + ([N(|g.umis|)] + (EncodeUmis(g.umis) + umis.rest));
    }
  }

  lemma {:induction false} DecodeGroupsSpells(ts: seq<Tok>, j: nat)
    ensures DecodeGroups(ts, j).Some? ==>
              && |DecodeGroups(ts, j).value.value| == j
              && ts == EncodeGroups(DecodeGroups(ts, j).value.value) + DecodeGroups(ts, j).value.rest
    decreases j
  {
    if j > 0 && DecodeGroups(ts, j).Some? {
      var g := DecodeGroup(ts).value;
      var more := DecodeGroups(g.rest, j - 1).value;
      DecodeGroupSpells(ts);
      DecodeGroupsSpells(g.rest, j - 1);
      var gs := [g.value] + more.value;
      assert gs[1..] == more.value;
      Assoc(EncodeGroup(g.value), EncodeGroups(more.value), more.rest);
    }
  }

  lemma DecodeClassSpells(ts: seq<Tok>)
    ensures DecodeClass(ts).Some? ==> ts == EncodeClass(DecodeClass(ts).value.value) + DecodeClass(ts).value.rest
  {
    if DecodeClass(ts).Some? {
      var size := ReadNat(ts).value;
      var txps := ReadNats(size.rest, size.value).value;
      var count := ReadNat(txps.rest).value;
      var groupCount := ReadNat(count.rest).value;
      var groups := DecodeGroups(groupCount.rest, groupCount.value).value;
      ReadNatsSpells(size.rest, size.value);
      DecodeGroupsSpells(groupCount.rest, groupCount.value);
      var c := EqClass(txps.value, count.value, groups.value);
      var g := EncodeGroups(c.groups);
      var rest := groups.rest;
      assert count.rest == [N(|c.groups|)] + (g + rest);
      assert txps.rest == [N(c.count), N(|c.groups|)] + (g + rest);
      Assoc([N(c.count), N(|c.groups|)], g, rest);
      assert size.rest == Nats(c.txps) + (([N(c.count), N(|c.groups|)] + g) + rest);
      Assoc(Nats(c.txps), [N(c.count), N(|c.groups|)] + g, rest);
      Assoc([N(|c.txps|)], Nats(c.txps) + ([N(c.count), N(|c.groups|)] + g), rest);
    }
  }

  lemma {:induction false} DecodeClassesSpells(ts: seq<Tok>, i: nat)
    ensures DecodeClasses(ts, i).Some? ==>
              && |DecodeClasses(ts, i).value.value| == i
              && ts == EncodeClasses(DecodeClasses(ts, i).value.value) + DecodeClasses(ts, i).value.rest
    decreases i
  {
    if i > 0 && DecodeClasses(ts, i).Some? {
      var c := DecodeClass(ts).value;
      var more := DecodeClasses(c.rest, i - 1).value;
      DecodeClassSpells(ts);
      DecodeClassesSpells(c.rest, i - 1);
      var cs := [c.value] + more.value;
      assert cs[1..] == more.value;
      Assoc(EncodeClass(c.value), EncodeClasses(more.value), more.rest);
    }
  }

  /** A decoded file is spelled by the tokens the decode consumed. */
  lemma DecodeSpells(ts: seq<Tok>)
    ensures Decode(ts).Some? ==> ts == Encode(Decode(ts).value.value) + Decode(ts).value.rest
  {
    if Decode(ts).Some? {
      var numTxps := ReadNat(ts).value;
      var numBcs := ReadNat(numTxps.rest).value;
      var numClasses := ReadNat(numBcs.rest).value;
      var txps := ReadStrs(numClasses.rest, numTxps.value).value;
      var bcs := ReadStrs(txps.rest, numBcs.value).value;
      var classes := DecodeClasses(bcs.rest, numClasses.value).value;
      ReadStrsSpells(numClasses.rest, numTxps.value);
      ReadStrsSpells(txps.rest, numBcs.value);
      DecodeClassesSpells(bcs.rest, numClasses.value);
      var f := Bfh(txps.value, bcs.value, classes.value);
      var e := EncodeClasses(f.classes);
      var rest := classes.rest;
      Assoc(Strs(f.bcNames), e, rest);
      Assoc(Strs(f.txpNames), Strs(f.bcNames) + e, rest);
      var body := Strs(f.txpNames) + (Strs(f.bcNames) + e);
      assert numClasses.rest == body + rest;
      assert ts == [N(|f.txpNames|), N(|f.bcNames|), N(|f.classes|)] + (body + rest);
      Assoc([N(|f.txpNames|), N(|f.bcNames|), N(|f.classes|)], body, rest);
    }
  }

  // ---------------------------------------------------------------- round trips

  lemma Assoc<T>(a: seq<T>, b: seq<T>, c: seq<T>)
    ensures (a + b) + c == a + (b + c)
  {
  }

  lemma {:induction false} DecodeEncodeUmis(us: seq<UmiEntry>, rest: seq<Tok>)
    ensures DecodeUmis(EncodeUmis(us) + rest, |us|) == Some(Parsed(us, rest))
    decreases |us|
  {
    if |us| == 0 {
      assert EncodeUmis(us) + rest == rest;
    } else {
      var ts := EncodeUmis(us) + rest;
      var tail := EncodeUmis(us[1..]) + rest;
      assert ts == [S(us[0].umi)] + ([N(us[0].count)] + tail);
      assert ReadStr(ts) == Some(Parsed(us[0].umi, [N(us[0].count)] + tail));
      assert ReadNat([N(us[0].count)] + tail) == Some(Parsed(us[0].count, tail));
      assert DecodeUmi(ts) == Some(Parsed(us[0], tail));
      DecodeEncodeUmis(us[1..], rest);
      assert [us[0]] + us[1..] == us;
    }
  }

  lemma DecodeEncodeGroup(g: BarcodeGroup, rest: seq<Tok>)
    ensures DecodeGroup(EncodeGroup(g) + rest) == Some(Parsed(g, rest))
  {
    var tail := EncodeUmis(g.umis) + rest;
    var ts := EncodeGroup(g) + rest;
    assert ts == [N(g.bc)] + ([N(|g.umis|)] + tail);
    assert ReadNat(ts) == Some(Parsed(g.bc, [N(|g.umis|)] + tail));
    assert ReadNat([N(|g.umis|)] + tail) == Some(Parsed(|g.umis|, tail));
    DecodeEncodeUmis(g.umis, rest);
  }

  lemma {:induction false} DecodeEncodeGroups(gs: seq<BarcodeGroup>, rest: seq<Tok>)
    ensures DecodeGroups(EncodeGroups(gs) + rest, |gs|) == Some(Parsed(gs, rest))
    decreases |gs|
  {
    if |gs| == 0 {
      assert EncodeGroups(gs) + rest == rest;
    } else {
      var tail := EncodeGroups(gs[1..]) + rest;
      assert EncodeGroups(gs) + rest == EncodeGroup(gs[0]) + tail;
      DecodeEncodeGroup(gs[0], tail);
      DecodeEncodeGroups(gs[1..], rest);
      assert [gs[0]] + gs[1..] == gs;
    }
  }

  lemma DecodeEncodeClass(c: EqClass, rest: seq<Tok>)
    ensures DecodeClass(EncodeClass(c) + rest) == Some(Parsed(c, rest))
  {
    var tail := EncodeGroups(c.groups) + rest;
    var afterLabel := [N(c.count)] + ([N(|c.groups|)] + tail);
    var ts := EncodeClass(c) + rest;
    assert ts == [N(|c.txps|)] + (Nats(c.txps) + afterLabel);
    assert ReadNat(ts) == Some(Parsed(|c.txps|, Nats(c.txps) + afterLabel));
    ReadNatsOfNats(c.txps, afterLabel);
    assert ReadNat(afterLabel) == Some(Parsed(c.count, [N(|c.groups|)] + tail));
    assert ReadNat([N(|c.groups|)] + tail) == Some(Parsed(|c.groups|, tail));
    DecodeEncodeGroups(c.groups, rest);
  }

  lemma {:induction false} DecodeEncodeClasses(cs: seq<EqClass>, rest: seq<Tok>)
    ensures DecodeClasses(EncodeClasses(cs) + rest, |cs|) == Some(Parsed(cs, rest))
    decreases |cs|
  {
    if |cs| == 0 {
      assert EncodeClasses(cs) + rest == rest;
    } else {
      var tail := EncodeClasses(cs[1..]) + rest;
      assert EncodeClasses(cs) + rest == EncodeClass(cs[0]) + tail;
      DecodeEncodeClass(cs[0], tail);
      DecodeEncodeClasses(cs[1..], rest);
      assert [cs[0]] + cs[1..] == cs;
    }
  }

  /** Every file is read back from its own spelling, whatever follows it. */
  lemma DecodeEncode(f: Bfh, rest: seq<Tok>)
    ensures Decode(Encode(f) + rest) == Some(Parsed(f, rest))
  {
    var e := EncodeClasses(f.classes);
    var afterBcs := e + rest;
    var afterTxps := Strs(f.bcNames) + afterBcs;
    var body := Strs(f.txpNames) + afterTxps;
    var header := [N(|f.txpNames|), N(|f.bcNames|), N(|f.classes|)];
    Assoc(Strs(f.bcNames), e, rest);
    Assoc(Strs(f.txpNames), Strs(f.bcNames) + e, rest);
    Assoc(header, Strs(f.txpNames) + (Strs(f.bcNames) + e), rest);
    var ts := Encode(f) + rest;
    assert ts == header + body;
    assert ts == [N(|f.txpNames|)] + ([N(|f.bcNames|), N(|f.classes|)] + body);
    assert [N(|f.bcNames|), N(|f.classes|)] + body == [N(|f.bcNames|)] + ([N(|f.classes|)] + body);
    assert ReadNat(ts) == Some(Parsed(|f.txpNames|, [N(|f.bcNames|), N(|f.classes|)] + body));
    assert ReadNat([N(|f.bcNames|), N(|f.classes|)] + body) == Some(Parsed(|f.bcNames|, [N(|f.classes|)] + body));
    assert ReadNat([N(|f.classes|)] + body) == Some(Parsed(|f.classes|, body));
    ReadStrsOfStrs(f.txpNames, afterTxps);
    ReadStrsOfStrs(f.bcNames, afterBcs);
    DecodeEncodeClasses(f.classes, rest);
  }

  /** Decoding succeeds exactly on the streams that begin with the spelling of
      some file, and then returns that file and the remainder. */
  lemma DecodeSucceedsIff(ts: seq<Tok>)
    ensures Decode(ts).Some? <==> exists f: Bfh, rest: seq<Tok> :: ts == Encode(f) + rest
    ensures Decode(ts).Some? ==> ts == Encode(Decode(ts).value.value) + Decode(ts).value.rest
  {
    DecodeSpells(ts);
    if f: Bfh, rest: seq<Tok> :| ts == Encode(f) + rest {
      DecodeEncode(f, rest);
    }
  }
}
