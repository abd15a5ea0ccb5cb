/** A worked file: two transcripts, one barcode of length 8 and one class
    labelled [0, 1] that declares 3 reads in two UMI entries, read with any
    encoder that packs its UMI strings. */
module BfhExamples {
  import opened Wrappers
  import opened Tokens
  import opened BfhFormat
  import opened EqClassMap
  import opened Aggregation
  import opened BfhSemantics
  import opened BfhReader
  import opened BfhProperties

  function ExampleFile(declared: nat): Bfh
  {
    Bfh(["T1", "T2"], ["AACCGGTT"],
        [EqClass([0, 1], declared, [BarcodeGroup(0, [UmiEntry("AAAA", 2), UmiEntry("CCCC", 1)])])])
  }

  /** The file as it stands in the stream, with the declared count of its
      one class left open. */
  function ExampleTokens(declared: nat): seq<Tok>
  {
    [N(2), N(1), N(1), S("T1"), S("T2"), S("AACCGGTT"),
     N(2), N(0), N(1), N(declared), N(1),
     N(0), N(2), S("AAAA"), N(2), S("CCCC"), N(1)]
  }

  const Key: TranscriptGroup := TranscriptGroup([0, 1])

  /** The spelling of the example's one class. */
  lemma ExampleClassSpelling(declared: nat)
    ensures EncodeClasses(ExampleFile(declared).classes)
            == [N(2), N(0), N(1), N(declared), N(1), N(0), N(2), S("AAAA"), N(2), S("CCCC"), N(1)]
  {
    var c := ExampleFile(declared).classes[0];
    var g := c.groups[0];
    assert EncodeUmis(g.umis) == [S("AAAA"), N(2), S("CCCC"), N(1)] by {
      assert g.umis[1..][1..] == [];
    }
    assert EncodeGroups(c.groups) == EncodeGroup(g) by {
      assert c.groups[1..] == [];
    }
    assert Nats(c.txps) == [N(0), N(1)] by {
      assert c.txps[1..][1..] == [];
    }
    assert EncodeClasses(ExampleFile(declared).classes) == EncodeClass(c) by {
      assert ExampleFile(declared).classes[1..] == [];
    }
  }

  lemma ExampleSpelling(declared: nat)
    ensures Encode(ExampleFile(declared)) + [] == ExampleTokens(declared)
  {
    var f := ExampleFile(declared);
    ExampleClassSpelling(declared);
    assert Strs(f.txpNames) == [S("T1"), S("T2")] by {
      assert f.txpNames[1..][1..] == [];
    }
    assert Strs(f.bcNames) == [S("AACCGGTT")] by {
      assert f.bcNames[1..] == [];
    }
  }

  /** The entries of the example file in order. */
  lemma ExampleEntries(declared: nat)
    ensures AllGroupsInRange(ExampleFile(declared).classes, 1)
    ensures Entries(ExampleFile(declared))
            == [Rec(Key, 0, "AACCGGTT", "AAAA", 2), Rec(Key, 0, "AACCGGTT", "CCCC", 1)]
  {
    var f := ExampleFile(declared);
    var c := f.classes[0];
    var g := c.groups[0];
    assert GroupsInRange(c.groups, 1);
    assert AllGroupsInRange(f.classes, 1);
    var es := [Rec(Key, 0, "AACCGGTT", "AAAA", 2), Rec(Key, 0, "AACCGGTT", "CCCC", 1)];
    assert UmiRecs(g.umis, Key, 0, "AACCGGTT") == es by {
      assert g.umis[1..][1..] == [];
    }
    assert GroupRecs(c.groups, Key, f.bcNames) == es by {
      assert c.groups[1..] == [];
      assert es + [] == es;
    }
    assert ClassRecs(f.classes, f.bcNames) == es by {
      assert f.classes[1..] == [];
      assert es + [] == es;
    }
  }

  lemma ExampleValid()
    ensures Valid(ExampleFile(3), 8)
  {
    var f := ExampleFile(3);
    var c := f.classes[0];
    var g := c.groups[0];
    assert UmiSum(g.umis) == 3 by {
      assert g.umis[1..][1..] == [];
    }
    assert GroupsSum(c.groups) == 3 by {
      assert c.groups[1..] == [];
    }
    assert ClassOk(c, 2, 1);
  }

  /** The example stream reads as the example file does. */
  lemma ExampleSetup(ts: seq<Tok>, encode: Encoder, freq0: map<string, nat>)
    requires ts == ExampleTokens(3)
    ensures ReadBfh(ts, 8, encode, freq0) == ReadBfh(Encode(ExampleFile(3)) + [], 8, encode, freq0)
    ensures ReadBfh(ts, 8, encode, freq0).Some?
    ensures Entries(ExampleFile(3)) == [Rec(Key, 0, "AACCGGTT", "AAAA", 2), Rec(Key, 0, "AACCGGTT", "CCCC", 1)]
  {
    ExampleSpelling(3);
    ExampleValid();
    ReadSpelled(ExampleFile(3), [], 8, encode, freq0);
    ExampleEntries(3);
  }

  /** Read with an encoder that packs both UMI strings apart, the example
      yields 3 reads and a class table whose one key is the label [0, 1]. */
  lemma ExampleRead(ts: seq<Tok>, encode: Encoder, a: nat, c: nat, freq0: map<string, nat>)
    requires ts == ExampleTokens(3)
    requires encode("AAAA") == Some(a) && encode("CCCC") == Some(c) && a != c
    ensures ReadBfh(ts, 8, encode, freq0).Some?
    ensures ReadBfh(ts, 8, encode, freq0).value.total == 3
    ensures ReadBfh(ts, 8, encode, freq0).value.countMap.Keys == {Key}
  {
    ExampleSetup(ts, encode, freq0);
    var f := ExampleFile(3);
    var r := ReadBfh(ts, 8, encode, freq0).value;
    var es := Entries(f);
    TotalIsDeclared(f, [], 8, encode, freq0, r);
    forall k
      ensures k in r.countMap <==> k == Key
    {
      ClassKeys(f, [], 8, encode, freq0, r, k);
      if k == Key {
        assert es[0].key == k && Encodes(es[0], encode);
      }
    }
  }

  /** The sums of the example's entries under an encoder that packs both
      UMI strings apart. */
  lemma ExampleSums(encode: Encoder, a: nat, c: nat)
    requires encode("AAAA") == Some(a) && encode("CCCC") == Some(c) && a != c
    ensures KeySum([Rec(Key, 0, "AACCGGTT", "AAAA", 2), Rec(Key, 0, "AACCGGTT", "CCCC", 1)], Key, encode) == 3
    ensures TripleSum([Rec(Key, 0, "AACCGGTT", "AAAA", 2), Rec(Key, 0, "AACCGGTT", "CCCC", 1)], Key, 0, a, encode) == 2
    ensures TripleSum([Rec(Key, 0, "AACCGGTT", "AAAA", 2), Rec(Key, 0, "AACCGGTT", "CCCC", 1)], Key, 0, c, encode) == 1
  {
    var es := [Rec(Key, 0, "AACCGGTT", "AAAA", 2), Rec(Key, 0, "AACCGGTT", "CCCC", 1)];
    assert es[1..] == [es[1]];
    assert es[1..][1..] == [];
    assert encode(es[0].umi) == Some(a) && encode(es[1].umi) == Some(c);
    assert KeySum(es[1..], Key, encode) == 1;
    assert TripleSum(es[1..], Key, 0, a, encode) == 0;
    assert TripleSum(es[1..], Key, 0, c, encode) == 1;
  }

  /** The class of the example holds total 3, the first UMI with count 2
      and the second with count 1, both under barcode 0. */
  lemma ExampleUmis(ts: seq<Tok>, encode: Encoder, a: nat, c: nat, freq0: map<string, nat>)
    requires ts == ExampleTokens(3)
    requires encode("AAAA") == Some(a) && encode("CCCC") == Some(c) && a != c
    ensures ReadBfh(ts, 8, encode, freq0).Some?
    ensures CountOf(ReadBfh(ts, 8, encode, freq0).value.countMap, Key) == 3
    ensures UmiCount(ValueOf(ReadBfh(ts, 8, encode, freq0).value.countMap, Key).barcodes, 0, a) == 2
    ensures UmiCount(ValueOf(ReadBfh(ts, 8, encode, freq0).value.countMap, Key).barcodes, 0, c) == 1
  {
    ExampleSetup(ts, encode, freq0);
    var f := ExampleFile(3);
    var r := ReadBfh(ts, 8, encode, freq0).value;
    ExampleSums(encode, a, c);
    ClassCountIsKeySum(f, [], 8, encode, freq0, r, Key);
    TripleCount(f, [], 8, encode, freq0, r, Key, 0, a);
    TripleCount(f, [], 8, encode, freq0, r, Key, 0, c);
  }

  /** The barcode of the example gains 3 reads. */
  lemma ExampleFreq(ts: seq<Tok>, encode: Encoder, a: nat, c: nat, freq0: map<string, nat>)
    requires ts == ExampleTokens(3)
    requires encode("AAAA") == Some(a) && encode("CCCC") == Some(c)
    ensures ReadBfh(ts, 8, encode, freq0).Some?
    ensures FreqOf(ReadBfh(ts, 8, encode, freq0).value.freq, "AACCGGTT") == FreqOf(freq0, "AACCGGTT") + 3
  {
    ExampleSetup(ts, encode, freq0);
    var f := ExampleFile(3);
    var r := ReadBfh(ts, 8, encode, freq0).value;
    var es := Entries(f);
    assert es[1..] == [es[1]];
    FreqCount(f, [], 8, encode, freq0, r, "AACCGGTT");
    assert NameSum(es[1..], "AACCGGTT", encode) == 1;
  }

  /** A UMI string that does not pack still counts toward the read total,
      but neither table receives it. */
  lemma ExampleUnpackable(ts: seq<Tok>, encode: Encoder, a: nat, freq0: map<string, nat>)
    requires ts == ExampleTokens(3)
    requires encode("AAAA") == Some(a) && encode("CCCC") == None
    ensures ReadBfh(ts, 8, encode, freq0).Some?
    ensures ReadBfh(ts, 8, encode, freq0).value.total == 3
    ensures CountOf(ReadBfh(ts, 8, encode, freq0).value.countMap, Key) == 2
    ensures FreqOf(ReadBfh(ts, 8, encode, freq0).value.freq, "AACCGGTT")
            == FreqOf(freq0, "AACCGGTT") + 2
  {
    ExampleSetup(ts, encode, freq0);
    var f := ExampleFile(3);
    var r := ReadBfh(ts, 8, encode, freq0).value;
    var es := Entries(f);
    assert es[1..] == [es[1]];
    TotalIsDeclared(f, [], 8, encode, freq0, r);
    ClassCountIsKeySum(f, [], 8, encode, freq0, r, Key);
    FreqCount(f, [], 8, encode, freq0, r, "AACCGGTT");
    assert NameSum(es[1..], "AACCGGTT", encode) == 0;
    assert KeySum(es[1..], Key, encode) == 0;
  }

  /** Declaring any count other than 3 fails the parse. */
  lemma ExampleMismatch(ts: seq<Tok>, declared: nat, encode: Encoder, freq0: map<string, nat>)
    requires ts == ExampleTokens(declared) && declared != 3
    ensures ReadBfh(ts, 8, encode, freq0) == None
  {
    var f := ExampleFile(declared);
    ExampleSpelling(declared);
    ReadSpelled(f, [], 8, encode, freq0);
    var c := f.classes[0];
    assert GroupsSum(c.groups) == 3 by {
      var g := c.groups[0];
      assert g.umis[1..][1..] == [];
      assert c.groups[1..] == [];
    }
    assert !ClassOk(c, 2, 1);
  }
}
