/** What the parse does with each UMI entry it reads (the body of the
    innermost loop of `readBfh`), and the fold of that step over a list of
    entries, related to independent per-key, per-triple and per-barcode sums. */
module Aggregation {
  import opened Wrappers
  import opened EqClassMap

  /** The UMI encoder (`AlevinUMIKmer::fromChars` followed by `word(0)`):
      the packed UMI, or None when the string cannot be packed. */
  type Encoder = string -> Option<nat>

  /** One UMI entry of the file in its context: the class it belongs to, its
      barcode index and barcode name, the UMI string and its count. */
  datatype Rec = Rec(key: TranscriptGroup, bc: nat, bcName: string, umi: string, count: nat)

  /** The two tables the parse fills: the class table and the per-barcode
      frequency table (`freqCounter`). */
  datatype Acc = Acc(countMap: ClassMap, freq: map<string, nat>)

  /** The class total stored for a key, 0 when the key is absent. */
  function CountOf(m: ClassMap, key: TranscriptGroup): nat
  {
    ValueOf(m, key).count
  }

  /** The frequency of a barcode name, 0 when absent (what `operator[]` reads). */
  function FreqOf(freq: map<string, nat>, name: string): nat
  {
    if name in freq then freq[name] else 0
  }

  /** Whether a UMI entry's string packs. */
  predicate Encodes(r: Rec, encode: Encoder)
  {
    encode(r.umi).Some?
  }

  /** One UMI entry: when its string packs, the triple is upserted under the
      class and the count is added to the barcode's frequency; otherwise
      neither table changes. */
  function AddEntry(acc: Acc, r: Rec, encode: Encoder): (acc': Acc)
    ensures !Encodes(r, encode) ==> acc' == acc
    ensures Encodes(r, encode) ==> acc'.countMap.Keys == acc.countMap.Keys + {r.key}
    ensures Encodes(r, encode) ==> acc'.freq.Keys == acc.freq.Keys + {r.bcName}
    ensures forall k :: CountOf(acc'.countMap, k)
                        == CountOf(acc.countMap, k) + (if Encodes(r, encode) && k == r.key then r.count else 0)
    ensures forall name :: FreqOf(acc'.freq, name)
                           == FreqOf(acc.freq, name) + (if Encodes(r, encode) && name == r.bcName then r.count else 0)
  {
    match encode(r.umi)
    case None => acc
    case Some(umi) =>
      Acc(Upsert(acc.countMap, r.key, r.bc, umi, r.count), Bump(acc.freq, r.bcName, r.count))
  }

  /** The parse's effect on the tables of a list of UMI entries, in order. */
  function AggRecs(recs: seq<Rec>, encode: Encoder, acc: Acc): Acc
    decreases |recs|
  {
    if |recs| == 0 then acc else AggRecs(recs[1..], encode, AddEntry(acc, recs[0], encode))
  }

  // ------------------------------------------------------ reference sums

  /** The sum of every count, packable or not (the class validator's sum). */
  function CountSum(recs: seq<Rec>): nat
  {
    if |recs| == 0 then 0 else recs[0].count + CountSum(recs[1..])
  }

  /** The sum of the packable counts filed under a class key. */
  function KeySum(recs: seq<Rec>, key: TranscriptGroup, encode: Encoder): nat
  {
    if |recs| == 0 then 0
    else (if recs[0].key == key && Encodes(recs[0], encode) then recs[0].count else 0)
         + KeySum(recs[1..], key, encode)
  }

  /** The sum of the counts filed under a class key, a barcode index and a
      packed UMI. */
  function TripleSum(recs: seq<Rec>, key: TranscriptGroup, bc: nat, umi: nat, encode: Encoder): nat
  {
    if |recs| == 0 then 0
    else (if recs[0].key == key && recs[0].bc == bc && encode(recs[0].umi) == Some(umi)
          then recs[0].count else 0)
         + TripleSum(recs[1..], key, bc, umi, encode)
  }

  /** The sum of the packable counts filed under a barcode name. */
  function NameSum(recs: seq<Rec>, name: string, encode: Encoder): nat
  {
    if |recs| == 0 then 0
    else (if recs[0].bcName == name && Encodes(recs[0], encode) then recs[0].count else 0)
         + NameSum(recs[1..], name, encode)
  }

  // ------------------------------------------------------ the fold

  /** Folding a concatenation is folding the parts in turn. */
  lemma {:induction false} AggRecsAppend(a: seq<Rec>, b: seq<Rec>, encode: Encoder, acc: Acc)
    ensures AggRecs(a + b, encode, acc) == AggRecs(b, encode, AggRecs(a, encode, acc))
    decreases |a|
  {
    if |a| == 0 {
      assert a + b == b;
    } else {
      assert (a + b)[1..] == a[1..] + b;
      AggRecsAppend(a[1..], b, encode, AddEntry(acc, a[0], encode));
    }
  }

  /** A class's stored total grows by exactly the packable counts filed
      under it. */
  lemma {:induction false} AggRecsClassCount(recs: seq<Rec>, encode: Encoder, acc: Acc, key: TranscriptGroup)
    ensures CountOf(AggRecs(recs, encode, acc).countMap, key) == CountOf(acc.countMap, key) + KeySum(recs, key, encode)
    decreases |recs|
  {
    if |recs| > 0 {
      AggRecsClassCount(recs[1..], encode, AddEntry(acc, recs[0], encode), key);
    }
  }

  /** A key is in the class table afterwards exactly when it was before or
      some packable entry is filed under it. */
  lemma {:induction false} AggRecsClassKeys(recs: seq<Rec>, encode: Encoder, acc: Acc, key: TranscriptGroup)
    ensures key in AggRecs(recs, encode, acc).countMap
            <==> key in acc.countMap
                 || exists i :: 0 <= i < |recs| && recs[i].key == key && Encodes(recs[i], encode)
    decreases |recs|
  {
    if |recs| > 0 {
      var acc' := AddEntry(acc, recs[0], encode);
      AggRecsClassKeys(recs[1..], encode, acc', key);
      if exists i :: 0 <= i < |recs[1..]| && recs[1..][i].key == key && Encodes(recs[1..][i], encode) {
        var i :| 0 <= i < |recs[1..]| && recs[1..][i].key == key && Encodes(recs[1..][i], encode);
        assert recs[i + 1] == recs[1..][i];
      }
      if exists i :: 0 <= i < |recs| && recs[i].key == key && Encodes(recs[i], encode) {
        var i :| 0 <= i < |recs| && recs[i].key == key && Encodes(recs[i], encode);
        if i > 0 {
          assert recs[1..][i - 1] == recs[i];
        }
      }
    }
  }

  /** The count stored for a (class, barcode, packed UMI) triple grows by
      exactly the counts filed under that triple. */
  lemma {:induction false} AggRecsUmiCount(recs: seq<Rec>, encode: Encoder, acc: Acc,
                                           key: TranscriptGroup, bc: nat, umi: nat)
    ensures UmiCount(ValueOf(AggRecs(recs, encode, acc).countMap, key).barcodes, bc, umi)
            == UmiCount(ValueOf(acc.countMap, key).barcodes, bc, umi) + TripleSum(recs, key, bc, umi, encode)
    decreases |recs|
  {
    if |recs| > 0 {
      var r := recs[0];
      var acc' := AddEntry(acc, r, encode);
      AggRecsUmiCount(recs[1..], encode, acc', key, bc, umi);
      match encode(r.umi)
      case None =>
      case Some(u) =>
        var before := ValueOf(acc.countMap, r.key);
        assert ValueOf(acc'.countMap, r.key) == Merge(before, r.bc, u, r.count);
        if r.key != key {
          assert ValueOf(acc'.countMap, key) == ValueOf(acc.countMap, key);
        }
    }
  }

  /** A barcode's frequency grows by exactly the packable counts filed under
      its name. */
  lemma {:induction false} AggRecsFreq(recs: seq<Rec>, encode: Encoder, acc: Acc, name: string)
    ensures FreqOf(AggRecs(recs, encode, acc).freq, name) == FreqOf(acc.freq, name) + NameSum(recs, name, encode)
    decreases |recs|
  {
    if |recs| > 0 {
      AggRecsFreq(recs[1..], encode, AddEntry(acc, recs[0], encode), name);
    }
  }

  /** Every stored class value has its total equal to the sum of its
      per-barcode, per-UMI counts. */
  ghost predicate AllConsistent(m: ClassMap)
  {
    forall k :: k in m ==> Consistent(m[k])
  }

  /** One UMI entry keeps every class value consistent. */
  lemma AddEntryConsistent(acc: Acc, r: Rec, encode: Encoder)
    requires AllConsistent(acc.countMap)
    ensures AllConsistent(AddEntry(acc, r, encode).countMap)
  {
    if Encodes(r, encode) {
      var m := acc.countMap;
      var u := encode(r.umi).value;
      var m' := Upsert(m, r.key, r.bc, u, r.count);
      assert AddEntry(acc, r, encode).countMap == m';
      if r.key in m {
        assert Consistent(m[r.key]);
      } else {
        assert m'[r.key] == Fresh(r.bc, u, r.count);
      }
    }
  }

  /** The fold keeps every class value consistent. */
  lemma {:induction false} AggRecsConsistent(recs: seq<Rec>, encode: Encoder, acc: Acc)
    requires AllConsistent(acc.countMap)
    ensures AllConsistent(AggRecs(recs, encode, acc).countMap)
    decreases |recs|
  {
    if |recs| > 0 {
      AddEntryConsistent(acc, recs[0], encode);
      AggRecsConsistent(recs[1..], encode, AddEntry(acc, recs[0], encode));
    }
  }
}
