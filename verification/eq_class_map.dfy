/** The class table (`EqMapT`): equivalence-class key to aggregated value, and
    its upsert-or-merge protocol. */
module EqClassMap {

  /** The key of the class table: the transcript indices of an equivalence
      class in the order the file lists them. */
  datatype TranscriptGroup = TranscriptGroup(txps: seq<nat>)

  /** Barcode index to packed UMI to accumulated count. */
  type BarcodeGroups = map<nat, map<nat, nat>>

  /** The aggregate for one class (`SCTGValue`): the total of every UMI count
      merged into it, and the per-barcode, per-UMI counts. */
  datatype ClassValue = ClassValue(count: nat, barcodes: BarcodeGroups)

  type ClassMap = map<TranscriptGroup, ClassValue>

  /** The value an absent key behaves as. */
  const Empty: ClassValue := ClassValue(0, map[])

  /** The count stored for one (barcode, UMI) pair, 0 when there is none. */
  function UmiCount(b: BarcodeGroups, bc: nat, umi: nat): nat
  {
    if bc in b && umi in b[bc] then b[bc][umi] else 0
  }

  /** The stored value of a key, or `Empty` when the key is absent. */
  function ValueOf(m: ClassMap, key: TranscriptGroup): ClassValue
  {
    if key in m then m[key] else Empty
  }

  /** The UMI map stored for a barcode, empty when there is none. */
  function UmisOf(b: BarcodeGroups, bc: nat): map<nat, nat>
  {
    if bc in b then b[bc] else map[]
  }

  /** Adds `c` to the entry of `k`, creating it when absent. */
  function Bump<K>(m: map<K, nat>, k: K, c: nat): map<K, nat>
  {
    m[k := (if k in m then m[k] else 0) + c]
  }

  /** Folds one `(barcode, UMI, count)` triple into the barcode groups: a new
      barcode gets a one-entry UMI map, a new UMI gets an entry, and a seen
      UMI accumulates. */
  function AddUmi(b: BarcodeGroups, bc: nat, umi: nat, c: nat): BarcodeGroups
  {
    b[bc := Bump(UmisOf(b, bc), umi, c)]
  }

  /** Folding a triple in adds its count at its own (barcode, UMI) pair and
      nowhere else. */
  lemma AddUmiCounts(b: BarcodeGroups, bc: nat, umi: nat, c: nat)
    ensures forall x, u :: UmiCount(AddUmi(b, bc, umi, c), x, u)
                           == UmiCount(b, x, u) + (if x == bc && u == umi then c else 0)
  {
  }

  /** The merge function of the upsert: the class total grows by the UMI
      count and the triple is folded into the barcode groups. */
  function Merge(v: ClassValue, bc: nat, umi: nat, c: nat): (v': ClassValue)
    ensures v'.count == v.count + c
    ensures forall x, u :: UmiCount(v'.barcodes, x, u)
                           == UmiCount(v.barcodes, x, u) + (if x == bc && u == umi then c else 0)
    ensures Consistent(v) ==> Consistent(v')
  {
    AddUmiCounts(v.barcodes, bc, umi, c);
    AddUmiTotal(v.barcodes, bc, umi, c);
    ClassValue(v.count + c, AddUmi(v.barcodes, bc, umi, c))
  }

  /** The value inserted for a key seen for the first time. */
  function Fresh(bc: nat, umi: nat, c: nat): (v: ClassValue)
    ensures v == Merge(Empty, bc, umi, c)
    ensures Consistent(v)
  {
    ClassValue(c, map[bc := map[umi := c]])
  }

  /** Upsert-or-merge: an absent key is inserted with the fresh value, a
      present key is merged in place, and no other key changes. */
  function Upsert(m: ClassMap, key: TranscriptGroup, bc: nat, umi: nat, c: nat): (m': ClassMap)
    ensures m'.Keys == m.Keys + {key}
    ensures forall k :: k in m && k != key ==> m'[k] == m[k]
    ensures key !in m ==> m'[key] == Fresh(bc, umi, c)
    ensures key in m ==> m'[key].count == m[key].count + c
    ensures m'[key] == Merge(ValueOf(m, key), bc, umi, c)
  {
    if key in m then m[key := Merge(m[key], bc, umi, c)]
    else m[key := Fresh(bc, umi, c)]
  }

  /** Merging the same triple twice accumulates rather than overwrites. */
  lemma MergeTwiceAccumulates(v: ClassValue, bc: nat, umi: nat, c: nat)
    ensures Merge(Merge(v, bc, umi, c), bc, umi, c).count == v.count + 2 * c
    ensures UmiCount(Merge(Merge(v, bc, umi, c), bc, umi, c).barcodes, bc, umi)
            == UmiCount(v.barcodes, bc, umi) + 2 * c
  {
    var once := Merge(v, bc, umi, c);
    assert UmiCount(once.barcodes, bc, umi) == UmiCount(v.barcodes, bc, umi) + c;
  }

  // ------------------------------------------------------------ consistency

  ghost function Pick<K>(s: set<K>): K
    requires s != {}
  {
    var x :| x in s; x
  }

  /** The sum of the values of a map. */
  ghost function MapSum<K>(m: map<K, nat>): nat
    decreases |m|
  {
    if |m| == 0 then 0
    else
      var k := Pick(m.Keys);
      assert |(m - {k}).Keys| < |m.Keys| by {
        assert (m - {k}).Keys == m.Keys - {k};
      }
      m[k] + MapSum(m - {k})
  }

  /** The per-barcode sums of the UMI counts. */
  ghost function BarcodeSums(b: BarcodeGroups): map<nat, nat>
  {
    map x | x in b :: MapSum(b[x])
  }

  /** The sum of every UMI count in the barcode groups. */
  ghost function Total(b: BarcodeGroups): nat
  {
    MapSum(BarcodeSums(b))
  }

  /** The class total equals the sum of its per-barcode, per-UMI counts. */
  ghost predicate Consistent(v: ClassValue)
  {
    v.count == Total(v.barcodes)
  }

  /** A map's sum is any one of its values plus the sum of the rest. */
  lemma {:induction false} MapSumRemove<K>(m: map<K, nat>, k: K)
    requires k in m
    ensures MapSum(m) == m[k] + MapSum(m - {k})
    decreases |m|
  {
    var j := Pick(m.Keys);
    assert (m - {j}).Keys == m.Keys - {j};
    if j != k {
      assert (m - {k}).Keys == m.Keys - {k};
      MapSumRemove(m - {j}, k);
      MapSumRemove(m - {k}, j);
      assert m - {j} - {k} == m - {k} - {j};
    }
  }

  /** Replacing one value changes the sum by the difference. */
  lemma {:induction false} MapSumUpdate<K>(m: map<K, nat>, k: K, v: nat)
    ensures MapSum(m[k := v]) + (if k in m then m[k] else 0) == MapSum(m) + v
  {
    MapSumRemove(m[k := v], k);
    assert m[k := v] - {k} == m - {k};
    if k in m {
      MapSumRemove(m, k);
    } else {
      assert m - {k} == m;
    }
  }

  /** Bumping one entry adds to the sum. */
  lemma {:induction false} BumpSum<K>(m: map<K, nat>, k: K, c: nat)
    ensures MapSum(Bump(m, k, c)) == MapSum(m) + c
  {
    var v := (if k in m then m[k] else 0) + c;
    MapSumUpdate(m, k, v);
  }

  /** Folding a triple into the barcode groups changes only its barcode's sum. */
  lemma {:induction false} AddUmiBarcodeSums(b: BarcodeGroups, bc: nat, umi: nat, c: nat)
    ensures BarcodeSums(AddUmi(b, bc, umi, c)) == Bump(BarcodeSums(b), bc, c)
  {
    var b' := AddUmi(b, bc, umi, c);
    var lhs := BarcodeSums(b');
    var rhs := Bump(BarcodeSums(b), bc, c);
    assert lhs.Keys == rhs.Keys;
    forall x | x in lhs
      ensures lhs[x] == rhs[x]
    {
      if x == bc {
        BumpSum(UmisOf(b, bc), umi, c);
        if bc !in b {
          assert |UmisOf(b, bc)| == 0;
        }
      } else {
        assert b'[x] == b[x];
      }
    }
  }

  /** Folding a triple into the barcode groups adds its count to the total. */
  lemma {:induction false} AddUmiTotal(b: BarcodeGroups, bc: nat, umi: nat, c: nat)
    ensures Total(AddUmi(b, bc, umi, c)) == Total(b) + c
  {
    AddUmiBarcodeSums(b, bc, umi, c);
    BumpSum(BarcodeSums(b), bc, c);
  }
}
