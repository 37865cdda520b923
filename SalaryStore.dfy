/** The salary collection as a sequence of records in storage order, looked up
    and upserted by the key (employee id, employee name, year, month). */
module SalaryStore {
  import opened Wrappers
  import opened Records

  /** At most one record per key. */
  ghost predicate KeysUnique(records: seq<SalaryRecord>)
  {
    forall i, j :: 0 <= i < j < |records| ==> KeyOf(records[i]) != KeyOf(records[j])
  }

  /** The index of the first record with the key, or -1 (`findOne` by key). */
  function KeyIndex(records: seq<SalaryRecord>, k: Key): (i: int)
    ensures -1 <= i < |records|
    ensures i >= 0 ==> KeyOf(records[i]) == k && forall j :: 0 <= j < i ==> KeyOf(records[j]) != k
    ensures i == -1 ==> forall j :: 0 <= j < |records| ==> KeyOf(records[j]) != k
  {
    if |records| == 0 then -1
    else if KeyOf(records[0]) == k then 0
    else
      var j := KeyIndex(records[1..], k);
      if j < 0 then -1 else j + 1
  }

  function RecordFor(records: seq<SalaryRecord>, k: Key): (r: Option<SalaryRecord>)
    ensures r.Some? ==> r.value in records && KeyOf(r.value) == k
    ensures r.None? <==> forall j :: 0 <= j < |records| ==> KeyOf(records[j]) != k
  {
    var i := KeyIndex(records, k);
    if i < 0 then None else Some(records[i])
  }

  /** The collection after saving a record: the stored record with its key is
      overwritten in place, or the record is appended when none exists. */
  function Upserted(records: seq<SalaryRecord>, rec: SalaryRecord): seq<SalaryRecord>
  {
    var i := KeyIndex(records, KeyOf(rec));
    if i < 0 then records + [rec] else records[i := rec]
  }

  /** Upserting keeps the keys unique. */
  lemma UpsertKeepsKeysUnique(records: seq<SalaryRecord>, rec: SalaryRecord)
    requires KeysUnique(records)
    ensures KeysUnique(Upserted(records, rec))
  {
  }

  /** After upserting, the key has exactly one record, the upserted one. */
  lemma UpsertStoresRecord(records: seq<SalaryRecord>, rec: SalaryRecord)
    requires KeysUnique(records)
    ensures RecordFor(Upserted(records, rec), KeyOf(rec)) == Some(rec)
    ensures forall j :: 0 <= j < |Upserted(records, rec)| && KeyOf(Upserted(records, rec)[j]) == KeyOf(rec)
                        ==> Upserted(records, rec)[j] == rec
  {
    var out := Upserted(records, rec);
    var i := KeyIndex(records, KeyOf(rec));
    if i < 0 {
      assert out[|records|] == rec;
    } else {
      assert out[i] == rec;
    }
  }

  /** Every other key keeps its record (or its absence). */
  lemma UpsertKeepsOtherKeys(records: seq<SalaryRecord>, rec: SalaryRecord, k: Key)
    requires k != KeyOf(rec)
    ensures RecordFor(Upserted(records, rec), k) == RecordFor(records, k)
  {
    var out := Upserted(records, rec);
    var i := KeyIndex(records, KeyOf(rec));
    var j := KeyIndex(records, k);
    var j' := KeyIndex(out, k);
    if j >= 0 {
      assert out[j] == records[j];
      assert j' == j;
    } else {
      assert forall p :: 0 <= p < |out| ==> KeyOf(out[p]) != k by {
        forall p | 0 <= p < |out| ensures KeyOf(out[p]) != k {
          if i < 0 && p == |records| { } else { assert out[p] == records[p] || out[p] == rec; }
        }
      }
    }
  }

  /** An overwrite keeps the size, an insert grows it by one. */
  lemma UpsertSize(records: seq<SalaryRecord>, rec: SalaryRecord)
    ensures |Upserted(records, rec)| == if RecordFor(records, KeyOf(rec)).Some? then |records| else |records| + 1
  {
  }

  /** Upserting twice under one key leaves what the second upsert alone would. */
  lemma UpsertTwice(records: seq<SalaryRecord>, first: SalaryRecord, second: SalaryRecord)
    requires KeyOf(first) == KeyOf(second)
    ensures Upserted(Upserted(records, first), second) == Upserted(records, second)
  {
    var i := KeyIndex(records, KeyOf(first));
    var once := Upserted(records, first);
    if i < 0 {
      assert KeyIndex(once, KeyOf(second)) == |records| by {
        assert KeyOf(once[|records|]) == KeyOf(second);
        assert forall j :: 0 <= j < |records| ==> once[j] == records[j];
      }
    } else {
      assert KeyIndex(once, KeyOf(second)) == i by {
        assert KeyOf(once[i]) == KeyOf(second);
        assert forall j :: 0 <= j < i ==> once[j] == records[j];
      }
    }
  }
}
