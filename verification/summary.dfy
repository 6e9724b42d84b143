/**
 The groupings `main` builds from the decoded records (run.py, `main`):
 `groupby('Date')` and `groupby('Supplier_LOCAL')`, each followed by the
 count of its 'Paid' column. Only the group keys and the per-group counts
 are modelled; the sums, minima, maxima and means are floating point.
 */
module Summary {
  import opened Dates
  import opened Receipts

  /** The number of occurrences of each key: one entry per distinct key,
      none for a key that never occurs, and each count the key's
      multiplicity. */
  function CountBy<K>(keys: seq<K>): (m: map<K, nat>)
    ensures m.Keys == set k | k in keys
    ensures forall k :: k in m ==> m[k] == multiset(keys)[k] && m[k] >= 1
    decreases |keys|
  {
    if |keys| == 0 then map[]
    else
      var front := keys[..|keys| - 1];
      var last := keys[|keys| - 1];
      var m := CountBy(front);
      assert keys == front + [last];
      m[last := if last in m then m[last] + 1 else 1]
  }

  /** Grouping does not depend on the order of the records: only the
      multiset of keys matters. */
  lemma CountByPermutation<K>(a: seq<K>, b: seq<K>)
    requires multiset(a) == multiset(b)
    ensures CountBy(a) == CountBy(b)
  {
    var ma, mb := CountBy(a), CountBy(b);
    assert ma.Keys == mb.Keys by {
      forall k ensures k in a <==> k in b {
        assert k in a <==> k in multiset(a);
        assert k in b <==> k in multiset(b);
      }
    }
  }

  /** The date of every record, in order. */
  function DateKeys(records: seq<Record>): (keys: seq<Date>)
    ensures |keys| == |records|
    ensures forall i :: 0 <= i < |records| ==> keys[i] == records[i].receipt.date
  {
    seq(|records|, i requires 0 <= i < |records| => records[i].receipt.date)
  }

  /** The local supplier name of every record, in order. */
  function LocalKeys(records: seq<Record>): (keys: seq<string>)
    ensures |keys| == |records|
    ensures forall i :: 0 <= i < |records| ==> keys[i] == records[i].receipt.supplierLocal
  {
    seq(|records|, i requires 0 <= i < |records| => records[i].receipt.supplierLocal)
  }

  /** `groupby('Date')['Paid'].agg(['count', ...])`, keys and counts: the
      dates that occur, each with the number of records of that date. */
  function ByDate(records: seq<Record>): (groups: map<Date, nat>)
    ensures forall d :: d in groups <==> exists i :: 0 <= i < |records| && records[i].receipt.date == d
    ensures forall d :: d in groups ==> groups[d] == multiset(DateKeys(records))[d]
  {
    CountBy(DateKeys(records))
  }

  /** `groupby('Supplier_LOCAL')['Paid'].agg(['count', ...])`, keys and
      counts: the local supplier names that occur, each with the number of
      records naming it. */
  function BySupplier(records: seq<Record>): (groups: map<string, nat>)
    ensures forall s :: s in groups <==> exists i :: 0 <= i < |records| && records[i].receipt.supplierLocal == s
    ensures forall s :: s in groups ==> groups[s] == multiset(LocalKeys(records))[s]
  {
    CountBy(LocalKeys(records))
  }

  /** The date groups of a decoded listing are exactly the dates its items
      decode to. */
  lemma ListingDateGroups<T>(decode: T -> Result<Record>, items: seq<T>)
    requires DecodeAll(decode, items).Table?
    ensures forall d :: d in ByDate(DecodeAll(decode, items).data) <==>
      exists k :: 0 <= k < |items| && decode(items[k]).Ok? && decode(items[k]).value.receipt.date == d
  {
    var records := DecodeAll(decode, items).data;
    DecodeAllTable(decode, items);
    forall d ensures d in ByDate(records) <==>
      exists k :: 0 <= k < |items| && decode(items[k]).Ok? && decode(items[k]).value.receipt.date == d
    {
      if d in ByDate(records) {
        var i :| 0 <= i < |records| && records[i].receipt.date == d;
        assert decode(items[i]) == Ok(records[i]);
      }
    }
  }

  /** The example grouping: two records under "A" and one under "B". */
  lemma TwoGroupsExample()
    ensures CountBy(["A", "A", "B"]) == map["A" := 2, "B" := 1]
  {
    var keys := ["A", "A", "B"];
    var m := CountBy(keys);
    assert multiset(keys) == multiset{"A", "A", "B"};
    assert m.Keys == {"A", "B"};
  }
}
