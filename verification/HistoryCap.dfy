/**
 The capped history tables of the state store: after every insert the smallest keys beyond the cap
 are removed, in the same transaction.
 */
module HistoryCap {
  type Bytes = seq<int>

  datatype Entry = Entry(key: nat, value: Bytes)

  const MAX_UPDATE_RECORDS: nat := 100
  const MAX_SESSION_RECORDS: nat := 1000

  function Larger(keys: set<nat>, k: nat): set<nat> {
    set j | j in keys && j > k
  }

  /** The entries whose key has fewer than `cap` larger ones: the `cap` largest keys. */
  function Top(m: map<nat, Bytes>, cap: nat): map<nat, Bytes> {
    map k | k in m && |Larger(m.Keys, k)| < cap :: m[k]
  }

  /** Everything ever recorded, each key with its last value. */
  function Everything(records: seq<Entry>): map<nat, Bytes> {
    if records == [] then map[]
    else
      var last := records[|records| - 1];
      Everything(records[..|records| - 1])[last.key := last.value]
  }

  /** The table: an insert, then eviction, for every record. */
  function Table(records: seq<Entry>, cap: nat): map<nat, Bytes> {
    if records == [] then map[]
    else
      var last := records[|records| - 1];
      Top(Table(records[..|records| - 1], cap)[last.key := last.value], cap)
  }

  /** The last record with this key. */
  ghost predicate IsLast(records: seq<Entry>, i: nat, k: nat) {
    && i < |records| && records[i].key == k
    && forall j :: i < j < |records| ==> records[j].key != k
  }

  /** A key is there exactly if it was recorded, and its value is that of the last record with it. */
  lemma {:induction false} EverythingKeepsLast(records: seq<Entry>, k: nat)
    ensures k in Everything(records) <==> exists i :: 0 <= i < |records| && records[i].key == k
    ensures forall i: nat :: IsLast(records, i, k) ==>
              k in Everything(records) && Everything(records)[k] == records[i].value
  {
    if records != [] {
      var front, last := records[..|records| - 1], records[|records| - 1];
      EverythingKeepsLast(front, k);
      forall i: nat | IsLast(records, i, k)
        ensures k in Everything(records) && Everything(records)[k] == records[i].value
      {
        if i < |front| {
          assert last.key != k && IsLast(front, i, k);
        }
      }
      if i :| 0 <= i < |front| && front[i].key == k {
        assert records[i].key == k;
      }
      if i :| 0 <= i < |records| && records[i].key == k {
        assert i < |front| ==> front[i].key == k;
      }
    }
  }

  // ---- Set arithmetic -------------------------------------------------------------------------

  lemma {:induction false} SubsetSize(a: set<nat>, b: set<nat>)
    requires a <= b
    ensures |a| <= |b|
    decreases a
  {
    if a != {} {
      var x :| x in a;
      SubsetSize(a - {x}, b - {x});
    }
  }

  ghost predicate IsMin(k: nat, s: set<nat>) {
    k in s && forall j :: j in s ==> k <= j
  }

  lemma {:induction false} MinExists(s: set<nat>) returns (k: nat)
    requires s != {}
    ensures IsMin(k, s)
    decreases s
  {
    k :| k in s;
    if s != {k} {
      var m := MinExists(s - {k});
      assert forall j :: j in s ==> j == k || j in s - {k};
      if m < k {
        k := m;
      }
    }
  }

  lemma {:induction false} LargerThanMin(keys: set<nat>, k: nat)
    requires IsMin(k, keys)
    ensures Larger(keys, k) == keys - {k}
    ensures forall j :: j in keys ==> Larger(keys, j) == Larger(keys - {k}, j)
  {
  }

  lemma {:induction false} TopOfSmall(m: map<nat, Bytes>, cap: nat)
    requires |m| <= cap
    ensures Top(m, cap) == m
  {
    forall k | k in m
      ensures |Larger(m.Keys, k)| < cap
    {
      SubsetSize(Larger(m.Keys, k), m.Keys - {k});
    }
  }

  /** Removing the smallest key of a table over the cap does not change its top. */
  lemma {:induction false} TopDropsMin(m: map<nat, Bytes>, cap: nat, k: nat)
    requires |m| > cap && IsMin(k, m.Keys)
    ensures Top(m - {k}, cap) == Top(m, cap)
  {
    LargerThanMin(m.Keys, k);
    assert (m - {k}).Keys == m.Keys - {k};
  }

  lemma {:induction false} TopSize(m: map<nat, Bytes>, cap: nat)
    ensures |Top(m, cap)| == if |m| <= cap then |m| else cap
    decreases |m|
  {
    if |m| <= cap {
      TopOfSmall(m, cap);
    } else {
      var k := MinExists(m.Keys);
      TopDropsMin(m, cap, k);
      assert (m - {k}).Keys == m.Keys - {k};
      TopSize(m - {k}, cap);
    }
  }

  /** A key that did not make the top is below all that did, and there are `cap` of those. */
  lemma {:induction false} BelowTheTop(m: map<nat, Bytes>, cap: nat, x: nat)
    requires x in m && x !in Top(m, cap)
    ensures Larger(Top(m, cap).Keys, x) == Top(m, cap).Keys && |Top(m, cap).Keys| == cap
  {
    forall t | t in Top(m, cap)
      ensures t > x
    {
      if t <= x {
        SubsetSize(Larger(m.Keys, x), Larger(m.Keys, t));
      }
    }
    TopSize(m, cap);
    if |m| <= cap {
      TopOfSmall(m, cap);
    }
  }

  /** The top is what its name says: entries of the table, as many as the cap allows, and no other key is larger. */
  lemma {:induction false} TopIsTheLargest(m: map<nat, Bytes>, cap: nat)
    ensures |Top(m, cap)| == if |m| <= cap then |m| else cap
    ensures forall k :: k in Top(m, cap) ==> k in m && Top(m, cap)[k] == m[k]
    ensures forall k, x :: k in Top(m, cap) && x in m && x !in Top(m, cap) ==> x < k
  {
    TopSize(m, cap);
    forall k, x | k in Top(m, cap) && x in m && x !in Top(m, cap)
      ensures x < k
    {
      BelowTheTop(m, cap, x);
      assert k in Larger(Top(m, cap).Keys, x);
    }
  }

  /** Evicting early is harmless: what an insert evicted can never be among the largest again. */
  lemma {:induction false} TopOfTop(m: map<nat, Bytes>, cap: nat, k: nat, v: Bytes)
    ensures Top(Top(m, cap)[k := v], cap) == Top(m[k := v], cap)
  {
    var all, kept := m[k := v], Top(m, cap)[k := v];
    forall j | j in all
      ensures (j in kept && |Larger(kept.Keys, j)| < cap) <==> |Larger(all.Keys, j)| < cap
    {
      SubsetSize(Larger(kept.Keys, j), Larger(all.Keys, j));
      if |Larger(all.Keys, j)| < cap && j != k {
        SubsetSize(Larger(m.Keys, j), Larger(all.Keys, j));
      }
      if |Larger(all.Keys, j)| >= cap && Larger(kept.Keys, j) != Larger(all.Keys, j) {
        var x :| x in Larger(all.Keys, j) && x !in kept;
        BelowTheTop(m, cap, x);
        SubsetSize(Top(m, cap).Keys, Larger(kept.Keys, j));
      }
    }
  }

  /**
   After any records, in any key order and with repeats, the table is the `cap` largest keys ever recorded with their
   last values.
   */
  lemma {:induction false} TableIsTopOfEverything(records: seq<Entry>, cap: nat)
    ensures Table(records, cap) == Top(Everything(records), cap)
  {
    if records != [] {
      var front, last := records[..|records| - 1], records[|records| - 1];
      TableIsTopOfEverything(front, cap);
      TopOfTop(Everything(front), cap, last.key, last.value);
    }
  }

  /** So it never exceeds the cap, and is full as soon as enough keys have been seen. */
  lemma {:induction false} TableSize(records: seq<Entry>, cap: nat)
    ensures |Table(records, cap)| == if |Everything(records)| <= cap then |Everything(records)| else cap
  {
    TableIsTopOfEverything(records, cap);
    TopSize(Everything(records), cap);
  }

  // ---- The code -------------------------------------------------------------------------------

  ghost predicate Ascending(keys: seq<nat>) {
    forall i, j :: 0 <= i < j < |keys| ==> keys[i] < keys[j]
  }

  /** The table's own iteration order: ascending keys. */
  method Iterate(m: map<nat, Bytes>) returns (keys: seq<nat>)
    ensures Ascending(keys) && |keys| == |m| && forall k :: k in keys <==> k in m
  {
    var left := m.Keys;
    keys := [];
    while left != {}
      invariant left <= m.Keys && |keys| + |left| == |m|
      invariant Ascending(keys) && forall k :: k in keys <==> k in m.Keys - left
      invariant forall i, k :: 0 <= i < |keys| && k in left ==> keys[i] < k
    {
      ghost var least := MinExists(left);
      var k :| k in left && forall j :: j in left ==> k <= j;
      keys := keys + [k];
      left := left - {k};
    }
  }

  /** The table holds exactly the keys from position `i` on. */
  ghost predicate Holds(m: map<nat, Bytes>, keys: seq<nat>, i: nat) {
    && |m| == |keys| - i
    && (forall j :: i <= j < |keys| ==> keys[j] in m)
    && forall k :: k in m ==> exists j :: i <= j < |keys| && keys[j] == k
  }

  lemma {:induction false} EvictFirst(m: map<nat, Bytes>, keys: seq<nat>, i: nat, cap: nat)
    requires Ascending(keys) && Holds(m, keys, i) && i < |keys| && |m| > cap
    ensures Top(m - {keys[i]}, cap) == Top(m, cap) && Holds(m - {keys[i]}, keys, i + 1)
  {
    assert IsMin(keys[i], m.Keys);
    TopDropsMin(m, cap, keys[i]);
    var fewer := m - {keys[i]};
    assert fewer.Keys == m.Keys - {keys[i]};
    forall k | k in fewer
      ensures exists j :: i + 1 <= j < |keys| && keys[j] == k
    {
      var j :| i <= j < |keys| && keys[j] == k;
      assert j != i;
    }
  }

  class HistoryTable {
    const cap: nat
    var table: map<nat, Bytes>

    /** The history of applied updates, keyed by the time of the apply. */
    constructor Updates()
      ensures cap == MAX_UPDATE_RECORDS && table == Table([], cap)
    {
      cap := MAX_UPDATE_RECORDS;
      table := map[];
    }

    /** The history of sessions, keyed by the time a session ended. */
    constructor Sessions()
      ensures cap == MAX_SESSION_RECORDS && table == Table([], cap)
    {
      cap := MAX_SESSION_RECORDS;
      table := map[];
    }

    /** Collects the keys in order and removes the first ones until the cap holds. */
    method EnforceCap()
      modifies this
      ensures table == Top(old(table), cap)
    {
      var keys := Iterate(table);
      if |keys| <= cap {
        TopOfSmall(table, cap);
        return;
      }
      var toRemove := |keys| - cap;
      for i := 0 to toRemove
        invariant Top(table, cap) == Top(old(table), cap)
        invariant Holds(table, keys, i)
      {
        ghost var before := table;
        EvictFirst(before, keys, i, cap);
        table := table - {keys[i]};
      }
      TopOfSmall(table, cap);
    }

    /** One `record_update` or `record_session`: the table moves on by one record of its history. */
    method Record(e: Entry, ghost history: seq<Entry>)
      requires table == Table(history, cap)
      modifies this
      ensures table == Table(history + [e], cap) == Top(Everything(history + [e]), cap)
    {
      table := table[e.key := e.value];
      EnforceCap();
      assert (history + [e])[..|history|] == history;
      TableIsTopOfEverything(history + [e], cap);
    }
  }
}
