/** The merge in `loadCarparkData`: usable CSV rows are stored in an
    insertion-ordered map keyed by the trimmed car-park number, then live lot
    counts are written onto the records whose key the feed names, and the
    map's values, in insertion order, become the full car-park list.

    The functions below specify that result on sequences; the methods build it
    the way the source does, with a key order and a map. */
module Reconcile {
  import opened Wrappers
  import opened Seqs
  import opened JsValues
  import opened Carparks
  import opened JsNumbers

  /** Some record carries `id`. */
  predicate HasId(cs: seq<Carpark>, id: string) {
    exists i :: 0 <= i < |cs| && cs[i].id == id
  }

  /** No two records share an id. */
  predicate UniqueIds(cs: seq<Carpark>) {
    forall i, j :: 0 <= i < j < |cs| ==> cs[i].id != cs[j].id
  }

  /** The position of the first record carrying `id`, or -1 when none does. */
  function IndexOfId(cs: seq<Carpark>, id: string): (k: int)
    ensures -1 <= k < |cs|
    ensures k == -1 <==> !HasId(cs, id)
    ensures k >= 0 ==> cs[k].id == id && forall i :: 0 <= i < k ==> cs[i].id != id
  {
    if cs == [] then -1
    else if cs[0].id == id then 0
    else
      var k := IndexOfId(cs[1..], id);
      assert forall i :: 1 <= i < |cs| ==> cs[i] == cs[1..][i - 1];
      if k < 0 then -1 else k + 1
  }

  /** `Map.set` on the insertion-ordered map: a known key keeps its position
      and takes the new record, a new key goes to the end. */
  function Upsert(cs: seq<Carpark>, c: Carpark): (r: seq<Carpark>)
    ensures HasId(cs, c.id) ==> |r| == |cs|
    ensures !HasId(cs, c.id) ==> |r| == |cs| + 1 && r[|cs|] == c
    ensures forall i :: 0 <= i < |cs| ==> r[i].id == cs[i].id
    ensures forall i :: 0 <= i < |cs| ==> r[i] == cs[i] || (r[i] == c && cs[i].id == c.id)
    ensures forall i :: 0 <= i < |cs| && cs[i].id != c.id ==> r[i] == cs[i]
    ensures HasId(cs, c.id) ==> r[IndexOfId(cs, c.id)] == c
  {
    var k := IndexOfId(cs, c.id);
    if k < 0 then cs + [c] else cs[k := c]
  }

  /** The map built by inserting `cs` in order, as the sequence of its values. */
  function Unify(cs: seq<Carpark>): seq<Carpark> {
    if cs == [] then [] else Upsert(Unify(cs[..|cs| - 1]), cs[|cs| - 1])
  }

  /** The last record of `cs` that carries `id`. */
  function LastWithId(cs: seq<Carpark>, id: string): Carpark
    requires HasId(cs, id)
  {
    if cs[|cs| - 1].id == id then cs[|cs| - 1]
    else
      assert HasId(cs[..|cs| - 1], id) by {
        var i :| 0 <= i < |cs| && cs[i].id == id;
        assert cs[..|cs| - 1][i] == cs[i];
      }
      LastWithId(cs[..|cs| - 1], id)
  }

  /** The usable rows, converted, in CSV order: `filter` then the conversion. */
  function StaticRecords(rows: seq<CsvRow>, project: (real, real) -> LatLon): (cs: seq<Carpark>)
    ensures |cs| <= |rows|
  {
    var usable := Filter(rows, Usable);
    seq(|usable|, i requires 0 <= i < |usable| => ToCarpark(usable[i], project))
  }

  /** The unified set before live data. */
  function StaticSet(rows: seq<CsvRow>, project: (real, real) -> LatLon): seq<Carpark> {
    Unify(StaticRecords(rows, project))
  }

  /** One matched live entry: the record stored under `key`, if any, gets
      `lots`; an unknown key changes nothing. */
  function SetLots(cs: seq<Carpark>, key: string, lots: int): (r: seq<Carpark>)
    ensures |r| == |cs|
  {
    var k := IndexOfId(cs, key);
    if k < 0 then cs else cs[k := cs[k].(available := lots)]
  }

  /** All live entries, in feed order. */
  function Overlay(cs: seq<Carpark>, live: seq<LiveEntry>): (r: seq<Carpark>)
    ensures |r| == |cs|
  {
    if live == [] then cs
    else
      var e := live[|live| - 1];
      SetLots(Overlay(cs, live[..|live| - 1]), LiveKey(e), LiveLots(e))
  }

  /** The full car-park list `loadCarparkData` publishes. */
  function Reconciled(rows: seq<CsvRow>, live: seq<LiveEntry>, project: (real, real) -> LatLon): seq<Carpark> {
    Overlay(StaticSet(rows, project), live)
  }

  /** Reference definition of the lot count a record ends with: that of the
      last live entry naming `id`, or `default` when no entry does. */
  function LastLots(live: seq<LiveEntry>, id: string, default: int): int {
    if live == [] then default
    else if LiveKey(live[|live| - 1]) == id then LiveLots(live[|live| - 1])
    else LastLots(live[..|live| - 1], id, default)
  }

  // ---- Properties of the unification ----

  lemma {:induction false} UpsertUnique(cs: seq<Carpark>, c: Carpark)
    requires UniqueIds(cs)
    ensures UniqueIds(Upsert(cs, c))
  {
    var r := Upsert(cs, c);
    forall i, j | 0 <= i < j < |r| ensures r[i].id != r[j].id {
      if j == |cs| {
        assert !HasId(cs, c.id);
        assert r[i].id == cs[i].id;
      } else {
        assert r[i].id == cs[i].id && r[j].id == cs[j].id;
      }
    }
  }

  /** With unique keys, the record `Upsert` leaves under `c`'s key is `c` and
      every other record is untouched. */
  lemma UpsertAt(cs: seq<Carpark>, c: Carpark, i: int)
    requires UniqueIds(cs)
    requires 0 <= i < |Upsert(cs, c)|
    ensures Upsert(cs, c)[i] == if Upsert(cs, c)[i].id == c.id then c else cs[i]
  {
  }

  lemma HasIdAppend(cs: seq<Carpark>, c: Carpark, id: string)
    ensures HasId(cs + [c], id) <==> HasId(cs, id) || c.id == id
  {
    if HasId(cs, id) {
      var i :| 0 <= i < |cs| && cs[i].id == id;
      assert (cs + [c])[i] == cs[i];
    }
    if c.id == id {
      assert (cs + [c])[|cs|] == c;
    }
    if HasId(cs + [c], id) {
      var i :| 0 <= i < |cs| + 1 && (cs + [c])[i].id == id;
      if i < |cs| {
        assert cs[i] == (cs + [c])[i];
      }
    }
  }

  lemma HasIdUpsert(cs: seq<Carpark>, c: Carpark, id: string)
    ensures HasId(Upsert(cs, c), id) <==> HasId(cs, id) || c.id == id
  {
    var r := Upsert(cs, c);
    if HasId(cs, id) {
      var i :| 0 <= i < |cs| && cs[i].id == id;
      assert r[i].id == id;
    }
    if c.id == id {
      if HasId(cs, id) {
      } else {
        assert r[|cs|] == c;
      }
    }
    if HasId(r, id) {
      var i :| 0 <= i < |r| && r[i].id == id;
      if i < |cs| {
        assert cs[i].id == id;
      } else {
        assert r[i] == c;
      }
    }
  }

  /** Every key of the unified set is unique. */
  lemma {:induction false} UnifyUnique(cs: seq<Carpark>)
    ensures UniqueIds(Unify(cs))
  {
    if cs != [] {
      UnifyUnique(cs[..|cs| - 1]);
      UpsertUnique(Unify(cs[..|cs| - 1]), cs[|cs| - 1]);
    }
  }

  /** The unified set has exactly the keys of its inputs. */
  lemma {:induction false} UnifyKeys(cs: seq<Carpark>, id: string)
    ensures HasId(Unify(cs), id) <==> HasId(cs, id)
  {
    if cs != [] {
      var init, c := cs[..|cs| - 1], cs[|cs| - 1];
      assert cs == init + [c];
      UnifyKeys(init, id);
      HasIdUpsert(Unify(init), c, id);
      HasIdAppend(init, c, id);
    }
  }

  lemma LastWithIdAppend(cs: seq<Carpark>, c: Carpark, id: string)
    requires HasId(cs, id) || c.id == id
    ensures HasId(cs + [c], id)
    ensures LastWithId(cs + [c], id) == if c.id == id then c else LastWithId(cs, id)
  {
    HasIdAppend(cs, c, id);
    assert (cs + [c])[..|cs|] == cs;
  }

  /** On a repeated key the later record wins. */
  lemma {:induction false} UnifyLastWins(cs: seq<Carpark>, i: int)
    requires 0 <= i < |Unify(cs)|
    ensures HasId(cs, Unify(cs)[i].id)
    ensures Unify(cs)[i] == LastWithId(cs, Unify(cs)[i].id)
  {
    var u := Unify(cs);
    var id := u[i].id;
    assert HasId(u, id);
    UnifyKeys(cs, id);
    var init, c := cs[..|cs| - 1], cs[|cs| - 1];
    assert cs == init + [c];
    var v := Unify(init);
    UnifyUnique(init);
    UpsertAt(v, c, i);
    if id == c.id {
      LastWithIdAppend(init, c, id);
    } else {
      assert u[i] == v[i];
      UnifyLastWins(init, i);
      LastWithIdAppend(init, c, id);
    }
  }

  lemma IndexOfIdAppend(cs: seq<Carpark>, c: Carpark, id: string)
    ensures HasId(cs, id) ==> IndexOfId(cs + [c], id) == IndexOfId(cs, id)
    ensures !HasId(cs, id) && c.id == id ==> IndexOfId(cs + [c], id) == |cs|
  {
    var k := IndexOfId(cs + [c], id);
    HasIdAppend(cs, c, id);
    if HasId(cs, id) {
      var j := IndexOfId(cs, id);
      assert (cs + [c])[j] == cs[j];
    }
  }

  /** A key keeps the position of its first insertion: keys come out in the
      order of their first occurrence in the input. */
  lemma {:induction false} UnifyFirstOrder(cs: seq<Carpark>, i: int, j: int)
    requires 0 <= i < j < |Unify(cs)|
    ensures IndexOfId(cs, Unify(cs)[i].id) < IndexOfId(cs, Unify(cs)[j].id)
  {
    var u := Unify(cs);
    var init, c := cs[..|cs| - 1], cs[|cs| - 1];
    assert cs == init + [c];
    var v := Unify(init);
    assert u[i].id == v[i].id;
    UnifyKeys(init, v[i].id);
    assert HasId(v, v[i].id);
    if j < |v| {
      assert u[j].id == v[j].id;
      assert HasId(v, v[j].id);
      UnifyKeys(init, v[j].id);
      UnifyFirstOrder(init, i, j);
      IndexOfIdAppend(init, c, v[i].id);
      IndexOfIdAppend(init, c, v[j].id);
    } else {
      assert !HasId(v, c.id) && u[j] == c;
      UnifyKeys(init, c.id);
      IndexOfIdAppend(init, c, v[i].id);
      IndexOfIdAppend(init, c, c.id);
    }
  }

  // ---- Properties of the live overlay ----

  /** Live data never adds, removes or moves a record and touches nothing but
      `available`; each record ends with the lot count of the last live entry
      naming its key, or keeps its own when none does. */
  lemma {:induction false} OverlayLots(cs: seq<Carpark>, live: seq<LiveEntry>)
    requires UniqueIds(cs)
    ensures forall i :: 0 <= i < |cs| ==>
      Overlay(cs, live)[i] == cs[i].(available := LastLots(live, cs[i].id, cs[i].available))
  {
    if live != [] {
      var init, e := live[..|live| - 1], live[|live| - 1];
      OverlayLots(cs, init);
      var o := Overlay(cs, init);
      var k := IndexOfId(o, LiveKey(e));
      assert Overlay(cs, live) == SetLots(o, LiveKey(e), LiveLots(e));
      forall i | 0 <= i < |cs|
        ensures Overlay(cs, live)[i] == cs[i].(available := LastLots(live, cs[i].id, cs[i].available))
      {
        assert o[i].id == cs[i].id;
        if k >= 0 && k != i {
          assert o[k].id == cs[k].id;
        }
      }
    }
  }

  // ---- Properties of the static set ----

  lemma StaticRecordFromRow(rows: seq<CsvRow>, project: (real, real) -> LatLon, j: int)
    requires 0 <= j < |rows| && Usable(rows[j])
    ensures HasId(StaticRecords(rows, project), RowKey(rows[j]))
  {
    var usable := Filter(rows, Usable);
    FilterCount(rows, Usable, rows[j]);
    assert rows[j] in multiset(usable);
    var i :| 0 <= i < |usable| && usable[i] == rows[j];
    assert StaticRecords(rows, project)[i].id == RowKey(rows[j]);
  }

  lemma StaticRecordToRow(rows: seq<CsvRow>, project: (real, real) -> LatLon, i: int)
    requires 0 <= i < |StaticRecords(rows, project)|
    ensures exists j :: 0 <= j < |rows| && Usable(rows[j]) && RowKey(rows[j]) == StaticRecords(rows, project)[i].id
  {
    var usable := Filter(rows, Usable);
    var row := usable[i];
    assert row in usable;
    FilterCount(rows, Usable, row);
    assert row in multiset(rows);
    var j :| 0 <= j < |rows| && rows[j] == row;
    assert Usable(rows[j]);
  }

  /** A key is in the static set exactly when some usable row has it. */
  lemma StaticRecordsKeys(rows: seq<CsvRow>, project: (real, real) -> LatLon, id: string)
    ensures HasId(StaticRecords(rows, project), id) <==>
      exists j :: 0 <= j < |rows| && Usable(rows[j]) && RowKey(rows[j]) == id
  {
    var cs := StaticRecords(rows, project);
    if HasId(cs, id) {
      var i :| 0 <= i < |cs| && cs[i].id == id;
      StaticRecordToRow(rows, project, i);
    }
    if exists j :: 0 <= j < |rows| && Usable(rows[j]) && RowKey(rows[j]) == id {
      var j :| 0 <= j < |rows| && Usable(rows[j]) && RowKey(rows[j]) == id;
      StaticRecordFromRow(rows, project, j);
    }
  }

  /** Every record of the static set is fresh from the CSV: no lots, no distance. */
  lemma StaticSetFresh(rows: seq<CsvRow>, project: (real, real) -> LatLon, i: int)
    requires 0 <= i < |StaticSet(rows, project)|
    ensures StaticSet(rows, project)[i].available == 0
    ensures StaticSet(rows, project)[i].distance == 0.0
  {
    var cs := StaticRecords(rows, project);
    UnifyLastWins(cs, i);
    LastWithIdIn(cs, StaticSet(rows, project)[i].id);
  }

  lemma {:induction false} LastWithIdIn(cs: seq<Carpark>, id: string)
    requires HasId(cs, id)
    ensures LastWithId(cs, id) in cs
    ensures LastWithId(cs, id).id == id
  {
    if cs[|cs| - 1].id != id {
      var init := cs[..|cs| - 1];
      assert HasId(init, id) by {
        var i :| 0 <= i < |cs| && cs[i].id == id;
        assert init[i] == cs[i];
      }
      LastWithIdIn(init, id);
    }
  }

  /** When the live request fails, or its response holds no
      `items[0].carpark_data`, every car park shows 0 lots. */
  lemma FetchFailureLeavesZero(rows: seq<CsvRow>, feed: FeedResult, project: (real, real) -> LatLon, i: int)
    requires LiveEntries(feed) == []
    requires 0 <= i < |Reconciled(rows, LiveEntries(feed), project)|
    ensures Reconciled(rows, LiveEntries(feed), project)[i].available == 0
  {
    StaticSetFresh(rows, project, i);
  }

  /** What the whole merge guarantees about one record: it carries the values
      of the last usable row with its key, the lot count of the last live entry
      naming that key (0 when none does), and no distance. */
  lemma ReconciledRecord(rows: seq<CsvRow>, live: seq<LiveEntry>, project: (real, real) -> LatLon, i: int)
    requires 0 <= i < |Reconciled(rows, live, project)|
    ensures var r, cs := Reconciled(rows, live, project), StaticRecords(rows, project);
      HasId(cs, r[i].id) && r[i] == LastWithId(cs, r[i].id).(available := LastLots(live, r[i].id, 0))
  {
    var cs := StaticRecords(rows, project);
    var u := StaticSet(rows, project);
    UnifyUnique(cs);
    OverlayLots(u, live);
    UnifyLastWins(cs, i);
    StaticSetFresh(rows, project, i);
  }

  /** The published list has one record per distinct key of a usable row and
      no other. */
  lemma ReconciledKeys(rows: seq<CsvRow>, live: seq<LiveEntry>, project: (real, real) -> LatLon, id: string)
    ensures UniqueIds(Reconciled(rows, live, project))
    ensures HasId(Reconciled(rows, live, project), id) <==>
      exists j :: 0 <= j < |rows| && Usable(rows[j]) && RowKey(rows[j]) == id
  {
    var cs := StaticRecords(rows, project);
    var u := StaticSet(rows, project);
    var r := Reconciled(rows, live, project);
    UnifyUnique(cs);
    OverlayLots(u, live);
    assert forall i :: 0 <= i < |u| ==> r[i].id == u[i].id;
    UnifyKeys(cs, id);
    StaticRecordsKeys(rows, project, id);
    if HasId(r, id) {
      var i :| 0 <= i < |r| && r[i].id == id;
      assert u[i].id == id;
    }
    if HasId(u, id) {
      var i :| 0 <= i < |u| && u[i].id == id;
      assert r[i].id == id;
    }
  }

  // ---- The insertion-ordered map the source builds ----

  /** `order` lists the map's keys in insertion order, and every key stores a
      record carrying that key. */
  ghost predicate WellFormed(order: seq<string>, entries: map<string, Carpark>) {
    (forall i, j :: 0 <= i < j < |order| ==> order[i] != order[j])
    && (forall k :: k in entries <==> k in order)
    && (forall i :: 0 <= i < |order| ==> order[i] in entries && entries[order[i]].id == order[i])
  }

  /** `Array.from(map.values())`: the stored records in insertion order. */
  function Values(order: seq<string>, entries: map<string, Carpark>): (r: seq<Carpark>)
    requires WellFormed(order, entries)
    ensures UniqueIds(r)
  {
    seq(|order|, i requires 0 <= i < |order| => entries[order[i]])
  }

  /** Looking a key up in the map agrees with looking it up in its values. */
  lemma ValuesIndex(order: seq<string>, entries: map<string, Carpark>, key: string)
    requires WellFormed(order, entries)
    ensures var k := IndexOfId(Values(order, entries), key);
      (k >= 0 <==> key in entries) && (k >= 0 ==> order[k] == key)
  {
    var vs := Values(order, entries);
    if key in entries {
      var j :| 0 <= j < |order| && order[j] == key;
      assert vs[j].id == key;
    }
  }

  /** The key order after `Map.set(c.id, c)`: a new key is appended. */
  function OrderAfterSet(order: seq<string>, entries: map<string, Carpark>, c: Carpark): seq<string> {
    if c.id in entries then order else order + [c.id]
  }

  lemma MapSetWellFormed(order: seq<string>, entries: map<string, Carpark>, c: Carpark)
    requires WellFormed(order, entries)
    ensures WellFormed(OrderAfterSet(order, entries, c), entries[c.id := c])
  {
  }

  /** `Map.set(c.id, c)` on the map is `Upsert` on its values. */
  lemma MapSetView(order: seq<string>, entries: map<string, Carpark>, c: Carpark)
    requires WellFormed(order, entries)
    ensures WellFormed(OrderAfterSet(order, entries, c), entries[c.id := c])
    ensures Values(OrderAfterSet(order, entries, c), entries[c.id := c]) == Upsert(Values(order, entries), c)
  {
    MapSetWellFormed(order, entries, c);
    var order' := OrderAfterSet(order, entries, c);
    var entries' := entries[c.id := c];
    var vs := Values(order, entries);
    ValuesIndex(order, entries, c.id);
    var vs' := Values(order', entries');
    var up := Upsert(vs, c);
    assert |vs'| == |up|;
    forall i | 0 <= i < |vs'| ensures vs'[i] == up[i] {
      if i < |vs| && order[i] != c.id {
        assert vs'[i] == vs[i];
      }
    }
  }

  /** The map after one matched live entry: a known key gets `lots`. */
  function MapSetLots(entries: map<string, Carpark>, key: string, lots: int): map<string, Carpark> {
    if key in entries then entries[key := entries[key].(available := lots)] else entries
  }

  lemma MapSetLotsWellFormed(order: seq<string>, entries: map<string, Carpark>, key: string, lots: int)
    requires WellFormed(order, entries)
    ensures WellFormed(order, MapSetLots(entries, key, lots))
  {
  }

  /** Writing a lot count into the map is `SetLots` on its values. */
  lemma SetLotsView(order: seq<string>, entries: map<string, Carpark>, key: string, lots: int)
    requires WellFormed(order, entries)
    ensures WellFormed(order, MapSetLots(entries, key, lots))
    ensures Values(order, MapSetLots(entries, key, lots)) == SetLots(Values(order, entries), key, lots)
  {
    MapSetLotsWellFormed(order, entries, key, lots);
    ValuesIndex(order, entries, key);
    var vs := Values(order, entries);
    var vs' := Values(order, MapSetLots(entries, key, lots));
    var set' := SetLots(vs, key, lots);
    forall i | 0 <= i < |vs'| ensures vs'[i] == set'[i] {
      if order[i] != key {
        assert vs'[i] == vs[i];
      }
    }
  }

  /** Unifying one more record of a prefix. */
  lemma UnifyStep(cs: seq<Carpark>, i: int)
    requires 0 <= i < |cs|
    ensures Unify(cs[..i + 1]) == Upsert(Unify(cs[..i]), cs[i])
  {
    assert cs[..i + 1][..i] == cs[..i];
  }

  /** Overlaying one more live entry of a prefix. */
  lemma OverlayStep(cs: seq<Carpark>, live: seq<LiveEntry>, i: int)
    requires 0 <= i < |live|
    ensures Overlay(cs, live[..i + 1]) == SetLots(Overlay(cs, live[..i]), LiveKey(live[i]), LiveLots(live[i]))
  {
    assert live[..i + 1][..i] == live[..i];
  }

  /** Step 1 of `loadCarparkData`: filter the rows and insert each usable one
      into the insertion-ordered map under its trimmed key. */
  method BuildStaticMap(rows: seq<CsvRow>, project: (real, real) -> LatLon)
    returns (order: seq<string>, entries: map<string, Carpark>)
    ensures WellFormed(order, entries)
    ensures Values(order, entries) == StaticSet(rows, project)
  {
    var usable := Filter(rows, Usable);
    ghost var cs := StaticRecords(rows, project);
    order, entries := [], map[];
    for i := 0 to |usable|
      invariant WellFormed(order, entries)
      invariant Values(order, entries) == Unify(cs[..i])
    {
      var key := RowKey(usable[i]);
      var record := ToCarpark(usable[i], project);
      assert cs[i] == record;
      MapSetView(order, entries, record);
      UnifyStep(cs, i);
      if key !in entries {
        order := order + [key];
      }
      entries := entries[key := record];
    }
    assert cs[..|usable|] == cs;
  }

  /** Step 3 of `loadCarparkData`: every live entry whose trimmed number is a
      key of the map writes its lot count into that record. */
  method MergeLive(order: seq<string>, entries: map<string, Carpark>, live: seq<LiveEntry>)
    returns (merged: map<string, Carpark>)
    requires WellFormed(order, entries)
    ensures WellFormed(order, merged)
    ensures Values(order, merged) == Overlay(Values(order, entries), live)
  {
    merged := entries;
    for i := 0 to |live|
      invariant WellFormed(order, merged)
      invariant Values(order, merged) == Overlay(Values(order, entries), live[..i])
    {
      var e := live[i];
      var key := LiveKey(e);
      SetLotsView(order, merged, key, LiveLots(e));
      OverlayStep(Values(order, entries), live, i);
      if key in merged {
        var lots := 0;
        if e.carparkInfo.Some? && |e.carparkInfo.value| > 0 {
          var parsed := ParseInt(ToJsString(e.carparkInfo.value[0].lotsAvailable));
          if parsed.Some? {
            lots := parsed.value;
          }
        }
        assert lots == LiveLots(e);
        merged := merged[key := merged[key].(available := lots)];
      }
    }
    assert live[..|live|] == live;
  }

  /** Steps 1 to 4 of `loadCarparkData`: the list it publishes. */
  method MergeCarparkData(rows: seq<CsvRow>, feed: FeedResult, project: (real, real) -> LatLon)
    returns (all: seq<Carpark>)
    ensures all == Reconciled(rows, LiveEntries(feed), project)
  {
    var order, entries := BuildStaticMap(rows, project);
    var live := LiveEntries(feed);
    var merged := MergeLive(order, entries, live);
    all := Values(order, merged);
  }
}
