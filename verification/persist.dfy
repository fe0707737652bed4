/** The store effects of `create`, `update` and `save`. The id generator
    hands out consecutive ids from `nextId`; `create` writes them back onto
    its records by position. */
module Persist {
  import opened Types

  /** The two groups `save` splits its input into (lines 253-260). */
  datatype Groups = Groups(create: seq<App>, update: seq<App>)

  /** Lines 253-260: records without an `applicationid` go to the create
      group, the others to the update group, each in input order. */
  function Partition(recs: seq<App>): (g: Groups)
    ensures forall i :: 0 <= i < |g.create| ==> g.create[i].applicationid.None?
    ensures forall i :: 0 <= i < |g.update| ==> g.update[i].applicationid.Some?
    ensures |g.create| + |g.update| == |recs|
  {
    if |recs| == 0 then Groups([], [])
    else
      var g := Partition(recs[..|recs| - 1]);
      var a := recs[|recs| - 1];
      if a.applicationid.Some? then Groups(g.create, g.update + [a]) else Groups(g.create + [a], g.update)
  }

  /** Together the two groups hold exactly the input records. */
  lemma {:induction false} PartitionPermutes(recs: seq<App>)
    ensures multiset(Partition(recs).create) + multiset(Partition(recs).update) == multiset(recs)
  {
    if |recs| > 0 {
      var init := recs[..|recs| - 1];
      var a := recs[|recs| - 1];
      assert recs == init + [a];
      PartitionPermutes(init);
    }
  }

  /** Both groups keep the input order: partitioning a concatenation
      concatenates the groups. */
  lemma {:induction false} PartitionAppend(a: seq<App>, b: seq<App>)
    ensures Partition(a + b).create == Partition(a).create + Partition(b).create
    ensures Partition(a + b).update == Partition(a).update + Partition(b).update
    decreases |b|
  {
    if |b| == 0 {
      assert a + b == a;
    } else {
      var b' := b[..|b| - 1];
      var x := b[|b| - 1];
      var ab := a + b;
      assert ab[..|ab| - 1] == a + b';
      assert ab[|ab| - 1] == x;
      PartitionAppend(a, b');
      var g := Partition(a + b');
      var gb := Partition(b');
      assert Partition(ab) == if x.applicationid.Some? then Groups(g.create, g.update + [x]) else Groups(g.create + [x], g.update);
      assert Partition(b) == if x.applicationid.Some? then Groups(gb.create, gb.update + [x]) else Groups(gb.create + [x], gb.update);
    }
  }

  /** Lines 36-46 (store effect and write-back): insert the records under
      consecutive fresh ids and give the record at position `i` the `i`-th id. */
  function Create(db: Store, recs: seq<App>): (res: (Store, seq<App>))
    ensures res.0.links == db.links
    ensures res.0.nextId == db.nextId + |recs|
    ensures |res.1| == |recs|
    ensures forall i :: 0 <= i < |recs| ==> res.1[i] == recs[i].(applicationid := Some(db.nextId + i))
    ensures forall k :: k in res.0.apps <==> k in db.apps || db.nextId <= k < db.nextId + |recs|
    ensures forall i :: 0 <= i < |recs| ==> res.0.apps[db.nextId + i] == RowOf(recs[i])
    ensures forall k :: k in db.apps && !(db.nextId <= k < db.nextId + |recs|) ==> res.0.apps[k] == db.apps[k]
  {
    if |recs| == 0 then (db, [])
    else
      var init := recs[..|recs| - 1];
      var a := recs[|recs| - 1];
      assert forall i :: 0 <= i < |init| ==> init[i] == recs[i];
      var (s, out) := Create(db, init);
      var id := s.nextId;
      (s.(apps := s.apps[id := RowOf(a)], nextId := id + 1), out + [a.(applicationid := Some(id))])
  }

  /** Lines 67-75 (store effect): each record overwrites the row its
      `applicationid` selects, in order; a record selecting no row changes
      nothing. */
  function Update(db: Store, recs: seq<App>): (res: Store)
    ensures res.links == db.links && res.nextId == db.nextId
    ensures res.apps.Keys == db.apps.Keys
  {
    if |recs| == 0 then db
    else
      var s := Update(db, recs[..|recs| - 1]);
      var a := recs[|recs| - 1];
      if a.applicationid.Some? && a.applicationid.value in s.apps then
        s.(apps := s.apps[a.applicationid.value := RowOf(a)])
      else s
  }

  /** `recs[i]` is the last record selecting row `k`. */
  predicate LastFor(recs: seq<App>, i: int, k: Id)
  {
    0 <= i < |recs| && recs[i].applicationid == Some(k)
    && forall i' :: i < i' < |recs| ==> recs[i'].applicationid != Some(k)
  }

  /** Reference definition: the last record selecting row `k`, found by
      scanning backwards. */
  function LastUpdate(recs: seq<App>, k: Id): Option<App>
  {
    if |recs| == 0 then None
    else if recs[|recs| - 1].applicationid == Some(k) then Some(recs[|recs| - 1])
    else LastUpdate(recs[..|recs| - 1], k)
  }

  /** The backward scan finds a record exactly when one selects `k`, and
      finds the last one. */
  lemma {:induction false} LastUpdateFinds(recs: seq<App>, k: Id) returns (i: int)
    ensures LastUpdate(recs, k).Some? <==> exists j :: 0 <= j < |recs| && recs[j].applicationid == Some(k)
    ensures LastUpdate(recs, k).Some? ==> LastFor(recs, i, k) && LastUpdate(recs, k) == Some(recs[i])
    decreases |recs|
  {
    i := -1;
    if |recs| > 0 {
      var init := recs[..|recs| - 1];
      if recs[|recs| - 1].applicationid == Some(k) {
        i := |recs| - 1;
      } else {
        i := LastUpdateFinds(init, k);
        assert forall j :: 0 <= j < |init| ==> init[j] == recs[j];
      }
    }
  }

  /** After an update a stored row holds the last record that selects it,
      or is unchanged when none does. */
  lemma {:induction false} UpdateRow(db: Store, recs: seq<App>, k: Id)
    requires k in db.apps
    ensures k in Update(db, recs).apps
    ensures Update(db, recs).apps[k] == match LastUpdate(recs, k) case Some(a) => RowOf(a) case None => db.apps[k]
    decreases |recs|
  {
    if |recs| > 0 {
      UpdateRow(db, recs[..|recs| - 1], k);
    }
  }

  /** Lines 264-266 as written: the id of the create group's record `num`
      is stored on the INPUT's record `num`. */
  function WriteBack(recs: seq<App>, created: seq<App>): (out: seq<App>)
    requires |created| <= |recs|
    ensures |out| == |recs|
    ensures forall i :: 0 <= i < |created| ==> out[i] == recs[i].(applicationid := created[i].applicationid)
    ensures forall i :: |created| <= i < |recs| ==> out[i] == recs[i]
  {
    seq(|recs|, i requires 0 <= i < |recs| =>
      if i < |created| then recs[i].(applicationid := created[i].applicationid) else recs[i])
  }

  /** Lines 249-273: create the records without an id, update the others,
      and return the input with the new ids written back by create-group
      position. */
  function Save(db: Store, recs: seq<App>): (res: (Store, seq<App>))
    ensures res.0.links == db.links
    ensures res.0.nextId == db.nextId + |Partition(recs).create|
    ensures forall k :: k in res.0.apps <==> k in db.apps || db.nextId <= k < res.0.nextId
    ensures WellFormed(db) ==> WellFormed(res.0)
    // the returned records: the first |create group| carry the new ids, the rest are untouched
    ensures |res.1| == |recs|
    ensures forall i :: 0 <= i < |recs| && i < |Partition(recs).create| ==>
      res.1[i] == recs[i].(applicationid := Some(db.nextId + i))
    ensures forall i :: |Partition(recs).create| <= i < |recs| ==> res.1[i] == recs[i]
  {
    var g := Partition(recs);
    var (db1, created) := if |g.create| > 0 then Create(db, g.create) else (db, []);
    var out := WriteBack(recs, created);
    var db2 := if |g.update| > 0 then Update(db1, g.update) else db1;
    (db2, out)
  }

  /** A record is in the create group exactly when it is an input record
      without an id, and in the update group exactly when it is one with an id. */
  lemma {:induction false} PartitionMembers(recs: seq<App>, x: App)
    ensures x in Partition(recs).create <==> x in recs && x.applicationid.None?
    ensures x in Partition(recs).update <==> x in recs && x.applicationid.Some?
  {
    PartitionPermutes(recs);
    var g := Partition(recs);
    assert x in recs <==> x in multiset(recs);
    assert x in g.create <==> x in multiset(g.create);
    assert x in g.update <==> x in multiset(g.update);
  }

  /** No record with an id comes before a record without one. */
  predicate CreatesFirst(recs: seq<App>)
  {
    forall i, j :: 0 <= i < j < |recs| && recs[i].applicationid.Some? ==> recs[j].applicationid.Some?
  }

  /** The groups of `recs` are the groups of its first `k` records
      followed by those of the rest. */
  lemma {:induction false} SplitGroups(recs: seq<App>, k: nat)
    requires k <= |recs|
    ensures Partition(recs).create == Partition(recs[..k]).create + Partition(recs[k..]).create
    ensures Partition(recs).update == Partition(recs[..k]).update + Partition(recs[k..]).update
  {
    var head := recs[..k];
    var tail := recs[k..];
    assert head + tail == recs;
    PartitionAppend(head, tail);
  }

  /** A sequence of records without ids is its own create group. */
  lemma {:induction false} AllNew(recs: seq<App>)
    requires forall i :: 0 <= i < |recs| ==> recs[i].applicationid.None?
    ensures Partition(recs).create == recs
  {
    if |recs| > 0 {
      AllNew(recs[..|recs| - 1]);
    }
  }

  /** A sequence of records with ids has an empty create group. */
  lemma {:induction false} AllOld(recs: seq<App>)
    requires forall i :: 0 <= i < |recs| ==> recs[i].applicationid.Some?
    ensures Partition(recs).create == []
  {
    if |recs| > 0 {
      AllOld(recs[..|recs| - 1]);
    }
  }

  /** A record without an id makes the create group non-empty. */
  lemma {:induction false} HasNew(recs: seq<App>, i: int)
    requires 0 <= i < |recs| && recs[i].applicationid.None?
    ensures |Partition(recs).create| >= 1
  {
    PartitionMembers(recs, recs[i]);
  }

  /** A record with an id makes the update group non-empty. */
  lemma {:induction false} HasOld(recs: seq<App>, i: int)
    requires 0 <= i < |recs| && recs[i].applicationid.Some?
    ensures |Partition(recs).update| >= 1
  {
    PartitionMembers(recs, recs[i]);
  }

  /** A non-empty create group comes from some record without an id. */
  lemma {:induction false} SomeNew(recs: seq<App>) returns (q: int)
    requires |Partition(recs).create| >= 1
    ensures 0 <= q < |recs| && recs[q].applicationid.None?
  {
    var x := Partition(recs).create[0];
    PartitionMembers(recs, x);
    q :| 0 <= q < |recs| && recs[q] == x;
  }

  /** With the creates first, the create group is exactly the leading run
      of records without an id. */
  lemma {:induction false} CreatesFirstGroup(recs: seq<App>) returns (k: nat)
    requires CreatesFirst(recs)
    ensures k <= |recs| && Partition(recs).create == recs[..k]
    ensures forall i :: 0 <= i < k ==> recs[i].applicationid.None?
    ensures forall i :: k <= i < |recs| ==> recs[i].applicationid.Some?
  {
    k := 0;
    while k < |recs| && recs[k].applicationid.None?
      invariant k <= |recs|
      invariant forall i :: 0 <= i < k ==> recs[i].applicationid.None?
    {
      k := k + 1;
    }
    SplitGroups(recs, k);
    AllNew(recs[..k]);
    AllOld(recs[k..]);
  }

  /** Every record with an id names a row already in the store
      (`Inheritance.PreparedUpdatesExisting` proves this of the records
      `prepareInheritedApps` produces). */
  predicate UpdatesExisting(db: Store, recs: seq<App>)
  {
    forall i :: 0 <= i < |recs| && recs[i].applicationid.Some? ==> recs[i].applicationid.value in db.apps
  }

  /** Lines 262-263 (store effect): the `i`-th record of the create group is
      stored under `nextId + i`, and no later update touches it. */
  lemma {:induction false} SaveCreatedRow(db: Store, recs: seq<App>, i: nat)
    requires WellFormed(db) && UpdatesExisting(db, recs)
    requires i < |Partition(recs).create|
    ensures db.nextId + i !in db.apps
    ensures Save(db, recs).0.apps[db.nextId + i] == RowOf(Partition(recs).create[i])
  {
    var g := Partition(recs);
    var k := db.nextId + i;
    var db1 := Create(db, g.create).0;
    assert db1.apps[k] == RowOf(g.create[i]);
    assert Save(db, recs).0 == Update(db1, g.update);
    UpdateRow(db1, g.update, k);
    var u := LastUpdateFinds(g.update, k);
    if LastUpdate(g.update, k).Some? {
      PartitionMembers(recs, g.update[u]);
      assert false;
    }
  }

  /** Lines 267-270 (store effect): a row already stored holds the last
      record of the update group that selects it, or is unchanged when none
      does. */
  lemma {:induction false} SaveStoredRow(db: Store, recs: seq<App>, k: Id)
    requires WellFormed(db)
    requires k in db.apps
    ensures Save(db, recs).0.apps[k] ==
      match LastUpdate(Partition(recs).update, k) case Some(a) => RowOf(a) case None => db.apps[k]
  {
    var g := Partition(recs);
    var db1 := if |g.create| > 0 then Create(db, g.create).0 else db;
    assert db1.apps[k] == db.apps[k];
    assert Save(db, recs).0 == Update(db1, g.update);
    UpdateRow(db1, g.update, k);
  }

  /** With the creates first, the write-back gives a record without an id
      the id of its own place in the create group, and does not reach the
      records with an id. */
  lemma {:induction false} CreatesFirstPlace(recs: seq<App>, i: int)
    requires CreatesFirst(recs)
    requires 0 <= i < |recs|
    ensures recs[i].applicationid.None? ==> i < |Partition(recs).create| && Partition(recs).create[i] == recs[i]
    ensures recs[i].applicationid.Some? ==> |Partition(recs).create| <= i
  {
    var k := CreatesFirstGroup(recs);
    if recs[i].applicationid.None? {
      assert i < k;
      assert recs[..k][i] == recs[i];
    }
  }

  /** `o` is what `save` should return for input record `rec`, moving the
      store from `db` to `db'`: a record with an id comes back as it is; a
      record without one comes back with the id of a fresh row that holds it. */
  predicate SavedRecord(db: Store, db': Store, rec: App, o: App)
  {
    && o.applicationid.Some?
    && (rec.applicationid.Some? ==> o == rec)
    && (rec.applicationid.None? ==>
          && o == rec.(applicationid := o.applicationid)
          && o.applicationid.value !in db.apps
          && o.applicationid.value in db'.apps
          && db'.apps[o.applicationid.value] == RowOf(rec))
  }

  /** One returned record when the creates come first. */
  lemma {:induction false} SaveCreatesFirstAt(db: Store, recs: seq<App>, i: int)
    requires WellFormed(db) && UpdatesExisting(db, recs)
    requires CreatesFirst(recs)
    requires 0 <= i < |recs|
    ensures SavedRecord(db, Save(db, recs).0, recs[i], Save(db, recs).1[i])
  {
    CreatesFirstPlace(recs, i);
    var res := Save(db, recs);
    if recs[i].applicationid.None? {
      assert res.1[i] == recs[i].(applicationid := Some(db.nextId + i));
      SaveCreatedRow(db, recs, i);
    } else {
      assert res.1[i] == recs[i];
    }
  }

  /** When every record to create precedes every record to update, `save`
      returns each record with an id: the created ones with the id of the
      fresh row holding them, the updated ones with their own. */
  lemma {:induction false} SaveCreatesFirst(db: Store, recs: seq<App>)
    requires WellFormed(db) && UpdatesExisting(db, recs)
    requires CreatesFirst(recs)
    ensures forall i :: 0 <= i < |recs| ==> SavedRecord(db, Save(db, recs).0, recs[i], Save(db, recs).1[i])
  {
    forall i | 0 <= i < |recs|
      ensures SavedRecord(db, Save(db, recs).0, recs[i], Save(db, recs).1[i])
    {
      SaveCreatesFirstAt(db, recs, i);
    }
  }

  /** Record `i` is past the reach of the write-back and has no id of its own. */
  predicate Unwritten(recs: seq<App>, i: int)
  {
    0 <= i < |recs| && |Partition(recs).create| <= i && recs[i].applicationid.None?
  }

  /** A returned record lacks an id exactly when it is unwritten. */
  lemma {:induction false} LostId(db: Store, recs: seq<App>, i: int)
    requires 0 <= i < |recs|
    ensures Save(db, recs).1[i].applicationid.None? <==> Unwritten(recs, i)
  {
  }

  /** Lines 264-266 miss a record only when a record to update precedes a
      record to create. */
  lemma {:induction false} UnwrittenOnlyIfOutOfOrder(recs: seq<App>, i: int)
    requires Unwritten(recs, i)
    ensures !CreatesFirst(recs)
  {
    var k := |Partition(recs).create|;
    SplitGroups(recs, k);
    if forall p :: 0 <= p < k ==> recs[p].applicationid.None? {
      AllNew(recs[..k]);
      HasNew(recs[k..], i - k);
      assert false;
    }
    var p :| 0 <= p < k && recs[p].applicationid.Some?;
    assert p < i;
  }

  /** ... and whenever one does, some record is missed. */
  lemma {:induction false} UnwrittenIfOutOfOrder(recs: seq<App>) returns (q: int)
    requires !CreatesFirst(recs)
    ensures Unwritten(recs, q)
  {
    var k := |Partition(recs).create|;
    var p, j :| 0 <= p < j < |recs| && recs[p].applicationid.Some? && recs[j].applicationid.None?;
    if j >= k {
      q := j;
    } else {
      SplitGroups(recs, k);
      HasOld(recs[..k], p);
      var t := SomeNew(recs[k..]);
      q := k + t;
    }
  }

  /** The write-back of lines 264-266 leaves every returned record with an
      id exactly when no record to update precedes a record to create. */
  lemma {:induction false} SaveLosesIds(db: Store, recs: seq<App>)
    ensures (exists i :: 0 <= i < |recs| && Save(db, recs).1[i].applicationid.None?) <==> !CreatesFirst(recs)
  {
    if i :| 0 <= i < |recs| && Save(db, recs).1[i].applicationid.None? {
      LostId(db, recs, i);
      UnwrittenOnlyIfOutOfOrder(recs, i);
    }
    if !CreatesFirst(recs) {
      var q := UnwrittenIfOutOfOrder(recs);
      LostId(db, recs, q);
    }
  }

  /** The other half of lines 264-266: a record with an id that sits within
      the first |create group| positions comes back with a fresh id, which
      names the row just created for a record of the create group, and one
      further back keeps its own. */
  lemma {:induction false} SaveMisplacesId(db: Store, recs: seq<App>, i: int)
    requires WellFormed(db) && UpdatesExisting(db, recs)
    requires 0 <= i < |recs| && recs[i].applicationid.Some?
    ensures Save(db, recs).1[i].applicationid != recs[i].applicationid <==> i < |Partition(recs).create|
    ensures i < |Partition(recs).create| ==>
      && Save(db, recs).1[i].applicationid.value !in db.apps
      && Save(db, recs).0.apps[Save(db, recs).1[i].applicationid.value] == RowOf(Partition(recs).create[i])
  {
    if i < |Partition(recs).create| {
      SaveCreatedRow(db, recs, i);
    }
  }

  /** Some record with an id comes back with another id exactly when a
      record to update precedes a record to create: ids are misplaced under
      the same condition as they are lost. */
  lemma {:induction false} SaveMisplacesIds(db: Store, recs: seq<App>)
    requires WellFormed(db) && UpdatesExisting(db, recs)
    ensures (exists i :: 0 <= i < |recs| && recs[i].applicationid.Some? && Save(db, recs).1[i].applicationid != recs[i].applicationid)
      <==> !CreatesFirst(recs)
  {
    var k := |Partition(recs).create|;
    if i :| 0 <= i < |recs| && recs[i].applicationid.Some? && Save(db, recs).1[i].applicationid != recs[i].applicationid {
      SaveMisplacesId(db, recs, i);
      if CreatesFirst(recs) {
        CreatesFirstPlace(recs, i);
        assert false;
      }
    }
    if !CreatesFirst(recs) {
      var q := UnwrittenIfOutOfOrder(recs);
      var p := OldBeforeNew(recs, q);
      SaveMisplacesId(db, recs, p);
    }
  }

  /** When record `q` is past the reach of the write-back, some record with
      an id sits within it. */
  lemma {:induction false} OldBeforeNew(recs: seq<App>, q: int) returns (p: int)
    requires Unwritten(recs, q)
    ensures 0 <= p < |Partition(recs).create| && recs[p].applicationid.Some?
  {
    var k := |Partition(recs).create|;
    SplitGroups(recs, k);
    if forall p' :: 0 <= p' < k ==> recs[..k][p'].applicationid.None? {
      AllNew(recs[..k]);
      HasNew(recs[k..], q - k);
      assert false;
    }
    p :| 0 <= p < k && recs[..k][p].applicationid.Some?;
  }
}
