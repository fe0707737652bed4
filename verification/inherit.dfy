/** `inherit` and `link`: mirror a batch of applications onto hosts, then
    carry the saved copies one level further down the template tree, until
    a level has no linked hosts. */
module Inheritance {
  import opened Types
  import Query
  import opened HostIndex
  import opened Reconcile
  import opened Persist

  /** How a propagation ends: every level went through, a level was
      rejected with the exception of line 192, or the fuel bound standing
      in for the depth of the template tree ran out. */
  datatype Outcome = Done | Failed(conflict: Conflict) | OutOfFuel

  /** Lines 130-132: the requested hosts, or, when none are given, the hosts
      linked to the templates that own the applications. */
  function Targets(db: Store, apps: seq<App>, hostIds: seq<Id>): (r: seq<Id>)
    ensures |hostIds| > 0 ==> r == hostIds
    ensures |hostIds| == 0 ==> forall h :: h in r <==>
      exists i, k :: 0 <= i < |db.links| && 0 <= k < |apps| && db.links[i].hostid == h && db.links[i].templateid == apps[k].hostid
  {
    if |hostIds| == 0 then Query.ChildHosts(db.links, apps) else hostIds
  }

  /** Lines 137-138: one level of inheritance. The prepared records are saved
      only when no pair clashes; the saved records are returned for the next
      level. */
  function Level(db: Store, apps: seq<App>, targets: seq<Id>): (r: Result<(Store, seq<App>), Conflict>)
    // a rejected level writes nothing: the store is returned only on success
    ensures r.Success? ==> r.value.0.links == db.links && db.nextId <= r.value.0.nextId
    ensures r.Success? ==> forall k :: k in db.apps ==> k in r.value.0.apps
    ensures r.Success? && WellFormed(db) ==> WellFormed(r.value.0)
    // one record per source and distinct target host
    ensures r.Success? ==> |r.value.1| == |apps| * |Dedup(targets)|
  {
    var idx := BuildIndex(targets, db);
    match Prepare(apps, idx)
    case Failure(e) => Failure(e)
    case Success(prepared) => Success(Save(db, prepared))
  }

  /** Lines 129-143. The source recurses until a level finds no hosts; the
      model bounds the depth by `fuel`. A conflict ends the propagation, and
      the levels already saved stay in the store. */
  function Inherit(db: Store, apps: seq<App>, hostIds: seq<Id>, fuel: nat): (res: (Store, Outcome))
    ensures res.0.links == db.links
    ensures db.nextId <= res.0.nextId
    ensures forall k :: k in db.apps ==> k in res.0.apps
    ensures WellFormed(db) ==> WellFormed(res.0)
    // lines 133-135: nothing to inherit to is a success without any write
    ensures |Targets(db, apps, hostIds)| == 0 ==> res == (db, Done)
    decreases fuel
  {
    var targets := Targets(db, apps, hostIds);
    if |targets| == 0 then (db, Done)
    else if fuel == 0 then (db, OutOfFuel)
    else
      match Level(db, apps, targets)
      case Failure(e) => (db, Failed(e))
      case Success((db1, saved)) => Inherit(db1, saved, [], fuel - 1)
  }

  /** Lines 97-111: inherit every application of template `templateId` to
      `hostIds` (or to the template's linked hosts when none are given). */
  function Link(db: Store, templateId: Id, hostIds: seq<Id>, fuel: nat): (res: (Store, Outcome))
    ensures res.0.links == db.links
    ensures WellFormed(db) ==> WellFormed(res.0)
    ensures forall k :: k in db.apps ==> k in res.0.apps
  {
    Inherit(db, Query.SelectByHosts(db, [templateId]), hostIds, fuel)
  }

  /** `link` hands `inherit` exactly the stored applications of the
      template, each with its id, name, host and templateid as stored. */
  lemma {:induction false} LinkInheritsTemplateApps(db: Store, templateId: Id, hostIds: seq<Id>, fuel: nat)
    returns (apps: seq<App>)
    requires WellFormed(db)
    ensures Link(db, templateId, hostIds, fuel) == Inherit(db, apps, hostIds, fuel)
    ensures forall a :: a in apps <==>
      exists k :: k in db.apps && db.apps[k].hostid == templateId && a == Fetch(k, db.apps[k])
  {
    apps := Query.SelectByHosts(db, [templateId]);
    Query.SelectByHostsExact(db, [templateId]);
  }

  /** A level is rejected exactly when some application clashes on some
      target host, and the conflict names such an application and host. */
  lemma {:induction false} LevelFails(db: Store, apps: seq<App>, targets: seq<Id>)
    requires WellFormed(db)
    ensures var r := Level(db, apps, targets);
      && (r.Failure? <==> exists i, h :: 0 <= i < |apps| && h in targets && StoreClash(db, apps[i], h))
      && (r.Failure? ==>
            exists i :: 0 <= i < |apps| && r.error == AlreadyExists(apps[i].name, r.error.hostid)
              && r.error.hostid in targets && StoreClash(db, apps[i], r.error.hostid))
  {
    PrepareAgainstStore(apps, targets, db);
  }

  /** All or nothing: when an application clashes on one of the hosts of the
      first level, `inherit` fails before writing anything. */
  lemma {:induction false} ConflictWritesNothing(db: Store, apps: seq<App>, hostIds: seq<Id>, fuel: nat, i: int, h: Id)
    requires WellFormed(db) && fuel > 0
    requires 0 <= i < |apps| && h in Targets(db, apps, hostIds)
    requires StoreClash(db, apps[i], h)
    ensures Inherit(db, apps, hostIds, fuel).0 == db
    ensures Inherit(db, apps, hostIds, fuel).1.Failed?
  {
    LevelFails(db, apps, Targets(db, apps, hostIds));
  }

  /** ... and when no application clashes, the first level is saved and the
      propagation continues from the saved records. */
  lemma {:induction false} NoConflictSaves(db: Store, apps: seq<App>, hostIds: seq<Id>, fuel: nat)
    requires WellFormed(db) && fuel > 0
    requires |Targets(db, apps, hostIds)| > 0
    requires forall i, h :: 0 <= i < |apps| && h in Targets(db, apps, hostIds) ==> !StoreClash(db, apps[i], h)
    ensures var targets := Targets(db, apps, hostIds);
      && Level(db, apps, targets).Success?
      && Inherit(db, apps, hostIds, fuel) ==
           Inherit(Level(db, apps, targets).value.0, Level(db, apps, targets).value.1, [], fuel - 1)
  {
    LevelFails(db, apps, Targets(db, apps, hostIds));
  }

  /** Lines 174-210 against the store: every record `prepareInheritedApps`
      hands to `save` with an id names an application already stored, so
      `save` only ever updates rows that exist. */
  lemma {:induction false} PreparedUpdatesExisting(srcs: seq<App>, hostIds: seq<Id>, db: Store)
    requires WellFormed(db)
    requires Prepare(srcs, BuildIndex(hostIds, db)).Success?
    ensures UpdatesExisting(db, Prepare(srcs, BuildIndex(hostIds, db)).value)
  {
    var idx := BuildIndex(hostIds, db);
    var out := Prepare(srcs, idx).value;
    forall s | 0 <= s < |out| && out[s].applicationid.Some?
      ensures out[s].applicationid.value in db.apps
    {
      var i, j := SlotOf(s, |srcs|, |idx.hosts|);
      UpdateOnHost(srcs[i], hostIds, db, idx.hosts[j]);
    }
  }

  /** The record of slot `s` of a prepared level is the copy of some source
      on some target host. */
  lemma {:induction false} PreparedCopy(srcs: seq<App>, targets: seq<Id>, db: Store, s: int) returns (i: nat, j: nat)
    requires WellFormed(db)
    requires Prepare(srcs, BuildIndex(targets, db)).Success?
    requires 0 <= s < |Prepare(srcs, BuildIndex(targets, db)).value|
    ensures var out := Prepare(srcs, BuildIndex(targets, db)).value;
      && i < |srcs| && j < |Dedup(targets)| && s == Slot(i, j, |Dedup(targets)|)
      && out[s].hostid == Dedup(targets)[j] && out[s].name == srcs[i].name && out[s].templateid == srcs[i].applicationid
      && (out[s].applicationid.Some? ==>
            out[s].applicationid.value in db.apps && db.apps[out[s].applicationid.value].hostid == Dedup(targets)[j])
  {
    var idx := BuildIndex(targets, db);
    i, j := SlotOf(s, |srcs|, |idx.hosts|);
    UpdateOnHost(srcs[i], targets, db, idx.hosts[j]);
  }

  /** `row` is the copy of one of `apps` on host `h`. */
  ghost predicate CopyOf(apps: seq<App>, row: Row, h: Id)
  {
    exists i :: 0 <= i < |apps| && row == Row(apps[i].name, h, apps[i].applicationid)
  }

  /** A row the level updates holds the copy of some source, and stays on
      its host. */
  lemma {:induction false} UpdatedRowIsCopy(apps: seq<App>, targets: seq<Id>, db: Store, k: Id)
    requires WellFormed(db)
    requires Prepare(apps, BuildIndex(targets, db)).Success?
    requires LastUpdate(Partition(Prepare(apps, BuildIndex(targets, db)).value).update, k).Some?
    ensures k in db.apps
    ensures CopyOf(apps, RowOf(LastUpdate(Partition(Prepare(apps, BuildIndex(targets, db)).value).update, k).value), db.apps[k].hostid)
  {
    var out := Prepare(apps, BuildIndex(targets, db)).value;
    var upd := Partition(out).update;
    var u := LastUpdateFinds(upd, k);
    PartitionMembers(out, upd[u]);
    var s :| 0 <= s < |out| && out[s] == upd[u];
    var i, j := PreparedCopy(apps, targets, db, s);
  }

  /** Lines 137-138, what one successful level writes, for the pair
      (source `i`, target `j`): the pair's record is a copy of the source on
      the target host; a record without an id is stored under a fresh id,
      and a record with an id selects an application of that host, whose
      row then holds the copy of some source. */
  lemma {:induction false} LevelStores(db: Store, apps: seq<App>, targets: seq<Id>, i: int, j: int)
    requires WellFormed(db)
    requires Prepare(apps, BuildIndex(targets, db)).Success?
    requires 0 <= i < |apps| && 0 <= j < |Dedup(targets)|
    ensures Level(db, apps, targets).Success?
    ensures var out := Prepare(apps, BuildIndex(targets, db)).value;
      var rec := out[Slot(i, j, |Dedup(targets)|)];
      var db' := Level(db, apps, targets).value.0;
      && rec.hostid == Dedup(targets)[j] && rec.name == apps[i].name && rec.templateid == apps[i].applicationid
      && (rec.applicationid.None? ==>
            exists c :: 0 <= c < |Partition(out).create| && Partition(out).create[c] == rec
              && db.nextId + c !in db.apps && db'.apps[db.nextId + c] == RowOf(rec))
      && (rec.applicationid.Some? ==>
            && rec.applicationid.value in db.apps
            && db.apps[rec.applicationid.value].hostid == Dedup(targets)[j]
            && CopyOf(apps, db'.apps[rec.applicationid.value], Dedup(targets)[j]))
  {
    var idx := BuildIndex(targets, db);
    var out := Prepare(apps, idx).value;
    var m := |idx.hosts|;
    SlotBounds(i, j, |apps|, m);
    var s := Slot(i, j, m);
    var rec := out[s];
    var i0, j0 := PreparedCopy(apps, targets, db, s);
    assert i0 == i && j0 == j by {
      SlotUnique(i0, j0, i, j, m);
    }
    var db' := Save(db, out).0;
    assert Level(db, apps, targets) == Success(Save(db, out));
    PreparedUpdatesExisting(apps, targets, db);
    if rec.applicationid.None? {
      PartitionMembers(out, rec);
      var c :| 0 <= c < |Partition(out).create| && Partition(out).create[c] == rec;
      SaveCreatedRow(db, out, c);
    } else {
      var k := rec.applicationid.value;
      var upd := Partition(out).update;
      PartitionMembers(out, rec);
      var u :| 0 <= u < |upd| && upd[u] == rec;
      var _ := LastUpdateFinds(upd, k);
      SaveStoredRow(db, out, k);
      UpdatedRowIsCopy(apps, targets, db, k);
    }
  }

  /** Lines 67-75 for a level: a row stored before the level holds the last
      copy that selects it, or is unchanged. */
  lemma {:induction false} LevelKeepsRows(db: Store, apps: seq<App>, targets: seq<Id>, k: Id)
    requires WellFormed(db)
    requires Prepare(apps, BuildIndex(targets, db)).Success?
    requires k in db.apps
    ensures Level(db, apps, targets).Success?
    ensures var out := Prepare(apps, BuildIndex(targets, db)).value;
      Level(db, apps, targets).value.0.apps[k] ==
        match LastUpdate(Partition(out).update, k) case Some(a) => RowOf(a) case None => db.apps[k]
  {
    var out := Prepare(apps, BuildIndex(targets, db)).value;
    assert Level(db, apps, targets) == Success(Save(db, out));
    SaveStoredRow(db, out, k);
  }
}
