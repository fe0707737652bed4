/** The read-only queries of the manager: the applications of a set of hosts
    (`getApplicationMapsByHosts`, `link`) and the hosts linked to the templates
    that own a batch of applications (`getChildHostsFroApplications`).
    SQL leaves the row order open; the model scans the table in ascending
    `applicationid` order and `hosts_templates` in table order. */
module Query {
  import opened Types

  /** `SELECT ... FROM applications a WHERE a.hostid IN hosts` restricted to
      the ids below `bound`, in ascending id order. */
  function AppsOnHosts(apps: map<Id, Row>, hosts: set<Id>, bound: nat): (r: seq<App>)
    // every returned record is a stored row of a requested host
    ensures forall i :: 0 <= i < |r| ==>
      && r[i].applicationid.Some?
      && r[i].applicationid.value < bound
      && r[i].applicationid.value in apps
      && r[i] == Fetch(r[i].applicationid.value, apps[r[i].applicationid.value])
      && r[i].hostid in hosts
    // ids strictly ascending, so no row twice
    ensures forall i, j :: 0 <= i < j < |r| ==> r[i].applicationid.value < r[j].applicationid.value
  {
    if bound == 0 then []
    else
      var prev := AppsOnHosts(apps, hosts, bound - 1);
      var k := bound - 1;
      if k in apps && apps[k].hostid in hosts then prev + [Fetch(k, apps[k])] else prev
  }

  /** Every stored row of a requested host below `bound` is returned. */
  lemma {:induction false} AppsOnHostsComplete(apps: map<Id, Row>, hosts: set<Id>, bound: nat, k: Id) returns (j: nat)
    requires k in apps && k < bound && apps[k].hostid in hosts
    ensures j < |AppsOnHosts(apps, hosts, bound)| && AppsOnHosts(apps, hosts, bound)[j] == Fetch(k, apps[k])
    decreases bound
  {
    if k < bound - 1 {
      j := AppsOnHostsComplete(apps, hosts, bound - 1, k);
    } else {
      j := |AppsOnHosts(apps, hosts, bound - 1)|;
    }
  }

  /** The hosts of a `DBcondition('a.hostid', $hostIds)` filter. */
  function HostSet(hostIds: seq<Id>): (r: set<Id>)
    ensures forall h :: h in r <==> h in hostIds
  {
    set h | h in hostIds
  }

  /** The rows of the table for the given hosts. */
  function SelectByHosts(db: Store, hostIds: seq<Id>): seq<App>
  {
    AppsOnHosts(db.apps, HostSet(hostIds), db.nextId)
  }

  /** The SELECT returns exactly the stored rows of the requested hosts,
      each with its id and columns as stored. */
  lemma {:induction false} SelectByHostsExact(db: Store, hostIds: seq<Id>)
    requires WellFormed(db)
    ensures forall a :: a in SelectByHosts(db, hostIds) <==>
      exists k :: k in db.apps && db.apps[k].hostid in hostIds && a == Fetch(k, db.apps[k])
  {
    var r := SelectByHosts(db, hostIds);
    forall a | a in r
      ensures exists k :: k in db.apps && db.apps[k].hostid in hostIds && a == Fetch(k, db.apps[k])
    {
      var i :| 0 <= i < |r| && r[i] == a;
      var k := a.applicationid.value;
      assert k in db.apps && a == Fetch(k, db.apps[k]);
    }
    forall k | k in db.apps && db.apps[k].hostid in hostIds
      ensures Fetch(k, db.apps[k]) in r
    {
      var j := AppsOnHostsComplete(db.apps, HostSet(hostIds), db.nextId, k);
    }
  }

  /** The distinct `hostid`s of a batch of records. */
  function OwnerHosts(apps: seq<App>): (r: set<Id>)
    ensures forall h :: h in r <==> exists i :: 0 <= i < |apps| && apps[i].hostid == h
  {
    set i | 0 <= i < |apps| :: apps[i].hostid
  }

  /** `SELECT ht.hostid FROM hosts_templates ht WHERE ht.templateid IN templates`,
      in table order; a host linked to two of the templates appears twice. */
  function LinkedHosts(links: seq<HostTemplate>, templates: set<Id>): (r: seq<Id>)
    ensures |r| <= |links|
    ensures forall h :: h in r <==> exists i :: 0 <= i < |links| && links[i].hostid == h && links[i].templateid in templates
  {
    if |links| == 0 then []
    else
      var prev := LinkedHosts(links[..|links| - 1], templates);
      var l := links[|links| - 1];
      assert forall i :: 0 <= i < |links| - 1 ==> links[..|links| - 1][i] == links[i];
      if l.templateid in templates then prev + [l.hostid] else prev
  }

  /** `getChildHostsFroApplications`: the hosts linked to a template owning
      one of `apps`. The source returns `false` for none; the model returns
      the empty sequence, which `inherit` treats alike. */
  function ChildHosts(links: seq<HostTemplate>, apps: seq<App>): (r: seq<Id>)
    ensures forall h :: h in r <==>
      exists i, k :: 0 <= i < |links| && 0 <= k < |apps| && links[i].hostid == h && links[i].templateid == apps[k].hostid
  {
    LinkedHosts(links, OwnerHosts(apps))
  }
}
