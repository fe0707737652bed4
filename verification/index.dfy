/** `getApplicationMapsByHosts`: for every requested host, two indexes of the
    applications it already has, one keyed by name and one keyed by
    `templateid`. */
module HostIndex {
  import opened Types
  import Query

  /** The two indexes of one host. */
  datatype HostApps = HostApps(byName: map<string, App>, byTemplateId: map<Option<Id>, App>)

  /** The index of a batch of hosts. `hosts` is the iteration order of the
      source's associative array (first occurrence of each requested id),
      `apps` its contents. */
  datatype Index = Index(hosts: seq<Id>, apps: map<Id, HostApps>)

  const NoApps := HostApps(map[], map[])

  predicate Distinct(s: seq<Id>)
  {
    forall i, j :: 0 <= i < j < |s| ==> s[i] != s[j]
  }

  /** Every host the index iterates over has an entry. */
  predicate Valid(idx: Index)
  {
    forall h :: h in idx.hosts ==> h in idx.apps
  }

  /** The keys of an associative array filled from `s`, in insertion order. */
  function Dedup(s: seq<Id>): (r: seq<Id>)
    ensures forall x :: x in r <==> x in s
    ensures Distinct(r)
    ensures |r| <= |s|
  {
    if |s| == 0 then []
    else
      var d := Dedup(s[..|s| - 1]);
      var x := s[|s| - 1];
      assert forall y :: y in s <==> y in s[..|s| - 1] || y == x;
      if x in d then d else d + [x]
  }

  /** In `s`, `x` is requested before the first request for `y`. */
  ghost predicate FirstBefore(s: seq<Id>, x: Id, y: Id)
  {
    forall p :: 0 <= p < |s| && s[p] == y ==> exists q :: 0 <= q < p && s[q] == x
  }

  /** An associative array iterates over its keys in order of first
      insertion: a host comes before another when it was requested first. */
  lemma {:induction false} DedupOrder(s: seq<Id>)
    ensures forall i, j :: 0 <= i < j < |Dedup(s)| ==> FirstBefore(s, Dedup(s)[i], Dedup(s)[j])
  {
    if |s| > 0 {
      var s' := s[..|s| - 1];
      var d := Dedup(s');
      var x := s[|s| - 1];
      assert s == s' + [x];
      DedupOrder(s');
      if x in d {
        assert Dedup(s) == d;
        forall i, j | 0 <= i < j < |d|
          ensures FirstBefore(s, d[i], d[j])
        {
          FirstBeforeExtend(s', x, d[i], d[j], false);
        }
      } else {
        var r := d + [x];
        assert Dedup(s) == r;
        forall i, j | 0 <= i < j < |r|
          ensures FirstBefore(s, r[i], r[j])
        {
          assert r[i] == d[i];
          if j < |d| {
            assert r[j] == d[j];
            FirstBeforeExtend(s', x, d[i], d[j], false);
          } else {
            FirstBeforeExtend(s', x, d[i], x, true);
          }
        }
      }
    }
  }

  /** One step of `DedupOrder`: `y` is either already requested in `s'`
      after `x`, or requested for the first time by the appended `z`. */
  lemma FirstBeforeExtend(s': seq<Id>, z: Id, x: Id, y: Id, isNew: bool)
    requires x in s'
    requires isNew ==> y == z && y !in s'
    requires !isNew ==> FirstBefore(s', x, y) && y in s'
    ensures FirstBefore(s' + [z], x, y)
  {
    var s := s' + [z];
    forall p | 0 <= p < |s| && s[p] == y
      ensures exists q :: 0 <= q < p && s[q] == x
    {
      if p < |s'| {
        assert s'[p] == y;
        var q :| 0 <= q < p && s'[q] == x;
        assert s[q] == x;
      } else if isNew {
        var q :| 0 <= q < |s'| && s'[q] == x;
        assert s[q] == x;
      } else {
        var p' :| 0 <= p' < |s'| && s'[p'] == y;
        var q :| 0 <= q < p' && s'[q] == x;
        assert s[q] == x;
      }
    }
  }

  /** Lines 230-232: one pair of empty maps per requested host. */
  function Empty(hostIds: seq<Id>): (idx: Index)
  {
    Index(Dedup(hostIds), map h | h in hostIds :: NoApps)
  }

  /** Lines 238-239: file one row under its name and under its templateid,
      replacing whatever was filed there before. */
  function Add(idx: Index, a: App): Index
    requires a.hostid in idx.apps
  {
    var ha := idx.apps[a.hostid];
    idx.(apps := idx.apps[a.hostid := HostApps(ha.byName[a.name := a], ha.byTemplateId[a.templateid := a])])
  }

  /** Lines 237-240: file every fetched row, in fetch order. */
  function AddAll(idx: Index, rows: seq<App>): (r: Index)
    requires forall i :: 0 <= i < |rows| ==> rows[i].hostid in idx.apps
    ensures r.hosts == idx.hosts && r.apps.Keys == idx.apps.Keys
  {
    if |rows| == 0 then idx
    else Add(AddAll(idx, rows[..|rows| - 1]), rows[|rows| - 1])
  }

  /** `getApplicationMapsByHosts(hostIds)` against the store `db`. */
  function BuildIndex(hostIds: seq<Id>, db: Store): (idx: Index)
    ensures Valid(idx)
    ensures idx.hosts == Dedup(hostIds)
    ensures idx.apps.Keys == set h | h in hostIds
    ensures Distinct(idx.hosts)
    ensures forall h :: h in idx.hosts <==> h in hostIds
  {
    AddAll(Empty(hostIds), Query.SelectByHosts(db, hostIds))
  }

  /** Row `a` belongs to host `h` and is named `n`. */
  predicate NameKey(a: App, h: Id, n: string)
  {
    a.hostid == h && a.name == n
  }

  /** Row `a` belongs to host `h` and carries templateid `t`. */
  predicate TemplateKey(a: App, h: Id, t: Option<Id>)
  {
    a.hostid == h && a.templateid == t
  }

  /** `rows[k]` is the last of `rows` filed under name `n` of host `h`. */
  predicate LastNamed(rows: seq<App>, k: int, h: Id, n: string)
  {
    0 <= k < |rows| && NameKey(rows[k], h, n) && forall k' :: k < k' < |rows| ==> !NameKey(rows[k'], h, n)
  }

  /** `rows[k]` is the last of `rows` filed under templateid `t` of host `h`. */
  predicate LastWithTemplate(rows: seq<App>, k: int, h: Id, t: Option<Id>)
  {
    0 <= k < |rows| && TemplateKey(rows[k], h, t) && forall k' :: k < k' < |rows| ==> !TemplateKey(rows[k'], h, t)
  }

  /** What name `n` of host `h` holds in `idx`, if anything. */
  function NameLookup(idx: Index, h: Id, n: string): Option<App>
  {
    if h in idx.apps && n in idx.apps[h].byName then Some(idx.apps[h].byName[n]) else None
  }

  /** What templateid `t` of host `h` holds in `idx`, if anything. */
  function TemplateLookup(idx: Index, h: Id, t: Option<Id>): Option<App>
  {
    if h in idx.apps && t in idx.apps[h].byTemplateId then Some(idx.apps[h].byTemplateId[t]) else None
  }

  /** Reference definition: the last of `rows` named `n` on host `h`, found
      by scanning backwards. */
  function LastByName(rows: seq<App>, h: Id, n: string): Option<App>
  {
    if |rows| == 0 then None
    else if NameKey(rows[|rows| - 1], h, n) then Some(rows[|rows| - 1])
    else LastByName(rows[..|rows| - 1], h, n)
  }

  /** Reference definition: the last of `rows` derived from `t` on host `h`. */
  function LastByTemplateId(rows: seq<App>, h: Id, t: Option<Id>): Option<App>
  {
    if |rows| == 0 then None
    else if TemplateKey(rows[|rows| - 1], h, t) then Some(rows[|rows| - 1])
    else LastByTemplateId(rows[..|rows| - 1], h, t)
  }

  /** A later row with the same name replaces an earlier one: after filing
      `rows`, name `n` of host `h` holds the last row of `h` named `n`, and
      what it held before when there is none. */
  lemma {:induction false} AddAllByName(idx: Index, rows: seq<App>, h: Id, n: string)
    requires forall i :: 0 <= i < |rows| ==> rows[i].hostid in idx.apps
    ensures NameLookup(AddAll(idx, rows), h, n) ==
      match LastByName(rows, h, n) case Some(a) => Some(a) case None => NameLookup(idx, h, n)
    decreases |rows|
  {
    if |rows| > 0 {
      AddAllByName(idx, rows[..|rows| - 1], h, n);
    }
  }

  /** The same for the templateid index. */
  lemma {:induction false} AddAllByTemplateId(idx: Index, rows: seq<App>, h: Id, t: Option<Id>)
    requires forall i :: 0 <= i < |rows| ==> rows[i].hostid in idx.apps
    ensures TemplateLookup(AddAll(idx, rows), h, t) ==
      match LastByTemplateId(rows, h, t) case Some(a) => Some(a) case None => TemplateLookup(idx, h, t)
    decreases |rows|
  {
    if |rows| > 0 {
      AddAllByTemplateId(idx, rows[..|rows| - 1], h, t);
    }
  }

  /** The backward scan finds a row exactly when one exists, and finds the
      last one. */
  lemma {:induction false} LastByNameFinds(rows: seq<App>, h: Id, n: string) returns (k: int)
    ensures LastByName(rows, h, n).Some? <==> exists i :: 0 <= i < |rows| && NameKey(rows[i], h, n)
    ensures LastByName(rows, h, n).Some? ==> LastNamed(rows, k, h, n) && LastByName(rows, h, n) == Some(rows[k])
    decreases |rows|
  {
    k := -1;
    if |rows| > 0 {
      var init := rows[..|rows| - 1];
      if NameKey(rows[|rows| - 1], h, n) {
        k := |rows| - 1;
      } else {
        k := LastByNameFinds(init, h, n);
        assert forall i :: 0 <= i < |init| ==> init[i] == rows[i];
      }
    }
  }

  /** The same for the templateid scan. */
  lemma {:induction false} LastByTemplateIdFinds(rows: seq<App>, h: Id, t: Option<Id>) returns (k: int)
    ensures LastByTemplateId(rows, h, t).Some? <==> exists i :: 0 <= i < |rows| && TemplateKey(rows[i], h, t)
    ensures LastByTemplateId(rows, h, t).Some? ==> LastWithTemplate(rows, k, h, t) && LastByTemplateId(rows, h, t) == Some(rows[k])
    decreases |rows|
  {
    k := -1;
    if |rows| > 0 {
      var init := rows[..|rows| - 1];
      if TemplateKey(rows[|rows| - 1], h, t) {
        k := |rows| - 1;
      } else {
        k := LastByTemplateIdFinds(init, h, t);
        assert forall i :: 0 <= i < |init| ==> init[i] == rows[i];
      }
    }
  }

  /** Stored row `k` belongs to host `h` and is named `n`. */
  predicate StoredNamed(db: Store, k: Id, h: Id, n: string)
  {
    k in db.apps && db.apps[k].hostid == h && db.apps[k].name == n
  }

  /** Stored row `k` belongs to host `h` and carries templateid `t`. */
  predicate StoredWithTemplate(db: Store, k: Id, h: Id, t: Option<Id>)
  {
    k in db.apps && db.apps[k].hostid == h && db.apps[k].templateid == t
  }

  lemma {:induction false} EmptyEntry(hostIds: seq<Id>, h: Id)
    requires h in hostIds
    ensures h in Empty(hostIds).apps && Empty(hostIds).apps[h] == NoApps
  {
  }

  /** A stored row of a requested host is among the fetched rows. */
  lemma {:induction false} Selected(db: Store, hostIds: seq<Id>, k: Id) returns (j: int)
    requires WellFormed(db)
    requires k in db.apps && db.apps[k].hostid in hostIds
    ensures 0 <= j < |Query.SelectByHosts(db, hostIds)|
    ensures Query.SelectByHosts(db, hostIds)[j] == Fetch(k, db.apps[k])
  {
    j := Query.AppsOnHostsComplete(db.apps, Query.HostSet(hostIds), db.nextId, k);
  }

  /** The index of host `h` read through `NameLookup`, built from the fetched rows. */
  lemma {:induction false} BuiltByName(hostIds: seq<Id>, db: Store, h: Id, n: string) returns (k: int)
    requires h in hostIds
    ensures var rows := Query.SelectByHosts(db, hostIds); var r := NameLookup(BuildIndex(hostIds, db), h, n);
      && (r.Some? <==> exists i :: 0 <= i < |rows| && NameKey(rows[i], h, n))
      && (r.Some? ==> LastNamed(rows, k, h, n) && r == Some(rows[k]))
  {
    var rows := Query.SelectByHosts(db, hostIds);
    var e := Empty(hostIds);
    EmptyEntry(hostIds, h);
    assert forall i :: 0 <= i < |rows| ==> rows[i].hostid in e.apps;
    AddAllByName(e, rows, h, n);
    k := LastByNameFinds(rows, h, n);
  }

  /** The same for the templateid index. */
  lemma {:induction false} BuiltByTemplateId(hostIds: seq<Id>, db: Store, h: Id, t: Option<Id>) returns (k: int)
    requires h in hostIds
    ensures var rows := Query.SelectByHosts(db, hostIds); var r := TemplateLookup(BuildIndex(hostIds, db), h, t);
      && (r.Some? <==> exists i :: 0 <= i < |rows| && TemplateKey(rows[i], h, t))
      && (r.Some? ==> LastWithTemplate(rows, k, h, t) && r == Some(rows[k]))
  {
    var rows := Query.SelectByHosts(db, hostIds);
    var e := Empty(hostIds);
    EmptyEntry(hostIds, h);
    assert forall i :: 0 <= i < |rows| ==> rows[i].hostid in e.apps;
    AddAllByTemplateId(e, rows, h, t);
    k := LastByTemplateIdFinds(rows, h, t);
  }

  /** The last fetched row under a name carries the largest id under it. */
  lemma {:induction false} NewestNamed(hostIds: seq<Id>, db: Store, h: Id, n: string, k: int)
    requires WellFormed(db)
    requires LastNamed(Query.SelectByHosts(db, hostIds), k, h, n)
    ensures forall k': Id :: StoredNamed(db, k', h, n) && db.apps[k'].hostid in hostIds ==>
      k' <= Query.SelectByHosts(db, hostIds)[k].applicationid.value
  {
    var rows := Query.SelectByHosts(db, hostIds);
    forall k': Id | StoredNamed(db, k', h, n) && db.apps[k'].hostid in hostIds
      ensures k' <= rows[k].applicationid.value
    {
      var j := Selected(db, hostIds, k');
      assert NameKey(rows[j], h, n);
      if j < k { assert rows[j].applicationid.value < rows[k].applicationid.value; }
    }
  }

  /** The last fetched row under a templateid carries the largest id under it. */
  lemma {:induction false} NewestWithTemplate(hostIds: seq<Id>, db: Store, h: Id, t: Option<Id>, k: int)
    requires WellFormed(db)
    requires LastWithTemplate(Query.SelectByHosts(db, hostIds), k, h, t)
    ensures forall k': Id :: StoredWithTemplate(db, k', h, t) && db.apps[k'].hostid in hostIds ==>
      k' <= Query.SelectByHosts(db, hostIds)[k].applicationid.value
  {
    var rows := Query.SelectByHosts(db, hostIds);
    forall k': Id | StoredWithTemplate(db, k', h, t) && db.apps[k'].hostid in hostIds
      ensures k' <= rows[k].applicationid.value
    {
      var j := Selected(db, hostIds, k');
      assert TemplateKey(rows[j], h, t);
      if j < k { assert rows[j].applicationid.value < rows[k].applicationid.value; }
    }
  }

  /** Lines 229-240 against the store: name `n` of a requested host `h` is
      indexed exactly when `h` has an application named `n`, and it holds the
      one with the largest id (the last row of the ascending scan). */
  lemma {:induction false} IndexByName(hostIds: seq<Id>, db: Store, h: Id, n: string)
    requires WellFormed(db)
    requires h in hostIds
    ensures var r := NameLookup(BuildIndex(hostIds, db), h, n);
      && (r.Some? <==> exists k: Id :: StoredNamed(db, k, h, n))
      && (r.Some? ==>
            && r.value.applicationid.Some?
            && StoredNamed(db, r.value.applicationid.value, h, n)
            && r.value == Fetch(r.value.applicationid.value, db.apps[r.value.applicationid.value])
            && forall k: Id :: StoredNamed(db, k, h, n) ==> k <= r.value.applicationid.value)
  {
    var rows := Query.SelectByHosts(db, hostIds);
    var k := BuiltByName(hostIds, db, h, n);
    if exists k': Id :: StoredNamed(db, k', h, n) {
      var k': Id :| StoredNamed(db, k', h, n);
      var j := Selected(db, hostIds, k');
      assert NameKey(rows[j], h, n);
    }
    if NameLookup(BuildIndex(hostIds, db), h, n).Some? {
      var id := rows[k].applicationid.value;
      assert StoredNamed(db, id, h, n);
      NewestNamed(hostIds, db, h, n, k);
    }
  }

  /** The same for the templateid index: templateid `t` of host `h` is
      indexed exactly when `h` has an application carrying `t`, and it holds
      the one with the largest id. */
  lemma {:induction false} IndexByTemplateId(hostIds: seq<Id>, db: Store, h: Id, t: Option<Id>)
    requires WellFormed(db)
    requires h in hostIds
    ensures var r := TemplateLookup(BuildIndex(hostIds, db), h, t);
      && (r.Some? <==> exists k: Id :: StoredWithTemplate(db, k, h, t))
      && (r.Some? ==>
            && r.value.applicationid.Some?
            && StoredWithTemplate(db, r.value.applicationid.value, h, t)
            && r.value == Fetch(r.value.applicationid.value, db.apps[r.value.applicationid.value])
            && forall k: Id :: StoredWithTemplate(db, k, h, t) ==> k <= r.value.applicationid.value)
  {
    var rows := Query.SelectByHosts(db, hostIds);
    var k := BuiltByTemplateId(hostIds, db, h, t);
    if exists k': Id :: StoredWithTemplate(db, k', h, t) {
      var k': Id :| StoredWithTemplate(db, k', h, t);
      var j := Selected(db, hostIds, k');
      assert TemplateKey(rows[j], h, t);
    }
    if TemplateLookup(BuildIndex(hostIds, db), h, t).Some? {
      var id := rows[k].applicationid.value;
      assert StoredWithTemplate(db, id, h, t);
      NewestWithTemplate(hostIds, db, h, t, k);
    }
  }

  /** Lines 229-232: a requested host without applications is still a key,
      with both indexes empty. */
  lemma {:induction false} IndexOfBareHost(hostIds: seq<Id>, db: Store, h: Id)
    requires WellFormed(db)
    requires h in hostIds
    requires forall k :: k in db.apps ==> db.apps[k].hostid != h
    ensures h in BuildIndex(hostIds, db).apps
    ensures BuildIndex(hostIds, db).apps[h] == NoApps
  {
    var idx := BuildIndex(hostIds, db);
    var ha := idx.apps[h];
    forall n | n in ha.byName
      ensures exists k: Id :: StoredNamed(db, k, h, n)
    {
      IndexByName(hostIds, db, h, n);
    }
    forall t | t in ha.byTemplateId
      ensures exists k: Id :: StoredWithTemplate(db, k, h, t)
    {
      IndexByTemplateId(hostIds, db, h, t);
    }
    assert ha.byName == map[];
    assert ha.byTemplateId == map[];
  }
}
