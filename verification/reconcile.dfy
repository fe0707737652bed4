/** `prepareInheritedApps`: for every source application and every indexed
    host, decide whether the host's copy is created or an existing
    application of the host is updated, or reject the whole batch on a name
    clash with an application inherited from elsewhere. */
module Reconcile {
  import opened Types
  import opened HostIndex

  /** The exception of line 192: an application named `name` already exists
      on host `hostid`. (The source looks up the host's name for the message;
      the model reports its id.) */
  datatype Conflict = AlreadyExists(name: string, hostid: Id)

  /** Lines 188-190: the host has an application of the same name that was
      inherited from another template application. */
  predicate Clashes(src: App, ha: HostApps)
  {
    src.name in ha.byName && Foreign(ha.byName[src.name].templateid, src.applicationid)
  }

  /** Line 189: an application with templateid `t` was inherited from a
      template application other than `appId`. */
  predicate Foreign(t: Option<Id>, appId: Option<Id>)
  {
    t.Some? && t.value > 0 && t != appId
  }

  /** Lines 181-194: the host's application the source is mirrored onto; a
      match by name overrides a match by templateid. */
  function Existing(src: App, ha: HostApps): Option<App>
  {
    if src.name in ha.byName then Some(ha.byName[src.name])
    else if src.applicationid in ha.byTemplateId then Some(ha.byTemplateId[src.applicationid])
    else None
  }

  /** Lines 181-205: the record for one (source, host) pair. */
  function InheritOne(src: App, h: Id, ha: HostApps): (r: Result<App, Conflict>)
    ensures r.Failure? <==> Clashes(src, ha)
    ensures r.Failure? ==> r.error.hostid == h
    // the reported name is the source's whenever the name index files each application under its own name
    ensures r.Failure? && (forall n :: n in ha.byName ==> ha.byName[n].name == n) ==> r.error.name == src.name
    // the copy lives on the target host, points back at the source, keeps the name
    ensures r.Success? ==> r.value.hostid == h && r.value.templateid == src.applicationid && r.value.name == src.name
    // an update reuses the id of the existing application; a create has no id
    ensures r.Success? ==> r.value.applicationid == match Existing(src, ha) case Some(ex) => ex.applicationid case None => None
  {
    if Clashes(src, ha) then Failure(AlreadyExists(ha.byName[src.name].name, h))
    else
      var id := match Existing(src, ha) case Some(ex) => ex.applicationid case None => None;
      Success(App(id, src.name, h, src.applicationid))
  }

  /** The decision for source `src` on the indexed host `h`. */
  function Decide(src: App, idx: Index, h: Id): Result<App, Conflict>
    requires h in idx.apps
  {
    InheritOne(src, h, idx.apps[h])
  }

  /** Host `j` is the first of `hosts` on which `src` clashes. */
  predicate FirstFailing(src: App, hosts: seq<Id>, idx: Index, j: int)
    requires forall h :: h in hosts ==> h in idx.apps
  {
    && 0 <= j < |hosts|
    && Decide(src, idx, hosts[j]).Failure?
    && forall j' :: 0 <= j' < j ==> Decide(src, idx, hosts[j']).Success?
  }

  /** Every decision of one source over `hosts` matches `row`, host by host. */
  predicate Decided(src: App, hosts: seq<Id>, idx: Index, row: seq<App>)
    requires forall h :: h in hosts ==> h in idx.apps
  {
    |row| == |hosts| && forall j :: 0 <= j < |hosts| ==> Decide(src, idx, hosts[j]) == Success(row[j])
  }

  /** Appending one host and its record keeps the match. */
  lemma {:induction false} DecidedStep(src: App, hosts: seq<Id>, idx: Index, prev: seq<App>, a: App)
    requires forall h :: h in hosts ==> h in idx.apps
    requires |hosts| > 0
    requires Decided(src, hosts[..|hosts| - 1], idx, prev)
    requires Decide(src, idx, hosts[|hosts| - 1]) == Success(a)
    ensures Decided(src, hosts, idx, prev + [a])
  {
    var init := hosts[..|hosts| - 1];
    assert forall j :: 0 <= j < |init| ==> init[j] == hosts[j];
  }

  /** The first failing host of the earlier hosts stays the first. */
  lemma {:induction false} FailingInPrefix(src: App, hosts: seq<Id>, idx: Index, j: int)
    requires forall h :: h in hosts ==> h in idx.apps
    requires |hosts| > 0
    requires FirstFailing(src, hosts[..|hosts| - 1], idx, j)
    ensures FirstFailing(src, hosts, idx, j) && hosts[..|hosts| - 1][j] == hosts[j]
  {
    var init := hosts[..|hosts| - 1];
    assert forall j' :: 0 <= j' < |init| ==> init[j'] == hosts[j'];
  }

  /** The inner loop (line 180): one source over `hosts`, stopping at the
      first clash. */
  function InheritToHosts(src: App, hosts: seq<Id>, idx: Index): (r: Result<seq<App>, Conflict>)
    requires forall h :: h in hosts ==> h in idx.apps
    ensures r.Success? <==> forall j :: 0 <= j < |hosts| ==> Decide(src, idx, hosts[j]).Success?
    ensures r.Success? ==> Decided(src, hosts, idx, r.value)
    ensures r.Failure? ==> exists j :: FirstFailing(src, hosts, idx, j) && Decide(src, idx, hosts[j]) == Failure(r.error)
  {
    if |hosts| == 0 then Success([])
    else
      var init := hosts[..|hosts| - 1];
      var h := hosts[|hosts| - 1];
      match InheritToHosts(src, init, idx)
      case Failure(e) =>
        assert exists j :: FirstFailing(src, hosts, idx, j) && Decide(src, idx, hosts[j]) == Failure(e) by {
          var j :| FirstFailing(src, init, idx, j) && Decide(src, idx, init[j]) == Failure(e);
          FailingInPrefix(src, hosts, idx, j);
        }
        Failure(e)
      case Success(prev) =>
        match Decide(src, idx, h)
        case Failure(e) =>
          assert FirstFailing(src, hosts, idx, |hosts| - 1) by {
            assert forall j :: 0 <= j < |init| ==> init[j] == hosts[j];
          }
          Failure(e)
        case Success(a) =>
          DecidedStep(src, hosts, idx, prev, a);
          Success(prev + [a])
  }

  /** Position of the pair (source `i`, host `j`) in the flat result. */
  function Slot(i: nat, j: nat, m: nat): nat
  {
    i * m + j
  }

  lemma {:induction false} SlotBounds(i: nat, j: nat, n: nat, m: nat)
    requires i < n && j < m
    ensures Slot(i, j, m) < n * m
  {
    calc {
      Slot(i, j, m) + m;
      <  i * m + m + m;
      == (i + 1) * m + m;
    }
    assert (i + 1) * m <= n * m by {
      MulMono(i + 1, n, m);
    }
  }

  /** Every position below `n * m` is the slot of exactly one pair: source
      `s / m`, host `s % m`. */
  lemma {:induction false} SlotOf(s: nat, n: nat, m: nat) returns (i: nat, j: nat)
    requires s < n * m
    ensures i < n && j < m && Slot(i, j, m) == s
  {
    assert m > 0;
    i, j := s / m, s % m;
    if i >= n {
      MulMono(n, i, m);
      assert false;
    }
  }

  /** Distinct pairs have distinct slots. */
  lemma {:induction false} SlotUnique(i: nat, j: nat, i': nat, j': nat, m: nat)
    requires j < m && j' < m
    requires Slot(i, j, m) == Slot(i', j', m)
    ensures i == i' && j == j'
  {
    if i < i' {
      MulMono(i + 1, i', m);
      assert false;
    } else if i' < i {
      MulMono(i' + 1, i, m);
      assert false;
    }
  }

  lemma {:induction false} MulMono(a: nat, b: nat, m: nat)
    requires a <= b
    ensures a * m <= b * m
    decreases b - a
  {
    if a < b {
      MulMono(a + 1, b, m);
      assert (a + 1) * m == a * m + m;
    }
  }

  /** (i', j') comes before (i, j) in the order of the two loops. */
  predicate Before(i': int, j': int, i: int, j: int)
  {
    i' < i || (i' == i && j' < j)
  }

  /** `out` holds, at slot (i, j), the record for source `i` on host `j`. */
  predicate Covers(srcs: seq<App>, idx: Index, out: seq<App>)
    requires Valid(idx)
  {
    && |out| == |srcs| * |idx.hosts|
    && forall i, j :: 0 <= i < |srcs| && 0 <= j < |idx.hosts| ==>
         Slot(i, j, |idx.hosts|) < |out| && Decide(srcs[i], idx, idx.hosts[j]) == Success(out[Slot(i, j, |idx.hosts|)])
  }

  /** Every source goes through on every indexed host. */
  predicate AllPass(srcs: seq<App>, idx: Index)
    requires Valid(idx)
  {
    forall i, j :: 0 <= i < |srcs| && 0 <= j < |idx.hosts| ==> Decide(srcs[i], idx, idx.hosts[j]).Success?
  }

  /** Pair (i, j) is the first pair, in loop order, that clashes. */
  predicate FirstClash(srcs: seq<App>, idx: Index, i: int, j: int)
    requires Valid(idx)
  {
    && 0 <= i < |srcs| && 0 <= j < |idx.hosts|
    && Decide(srcs[i], idx, idx.hosts[j]).Failure?
    && forall i', j' :: 0 <= i' < |srcs| && 0 <= j' < |idx.hosts| && Before(i', j', i, j) ==>
         Decide(srcs[i'], idx, idx.hosts[j']).Success?
  }

  /** Appending the records of one more source keeps the slot layout. */
  lemma {:induction false} CoversStep(srcs: seq<App>, idx: Index, prev: seq<App>, row: seq<App>)
    requires Valid(idx) && |srcs| > 0
    requires Covers(srcs[..|srcs| - 1], idx, prev)
    requires |row| == |idx.hosts|
    requires forall j :: 0 <= j < |idx.hosts| ==> Decide(srcs[|srcs| - 1], idx, idx.hosts[j]) == Success(row[j])
    ensures Covers(srcs, idx, prev + row)
  {
    var n := |srcs|;
    var m := |idx.hosts|;
    var init := srcs[..n - 1];
    var r := prev + row;
    assert |r| == n * m by {
      assert (n - 1) * m + m == n * m;
    }
    forall i, j | 0 <= i < n && 0 <= j < m
      ensures Slot(i, j, m) < |r| && Decide(srcs[i], idx, idx.hosts[j]) == Success(r[Slot(i, j, m)])
    {
      SlotBounds(i, j, n, m);
      if i < n - 1 {
        SlotBounds(i, j, n - 1, m);
        assert init[i] == srcs[i];
      } else {
        assert Slot(i, j, m) == (n - 1) * m + j;
      }
    }
  }

  /** A first clash among the earlier sources stays the first clash. */
  lemma {:induction false} ClashInPrefix(srcs: seq<App>, idx: Index, i: int, j: int)
    requires Valid(idx) && |srcs| > 0
    requires FirstClash(srcs[..|srcs| - 1], idx, i, j)
    ensures FirstClash(srcs, idx, i, j) && srcs[i] == srcs[..|srcs| - 1][i]
  {
    var init := srcs[..|srcs| - 1];
    assert forall i' :: 0 <= i' < |init| ==> init[i'] == srcs[i'];
  }

  /** When every earlier source goes through, the first clash of the last
      source is the first clash overall. */
  lemma {:induction false} ClashInLast(srcs: seq<App>, idx: Index, j: int)
    requires Valid(idx) && |srcs| > 0
    requires AllPass(srcs[..|srcs| - 1], idx)
    requires FirstFailing(srcs[|srcs| - 1], idx.hosts, idx, j)
    ensures FirstClash(srcs, idx, |srcs| - 1, j)
  {
    var init := srcs[..|srcs| - 1];
    assert forall i' :: 0 <= i' < |init| ==> init[i'] == srcs[i'];
  }

  /** All pairs go through exactly when those of the earlier sources and
      those of the last source do. */
  lemma {:induction false} AllPassStep(srcs: seq<App>, idx: Index)
    requires Valid(idx) && |srcs| > 0
    ensures AllPass(srcs, idx) <==>
      AllPass(srcs[..|srcs| - 1], idx) && forall j :: 0 <= j < |idx.hosts| ==> Decide(srcs[|srcs| - 1], idx, idx.hosts[j]).Success?
  {
    var init := srcs[..|srcs| - 1];
    assert forall i' :: 0 <= i' < |init| ==> init[i'] == srcs[i'];
  }

  /** Lines 174-210: every source over every indexed host, sources outside,
      hosts inside. Either the flat list of all `|srcs| * |hosts|` records,
      or the clash of the first failing pair, and then nothing else. */
  function Prepare(srcs: seq<App>, idx: Index): (r: Result<seq<App>, Conflict>)
    requires Valid(idx)
    ensures r.Success? <==> AllPass(srcs, idx)
    ensures r.Success? ==> Covers(srcs, idx, r.value)
    ensures r.Failure? ==>
      exists i, j :: FirstClash(srcs, idx, i, j) && Decide(srcs[i], idx, idx.hosts[j]) == Failure(r.error)
  {
    if |srcs| == 0 then Success([])
    else
      var init := srcs[..|srcs| - 1];
      var src := srcs[|srcs| - 1];
      AllPassStep(srcs, idx);
      match Prepare(init, idx)
      case Failure(e) =>
        assert exists i, j :: FirstClash(srcs, idx, i, j) && Decide(srcs[i], idx, idx.hosts[j]) == Failure(e) by {
          var i, j :| FirstClash(init, idx, i, j) && Decide(init[i], idx, idx.hosts[j]) == Failure(e);
          ClashInPrefix(srcs, idx, i, j);
        }
        Failure(e)
      case Success(prev) =>
        match InheritToHosts(src, idx.hosts, idx)
        case Failure(e) =>
          assert exists i, j :: FirstClash(srcs, idx, i, j) && Decide(srcs[i], idx, idx.hosts[j]) == Failure(e) by {
            var j :| FirstFailing(src, idx.hosts, idx, j) && Decide(src, idx, idx.hosts[j]) == Failure(e);
            ClashInLast(srcs, idx, j);
          }
          Failure(e)
        case Success(row) =>
          CoversStep(srcs, idx, prev, row);
          Success(prev + row)
  }

  /** `k` is the newest application of host `h` named `n`. */
  ghost predicate NewestByName(db: Store, k: Id, h: Id, n: string)
  {
    StoredNamed(db, k, h, n) && forall k': Id :: StoredNamed(db, k', h, n) ==> k' <= k
  }

  /** `k` is the newest application of host `h` with templateid `t`. */
  ghost predicate NewestByTemplateId(db: Store, k: Id, h: Id, t: Option<Id>)
  {
    StoredWithTemplate(db, k, h, t) && forall k': Id :: StoredWithTemplate(db, k', h, t) ==> k' <= k
  }

  /** Source `src` clashes on host `h`: the newest application of `h` with
      the source's name was inherited from another template application. */
  ghost predicate StoreClash(db: Store, src: App, h: Id)
  {
    exists k: Id :: NewestByName(db, k, h, src.name) && Foreign(db.apps[k].templateid, src.applicationid)
  }

  /** Lines 181-205 against the store: the decision for `src` on a requested
      host `h`. It fails exactly when the newest application of `h` with the
      source's name was inherited from another template application, and
      then reports that name and host. Otherwise the copy updates the newest
      application of `h` with the source's name, or failing that the newest
      one derived from the source, and is created when there is neither. */
  lemma {:induction false} DecideAgainstStore(src: App, hostIds: seq<Id>, db: Store, h: Id)
    requires WellFormed(db)
    requires h in hostIds
    ensures h in BuildIndex(hostIds, db).apps
    ensures var r := Decide(src, BuildIndex(hostIds, db), h);
      && (r.Failure? <==> StoreClash(db, src, h))
      && (r.Failure? ==> r.error == AlreadyExists(src.name, h))
      && (r.Success? ==>
            && (r.value.applicationid.None? <==>
                  (forall k: Id :: !StoredNamed(db, k, h, src.name)) && (forall k: Id :: !StoredWithTemplate(db, k, h, src.applicationid)))
            && (forall k: Id :: NewestByName(db, k, h, src.name) ==> r.value.applicationid == Some(k))
            && ((forall k: Id :: !StoredNamed(db, k, h, src.name)) ==>
                  forall k: Id :: NewestByTemplateId(db, k, h, src.applicationid) ==> r.value.applicationid == Some(k)))
  {
    var idx := BuildIndex(hostIds, db);
    IndexByName(hostIds, db, h, src.name);
    IndexByTemplateId(hostIds, db, h, src.applicationid);
    var ha := idx.apps[h];
    var byName := NameLookup(idx, h, src.name);
    var byTemplate := TemplateLookup(idx, h, src.applicationid);
    if byName.Some? {
      var k := byName.value.applicationid.value;
      assert NewestByName(db, k, h, src.name);
      forall k': Id | NewestByName(db, k', h, src.name)
        ensures k' == k
      {
      }
    }
    if byName.None? && byTemplate.Some? {
      var k := byTemplate.value.applicationid.value;
      assert NewestByTemplateId(db, k, h, src.applicationid);
      forall k': Id | NewestByTemplateId(db, k', h, src.applicationid)
        ensures k' == k
      {
      }
    }
  }

  /** Lines 181-204 against the store: a copy that reuses an id reuses that of
      an application stored on the target host, so `save` updates a row that
      exists. */
  lemma {:induction false} UpdateOnHost(src: App, hostIds: seq<Id>, db: Store, h: Id)
    requires WellFormed(db)
    requires h in hostIds
    ensures h in BuildIndex(hostIds, db).apps
    ensures var r := Decide(src, BuildIndex(hostIds, db), h);
      r.Success? && r.value.applicationid.Some? ==>
        r.value.applicationid.value in db.apps && db.apps[r.value.applicationid.value].hostid == h
  {
    IndexByName(hostIds, db, h, src.name);
    IndexByTemplateId(hostIds, db, h, src.applicationid);
  }

  /** Lines 174-210 against the store: preparing fails exactly when some
      source clashes on some requested host, and the reported conflict names
      such a source and host. */
  lemma {:induction false} PrepareAgainstStore(srcs: seq<App>, hostIds: seq<Id>, db: Store)
    requires WellFormed(db)
    ensures var r := Prepare(srcs, BuildIndex(hostIds, db));
      && (r.Failure? <==> exists i, h :: 0 <= i < |srcs| && h in hostIds && StoreClash(db, srcs[i], h))
      && (r.Failure? ==>
            exists i :: 0 <= i < |srcs| && r.error == AlreadyExists(srcs[i].name, r.error.hostid)
              && r.error.hostid in hostIds && StoreClash(db, srcs[i], r.error.hostid))
  {
    var idx := BuildIndex(hostIds, db);
    var r := Prepare(srcs, idx);
    if r.Failure? {
      var i, j :| FirstClash(srcs, idx, i, j) && Decide(srcs[i], idx, idx.hosts[j]) == Failure(r.error);
      DecideAgainstStore(srcs[i], hostIds, db, idx.hosts[j]);
    }
    if i, h :| 0 <= i < |srcs| && h in hostIds && StoreClash(db, srcs[i], h) {
      DecideAgainstStore(srcs[i], hostIds, db, h);
      var j :| 0 <= j < |idx.hosts| && idx.hosts[j] == h;
      assert !AllPass(srcs, idx);
    }
  }
}
