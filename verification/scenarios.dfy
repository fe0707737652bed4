/** Worked scenarios of `link` on small stores. In the first two, template
    10 owns the application "cpu" (id 1) and host 20 is linked to it; the
    later ones add a host linked to host 20. */
module Scenarios {
  import opened Types
  import Query
  import opened HostIndex
  import opened Reconcile
  import opened Persist
  import opened Inheritance

  const Cpu := App(Some(1), "cpu", 10, None)
  const CpuCopy := App(Some(2), "cpu", 20, Some(1))

  /** Before linking: the template's application only. */
  function Unlinked(): Store
  {
    Store(map[1 := Row("cpu", 10, None)], [HostTemplate(20, 10)], 2)
  }

  /** After linking: the host holds a copy pointing back at the template's. */
  function Linked(): Store
  {
    Store(map[1 := Row("cpu", 10, None), 2 := Row("cpu", 20, Some(1))], [HostTemplate(20, 10)], 3)
  }

  lemma SelectTemplateUnlinked()
    ensures Query.SelectByHosts(Unlinked(), [10]) == [Cpu]
  {
    assert Query.HostSet([10]) == {10};
    var b := Unlinked().apps;
    assert Query.AppsOnHosts(b, {10}, 1) == [];
    assert Query.AppsOnHosts(b, {10}, 2) == [Fetch(1, b[1])];
  }

  lemma SelectHostUnlinked()
    ensures Query.SelectByHosts(Unlinked(), [20]) == []
  {
    assert Query.HostSet([20]) == {20};
    var b := Unlinked().apps;
    assert Query.AppsOnHosts(b, {20}, 1) == [];
    assert b[1].hostid !in {20};
  }

  lemma SelectTemplateLinked()
    ensures Query.SelectByHosts(Linked(), [10]) == [Cpu]
  {
    assert Query.HostSet([10]) == {10};
    var a := Linked().apps;
    assert Query.AppsOnHosts(a, {10}, 1) == [];
    assert Query.AppsOnHosts(a, {10}, 2) == [Fetch(1, a[1])];
    assert a[2].hostid !in {10};
  }

  lemma SelectHostLinked()
    ensures Query.SelectByHosts(Linked(), [20]) == [CpuCopy]
  {
    assert Query.HostSet([20]) == {20};
    var a := Linked().apps;
    assert Query.AppsOnHosts(a, {20}, 1) == [];
    assert a[1].hostid !in {20};
    assert Query.AppsOnHosts(a, {20}, 2) == [];
    assert Query.AppsOnHosts(a, {20}, 3) == [Fetch(2, a[2])];
  }

  lemma SelectTemplate()
    ensures Query.SelectByHosts(Unlinked(), [10]) == [Cpu]
    ensures Query.SelectByHosts(Linked(), [10]) == [Cpu]
    ensures Query.SelectByHosts(Unlinked(), [20]) == []
    ensures Query.SelectByHosts(Linked(), [20]) == [CpuCopy]
  {
    SelectTemplateUnlinked();
    SelectHostUnlinked();
    SelectTemplateLinked();
    SelectHostLinked();
  }

  lemma ChildrenOfTemplate()
    ensures Targets(Unlinked(), [Cpu], []) == [20]
    ensures Targets(Linked(), [Cpu], []) == [20]
    ensures Targets(Linked(), [CpuCopy], []) == []
  {
    assert [Cpu][0].hostid == 10;
    assert [CpuCopy][0].hostid == 20;
    assert forall h :: h in Query.OwnerHosts([Cpu]) <==> h == 10;
    assert forall h :: h in Query.OwnerHosts([CpuCopy]) <==> h == 20;
    var links := [HostTemplate(20, 10)];
    assert links[..0] == [];
    assert Query.LinkedHosts(links, {10}) == [20];
    assert Query.LinkedHosts(links, {20}) == [];
  }

  /** One source on one host gives that one decision. */
  lemma PrepareSingle(src: App, idx: Index, h: Id, rec: App)
    requires Valid(idx) && idx.hosts == [h]
    requires Decide(src, idx, h) == Success(rec)
    ensures Prepare([src], idx) == Success([rec])
  {
    var r := InheritToHosts(src, [h], idx);
    assert [h][0] == h;
    assert r.Success? && |r.value| == 1 && r.value[0] == rec;
    assert r.value == [rec];
    assert [src][..0] == [];
  }

  lemma IndexFirstLink()
    ensures BuildIndex([20], Unlinked()) == Index([20], map[20 := NoApps])
  {
    SelectTemplate();
    assert Dedup([20]) == [20];
  }

  lemma PrepareFirstLink()
    ensures Prepare([Cpu], BuildIndex([20], Unlinked())) == Success([CpuCopy.(applicationid := None)])
  {
    IndexFirstLink();
    var idx := BuildIndex([20], Unlinked());
    assert !Clashes(Cpu, NoApps) && Existing(Cpu, NoApps) == None;
    PrepareSingle(Cpu, idx, 20, CpuCopy.(applicationid := None));
  }

  lemma PartitionFirstLink()
    ensures Partition([CpuCopy.(applicationid := None)]) == Groups([CpuCopy.(applicationid := None)], [])
  {
    assert [CpuCopy.(applicationid := None)][..0] == [];
  }

  lemma CreateFirstLink()
    ensures Create(Unlinked(), [CpuCopy.(applicationid := None)]) == (Linked(), [CpuCopy])
  {
    var copy := CpuCopy.(applicationid := None);
    assert [copy][..0] == [];
    assert Create(Unlinked(), [copy][..0]) == (Unlinked(), []);
    assert Unlinked().apps[2 := RowOf(copy)] == Linked().apps;
    var c := Create(Unlinked(), [copy]);
    assert c.0.nextId == 3 && c.0.links == Linked().links && c.0.apps == Linked().apps;
    assert c.1 == [CpuCopy];
  }

  lemma SaveFirstLinkOut()
    ensures Save(Unlinked(), [CpuCopy.(applicationid := None)]).1 == [CpuCopy]
  {
    PartitionFirstLink();
    var out := Save(Unlinked(), [CpuCopy.(applicationid := None)]).1;
    assert |out| == 1 && out[0] == CpuCopy;
  }

  lemma SaveFirstLink()
    ensures Save(Unlinked(), [CpuCopy.(applicationid := None)]) == (Linked(), [CpuCopy])
  {
    PartitionFirstLink();
    CreateFirstLink();
    SaveFirstLinkOut();
  }

  lemma LevelFirstLink()
    ensures Level(Unlinked(), [Cpu], [20]) == Success((Linked(), [CpuCopy]))
  {
    PrepareFirstLink();
    SaveFirstLink();
  }

  /** Linking host 20 to template 10 creates application 2 on the host,
      derived from application 1, and stops there: no host is linked to
      host 20. */
  lemma FirstLink()
    ensures Link(Unlinked(), 10, [], 3) == (Linked(), Done)
  {
    SelectTemplate();
    ChildrenOfTemplate();
    LevelFirstLink();
    assert Inherit(Linked(), [CpuCopy], [], 2) == (Linked(), Done);
    assert Inherit(Unlinked(), [Cpu], [], 3) == (Linked(), Done);
  }

  /** On the second link the host's index holds the copy under its name and
      under the template application it derives from. */
  lemma IndexRelink()
    ensures BuildIndex([20], Linked()) == Index([20], map[20 := HostApps(map["cpu" := CpuCopy], map[Some(1) := CpuCopy])])
  {
    SelectTemplate();
    assert Dedup([20]) == [20];
    assert [CpuCopy][..0] == [];
  }

  /** On the second link the copy is found by name and updated in place. */
  lemma PrepareRelink()
    ensures Prepare([Cpu], BuildIndex([20], Linked())) == Success([CpuCopy])
  {
    IndexRelink();
    DecideRelink();
    PrepareSingle(Cpu, BuildIndex([20], Linked()), 20, CpuCopy);
  }

  lemma DecideRelink()
    ensures InheritOne(Cpu, 20, HostApps(map["cpu" := CpuCopy], map[Some(1) := CpuCopy])) == Success(CpuCopy)
  {
    var ha := HostApps(map["cpu" := CpuCopy], map[Some(1) := CpuCopy]);
    assert "cpu" in ha.byName && ha.byName["cpu"] == CpuCopy;
    assert !Foreign(Some(1), Some(1));
  }

  lemma UpdateRelink()
    ensures Update(Linked(), [CpuCopy]) == Linked()
  {
    assert [CpuCopy][..0] == [];
    assert Update(Linked(), [CpuCopy][..0]) == Linked();
    assert Linked().apps[2 := RowOf(CpuCopy)] == Linked().apps;
  }

  lemma PartitionRelink()
    ensures Partition([CpuCopy]) == Groups([], [CpuCopy])
  {
    assert [CpuCopy][..0] == [];
  }

  lemma SaveRelinkStore()
    ensures Save(Linked(), [CpuCopy]).0 == Linked()
  {
    PartitionRelink();
    UpdateRelink();
  }

  lemma SaveRelinkOut()
    ensures Save(Linked(), [CpuCopy]).1 == [CpuCopy]
  {
    PartitionRelink();
    var out := Save(Linked(), [CpuCopy]).1;
    assert |out| == 1 && out[0] == CpuCopy;
  }

  lemma SaveRelink()
    ensures Save(Linked(), [CpuCopy]) == (Linked(), [CpuCopy])
  {
    SaveRelinkStore();
    SaveRelinkOut();
  }

  lemma LevelRelink()
    ensures Level(Linked(), [Cpu], [20]) == Success((Linked(), [CpuCopy]))
  {
    PrepareRelink();
    SaveRelink();
  }

  /** Linking again changes nothing: the existing copy is rewritten with the
      same columns and no second copy appears. */
  lemma Relink()
    ensures Link(Linked(), 10, [], 3) == (Linked(), Done)
  {
    SelectTemplate();
    ChildrenOfTemplate();
    LevelRelink();
    assert Inherit(Linked(), [CpuCopy], [], 2) == (Linked(), Done);
    assert Inherit(Linked(), [Cpu], [], 3) == (Linked(), Done);
  }

  // A two-level run (lines 137-140) in which the write-back of lines 264-266
  // hands the next level a wrong id. Template 10 owns "cpu" (1) and "mem" (4);
  // host 20 is linked to it and already holds the copy of "cpu" (2); host 22
  // is linked to host 20 and holds the copy of that copy (3).

  const Mem := App(Some(4), "mem", 10, None)
  const MemCopy := App(None, "mem", 20, Some(4))
  const CpuDeep := App(Some(3), "cpu", 22, Some(2))
  /** The copy of "cpu" on host 20 as `save` returns it: with the id of the
      new copy of "mem". */
  const Misplaced := App(Some(5), "cpu", 20, Some(1))

  function Nested(): Store
  {
    Store(map[1 := Row("cpu", 10, None), 2 := Row("cpu", 20, Some(1)), 3 := Row("cpu", 22, Some(2)), 4 := Row("mem", 10, None)],
          [HostTemplate(20, 10), HostTemplate(22, 20)], 5)
  }

  /** After the first level: the copy of "mem" on host 20 is row 5. */
  function NestedSaved(): Store
  {
    Store(Nested().apps[5 := Row("mem", 20, Some(4))], Nested().links, 6)
  }

  lemma SelectNestedTemplate()
    ensures Query.SelectByHosts(Nested(), [10]) == [Cpu, Mem]
  {
    assert Query.HostSet([10]) == {10};
    var a := Nested().apps;
    assert Query.AppsOnHosts(a, {10}, 1) == [];
    assert Query.AppsOnHosts(a, {10}, 2) == [Cpu];
    assert a[2].hostid !in {10} && a[3].hostid !in {10};
    assert Query.AppsOnHosts(a, {10}, 4) == [Cpu];
    assert Query.AppsOnHosts(a, {10}, 5) == [Cpu, Mem];
  }

  lemma SelectNestedHost()
    ensures Query.SelectByHosts(Nested(), [20]) == [CpuCopy]
  {
    assert Query.HostSet([20]) == {20};
    var a := Nested().apps;
    assert Query.AppsOnHosts(a, {20}, 2) == [];
    assert Query.AppsOnHosts(a, {20}, 3) == [CpuCopy];
    assert a[3].hostid !in {20} && a[4].hostid !in {20};
    assert Query.AppsOnHosts(a, {20}, 5) == [CpuCopy];
  }

  lemma SelectNestedDeep()
    ensures Query.SelectByHosts(NestedSaved(), [22]) == [CpuDeep]
  {
    assert Query.HostSet([22]) == {22};
    var a := NestedSaved().apps;
    assert Query.AppsOnHosts(a, {22}, 3) == [];
    assert Query.AppsOnHosts(a, {22}, 4) == [CpuDeep];
    assert a[4].hostid !in {22} && a[5].hostid !in {22};
    assert Query.AppsOnHosts(a, {22}, 6) == [CpuDeep];
  }

  lemma OwnersNested()
    ensures Query.OwnerHosts([Cpu, Mem]) == {10}
    ensures Query.OwnerHosts([Misplaced, MemCopy]) == {20}
  {
    assert [Cpu, Mem][0].hostid == 10 && [Cpu, Mem][1].hostid == 10;
    assert [Misplaced, MemCopy][0].hostid == 20 && [Misplaced, MemCopy][1].hostid == 20;
  }

  lemma LinkedNested()
    ensures Query.LinkedHosts(Nested().links, {10}) == [20]
    ensures Query.LinkedHosts(Nested().links, {20}) == [22]
  {
    var links := Nested().links;
    assert links[..1] == [HostTemplate(20, 10)] && links[..1][..0] == [];
    assert Query.LinkedHosts(links[..1], {10}) == [20];
    assert Query.LinkedHosts(links[..1], {20}) == [];
  }

  lemma ChildrenNested()
    ensures Targets(Nested(), [Cpu, Mem], []) == [20]
    ensures Targets(NestedSaved(), [Misplaced, MemCopy], []) == [22]
  {
    OwnersNested();
    LinkedNested();
  }

  /** Two sources over one host give their two decisions. */
  lemma PrepareTwo(a: App, b: App, idx: Index, h: Id, ra: App, rb: App)
    requires Valid(idx) && idx.hosts == [h]
    requires Decide(a, idx, h) == Success(ra) && Decide(b, idx, h) == Success(rb)
    ensures Prepare([a, b], idx) == Success([ra, rb])
  {
    PrepareSingle(a, idx, h, ra);
    var r := InheritToHosts(b, [h], idx);
    assert [h][0] == h;
    assert r.Success? && |r.value| == 1 && r.value[0] == rb;
    assert r.value == [rb];
    assert [a, b][..1] == [a] && [a, b][1] == b;
    assert [ra] + [rb] == [ra, rb];
  }

  /** A failing first source fails two sources over one host. */
  lemma PrepareFailsFirst(a: App, b: App, idx: Index, h: Id, e: Conflict)
    requires Valid(idx) && idx.hosts == [h]
    requires Decide(a, idx, h) == Failure(e)
    ensures Prepare([a, b], idx) == Failure(e)
  {
    assert [h][0] == h;
    assert InheritToHosts(a, [h], idx) == Failure(e);
    assert [a][..0] == [];
    assert Prepare([a], idx) == Failure(e);
    assert [a, b][..1] == [a];
  }

  lemma IndexNested()
    ensures BuildIndex([20], Nested()) == Index([20], map[20 := HostApps(map["cpu" := CpuCopy], map[Some(1) := CpuCopy])])
  {
    SelectNestedHost();
    assert Dedup([20]) == [20];
    assert [CpuCopy][..0] == [];
  }

  lemma DecideNewMem()
    ensures InheritOne(Mem, 20, HostApps(map["cpu" := CpuCopy], map[Some(1) := CpuCopy])) == Success(MemCopy)
  {
    var ha := HostApps(map["cpu" := CpuCopy], map[Some(1) := CpuCopy]);
    assert "mem" !in ha.byName && Some(4) !in ha.byTemplateId;
  }

  /** The first level updates the copy of "cpu" and creates one of "mem". */
  lemma PrepareNested()
    ensures Prepare([Cpu, Mem], BuildIndex([20], Nested())) == Success([CpuCopy, MemCopy])
  {
    IndexNested();
    var idx := Index([20], map[20 := HostApps(map["cpu" := CpuCopy], map[Some(1) := CpuCopy])]);
    DecideRelink();
    DecideNewMem();
    PrepareTwo(Cpu, Mem, idx, 20, CpuCopy, MemCopy);
  }

  lemma PartitionNested()
    ensures Partition([CpuCopy, MemCopy]) == Groups([MemCopy], [CpuCopy])
  {
    assert [CpuCopy, MemCopy][..1] == [CpuCopy];
    assert [CpuCopy][..0] == [];
  }

  lemma CreateNested()
    ensures Create(Nested(), [MemCopy]) == (NestedSaved(), [MemCopy.(applicationid := Some(5))])
  {
    assert [MemCopy][..0] == [];
    assert Create(Nested(), [MemCopy][..0]) == (Nested(), []);
    assert Nested().apps[5 := RowOf(MemCopy)] == NestedSaved().apps;
    var c := Create(Nested(), [MemCopy]);
    assert c.0.nextId == 6 && c.0.links == NestedSaved().links && c.0.apps == NestedSaved().apps;
    assert c.1 == [MemCopy.(applicationid := Some(5))];
  }

  lemma UpdateNested()
    ensures Update(NestedSaved(), [CpuCopy]) == NestedSaved()
  {
    assert [CpuCopy][..0] == [];
    assert Update(NestedSaved(), [CpuCopy][..0]) == NestedSaved();
    assert NestedSaved().apps[2 := RowOf(CpuCopy)] == NestedSaved().apps;
  }

  /** An update followed by a create: the update takes the create's id and
      the create comes back without one. */
  lemma SaveUpdateThenCreate(db: Store, a: App, b: App)
    requires a.applicationid.Some? && b.applicationid.None?
    ensures Save(db, [a, b]).1 == [a.(applicationid := Some(db.nextId)), b]
  {
    PartitionUpdateThenCreate(a, b);
    var out := Save(db, [a, b]).1;
    assert out[0] == [a, b][0].(applicationid := Some(db.nextId + 0));
    assert out[1] == [a, b][1];
  }

  lemma PartitionUpdateThenCreate(a: App, b: App)
    requires a.applicationid.Some? && b.applicationid.None?
    ensures Partition([a, b]) == Groups([b], [a])
  {
    assert [a, b][..1] == [a] && [a][..0] == [];
    assert Partition([a]) == Groups([], [a]);
  }

  lemma SaveNestedOut()
    ensures Save(Nested(), [CpuCopy, MemCopy]).1 == [Misplaced, MemCopy]
  {
    SaveUpdateThenCreate(Nested(), CpuCopy, MemCopy);
  }

  /** `save` creates row 5 for "mem" but writes its id onto the record of
      "cpu", and returns the record of "mem" without an id. */
  lemma SaveNested()
    ensures Save(Nested(), [CpuCopy, MemCopy]) == (NestedSaved(), [Misplaced, MemCopy])
  {
    PartitionNested();
    CreateNested();
    UpdateNested();
    SaveNestedOut();
  }

  lemma LevelNested()
    ensures Level(Nested(), [Cpu, Mem], [20]) == Success((NestedSaved(), [Misplaced, MemCopy]))
  {
    PrepareNested();
    SaveNested();
  }

  lemma IndexDeep()
    ensures BuildIndex([22], NestedSaved()) == Index([22], map[22 := HostApps(map["cpu" := CpuDeep], map[Some(2) := CpuDeep])])
  {
    SelectNestedDeep();
    assert Dedup([22]) == [22];
    assert [CpuDeep][..0] == [];
  }

  lemma DecideMisplaced()
    ensures InheritOne(Misplaced, 22, HostApps(map["cpu" := CpuDeep], map[Some(2) := CpuDeep])) == Failure(AlreadyExists("cpu", 22))
  {
    var ha := HostApps(map["cpu" := CpuDeep], map[Some(2) := CpuDeep]);
    assert "cpu" in ha.byName && ha.byName["cpu"] == CpuDeep;
    assert Foreign(Some(2), Some(5));
  }

  /** On host 22 the misplaced id makes copy 3, derived from copy 2, look
      inherited from another application. */
  lemma ClashDeep()
    ensures Level(NestedSaved(), [Misplaced, MemCopy], [22]) == Failure(AlreadyExists("cpu", 22))
  {
    IndexDeep();
    var idx := Index([22], map[22 := HostApps(map["cpu" := CpuDeep], map[Some(2) := CpuDeep])]);
    DecideMisplaced();
    PrepareFailsFirst(Misplaced, MemCopy, idx, 22, AlreadyExists("cpu", 22));
  }

  /** Relinking template 10 to host 20 fails one level down with a false
      "already exists" on host 22, after the first level was saved. */
  lemma MisplacedIdConflict()
    ensures Link(Nested(), 10, [], 3) == (NestedSaved(), Failed(AlreadyExists("cpu", 22)))
  {
    SelectNestedTemplate();
    ChildrenNested();
    LevelNested();
    ClashDeep();
    assert Inherit(NestedSaved(), [Misplaced, MemCopy], [], 2) == (NestedSaved(), Failed(AlreadyExists("cpu", 22)));
  }

  lemma DecideOwnIds()
    ensures InheritOne(CpuCopy, 22, HostApps(map["cpu" := CpuDeep], map[Some(2) := CpuDeep])) == Success(CpuDeep)
    ensures InheritOne(MemCopy.(applicationid := Some(5)), 22, HostApps(map["cpu" := CpuDeep], map[Some(2) := CpuDeep]))
      == Success(App(None, "mem", 22, Some(5)))
  {
    var ha := HostApps(map["cpu" := CpuDeep], map[Some(2) := CpuDeep]);
    assert "cpu" in ha.byName && ha.byName["cpu"] == CpuDeep;
    assert !Foreign(Some(2), Some(2));
    assert "mem" !in ha.byName && Some(5) !in ha.byTemplateId;
  }

  /** Had each record kept its own id, host 22 would take both copies: copy 3
      is updated and "mem" is created. */
  lemma OwnIdsPass()
    ensures Prepare([CpuCopy, MemCopy.(applicationid := Some(5))], BuildIndex([22], NestedSaved()))
      == Success([CpuDeep, App(None, "mem", 22, Some(5))])
  {
    IndexDeep();
    var idx := Index([22], map[22 := HostApps(map["cpu" := CpuDeep], map[Some(2) := CpuDeep])]);
    DecideOwnIds();
    PrepareTwo(CpuCopy, MemCopy.(applicationid := Some(5)), idx, 22, CpuDeep, App(None, "mem", 22, Some(5)));
  }

  // A successful two-level run: template 10 owns "cpu" (1), host 20 is
  // linked to it and host 22 to host 20; neither holds a copy yet.

  function Chain(): Store
  {
    Store(map[1 := Row("cpu", 10, None)], [HostTemplate(20, 10), HostTemplate(22, 20)], 2)
  }

  /** After the first level: the copy on host 20. */
  function ChainHalf(): Store
  {
    Store(Chain().apps[2 := Row("cpu", 20, Some(1))], Chain().links, 3)
  }

  /** After the second level: the copy of that copy on host 22. */
  function ChainDone(): Store
  {
    Store(ChainHalf().apps[3 := Row("cpu", 22, Some(2))], Chain().links, 4)
  }

  lemma SelectChain()
    ensures Query.SelectByHosts(Chain(), [10]) == [Cpu]
    ensures Query.SelectByHosts(Chain(), [20]) == []
    ensures Query.SelectByHosts(ChainHalf(), [22]) == []
  {
    assert Query.HostSet([10]) == {10} && Query.HostSet([20]) == {20} && Query.HostSet([22]) == {22};
    var a := Chain().apps;
    assert Query.AppsOnHosts(a, {10}, 1) == [] && Query.AppsOnHosts(a, {20}, 1) == [];
    assert Query.AppsOnHosts(a, {10}, 2) == [Cpu];
    assert a[1].hostid !in {20};
    var b := ChainHalf().apps;
    assert Query.AppsOnHosts(b, {22}, 1) == [];
    assert b[1].hostid !in {22} && b[2].hostid !in {22};
    assert Query.AppsOnHosts(b, {22}, 3) == [];
  }

  lemma ChildrenChain()
    ensures Targets(Chain(), [Cpu], []) == [20]
    ensures Targets(ChainHalf(), [CpuCopy], []) == [22]
    ensures Targets(ChainDone(), [CpuDeep], []) == []
  {
    assert [Cpu][0].hostid == 10 && [CpuCopy][0].hostid == 20 && [CpuDeep][0].hostid == 22;
    assert Query.OwnerHosts([Cpu]) == {10};
    assert Query.OwnerHosts([CpuCopy]) == {20};
    assert Query.OwnerHosts([CpuDeep]) == {22};
    LinkedNested();
    var links := Chain().links;
    assert links == Nested().links;
    assert links[..1] == [HostTemplate(20, 10)] && links[..1][..0] == [];
    assert Query.LinkedHosts(links, {22}) == [];
  }

  /** A source over one host without applications is created there. */
  lemma PrepareBare(src: App, h: Id)
    ensures Prepare([src], Index([h], map[h := NoApps])) == Success([App(None, src.name, h, src.applicationid)])
  {
    assert !Clashes(src, NoApps) && Existing(src, NoApps) == None;
    PrepareSingle(src, Index([h], map[h := NoApps]), h, App(None, src.name, h, src.applicationid));
  }

  /** Creating one record stores it under the next id. */
  lemma CreateOneNew(db: Store, rec: App)
    ensures Create(db, [rec]) ==
      (db.(apps := db.apps[db.nextId := RowOf(rec)], nextId := db.nextId + 1), [rec.(applicationid := Some(db.nextId))])
  {
    assert [rec][..0] == [];
    assert Create(db, [rec][..0]) == (db, []);
    var r := rec.(applicationid := Some(db.nextId));
    assert [] + [r] == [r];
  }

  lemma PartitionOneNew(rec: App)
    requires rec.applicationid.None?
    ensures Partition([rec]) == Groups([rec], [])
  {
    assert [rec][..0] == [];
  }

  lemma WriteBackOne(rec: App, created: App)
    ensures WriteBack([rec], [created]) == [rec.(applicationid := created.applicationid)]
  {
    var out := WriteBack([rec], [created]);
    assert out[0] == rec.(applicationid := created.applicationid);
  }

  /** Saving one record without an id creates it under the next id. */
  lemma SaveOneNew(db: Store, rec: App)
    requires rec.applicationid.None?
    ensures Save(db, [rec]) ==
      (db.(apps := db.apps[db.nextId := RowOf(rec)], nextId := db.nextId + 1), [rec.(applicationid := Some(db.nextId))])
  {
    PartitionOneNew(rec);
    CreateOneNew(db, rec);
    WriteBackOne(rec, rec.(applicationid := Some(db.nextId)));
    assert rec.(applicationid := Some(db.nextId)).(applicationid := Some(db.nextId)) == rec.(applicationid := Some(db.nextId));
  }

  lemma LevelChainFirst()
    ensures Level(Chain(), [Cpu], [20]) == Success((ChainHalf(), [CpuCopy]))
  {
    SelectChain();
    assert Dedup([20]) == [20];
    assert BuildIndex([20], Chain()) == Index([20], map[20 := NoApps]);
    PrepareBare(Cpu, 20);
    SaveOneNew(Chain(), App(None, "cpu", 20, Some(1)));
    assert Chain().apps[2 := Row("cpu", 20, Some(1))] == ChainHalf().apps;
  }

  lemma LevelChainSecond()
    ensures Level(ChainHalf(), [CpuCopy], [22]) == Success((ChainDone(), [CpuDeep]))
  {
    SelectChain();
    assert Dedup([22]) == [22];
    assert BuildIndex([22], ChainHalf()) == Index([22], map[22 := NoApps]);
    PrepareBare(CpuCopy, 22);
    SaveOneNew(ChainHalf(), App(None, "cpu", 22, Some(2)));
    assert ChainHalf().apps[3 := Row("cpu", 22, Some(2))] == ChainDone().apps;
  }

  /** Lines 137-140 twice: linking host 20 to template 10 copies "cpu" onto
      host 20, then, since host 22 is linked to host 20, copies that copy
      onto host 22, pointing at the copy on host 20; host 22 has no linked
      hosts, so the propagation stops. */
  lemma TwoLevelLink()
    ensures Link(Chain(), 10, [], 3) == (ChainDone(), Done)
  {
    SelectChain();
    ChildrenChain();
    LevelChainFirst();
    LevelChainSecond();
    assert Inherit(ChainDone(), [CpuDeep], [], 1) == (ChainDone(), Done);
    assert Inherit(ChainHalf(), [CpuCopy], [], 2) == (ChainDone(), Done);
  }
}
