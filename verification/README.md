# Application inheritance from templates to hosts

This project models the core of Zabbix's `ApplicationsManager`. That core
inherits *applications* (named groups of items) from a template to the hosts
linked to it, then to hosts linked to those hosts, and so on down the
template tree. The model states the manager's promises as Dafny contracts
and lemmas.

The database is a `Store`. It holds three things:

- the `applications` table, as a map from `applicationid` to its row
  (`name`, `hostid`, `templateid`, where SQL NULL is `None`);
- the `hosts_templates` link rows;
- the next id the id generator hands out.

One propagation step (`inherit`) runs four operations:

1. `getChildHostsFroApplications` finds the target hosts when none are given.
2. `getApplicationMapsByHosts` indexes the targets' existing applications
   by name and by `templateid`. A later row replaces an earlier one with
   the same key.
3. `prepareInheritedApps` decides, for every source application and every
   target host, whether to update an existing application or create a new
   one:
   - a match by name overrides a match by `templateid`;
   - an update keeps the id of the matched application;
   - a create has no id;
   - a name match that was itself inherited from another template
     application aborts the whole batch.
4. `save` creates the records without an id and updates the others. It
   then returns the records for the next level.

`save` writes the fresh ids back by their position in the *create group*,
not by the position of the records they belong to (lines 264-266). The
model does the same. Two things follow, both exactly when a record to
update comes before a record to create:

- Ids are lost. `Persist.SaveLosesIds` proves that some returned record
  then has no id. A record that lost its id goes into the next level with
  `applicationid` unset. That level matches it by `templateid` against
  applications authored directly on a host, because PHP files a NULL
  `templateid` and a missing id under the same array key. The model's
  `Option` keys reproduce this.
- Ids are misplaced. `Persist.SaveMisplacesIds` proves that some record to
  update then comes back with the fresh id of another record's new row.
  At the next level the copies derived from it no longer match that id,
  so a relink can fail one level down with a false "already exists".
  `Scenarios.MisplacedIdConflict` shows this on a three-level tree, and
  `Scenarios.OwnIdsPass` shows that the same level goes through when each
  record keeps its own id.

`Persist.SaveCreatesFirst` proves that when the creates come first, every
returned record carries the right id.

Modules, one per file:

- `Types` (types.dfy) is the shared vocabulary.
- `Query` (query.dfy) holds the SELECTs. Applications come back in
  ascending id order and link rows in table order.
- `HostIndex` (index.dfy) is `getApplicationMapsByHosts`.
- `Reconcile` (reconcile.dfy) is `prepareInheritedApps`.
- `Persist` (persist.dfy) is `create`, `update` and `save`.
- `Inheritance` (inherit.dfy) is `inherit` and `link`.
- `Scenarios` (scenarios.dfy) holds worked `link` runs on small stores.

## Model

| member | source | states |
|---|---|---|
| Query.AppsOnHosts | frontends/php/api/classes/ApplicationsManager.php:234-237 | every fetched record is a stored row of a requested host, returned with its id, and no row comes twice (ids strictly ascending) |
| Query.AppsOnHostsComplete | frontends/php/api/classes/ApplicationsManager.php:234-240 | every stored row of a requested host is among the fetched records |
| Query.SelectByHostsExact | frontends/php/api/classes/ApplicationsManager.php:234-240 | the SELECT returns exactly the stored rows of the requested hosts, each with its stored id and columns |
| Query.LinkedHosts | frontends/php/api/classes/ApplicationsManager.php:153-159 | a host is returned exactly when some link row attaches it to one of the templates; never more hosts than link rows |
| Query.ChildHosts | frontends/php/api/classes/ApplicationsManager.php:152-162 | a host is a child exactly when a link row attaches it to the host of one of the applications |
| HostIndex.Dedup | frontends/php/api/classes/ApplicationsManager.php:230-232 | the iteration order of the index holds each requested host once and nothing else |
| HostIndex.DedupOrder | frontends/php/api/classes/ApplicationsManager.php:230-232 | the index iterates over the hosts in order of their first request: a host listed before another was requested before the other's first request |
| HostIndex.BuildIndex | frontends/php/api/classes/ApplicationsManager.php:228-243 | every requested host, and only those, is a key of the index; the iteration order is that of the deduplicated request, without repetition |
| HostIndex.AddAllByName | frontends/php/api/classes/ApplicationsManager.php:237-240 | after filing a batch of rows, a name holds the last row of the batch with that name, or what it held before when there is none |
| HostIndex.AddAllByTemplateId | frontends/php/api/classes/ApplicationsManager.php:237-240 | the same overwrite rule for the templateid index |
| HostIndex.LastByNameFinds | frontends/php/api/classes/ApplicationsManager.php:238 | the reference scan finds a row exactly when one with that host and name exists, and finds the last one |
| HostIndex.LastByTemplateIdFinds | frontends/php/api/classes/ApplicationsManager.php:239 | the same for host and templateid |
| HostIndex.IndexByName | frontends/php/api/classes/ApplicationsManager.php:228-243 | a name of a requested host is indexed exactly when the host has an application of that name, and it holds the one with the largest id, as stored |
| HostIndex.IndexByTemplateId | frontends/php/api/classes/ApplicationsManager.php:228-243 | a templateid of a requested host is indexed exactly when the host has an application with that templateid, and it holds the one with the largest id, as stored |
| HostIndex.IndexOfBareHost | frontends/php/api/classes/ApplicationsManager.php:229-232 | a requested host without applications is still a key, with two empty maps |
| Reconcile.InheritToHosts | frontends/php/api/classes/ApplicationsManager.php:180-206 | one source succeeds on all hosts exactly when every single decision does, with one record per host in host order; a failure is the decision of the first failing host |
| Reconcile.Prepare | frontends/php/api/classes/ApplicationsManager.php:174-210 | success exactly when every (source, host) pair succeeds, with the record of source i on host j at position i * hosts + j (so sources × hosts records); a failure is the conflict of the first failing pair in loop order |
| Reconcile.DecideAgainstStore | frontends/php/api/classes/ApplicationsManager.php:181-205 | against the store: fails exactly when the newest application of the host with the source's name was inherited from another template application, reporting that name and host; otherwise updates the newest name match, else the newest templateid match, and creates exactly when there is neither |
| Reconcile.UpdateOnHost | frontends/php/api/classes/ApplicationsManager.php:181-204 | a copy that reuses an id reuses that of an application stored on the target host |
| Reconcile.PrepareAgainstStore | frontends/php/api/classes/ApplicationsManager.php:174-210 | against the store: preparing fails exactly when some source clashes on some requested host, and the conflict names such a source and host |
| Persist.Partition | frontends/php/api/classes/ApplicationsManager.php:253-260 | records without an id form the create group and records with one the update group; the sizes add up to the input |
| Persist.PartitionPermutes | frontends/php/api/classes/ApplicationsManager.php:253-260 | together the two groups hold exactly the input records (as multisets) |
| Persist.PartitionAppend | frontends/php/api/classes/ApplicationsManager.php:253-260 | both groups keep input order: partitioning a concatenation concatenates the groups |
| Persist.PartitionMembers | frontends/php/api/classes/ApplicationsManager.php:253-260 | a record is in the create group exactly when it is an input record without an id, and in the update group exactly when it is one with an id |
| Persist.Create | frontends/php/api/classes/ApplicationsManager.php:36-46 | record i is stored under the i-th fresh id and returned with it; the generator advances by the batch size; no other row changes |
| Persist.UpdateRow | frontends/php/api/classes/ApplicationsManager.php:67-75 | after an update a stored row holds the last record that selects it, or is unchanged when none does |
| Persist.LastUpdateFinds | frontends/php/api/classes/ApplicationsManager.php:67-75 | the reference scan finds a record exactly when one selects the row, and finds the last one |
| Persist.Save | frontends/php/api/classes/ApplicationsManager.php:249-273 | link rows are untouched, the generator advances by the number of creates, the key set grows by exactly the fresh ids, well-formedness is kept; returned record i carries the i-th fresh id when i is below the create-group size and is the input record otherwise |
| Persist.SaveCreatedRow | frontends/php/api/classes/ApplicationsManager.php:262-266 | the i-th record of the create group ends up stored under the i-th fresh id, which no earlier row used |
| Persist.SaveStoredRow | frontends/php/api/classes/ApplicationsManager.php:268-270 | a row stored before holds the last record of the update group that selects it, or is unchanged |
| Persist.SaveCreatesFirst | frontends/php/api/classes/ApplicationsManager.php:262-272 | when no record to update precedes a record to create, every returned record carries an id: updates their own, creates the id of a fresh row that holds them |
| Persist.UnwrittenOnlyIfOutOfOrder | frontends/php/api/classes/ApplicationsManager.php:264-266 | a record is missed by the write-back only if a record to update precedes a record to create |
| Persist.UnwrittenIfOutOfOrder | frontends/php/api/classes/ApplicationsManager.php:264-266 | whenever a record to update precedes a record to create, some record is missed |
| Persist.SaveMisplacesId | frontends/php/api/classes/ApplicationsManager.php:262-266 | a record to update comes back with a different id exactly when its position is below the create-group size, and that id names the row just created for the create-group record at its position |
| Persist.SaveMisplacesIds | frontends/php/api/classes/ApplicationsManager.php:253-266 | some record to update comes back with another id exactly when a record to update precedes a record to create |
| Persist.SaveLosesIds | frontends/php/api/classes/ApplicationsManager.php:264-266 | some returned record has no id exactly when a record to update precedes a record to create |
| Inheritance.Targets | frontends/php/api/classes/ApplicationsManager.php:130-132 | given hosts are used as they are; with none, a host is a target exactly when a link row attaches it to the host of one of the applications |
| Inheritance.Level | frontends/php/api/classes/ApplicationsManager.php:137-138 | a successful level keeps the link rows, deletes no stored row, keeps the store well formed, and returns sources × distinct targets records |
| Inheritance.Inherit | frontends/php/api/classes/ApplicationsManager.php:129-143 | no target hosts means success with no write; every run keeps the link rows, deletes no stored row, never moves the generator back and keeps the store well formed |
| Inheritance.Link | frontends/php/api/classes/ApplicationsManager.php:97-111 | linking keeps the link rows and well-formedness and deletes no stored row |
| Inheritance.LinkInheritsTemplateApps | frontends/php/api/classes/ApplicationsManager.php:97-108 | link propagates exactly the stored applications of the template, each with its stored id and columns |
| Inheritance.PreparedUpdatesExisting | frontends/php/api/classes/ApplicationsManager.php:174-210 | every prepared record with an id names an application already stored, so save only updates existing rows |
| Inheritance.LevelStores | frontends/php/api/classes/ApplicationsManager.php:137-138 | after a successful level, the record of source i on target j is that source's copy on host j; without an id it is stored under a fresh id, with one it selects an application of host j, whose row then holds a copy of one of the sources on host j |
| Inheritance.LevelKeepsRows | frontends/php/api/classes/ApplicationsManager.php:137-138 | after a level, a row stored before holds the last prepared copy that selects it, or is unchanged |
| Inheritance.LevelFails | frontends/php/api/classes/ApplicationsManager.php:137 | a level is rejected exactly when some application clashes on some target host, and the conflict names such an application and host |
| Inheritance.ConflictWritesNothing | frontends/php/api/classes/ApplicationsManager.php:129-143 | when an application clashes on a host of the first level, inherit fails and the store is unchanged |
| Inheritance.NoConflictSaves | frontends/php/api/classes/ApplicationsManager.php:136-140 | when nothing clashes, the first level is saved and propagation continues from the saved records with no explicit hosts |
| Scenarios.FirstLink | frontends/php/api/classes/ApplicationsManager.php:97-111 | linking a host to a template with one application creates one copy on the host under the next id, pointing back at the template's application, and stops |
| Scenarios.TwoLevelLink | frontends/php/api/classes/ApplicationsManager.php:129-143 | on a chain template, host-template, host, linking copies the application to the middle host and then the copy to the last host, pointing at the copy, and stops |
| Scenarios.MisplacedIdConflict | frontends/php/api/classes/ApplicationsManager.php:137-140 | a relink whose first level updates one copy and creates another saves the first level, then fails on the next with "already exists", because the updated copy came back with the other's id |
| Scenarios.OwnIdsPass | frontends/php/api/classes/ApplicationsManager.php:174-210 | on the same second level, the records with their own ids would update the existing copy and create the new one without a conflict |
| Scenarios.Relink | frontends/php/api/classes/ApplicationsManager.php:97-111 | linking the same host again finds the copy by name, rewrites it in place and creates nothing |

## Left out

- Logging: the `info()` messages of `create` and `update` (lines 48-55, 77-84) are output only and are not modelled.
- Host names: the exception message looks up the host's name (line 191). `Conflict` carries the host id instead.
- Exceptions: the exception becomes a `Failure`/`Failed` value. No transaction is modelled. A conflict at a deeper level leaves the levels already saved in the store, as the code does without a surrounding rollback.
- Recursion depth: `inherit` recurses until a level finds no hosts. The model bounds the depth by a `fuel` argument and reports `OutOfFuel` when it runs out. Template trees deeper than the fuel are not covered.
- Single inserts: `DB::insert` versus `DB::insertBatch` (lines 37-42) are both modelled as one batch insert of consecutive fresh ids, which is how `save` calls `create`.
- Return values of `create`, `update` and `link`: `update`'s return value is its input and is unused, so it is not modelled. `link` always returns true, and the model returns the store and the outcome instead.
- Row order: SQL leaves the row order of the SELECTs open. The model fetches applications in ascending id order, so "last row wins" in the index means "largest id wins", and link rows in table order.
- `zbx_toArray`, `zbx_objectValues`, `array_unique`, `DBcondition`: modelled by their effect on sequences and sets.
- PHP array keys: numeric-string names coerced to integer keys are not modelled; names are plain strings. A NULL `templateid` and an unset `applicationid` both map to `None`, which is the single array key PHP uses for both.
- `idcmp` is modelled as equality of optional ids.
- Database failures are not modelled.
- Inheritance.Level: its contract states only invariants and the record count. What a level writes is stated for each pair by `Inheritance.LevelStores` and for each old row by `Inheritance.LevelKeepsRows`.
- Inheritance.Inherit: its contract states only invariants and the base case. The propagation over several levels is not characterised for all stores; the worked scenarios show it on concrete trees.
- Inheritance.Link: its contract states only the invariants. `Inheritance.LinkInheritsTemplateApps` states which records it propagates; the full effect of one link is shown on the worked scenarios, not for all stores.
- Idempotence of `link` in general (linking twice changes nothing) is not proved for all stores. `Scenarios.Relink` shows it on one store.
