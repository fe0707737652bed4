/** Shared vocabulary of the application-inheritance model: identifiers,
    application records, the rows of the `applications` table and the
    `hosts_templates` link relation, and the abstract database that holds them. */
module Types {

  /** Database identifiers (`applicationid`, `hostid`, `templateid`). */
  type Id = nat

  datatype Option<+T> = None | Some(value: T)

  datatype Result<+T, +E> = Success(value: T) | Failure(error: E)

  /** An application record as it travels through the manager: a row of
      `SELECT a.applicationid, a.name, a.hostid, a.templateid`, or a record
      prepared for inheritance. `applicationid` is `None` when the key is not
      set (a record still to be created); `templateid` is `None` for SQL NULL,
      the mark of an application authored directly on its host. */
  datatype App = App(applicationid: Option<Id>, name: string, hostid: Id, templateid: Option<Id>)

  /** The non-key columns of one row of the `applications` table. */
  datatype Row = Row(name: string, hostid: Id, templateid: Option<Id>)

  /** One row of `hosts_templates`: host `hostid` is linked to template `templateid`. */
  datatype HostTemplate = HostTemplate(hostid: Id, templateid: Id)

  /** The part of the database the manager touches: the `applications`
      table keyed by id, the `hosts_templates` rows in table order, and the
      next identifier the id generator will hand out. */
  datatype Store = Store(apps: map<Id, Row>, links: seq<HostTemplate>, nextId: Id)

  /** Every stored id was handed out by the generator before `nextId`. */
  predicate WellFormed(db: Store)
  {
    forall k :: k in db.apps ==> k < db.nextId
  }

  /** The columns a record writes into the table. */
  function RowOf(a: App): Row
  {
    Row(a.name, a.hostid, a.templateid)
  }

  /** The record a SELECT returns for the stored row `k`. */
  function Fetch(k: Id, r: Row): App
  {
    App(Some(k), r.name, r.hostid, r.templateid)
  }
}
