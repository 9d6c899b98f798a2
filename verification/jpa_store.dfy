/**
 * The Spring Data JPA repositories the services depend on, reduced to the
 * behaviour the services rely on: a table of records keyed by id, point
 * lookup, single-result lookup by a field, upsert `save` and `delete` by id.
 */
module JpaStore {
  import opened Outcomes

  class Repository<T> {
    /** How a record names its own primary key. */
    const idOf: T -> int
    /** The table: primary key to stored record. */
    var records: map<int, T>

    /** Every row is stored under its own id. */
    ghost predicate Valid()
      reads this
    {
      forall id :: id in records ==> idOf(records[id]) == id
    }

    constructor (idOf: T -> int)
      ensures Valid()
      ensures this.idOf == idOf && records == map[]
    {
      this.idOf := idOf;
      records := map[];
    }

    /** `findAll`: the whole table. */
    method FindAll() returns (all: map<int, T>)
      ensures all == records
    {
      all := records;
    }

    /** `findById`: the row stored under `id`, if any. */
    method FindById(id: int) returns (r: Option<T>)
      ensures r.Some? <==> id in records
      ensures r.Some? ==> r.value == records[id]
    {
      if id in records {
        r := Some(records[id]);
      } else {
        r := None;
      }
    }

    /**
     * A derived single-result query (`findByName`, `findByEmail`,
     * `findByFirstName`): some stored row that matches, or nothing when no
     * row matches. Which row is returned when several match is up to the store.
     */
    method FindOne(matches: T -> bool) returns (r: Option<T>)
      requires Valid()
      ensures r.None? <==> forall id :: id in records ==> !matches(records[id])
      ensures r.Some? ==> matches(r.value) && idOf(r.value) in records && records[idOf(r.value)] == r.value
    {
      if exists id :: id in records && matches(records[id]) {
        var id :| id in records && matches(records[id]);
        r := Some(records[id]);
      } else {
        r := None;
      }
    }

    /** `save`: insert or replace the row under the record's id, and return it. */
    method Save(x: T) returns (saved: T)
      requires Valid()
      modifies this
      ensures Valid()
      ensures records == old(records)[idOf(x) := x]
      ensures saved == x
    {
      records := records[idOf(x) := x];
      saved := x;
    }

    /** `delete`: remove the row with the record's id; nothing happens when there is none. */
    method Delete(x: T)
      requires Valid()
      modifies this
      ensures Valid()
      ensures records == old(records) - {idOf(x)}
    {
      records := records - {idOf(x)};
    }
  }
}
