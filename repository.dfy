/**
 * The JPA repository behind FileService, as a map from identifiers to records
 * plus the next identifier to hand out. Saving assigns a fresh identifier and
 * never touches existing rows; no update or delete is offered.
 */
module Repository {
  import opened Wrappers
  import opened Entities

  class FileRepository {
    var records: map<int, FileEntity>
    var nextId: int

    /** Every row is stored under its own identifier, and every identifier in use is below `nextId`. */
    ghost predicate Valid()
      reads this
    {
      forall id | id in records :: id < nextId && records[id].id == Some(id)
    }

    constructor ()
      ensures Valid() && records == map[] && nextId == 1
    {
      records := map[];
      nextId := 1;
    }

    /** `save` of a new entity: the entity gets the next identifier and becomes one more row. */
    method Save(entity: FileEntity) returns (saved: FileEntity)
      requires Valid() && entity.id == None
      modifies this
      ensures Valid()
      ensures old(nextId) !in old(records)
      ensures saved == entity.(id := Some(old(nextId)))
      ensures records == old(records)[old(nextId) := saved]
      ensures nextId > old(nextId)
    {
      saved := entity.(id := Some(nextId));
      records := records[nextId := saved];
      nextId := nextId + 1;
    }

    /** `findById`: the row with that identifier, if any. */
    function FindById(id: int): (r: Option<FileEntity>)
      reads this
      requires Valid()
      ensures r.Some? <==> id in records
      ensures r.Some? ==> r.value == records[id] && r.value.id == Some(id)
    {
      if id in records then Some(records[id]) else None
    }

    /** `findAll`, with no claim about order: every row, each carrying the identifier it is stored under. */
    function FindAll(): (r: set<FileEntity>)
      reads this
      requires Valid()
      ensures forall id | id in records :: records[id] in r
      ensures forall e | e in r :: e.id.Some? && e.id.value in records && records[e.id.value] == e
    {
      set id | id in records :: records[id]
    }
  }
}
