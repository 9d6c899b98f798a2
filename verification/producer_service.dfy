/** `ProducerService`: find-or-fail lookups and existence-checked writes over the producer table. */
module ProducerServices {
  import opened Outcomes
  import opened Domain
  import opened JpaStore

  class ProducerService {
    const repository: Repository<Producer>

    /** The injected repository keeps each producer under its own id. */
    ghost predicate Valid()
      reads repository
    {
      repository.Valid() && forall p: Producer :: repository.idOf(p) == p.id
    }

    constructor (repository: Repository<Producer>)
      requires repository.Valid() && forall p: Producer :: repository.idOf(p) == p.id
      ensures Valid()
      ensures this.repository == repository
    {
      this.repository := repository;
    }

    /** `findAll`: the stored producers, untouched. */
    method FindAll() returns (producers: map<int, Producer>)
      ensures producers == repository.records
    {
      producers := repository.FindAll();
    }

    /** `findById`: the producer with that id, or `NotFound`. */
    method FindById(id: int) returns (r: Outcome<Producer>)
      ensures r.Ok? <==> id in repository.records
      ensures r.Ok? ==> r.value == repository.records[id]
      ensures !r.Ok? ==> r == NotFound
    {
      var found := repository.FindById(id);
      if found.Some? {
        r := Ok(found.value);
      } else {
        r := NotFound;
      }
    }

    /** `findByName`: a producer stored under exactly that name, or `NotFound` when there is none. */
    method FindByName(name: string) returns (r: Outcome<Producer>)
      requires Valid()
      ensures r == NotFound <==> forall id :: id in repository.records ==> repository.records[id].name != name
      ensures r.Ok? ==> r.value.name == name && r.value.id in repository.records
                        && repository.records[r.value.id] == r.value
      ensures r.Ok? || r == NotFound
    {
      var found := repository.FindOne((p: Producer) => p.name == name);
      if found.Some? {
        r := Ok(found.value);
      } else {
        r := NotFound;
      }
    }

    /** `save`: what the repository's upsert returns, with no check of its own. */
    method Save(producer: Producer) returns (saved: Producer)
      requires Valid()
      modifies repository
      ensures Valid()
      ensures saved == producer
      ensures repository.records == old(repository.records)[producer.id := producer]
    {
      saved := repository.Save(producer);
    }

    /** `delete`: `NotFound` with nothing removed when the id is absent; otherwise exactly that producer goes. */
    method Delete(id: int) returns (r: Outcome<()>)
      requires Valid()
      modifies repository
      ensures Valid()
      ensures r == NotFound <==> id !in old(repository.records)
      ensures r == NotFound ==> repository.records == old(repository.records)
      ensures r.Ok? ==> repository.records == old(repository.records) - {id}
      ensures r.Ok? || r == NotFound
      ensures id !in repository.records
    {
      var found := FindById(id);
      if !found.Ok? {
        return NotFound;
      }
      repository.Delete(found.value);
      r := Ok(());
    }

    /** `update`: `NotFound` with nothing written when the id is absent; otherwise the record replaces the stored one. */
    method Update(producerToUpdate: Producer) returns (r: Outcome<()>)
      requires Valid()
      modifies repository
      ensures Valid()
      ensures r == NotFound <==> producerToUpdate.id !in old(repository.records)
      ensures r == NotFound ==> repository.records == old(repository.records)
      ensures r.Ok? ==> repository.records == old(repository.records)[producerToUpdate.id := producerToUpdate]
      ensures r.Ok? || r == NotFound
    {
      var found := FindById(producerToUpdate.id);
      if !found.Ok? {
        return NotFound;
      }
      var _ := repository.Save(producerToUpdate);
      r := Ok(());
    }
  }
}
