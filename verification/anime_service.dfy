/** `AnimeService`: find-or-fail lookups and existence-checked writes over the anime table. */
module AnimeServices {
  import opened Outcomes
  import opened Domain
  import opened JpaStore

  class AnimeService {
    const repository: Repository<Anime>

    /** The injected repository keeps each anime under its own id. */
    ghost predicate Valid()
      reads repository
    {
      repository.Valid() && forall a: Anime :: repository.idOf(a) == a.id
    }

    constructor (repository: Repository<Anime>)
      requires repository.Valid() && forall a: Anime :: repository.idOf(a) == a.id
      ensures Valid()
      ensures this.repository == repository
    {
      this.repository := repository;
    }

    /** `findAll`: the stored animes, untouched. */
    method FindAll() returns (animes: map<int, Anime>)
      ensures animes == repository.records
    {
      animes := repository.FindAll();
    }

    /** `findById`: the anime with that id, or `NotFound`. */
    method FindById(id: int) returns (r: Outcome<Anime>)
      ensures r.Ok? <==> id in repository.records
      ensures r.Ok? ==> r.value == repository.records[id]
      ensures !r.Ok? ==> r == NotFound
    {
      var found := repository.FindById(id);
      if found.Some? {
        r := Ok(found.value);
      } else {
        r := NotFound;
      }
    }

    /** `findByName`: an anime stored under exactly that name, or `NotFound` when there is none. */
    method FindByName(name: string) returns (r: Outcome<Anime>)
      requires Valid()
      ensures r == NotFound <==> forall id :: id in repository.records ==> repository.records[id].name != name
      ensures r.Ok? ==> r.value.name == name && r.value.id in repository.records
                        && repository.records[r.value.id] == r.value
      ensures r.Ok? || r == NotFound
    {
      var found := repository.FindOne((a: Anime) => a.name == name);
      if found.Some? {
        r := Ok(found.value);
      } else {
        r := NotFound;
      }
    }

    /** `save`: what the repository's upsert returns, with no check of its own. */
    method Save(anime: Anime) returns (saved: Anime)
      requires Valid()
      modifies repository
      ensures Valid()
      ensures saved == anime
      ensures repository.records == old(repository.records)[anime.id := anime]
    {
      saved := repository.Save(anime);
    }

    /** `delete`: `NotFound` with nothing removed when the id is absent; otherwise exactly that anime goes. */
    method Delete(id: int) returns (r: Outcome<()>)
      requires Valid()
      modifies repository
      ensures Valid()
      ensures r == NotFound <==> id !in old(repository.records)
      ensures r == NotFound ==> repository.records == old(repository.records)
      ensures r.Ok? ==> repository.records == old(repository.records) - {id}
      ensures r.Ok? || r == NotFound
      ensures id !in repository.records
    {
      var found := FindById(id);
      if !found.Ok? {
        return NotFound;
      }
      repository.Delete(found.value);
      r := Ok(());
    }

    /** `update`: `NotFound` with nothing written when the id is absent; otherwise the record replaces the stored one. */
    method Update(animeToUpdate: Anime) returns (r: Outcome<()>)
      requires Valid()
      modifies repository
      ensures Valid()
      ensures r == NotFound <==> animeToUpdate.id !in old(repository.records)
      ensures r == NotFound ==> repository.records == old(repository.records)
      ensures r.Ok? ==> repository.records == old(repository.records)[animeToUpdate.id := animeToUpdate]
      ensures r.Ok? || r == NotFound
    {
      var found := FindById(animeToUpdate.id);
      if !found.Ok? {
        return NotFound;
      }
      var _ := repository.Save(animeToUpdate);
      r := Ok(());
    }
  }
}
