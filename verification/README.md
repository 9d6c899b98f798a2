# Resource services of the anime and user applications, in Dafny

This project models the service layer of two Spring Boot applications. The
anime application has `AnimeService` and `ProducerService`. The user
application has `UserService`. The project also models the in-memory anime
repository `AnimeHardCodedRepository`, which works over the shared list that
`AnimeData` holds.

- **Outcomes** (`outcomes.dfy`): the services throw `NotFoundException` and
  `InvalidEmailException`. The model returns an `Outcome` instead:
  `Ok(value)`, `NotFound` or `InvalidEmail`. A `void` operation succeeds with
  `Ok(())`.
- **Domain** (`domain.dfy`): `Anime`, `Producer` and `User` are value records
  with an `int` id.
- **JpaStore** (`jpa_store.dfy`): the Spring Data JPA repositories are one
  generic class, `Repository<T>`. It holds a table `map<int, T>` from id to
  record. `save` is an upsert by id and `delete` removes by id. A derived
  single-result query (`findByName`, `findByEmail`, `findByFirstName`) returns
  some matching row, or nothing when no row matches.
- **AnimeServices**, **ProducerServices** (`anime_service.dfy`,
  `producer_service.dfy`): these are find-or-`NotFound` lookups. `delete` and
  `update` first check that the id exists. `save` is passed straight through.
  Every failure leaves the table unchanged.
- **UserServices** (`user_service.dfy`): the same checks, plus the email guard
  that runs on `save` and `update`. The guard fails with `InvalidEmail` when
  the store returns an owner of the email with a different id. `update` checks
  existence first, then the email, then writes. The guard keeps `EmailsUnique`
  true: no two ids share an email. If emails are unique before a call, the
  contracts say exactly when the call succeeds.
- **AnimeHardCoded** (`anime_hard_coded_repository.dfy`): `AnimeData` holds
  the shared list, seeded with ids 1 to 4. `AnimeHardCodedRepository` works
  over that list:
  - `findById` returns the first element with that id.
  - `findByName` keeps, in list order, the elements whose name matches ignoring
    ASCII case. A missing (`null`) name returns the whole list.
  - `save` appends.
  - `delete` removes the first element with the same id. This is
    `ArrayList.remove(Object)` under `Anime`'s id-only equality.
  - `update` is a save followed by a delete. If the id was present, its first
    element is dropped and the new record ends up last. If the id was absent,
    the list is unchanged.

Three facts about the user service that the contracts rely on:
- `update` saves the payload as given, with no merge that keeps the stored
  password or roles (`user-service/src/main/java/academy/devdojo/service/UserService.java:41-48`).
- A failed email guard throws `InvalidEmailException`, which answers HTTP 400
  (`commons-core/src/main/java/academy/devdojo/exception/InvalidEmailException.java:8`).
  The model's `InvalidEmail` outcome stands for it.
- `save` passes the user's own id to the email guard
  (`user-service/src/main/java/academy/devdojo/service/UserService.java:29`).
  So a new user whose id is not yet stored fails exactly when someone else
  already owns the email.

## Model

| member | source | states |
|---|---|---|
| `JpaStore.Repository.FindAll` | anime-service/src/main/java/academy/devdojo/repository/AnimeRepository.java:10 | the listing is exactly the stored table, and reading it changes nothing |
| `JpaStore.Repository.FindById` | anime-service/src/main/java/academy/devdojo/repository/AnimeRepository.java:10 | the row is found exactly when its id is in the table, and the stored row is returned |
| `JpaStore.Repository.FindOne` | anime-service/src/main/java/academy/devdojo/repository/AnimeRepository.java:12 | nothing is returned exactly when no row matches; a returned row matches and is stored under its own id |
| `JpaStore.Repository.Save` | anime-service/src/main/java/academy/devdojo/repository/AnimeRepository.java:10 | upsert: the table afterwards is the old one with the record stored under its id, and the record is returned |
| `JpaStore.Repository.Delete` | anime-service/src/main/java/academy/devdojo/repository/AnimeRepository.java:10 | the row with the record's id is removed and nothing else; an absent id changes nothing |
| `AnimeServices.AnimeService.FindAll` | anime-service/src/main/java/academy/devdojo/service/AnimeService.java:21-25 | returns the stored table unchanged |
| `AnimeServices.AnimeService.FindById` | anime-service/src/main/java/academy/devdojo/service/AnimeService.java:33-37 | `Ok` with the stored anime exactly when the id is stored, otherwise `NotFound` |
| `AnimeServices.AnimeService.FindByName` | anime-service/src/main/java/academy/devdojo/service/AnimeService.java:39-44 | `NotFound` exactly when no stored anime has that name; an `Ok` anime has the name and is stored |
| `AnimeServices.AnimeService.Save` | anime-service/src/main/java/academy/devdojo/service/AnimeService.java:46-48 | no check: the repository's upsert happens and its result, the given anime, is returned |
| `AnimeServices.AnimeService.Delete` | anime-service/src/main/java/academy/devdojo/service/AnimeService.java:50-55 | `NotFound` exactly when the id is absent, with the table unchanged; otherwise exactly that id is removed |
| `AnimeServices.AnimeService.Update` | anime-service/src/main/java/academy/devdojo/service/AnimeService.java:57-61 | `NotFound` exactly when the id is absent, with the table unchanged; otherwise the record replaces the stored one |
| `ProducerServices.ProducerService.FindAll` | anime-service/src/main/java/academy/devdojo/service/ProducerService.java:20-22 | returns the stored table unchanged |
| `ProducerServices.ProducerService.FindById` | anime-service/src/main/java/academy/devdojo/service/ProducerService.java:24-28 | `Ok` with the stored producer exactly when the id is stored, otherwise `NotFound` |
| `ProducerServices.ProducerService.FindByName` | anime-service/src/main/java/academy/devdojo/service/ProducerService.java:30-33 | `NotFound` exactly when no stored producer has that name; an `Ok` producer has the name and is stored |
| `ProducerServices.ProducerService.Save` | anime-service/src/main/java/academy/devdojo/service/ProducerService.java:35-37 | no check: the upsert happens and the given producer is returned |
| `ProducerServices.ProducerService.Delete` | anime-service/src/main/java/academy/devdojo/service/ProducerService.java:39-43 | `NotFound` exactly when the id is absent, with the table unchanged; otherwise exactly that id is removed |
| `ProducerServices.ProducerService.Update` | anime-service/src/main/java/academy/devdojo/service/ProducerService.java:45-49 | `NotFound` exactly when the id is absent, with the table unchanged; otherwise the record replaces the stored one |
| `UserServices.UserService.FindAll` | user-service/src/main/java/academy/devdojo/service/UserService.java:19-21 | returns the stored table unchanged |
| `UserServices.UserService.FindById` | user-service/src/main/java/academy/devdojo/service/UserService.java:23-25 | `Ok` with the stored user exactly when the id is stored, otherwise `NotFound` |
| `UserServices.UserService.Save` | user-service/src/main/java/academy/devdojo/service/UserService.java:27-32 | the result is `Ok(user)` or `InvalidEmail`; `InvalidEmail` means another id owns the email and nothing was written; `Ok` means the user was upserted; no other owner means `Ok`; with unique emails, `Ok` exactly when no other id owns the email, and emails stay unique |
| `UserServices.UserService.Delete` | user-service/src/main/java/academy/devdojo/service/UserService.java:34-39 | `NotFound` exactly when the id is absent, with nothing removed; otherwise exactly that user is removed; unique emails stay unique |
| `UserServices.UserService.Update` | user-service/src/main/java/academy/devdojo/service/UserService.java:41-48 | `NotFound` exactly when the id is absent, whatever the email; every failure leaves the table unchanged; `InvalidEmail` means another id owns the email; `Ok` means the payload replaced the stored user; with unique emails, `Ok` exactly when the id is stored and no other id owns the email, and emails stay unique |
| `UserServices.UserService.AssertUserExists` | user-service/src/main/java/academy/devdojo/service/UserService.java:50-52 | passes exactly when the user's id is stored, else `NotFound` |
| `UserServices.UserService.AssertEmailIsUnique` | user-service/src/main/java/academy/devdojo/service/UserService.java:54-61 | fails only with `InvalidEmail`, and only when another id owns the email; passes when the email's owner has the same id or there is no owner; with unique emails, passes exactly when no other id owns it |
| `UserServices.UserService.FindByFirstName` | user-service/src/main/java/academy/devdojo/service/UserService.java:64-66 | `NotFound` exactly when no stored user has that first name; an `Ok` user has it and is stored |
| `UserServices.UpsertKeepsEmailsUnique` | user-service/src/main/java/academy/devdojo/service/UserService.java:45-47 | writing a user whose email no other id owns keeps emails unique |
| `UserServices.RemoveKeepsEmailsUnique` | user-service/src/main/java/academy/devdojo/service/UserService.java:38 | removing a row keeps emails unique |
| `UserServices.OwnerExcludesOthers` | user-service/src/main/java/academy/devdojo/service/UserService.java:57 | with unique emails, an owner with the written id means no other id owns the email, so the guard passing on the returned owner is the exact answer |
| `AnimeHardCoded.ToLowerAscii` | anime-service/src/main/java/academy/devdojo/repository/AnimeHardCodedRepository.java:28 | an upper-case ASCII letter maps to its lower-case letter; every other character is unchanged |
| `AnimeHardCoded.EqualsIgnoreCase` | anime-service/src/main/java/academy/devdojo/repository/AnimeHardCodedRepository.java:28 | two names match ignoring case exactly when they lower-case (ASCII) to the same string |
| `AnimeHardCoded.EqualsIgnoreCaseIsEquivalence` | anime-service/src/main/java/academy/devdojo/repository/AnimeHardCodedRepository.java:28 | comparing names ignoring case is reflexive, symmetric and transitive |
| `AnimeHardCoded.IndexOfId` | anime-service/src/main/java/academy/devdojo/repository/AnimeHardCodedRepository.java:23 | the position of the first element with the id: no earlier element has it, the element there has it, and the position is the length exactly when no element has it |
| `AnimeHardCoded.Cut` | anime-service/src/main/java/academy/devdojo/repository/AnimeHardCodedRepository.java:37 | one element shorter; elements before the position stay, elements after it shift down by one |
| `AnimeHardCoded.RemoveFirstWithId` | anime-service/src/main/java/academy/devdojo/repository/AnimeHardCodedRepository.java:37 | `remove` under id-only equality only takes elements away (the multiset of the result is contained in the list's), and keeps every element whose id differs |
| `AnimeHardCoded.RemoveFirstWithIdCutsFirstMatch` | anime-service/src/main/java/academy/devdojo/repository/AnimeHardCodedRepository.java:37 | `remove` by id-only equality cuts out exactly the first element with the id, and leaves the list as it was when there is none |
| `AnimeHardCoded.RemoveFirstWithIdLength` | anime-service/src/main/java/academy/devdojo/repository/AnimeHardCodedRepository.java:36-38 | delete shrinks the list by one when the id is present, and is a no-op when it is absent |
| `AnimeHardCoded.RemoveFirstWithIdMultiset` | anime-service/src/main/java/academy/devdojo/repository/AnimeHardCodedRepository.java:36-38 | delete takes exactly one element, the first with the id, out of the list's contents |
| `AnimeHardCoded.RemoveFirstWithIdLeavesNoMatch` | anime-service/src/test/java/academy/devdojo/repository/AnimeHardCodedRepositoryTest.java:91-98 | with distinct ids, after delete no element has the id and ids stay distinct |
| `AnimeHardCoded.UpdateReplacesFirstMatchAndMovesItLast` | anime-service/src/main/java/academy/devdojo/repository/AnimeHardCodedRepository.java:40-43 | update of a present id drops its first element, keeps the others in order, puts the record last and keeps the length |
| `AnimeHardCoded.UpdateOfAbsentIdIsNoOp` | anime-service/src/main/java/academy/devdojo/repository/AnimeHardCodedRepository.java:40-43 | update of an absent id leaves the list exactly as it was |
| `AnimeHardCoded.UpdateThenFindGivesNewRecord` | anime-service/src/test/java/academy/devdojo/repository/AnimeHardCodedRepositoryTest.java:100-111 | with distinct ids, update keeps ids distinct and the first element with the id afterwards is the new record |
| `AnimeHardCoded.FilterByName` | anime-service/src/main/java/academy/devdojo/repository/AnimeHardCodedRepository.java:28 | the filtered list is no longer than the list, and every element in it has a name equal to the query ignoring case; `FilterByNameMembers`, `FilterByNameAppend` and `FilterByNameKeepsAll` give the rest |
| `AnimeHardCoded.FilterByNameMembers` | anime-service/src/main/java/academy/devdojo/repository/AnimeHardCodedRepository.java:28 | an anime is in the result exactly when it is in the list and its name matches ignoring case |
| `AnimeHardCoded.FilterByNameAppend` | anime-service/src/main/java/academy/devdojo/repository/AnimeHardCodedRepository.java:28 | the filter distributes over concatenation, so matches keep their list order |
| `AnimeHardCoded.FilterByNameKeepsAll` | anime-service/src/main/java/academy/devdojo/repository/AnimeHardCodedRepository.java:28 | the filter returns the whole list exactly when every name matches |
| `AnimeHardCoded.FilterByNameEmpty` | anime-service/src/test/java/academy/devdojo/repository/AnimeHardCodedRepositoryTest.java:72-78 | the result is empty exactly when no name matches |
| `AnimeHardCoded.SeedFindByNameIgnoresCase` | anime-service/src/main/java/academy/devdojo/repository/AnimeData.java:16-20 | on the seeded list, looking up "naruto" returns only the id-1 record "Naruto" |
| `AnimeHardCoded.SeedIdsDistinct` | anime-service/src/main/java/academy/devdojo/repository/AnimeData.java:16-20 | the seeded list has ids 1, 2, 3, 4 in order, all distinct |
| `AnimeHardCoded.AnimeData.constructor` | anime-service/src/main/java/academy/devdojo/repository/AnimeData.java:13-21 | the shared list starts as the four seeded animes |
| `AnimeHardCoded.AnimeHardCodedRepository.FindAll` | anime-service/src/main/java/academy/devdojo/repository/AnimeHardCodedRepository.java:18-20 | returns the shared list as it stands |
| `AnimeHardCoded.AnimeHardCodedRepository.FindById` | anime-service/src/main/java/academy/devdojo/repository/AnimeHardCodedRepository.java:22-24 | nothing exactly when no element has the id; otherwise an element with the id such that no earlier element has it |
| `AnimeHardCoded.AnimeHardCodedRepository.FindByName` | anime-service/src/main/java/academy/devdojo/repository/AnimeHardCodedRepository.java:26-29 | a missing name returns the whole list; a given name returns the case-insensitive filter, whose members are exactly the matching elements |
| `AnimeHardCoded.AnimeHardCodedRepository.Save` | anime-service/src/main/java/academy/devdojo/repository/AnimeHardCodedRepository.java:31-34 | the list afterwards is the old list with the record appended, and the record is returned |
| `AnimeHardCoded.AnimeHardCodedRepository.Delete` | anime-service/src/main/java/academy/devdojo/repository/AnimeHardCodedRepository.java:36-38 | the list afterwards is the old list with its first element of that id cut out, or unchanged when there is none |
| `AnimeHardCoded.AnimeHardCodedRepository.Update` | anime-service/src/main/java/academy/devdojo/repository/AnimeHardCodedRepository.java:40-43 | save then delete: a present id's first element is cut out and the record is appended; an absent id leaves the list unchanged |

## Left out

- `AnimeService.findAll(Pageable)`: it only forwards to Spring's paging, and the page arithmetic lives in the library.
- Ids are never null. The database assigns an id to a record saved with a null id, and that allocation is not modelled. A record always carries its id.
- `JpaStore.Repository.FindAll`: the JPA listing's order is unspecified, so the model returns the table as a map rather than a list.
- JpaStore.Repository.FindOne: a derived query that matches several rows raises Spring's `IncorrectResultSizeDataAccessException`. The model returns one of the matches instead. The database collation of name comparisons is not modelled; names compare exactly.
- UserServices.UserService.AssertEmailIsUnique: when several users share an email, the model does not fix which one the store returns. Outside `EmailsUnique` the contract gives only the two one-way implications. The same holds for `UserServices.UserService.Save` and `UserServices.UserService.Update`.
- `AnimeHardCodedRepository.findAll` and `findByName(null)` return the live shared list, so a caller's later mutation shows through. The model returns a value snapshot. Mutating an element in place, as the repository test does with `setName`, is not modelled.
- `Anime` equality in Java compares ids only, while Dafny's datatype equality compares all fields. The model uses id comparison only where the code relies on equality (`remove`).
- `String.equalsIgnoreCase` folds case over all of Unicode. The model folds ASCII letters only. A `null` name stored in the list, which would make the filter throw, is not modelled.
- AnimeServices.AnimeService.FindByName, ProducerServices.ProducerService.FindByName and UserServices.UserService.FindByFirstName take a non-null `string`. The controllers pass an optional request parameter (`required = false`), so the source can receive `null`, and Spring Data then queries `IS NULL`. For an anime this finds nothing, because the name column is not nullable, and the service throws not-found. That `null` path is not modelled.
- UserServices.UserService.AssertEmailIsUnique, UserServices.UserService.Save and UserServices.UserService.Update take a non-null email. The request DTO checks the email's format but does not require it, so a `null` email can reach the guard, where `findByEmail(null)` matches a stored user whose email is also `null`. Null emails are not modelled, either as an argument or as a stored value.
- Exception messages (`"User not found"` and the not-found constants) and HTTP status codes are not modelled.
- `Producer.createdAt` is a clock reading taken by the mapper. Here it is an opaque `int` that the caller supplies.
- Controllers, MapStruct mappers, request and response DTOs with their Bean Validation, security configuration, `ProfileService` and `UserProfileService` are not part of this model.
- `UserHardCodedRepository`, `ProducerHardCodedRepository` and `NotFoundException` are not part of this model.
- Concurrency and `@Transactional`: everything is sequential, and the shared list has no locking to model.
