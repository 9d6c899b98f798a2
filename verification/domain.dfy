/** The records the services manage. Identifiers are Java `Long`s that are never null here. */
module Domain {

  /** An anime title. Java equality on `Anime` compares the `id` alone. */
  datatype Anime = Anime(id: int, name: string)

  /** A producer; `createdAt` is the clock reading taken by the caller layer. */
  datatype Producer = Producer(id: int, name: string, createdAt: int)

  /** A user account; `email` is the field the user service keeps unique. */
  datatype User = User(id: int, firstName: string, lastName: string, email: string,
                       password: string, roles: string)
}
