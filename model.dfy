/** The two entities of the catalogue. A Java `null` field is `None`; an unset `int`
    duration is 0. Lombok's `@EqualsAndHashCode(of = ...)` compares one field only,
    which `SameFilm`/`SameUser` state. */
module Model {

  import opened Common

  datatype Film = Film(
    id: Option<int>,
    name: Option<string>,
    description: Option<string>,
    releaseDate: Option<string>,
    duration: int,
    likes: set<int>)   // ids of the users who liked the film

  datatype User = User(
    id: Option<int>,
    email: Option<string>,
    login: Option<string>,
    name: Option<string>,
    birthday: Option<string>,
    friends: set<int>) // ids of the user's friends

  /** `Film.equals`: equal names, nothing else compared. */
  predicate SameFilm(a: Film, b: Film)
  {
    a.name == b.name
  }

  /** `User.equals`: equal e-mails, nothing else compared. */
  predicate SameUser(a: User, b: User)
  {
    a.email == b.email
  }
}
