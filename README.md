# Filmorate catalogue core in Dafny

A model of the entity bookkeeping of Filmorate, a small in-memory REST service for films
and users. It covers three parts:

- **Validation.** `FilmValidator.validate` and `UserValidator.validate` are pure functions
  from an entity and the current store to `Pass` or `Fail(kind)`. The kinds mirror the three
  exception classes: NotFound, ConditionsNotMet and Duplicated.
- **Storage.** `InMemoryFilmStorage` and `InMemoryUserStorage` are classes that own a
  `map<int, Film>` or `map<int, User>`, which `Create` and `Update` change in place.
- **Relationships.** `FilmService` and `UserService` are classes that change a stored film's
  likes or two stored users' friend sets in place. They also compute the read-only views:
  the most-liked ranking, a user's friends, and common friends.

Each store keeps an invariant (`Valid()`). For films it is `FilmStorage.Catalogue`: ids are
exactly `1..n`, every film is stored under its own id, every stored film meets the field rules,
and no two films share a name. For users it is `UserStorage.Directory`: the same for ids and
e-mails, plus a friend graph that is closed (every friend id is a stored user) and symmetric.
Every state-changing method preserves the invariant and states its whole new state.

Modules, one per source file plus shared pieces: `Common` (Option, error kinds, results),
`Text` (`isBlank`, `contains`), `Dates` (the `yyyy-MM-dd` reader), `Model` (Film, User),
`FilmValidator`, `UserValidator`, `Ids` (`getNextId`), `FilmStorage`, `UserStorage`,
`FilmService`, `UserService`.

Modelling choices:

- A Java `null` field is `None`. An unset `duration` is 0.
- `LocalDate.now()` is the parameter `today` of user creation and update.
- The order of `HashMap.values()` and of a `HashSet` stream is whatever a nondeterministic
  `:|` loop picks.
- Film gets `likes: set<int>` and User gets `friends: set<int>`. `FilmService` and
  `UserService` read these fields, but `Film.java` and `User.java` as shown do not declare them.
  Both start empty on creation.

The model follows the code, including these behaviours a reader may not expect:

- `addFriend(a, a)` is accepted and makes a user their own friend.
- An update that keeps the entity's own name or e-mail fails Duplicated, because the target
  itself is counted.
- An unreadable birthday is NotFound, not an invalid value.
- The display name defaults to the login on creation only, not on update.

Validation makes every film field mandatory. So a successful film update replaces all four
fields (`FilmStorage.PatchWithValidFilm`), and a successful user update replaces e-mail, login
and birthday. The "skip null fields" branches only ever matter for the user's name.

## Model

| member | source | states |
|---|---|---|
| `Dates.Parse` | src/main/java/ru/yandex/practicum/filmorate/validator/FilmValidator.java:44-50 | a parsed date is a real calendar date with a 4-digit year; the text has the exact yyyy-MM-dd shape; the year and month are the digits read; a text of that shape is accepted exactly when the year is at least 1, the month is 1..12 and the day is 1..31; the day is the one read, or the month's last day when a day of 1..31 is past it (SMART resolution); any other shape is rejected |
| `Dates.ParseFormat` | src/main/java/ru/yandex/practicum/filmorate/validator/FilmValidator.java:17 | every valid date is read back from its own yyyy-MM-dd text |
| `Dates.FormatParse` | src/main/java/ru/yandex/practicum/filmorate/validator/UserValidator.java:17 | whatever is accepted is, unless its day was clamped, exactly the text of the date it denotes |
| `FilmValidator.Validate` | src/main/java/ru/yandex/practicum/filmorate/validator/FilmValidator.java:21-57 | passes exactly when all field rules hold and no stored film has the name. A missing or blank name is NotFound whatever else is wrong. Duplicated exactly when the name is present and stored. Then a missing description is NotFound and one over 200 characters is ConditionsNotMet. Then a missing date is NotFound and a malformed or pre-1895-12-28 date is ConditionsNotMet. Then a duration of 0 or less is ConditionsNotMet |
| `FilmValidator.StoredIffNameStored` | src/main/java/ru/yandex/practicum/filmorate/model/Film.java:8 | `containsValue` holds exactly when the film's name is among the stored names |
| `FilmValidator.OnlyStoredNamesMatter` | src/main/java/ru/yandex/practicum/filmorate/validator/FilmValidator.java:27-30 | two stores with the same set of names give every film the same verdict: ids, descriptions, dates and durations of stored films are ignored |
| `FilmValidator.FirstScreeningDayAccepted` | src/main/java/ru/yandex/practicum/filmorate/validator/FilmValidator.java:18 | 1895-12-28 is in range and 1895-12-27 is not (`isBefore` is strict) |
| `FilmValidator.UnseparatedDateIsMalformed` | src/main/java/ru/yandex/practicum/filmorate/validator/FilmValidator.java:48-50 | a film that passes the earlier checks with release date "10102010" fails ConditionsNotMet |
| `UserValidator.Validate` | src/main/java/ru/yandex/practicum/filmorate/validator/UserValidator.java:19-53 | passes exactly when all field rules hold and no stored user has the e-mail. A missing e-mail is NotFound and one without '@' is ConditionsNotMet. Duplicated exactly when the e-mail is well formed and stored. Then a missing login is NotFound and one with a space is ConditionsNotMet. Then a missing or unreadable birthday is NotFound, and the result is ConditionsNotMet exactly when the birthday is after `today` |
| `UserValidator.NameIsIgnored` | src/main/java/ru/yandex/practicum/filmorate/validator/UserValidator.java:19-53 | changing the display name never changes the verdict |
| `UserValidator.BornTodayAccepted` | src/main/java/ru/yandex/practicum/filmorate/validator/UserValidator.java:45-47 | a birthday equal to `today` is accepted (`isAfter` is strict) |
| `Ids.NextId` | src/main/java/ru/yandex/practicum/filmorate/storage/InMemoryFilmStorage.java:101-109 | 1 for no keys, otherwise one more than the largest key; never a key already in use (the same code is at InMemoryUserStorage.java:98-106) |
| `Ids.NextOfDense` | src/main/java/ru/yandex/practicum/filmorate/storage/InMemoryUserStorage.java:98-106 | on keys 1..n the next id is n+1, and adding it leaves the keys 1..n+1 |
| `FilmStorage.Patch` | src/main/java/ru/yandex/practicum/filmorate/storage/InMemoryFilmStorage.java:72-94 | each of name, description and release date is overwritten exactly when the request has it; duration exactly when the request's is positive; id and likes are kept |
| `FilmStorage.PatchWithValidFilm` | src/main/java/ru/yandex/practicum/filmorate/storage/InMemoryFilmStorage.java:69-92 | after validation passes, the patch replaces every field except id and likes |
| `FilmStorage.InsertKeepsCatalogue` | src/main/java/ru/yandex/practicum/filmorate/storage/InMemoryFilmStorage.java:44-49 | storing a validated film with no likes under id n+1 keeps the store invariant |
| `FilmStorage.SetLikesKeepsCatalogue` | src/main/java/ru/yandex/practicum/filmorate/service/FilmService.java:30-31 | changing one stored film's likes keeps the store invariant |
| `FilmStorage.InMemoryFilmStorage.constructor` | src/main/java/ru/yandex/practicum/filmorate/storage/InMemoryFilmStorage.java:19 | the store starts empty, with its invariant |
| `FilmStorage.InMemoryFilmStorage.FindAll` | src/main/java/ru/yandex/practicum/filmorate/storage/InMemoryFilmStorage.java:22-26 | every stored film exactly once, and nothing else |
| `FilmStorage.InMemoryFilmStorage.FindFilmById` | src/main/java/ru/yandex/practicum/filmorate/storage/InMemoryFilmStorage.java:28-39 | a stored film whose id is the one asked for, or empty when no stored film has that id |
| `FilmStorage.InMemoryFilmStorage.Create` | src/main/java/ru/yandex/practicum/filmorate/storage/InMemoryFilmStorage.java:41-52 | a failed validation returns its error and leaves the map unchanged. Otherwise the film is stored under max key + 1 with no likes and returned. Earlier entries are unchanged and the invariant holds |
| `FilmStorage.InMemoryFilmStorage.Update` | src/main/java/ru/yandex/practicum/filmorate/storage/InMemoryFilmStorage.java:54-98 | checks in order: no id gives NotFound; a name used by any stored film, the target included, gives Duplicated; a validation error is returned as is; an unknown id gives NotFound; when every check passes and the id is stored the update succeeds. Every failure leaves the map unchanged. On success only the target is replaced by its patch, which equals the request with the stored likes |
| `UserStorage.DisplayName` | src/main/java/ru/yandex/practicum/filmorate/storage/InMemoryUserStorage.java:39-42 | the name when it is present and not blank, otherwise the login |
| `UserStorage.Patch` | src/main/java/ru/yandex/practicum/filmorate/storage/InMemoryUserStorage.java:68-91 | each of e-mail, login, name and birthday is overwritten exactly when the request has it (a blank name included); id and friends are kept |
| `UserStorage.InsertKeepsFriendGraph` | src/main/java/ru/yandex/practicum/filmorate/storage/InMemoryUserStorage.java:44 | a friendless user under a fresh id keeps friendship closed and symmetric |
| `UserStorage.InsertKeepsDirectory` | src/main/java/ru/yandex/practicum/filmorate/storage/InMemoryUserStorage.java:43-46 | storing a validated user, with the defaulted name and no friends, under id n+1 keeps the store invariant |
| `UserStorage.PatchKeepsDirectory` | src/main/java/ru/yandex/practicum/filmorate/storage/InMemoryUserStorage.java:58-91 | patching a stored user with a validated request whose e-mail is unused keeps the store invariant |
| `UserStorage.InMemoryUserStorage.constructor` | src/main/java/ru/yandex/practicum/filmorate/storage/InMemoryUserStorage.java:16 | the store starts empty, with its invariant (friends trivially symmetric) |
| `UserStorage.InMemoryUserStorage.FindAll` | src/main/java/ru/yandex/practicum/filmorate/storage/InMemoryUserStorage.java:19-23 | every stored user exactly once, and nothing else |
| `UserStorage.InMemoryUserStorage.FindUserById` | src/main/java/ru/yandex/practicum/filmorate/storage/InMemoryUserStorage.java:25-31 | the stored user with that id, or NotFound when no stored user has it; never an empty result |
| `UserStorage.InMemoryUserStorage.Create` | src/main/java/ru/yandex/practicum/filmorate/storage/InMemoryUserStorage.java:33-49 | a failed validation returns its error and leaves the map unchanged. Otherwise the user is stored under max key + 1, with the name defaulted to the login and no friends. Earlier entries are unchanged and the invariant holds |
| `UserStorage.InMemoryUserStorage.Update` | src/main/java/ru/yandex/practicum/filmorate/storage/InMemoryUserStorage.java:51-95 | checks in order: no id gives NotFound; an e-mail used by any stored user, the target included, gives Duplicated; a validation error is returned as is; an unknown id gives NotFound; when every check passes and the id is stored the update succeeds. Every failure leaves the map unchanged. On success only the target is patched: e-mail, login and birthday come from the request, and id and friends are kept |
| `FilmService.Insert` | src/main/java/ru/yandex/practicum/filmorate/service/FilmService.java:53-56 | inserting adds exactly that film: one more element and the same multiset plus it |
| `FilmService.InsertKeepsOrder` | src/main/java/ru/yandex/practicum/filmorate/service/FilmService.java:53-56 | inserting into a sequence ordered by descending like count keeps it ordered |
| `FilmService.SortByLikes` | src/main/java/ru/yandex/practicum/filmorate/service/FilmService.java:53-56 | the result is a permutation of the input with like counts non-increasing |
| `FilmService.InsertStable` | src/main/java/ru/yandex/practicum/filmorate/service/FilmService.java:56 | the inserted film comes before every film with its like count |
| `FilmService.SortStable` | src/main/java/ru/yandex/practicum/filmorate/service/FilmService.java:54-56 | for every like count, the films with that count appear in the same relative order as in the input |
| `FilmService.WithLikeCountOfPrefix` | src/main/java/ru/yandex/practicum/filmorate/service/FilmService.java:57 | cutting a sequence keeps a prefix of its films of each like count |
| `FilmService.MostLiked` | src/main/java/ru/yandex/practicum/filmorate/service/FilmService.java:52-58 | min(count, #films) films drawn from the input, like counts non-increasing; every film left out has no more likes than the last one returned |
| `FilmService.MostLikedStable` | src/main/java/ru/yandex/practicum/filmorate/service/FilmService.java:54-57 | among films with equal like counts the result keeps a prefix of their findAll order |
| `FilmService.FilmService.constructor` | src/main/java/ru/yandex/practicum/filmorate/service/FilmService.java:22-23 | the service holds the two stores it is given |
| `FilmService.FilmService.AddLike` | src/main/java/ru/yandex/practicum/filmorate/service/FilmService.java:25-33 | NotFound, with nothing changed, exactly when the user or the film is missing. Otherwise the user id joins that film's likes and every other film is unchanged. A repeated like changes nothing |
| `FilmService.FilmService.DeleteLike` | src/main/java/ru/yandex/practicum/filmorate/service/FilmService.java:35-50 | succeeds exactly when the film exists, holds the like and the user exists; otherwise NotFound with nothing changed. On success exactly that user id leaves that film's likes and every other film is unchanged |
| `FilmService.FilmService.GetMostLiked` | src/main/java/ru/yandex/practicum/filmorate/service/FilmService.java:52-59 | the ranking over a findAll order of the store: min(count, #films) distinct stored films, like counts non-increasing; every stored film left out has no more likes than the last one returned |
| `UserService.Befriend` | src/main/java/ru/yandex/practicum/filmorate/service/UserService.java:32-33 | afterwards b is a friend of a and a of b. Only these two friend sets grow, each by that one id, and nothing else changes |
| `UserService.Unfriend` | src/main/java/ru/yandex/practicum/filmorate/service/UserService.java:50-51 | afterwards b is not a friend of a nor a of b. Only these two friend sets shrink, each by that one id, and nothing else changes |
| `UserService.BefriendKeepsDirectory` | src/main/java/ru/yandex/practicum/filmorate/service/UserService.java:25-35 | befriending two stored users keeps the store invariant, including symmetry of friendship |
| `UserService.UnfriendKeepsDirectory` | src/main/java/ru/yandex/practicum/filmorate/service/UserService.java:37-53 | unfriending two stored users keeps the store invariant, including symmetry of friendship |
| `UserService.ResolvesSameUsers` | src/main/java/ru/yandex/practicum/filmorate/service/UserService.java:78-81 | two lists resolving the same ids hold the same users, whatever their order |
| `UserService.CommonFriendsSymmetric` | src/main/java/ru/yandex/practicum/filmorate/service/UserService.java:75-76 | common friends of (a, b) and of (b, a) are the same users |
| `UserService.UserService.constructor` | src/main/java/ru/yandex/practicum/filmorate/service/UserService.java:23 | the service holds the store it is given |
| `UserService.UserService.AddFriend` | src/main/java/ru/yandex/practicum/filmorate/service/UserService.java:25-35 | NotFound, with nothing changed, exactly when either user is missing. Otherwise the new map is `Befriend` of the old, the invariant holds, and repeating the call changes nothing |
| `UserService.UserService.DeleteFriend` | src/main/java/ru/yandex/practicum/filmorate/service/UserService.java:37-53 | NotFound, with nothing changed, exactly when either user is missing. Otherwise the new map is `Unfriend` of the old and the invariant holds. Removing a non-friend is no error and changes nothing |
| `UserService.UserService.FindAllById` | src/main/java/ru/yandex/practicum/filmorate/service/UserService.java:61-64 | succeeds exactly when every id is stored, and then holds exactly one stored user per id without repeats; otherwise NotFound |
| `UserService.UserService.GetUserFriends` | src/main/java/ru/yandex/practicum/filmorate/service/UserService.java:55-65 | NotFound exactly when the user is missing; otherwise exactly one stored user per friend id |
| `UserService.UserService.GetCommonFriends` | src/main/java/ru/yandex/practicum/filmorate/service/UserService.java:67-82 | NotFound exactly when either user is missing; otherwise exactly one stored user per id in the intersection of the two friend sets, no repeats, and no friend set changes |

## Left out

- Controllers and the exception-to-status mapping (`FilmController`, `UserController`, `ErrorHandler`) are HTTP routing glue, not part of this model. So is logging.
- Concurrency: the source has none.
- Aliasing: `create` stores and returns the caller's own object, so the caller could later change a stored entity through it. The model stores values and does not capture this.
- `Long` overflow of `getNextId` at `Long.MAX_VALUE` is not modelled; ids are unbounded integers.
- `Ids.NextId` is shared by both stores; the source repeats the same code in each.
- Dates: years written with more than four digits after a '+' sign are rejected rather than read. Only the `yyyy-MM-dd` pattern and its SMART resolution are modelled, not the rest of `java.time`.
- String lengths count Unicode scalar values; Java counts UTF-16 code units, so a description with characters outside the Basic Multilingual Plane can be 200 long here and longer in Java.
- `getMostLiked` with a negative `count` throws in `Stream.limit`. `FilmService.FilmService.GetMostLiked` takes a `nat` instead.
- The sort is modelled as stable. Java guarantees this only for ordered streams; `HashMap.values()` gives an unordered one, but its order is arbitrary anyway.
- The `friends == null` branches (UserService.java:40-48, 58-60) and the `NullPointerException` that `getCommonFriends` would raise on a null set are not modelled. Every stored user has a friend set.
- The `catch` in `findFilmById` and the `isEmpty()` test in `deleteLike` are not modelled. Every stored film has an id, and `findUserById` throws instead of returning empty, so neither can fire. An absent user in `DeleteLike` is NotFound from the lookup itself.
- Whether a stored birthday still lies in the past is not kept as an invariant, because it depends on the day.
- That every like names a stored user is not stated as an invariant.
