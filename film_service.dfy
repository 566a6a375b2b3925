/** `FilmService`: likes, which change a stored film's set of user ids in place, and the
    "most liked" ranking, a stable sort by descending like count cut to a length. */
module FilmService {

  import opened Common
  import opened Model
  import opened FilmStorage
  import opened UserStorage

  function LikeCount(f: Film): nat
  {
    |f.likes|
  }

  /** Like counts never increase along `s`. */
  ghost predicate ByLikesDescending(s: seq<Film>)
  {
    forall i, j :: 0 <= i < j < |s| ==> LikeCount(s[i]) >= LikeCount(s[j])
  }

  /** No film occurs twice in `s`. */
  ghost predicate Distinct(s: seq<Film>)
  {
    forall i, j :: 0 <= i < j < |s| ==> s[i] != s[j]
  }

  /** The films of `s` with exactly `n` likes, in the order of `s`. */
  function WithLikeCount(s: seq<Film>, n: nat): seq<Film>
  {
    if s == [] then [] else (if LikeCount(s[0]) == n then [s[0]] else []) + WithLikeCount(s[1..], n)
  }

  /** Puts `f` in front of the first film of `sorted` with fewer likes, so after every film
      with at least as many. */
  function Insert(f: Film, sorted: seq<Film>): (r: seq<Film>)
    ensures |r| == |sorted| + 1
    ensures multiset(r) == multiset(sorted) + multiset{f}
  {
    if sorted == [] || LikeCount(f) >= LikeCount(sorted[0]) then [f] + sorted
    else
      assert sorted == [sorted[0]] + sorted[1..];
      [sorted[0]] + Insert(f, sorted[1..])
  }

  /** Inserting into a ranking gives a ranking. */
  lemma {:induction false} InsertKeepsOrder(f: Film, sorted: seq<Film>)
    requires ByLikesDescending(sorted)
    ensures ByLikesDescending(Insert(f, sorted))
  {
    if sorted != [] && LikeCount(f) < LikeCount(sorted[0]) {
      var rest := Insert(f, sorted[1..]);
      InsertKeepsOrder(f, sorted[1..]);
      forall x | x in rest ensures LikeCount(x) <= LikeCount(sorted[0]) {
        assert x in multiset(rest);
        assert x == f || x in sorted[1..];
      }
      var r := [sorted[0]] + rest;
      forall i, j | 0 <= i < j < |r| ensures LikeCount(r[i]) >= LikeCount(r[j]) {
        if i == 0 {
          assert r[j] == rest[j - 1];
        } else {
          assert r[i] == rest[i - 1] && r[j] == rest[j - 1];
        }
      }
    }
  }

  /** `sorted(comparing(likes.size(), reverseOrder()))`: an insertion sort, stable like the
      merge sort behind `Stream.sorted`. */
  function SortByLikes(s: seq<Film>): (r: seq<Film>)
    ensures |r| == |s|
    ensures multiset(r) == multiset(s)
    ensures ByLikesDescending(r)
  {
    if s == [] then []
    else
      assert s == [s[0]] + s[1..];
      InsertKeepsOrder(s[0], SortByLikes(s[1..]));
      Insert(s[0], SortByLikes(s[1..]))
  }

  /** Inserting `f` keeps it ahead of every film with its like count. */
  lemma {:induction false} InsertStable(f: Film, sorted: seq<Film>, n: nat)
    ensures WithLikeCount(Insert(f, sorted), n) == (if LikeCount(f) == n then [f] else []) + WithLikeCount(sorted, n)
  {
    if sorted == [] || LikeCount(f) >= LikeCount(sorted[0]) {
      assert ([f] + sorted)[1..] == sorted;
    } else {
      InsertStable(f, sorted[1..], n);
      assert ([sorted[0]] + Insert(f, sorted[1..]))[1..] == Insert(f, sorted[1..]);
    }
  }

  /** The sort is stable: films with the same like count keep their relative order. */
  lemma {:induction false} SortStable(s: seq<Film>, n: nat)
    ensures WithLikeCount(SortByLikes(s), n) == WithLikeCount(s, n)
  {
    if s != [] {
      SortStable(s[1..], n);
      InsertStable(s[0], SortByLikes(s[1..]), n);
    }
  }

  /** Cutting a sequence keeps a prefix of its films of each like count. */
  lemma {:induction false} WithLikeCountOfPrefix(s: seq<Film>, k: nat, n: nat)
    requires k <= |s|
    ensures WithLikeCount(s[..k], n) <= WithLikeCount(s, n)
  {
    if k > 0 {
      WithLikeCountOfPrefix(s[1..], k - 1, n);
      assert s[..k][1..] == s[1..][..k - 1];
    }
  }

  function Min(a: int, b: int): int
  {
    if a <= b then a else b
  }

  /** `getMostLiked` on the films in `findAll` order: at most `count` films with the most
      likes, most liked first. */
  function MostLiked(all: seq<Film>, count: nat): (top: seq<Film>)
    ensures |top| == Min(count, |all|)
    ensures multiset(top) <= multiset(all)
    ensures ByLikesDescending(top)
    ensures forall f :: f in all && f !in top && top != [] ==> LikeCount(f) <= LikeCount(top[|top| - 1])
  {
    var sorted := SortByLikes(all);
    var top := sorted[..Min(count, |all|)];
    assert sorted == top + sorted[|top|..];
    assert forall f :: f in all && f !in top ==> f in sorted[|top|..] by {
      forall f | f in all && f !in top ensures f in sorted[|top|..] {
        assert f in multiset(sorted);
      }
    }
    top
  }

  /** Among films with equal like counts the ranking keeps the `findAll` order. */
  lemma {:induction false} MostLikedStable(all: seq<Film>, count: nat, n: nat)
    ensures WithLikeCount(MostLiked(all, count), n) <= WithLikeCount(all, n)
  {
    WithLikeCountOfPrefix(SortByLikes(all), Min(count, |all|), n);
    SortStable(all, n);
  }

  lemma {:induction false} DistinctCountsOnce(s: seq<Film>, x: Film)
    requires Distinct(s)
    ensures multiset(s)[x] <= 1
  {
    if s != [] {
      assert s == [s[0]] + s[1..];
      DistinctCountsOnce(s[1..], x);
      if x == s[0] {
        assert x !in s[1..];
      }
    }
  }

  /** A sub-multiset of a sequence without repeats has no repeats. */
  lemma {:induction false} SubMultisetDistinct(s: seq<Film>, t: seq<Film>)
    requires Distinct(s) && multiset(t) <= multiset(s)
    ensures Distinct(t)
  {
    forall i, j | 0 <= i < j < |t| ensures t[i] != t[j] {
      if t[i] == t[j] {
        assert t == t[..j] + t[j..];
        assert t[i] in multiset(t[..j]) && t[j] in multiset(t[j..]);
        DistinctCountsOnce(s, t[i]);
        assert false;
      }
    }
  }

  class FilmService {
    const filmStorage: InMemoryFilmStorage
    const userStorage: InMemoryUserStorage

    constructor(filmStorage: InMemoryFilmStorage, userStorage: InMemoryUserStorage)
      ensures this.filmStorage == filmStorage && this.userStorage == userStorage
    {
      this.filmStorage := filmStorage;
      this.userStorage := userStorage;
    }

    /** `addLike`: the user must exist, then the film; the user id joins the film's likes. */
    method AddLike(filmId: int, userId: int) returns (r: Outcome)
      requires filmStorage.Valid() && userStorage.Valid()
      modifies filmStorage
      ensures filmStorage.Valid()
      ensures r.Fail? <==> userId !in userStorage.users || filmId !in old(filmStorage.films)
      ensures r.Fail? ==> r.kind == NotFound && filmStorage.films == old(filmStorage.films)
      ensures r.Pass? ==>
                && filmStorage.films.Keys == old(filmStorage.films).Keys
                && filmStorage.films[filmId] == old(filmStorage.films)[filmId].(likes := old(filmStorage.films)[filmId].likes + {userId})
                && (forall k :: k in filmStorage.films && k != filmId ==> filmStorage.films[k] == old(filmStorage.films)[k])
      ensures r.Pass? && userId in old(filmStorage.films)[filmId].likes ==> filmStorage.films == old(filmStorage.films)
    {
      var user := userStorage.FindUserById(userId);
      if user.Err? {
        return Fail(NotFound);
      }
      var film := filmStorage.FindFilmById(filmId);
      if film.None? {
        return Fail(NotFound);
      }
      var liked := film.value.(likes := film.value.likes + {userId});
      if userId in film.value.likes {
        assert liked == film.value;
        assert filmStorage.films[filmId := liked] == filmStorage.films;
      }
      SetLikesKeepsCatalogue(filmStorage.films, filmId, liked.likes);
      filmStorage.films := filmStorage.films[filmId := liked];
      r := Pass;
    }

    /** `deleteLike`: the film must exist, hold the like, and the user must exist; then the
        user id leaves the film's likes. */
    method DeleteLike(filmId: int, userId: int) returns (r: Outcome)
      requires filmStorage.Valid() && userStorage.Valid()
      modifies filmStorage
      ensures filmStorage.Valid()
      ensures r.Pass? <==> filmId in old(filmStorage.films) && userId in old(filmStorage.films)[filmId].likes
                           && userId in userStorage.users
      ensures r.Fail? ==> r.kind == NotFound && filmStorage.films == old(filmStorage.films)
      ensures r.Pass? ==>
                && filmStorage.films.Keys == old(filmStorage.films).Keys
                && filmStorage.films[filmId] == old(filmStorage.films)[filmId].(likes := old(filmStorage.films)[filmId].likes - {userId})
                && (forall k :: k in filmStorage.films && k != filmId ==> filmStorage.films[k] == old(filmStorage.films)[k])
    {
      var film := filmStorage.FindFilmById(filmId);
      if film.None? {
        return Fail(NotFound);
      }
      if userId !in film.value.likes {
        return Fail(NotFound);
      }
      var user := userStorage.FindUserById(userId);
      if user.Err? {
        return Fail(NotFound);
      }
      var unliked := film.value.(likes := film.value.likes - {userId});
      SetLikesKeepsCatalogue(filmStorage.films, filmId, unliked.likes);
      filmStorage.films := filmStorage.films[filmId := unliked];
      r := Pass;
    }

    /** `getMostLiked`: the ranking over the films in the order `findAll` gives them. */
    method GetMostLiked(count: nat) returns (top: seq<Film>, ghost order: seq<Film>)
      requires filmStorage.Valid()
      ensures |order| == |filmStorage.films| && Distinct(order)
      ensures forall k :: k in filmStorage.films ==> filmStorage.films[k] in order
      ensures top == MostLiked(order, count)
      ensures |top| == Min(count, |filmStorage.films|)
      ensures Distinct(top)
      ensures forall i :: 0 <= i < |top| ==> top[i] in filmStorage.films.Values
      ensures ByLikesDescending(top)
      ensures forall k :: k in filmStorage.films && filmStorage.films[k] !in top && top != [] ==>
                LikeCount(filmStorage.films[k]) <= LikeCount(top[|top| - 1])
    {
      var all := filmStorage.FindAll();
      order := all;
      top := MostLiked(all, count);
      SubMultisetDistinct(all, top);
      assert forall i :: 0 <= i < |top| ==> top[i] in all by {
        forall i | 0 <= i < |top| ensures top[i] in all {
          assert top[i] in multiset(top);
        }
      }
    }
  }
}
