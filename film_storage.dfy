/** `InMemoryFilmStorage`: the films, keyed by id, in a map that `create` and `update`
    change in place. */
module FilmStorage {

  import opened Common
  import opened Model
  import opened Ids
  import FilmValidator

  /** Each film is stored under its own id. */
  ghost predicate StoredUnderOwnId(films: map<int, Film>)
  {
    forall k :: k in films ==> films[k].id == Some(k)
  }

  /** Each stored film meets the field rules. */
  ghost predicate AllHaveValidFields(films: map<int, Film>)
  {
    forall k :: k in films ==> FilmValidator.HasValidFields(films[k])
  }

  /** No two stored films are equal, that is, share a name. */
  ghost predicate NamesDistinct(films: map<int, Film>)
  {
    forall j, k :: j in films && k in films && j != k ==> films[j].name != films[k].name
  }

  /** What every reachable film map satisfies. */
  ghost predicate Catalogue(films: map<int, Film>)
  {
    Dense(films.Keys) && StoredUnderOwnId(films) && AllHaveValidFields(films) && NamesDistinct(films)
  }

  /** The pre-check of `update`: some stored film, the target included, has the requested name. */
  predicate NameInUse(newFilm: Film, films: map<int, Film>)
  {
    newFilm.name.Some? && exists k :: k in films && films[k].name == newFilm.name
  }

  /** The field-by-field overwrite of `update`: a `null` field and a duration that is not
      positive leave the stored value; the id and the likes are never touched. */
  function Patch(stored: Film, newFilm: Film): (r: Film)
    ensures r.id == stored.id && r.likes == stored.likes
    ensures newFilm.name.Some? ==> r.name == newFilm.name
    ensures newFilm.name.None? ==> r.name == stored.name
    ensures newFilm.description.Some? ==> r.description == newFilm.description
    ensures newFilm.description.None? ==> r.description == stored.description
    ensures newFilm.releaseDate.Some? ==> r.releaseDate == newFilm.releaseDate
    ensures newFilm.releaseDate.None? ==> r.releaseDate == stored.releaseDate
    ensures r.duration == if newFilm.duration > 0 then newFilm.duration else stored.duration
  {
    var name := if newFilm.name.Some? then newFilm.name else stored.name;
    var description := if newFilm.description.Some? then newFilm.description else stored.description;
    var releaseDate := if newFilm.releaseDate.Some? then newFilm.releaseDate else stored.releaseDate;
    var duration := if newFilm.duration > 0 then newFilm.duration else stored.duration;
    stored.(name := name, description := description, releaseDate := releaseDate, duration := duration)
  }

  /** A film that passed validation has every field set, so patching with it replaces
      every field but the id and the likes. */
  lemma PatchWithValidFilm(stored: Film, newFilm: Film)
    requires FilmValidator.HasValidFields(newFilm)
    ensures Patch(stored, newFilm) == newFilm.(id := stored.id, likes := stored.likes)
  {
  }

  lemma {:induction false} InsertKeepsNamesDistinct(films: map<int, Film>, film: Film, id: int)
    requires NamesDistinct(films) && !FilmValidator.IsStored(film, films) && id !in films
    ensures NamesDistinct(films[id := film.(id := Some(id), likes := {})])
  {
    assert forall k :: k in films ==> films[k].name != film.name;
  }

  /** Storing a film that passed validation under the next id keeps the catalogue. */
  lemma {:induction false} InsertKeepsCatalogue(films: map<int, Film>, film: Film, id: int)
    requires Catalogue(films)
    requires FilmValidator.HasValidFields(film) && !FilmValidator.IsStored(film, films)
    requires id == |films| + 1
    ensures Catalogue(films[id := film.(id := Some(id), likes := {})])
  {
    var films' := films[id := film.(id := Some(id), likes := {})];
    NextOfDense(films.Keys, id);
    assert films'.Keys == films.Keys + {id};
    assert StoredUnderOwnId(films');
    assert AllHaveValidFields(films');
    InsertKeepsNamesDistinct(films, film, id);
  }

  /** Changing the likes of a stored film keeps the catalogue: no rule looks at likes. */
  lemma {:induction false} SetLikesKeepsCatalogue(films: map<int, Film>, id: int, likes: set<int>)
    requires Catalogue(films) && id in films
    ensures Catalogue(films[id := films[id].(likes := likes)])
  {
    var films' := films[id := films[id].(likes := likes)];
    assert films'.Keys == films.Keys;
    assert StoredUnderOwnId(films');
    assert AllHaveValidFields(films');
    assert NamesDistinct(films');
  }

  class InMemoryFilmStorage {
    var films: map<int, Film>

    ghost predicate Valid()
      reads this
    {
      Catalogue(films)
    }

    constructor()
      ensures Valid() && films == map[]
    {
      films := map[];
    }

    /** `findAll`: the stored films, each once, in an order the caller cannot rely on. */
    method FindAll() returns (all: seq<Film>)
      requires Valid()
      ensures |all| == |films|
      ensures forall i :: 0 <= i < |all| ==> all[i] in films.Values
      ensures forall k :: k in films ==> films[k] in all
      ensures forall i, j :: 0 <= i < j < |all| ==> all[i] != all[j]
    {
      all := [];
      var rest := films.Keys;
      while rest != {}
        invariant rest <= films.Keys
        invariant |all| + |rest| == |films|
        invariant forall i :: 0 <= i < |all| ==>
                    all[i].id.Some? && all[i].id.value in films && all[i].id.value !in rest && films[all[i].id.value] == all[i]
        invariant forall k :: k in films && k !in rest ==> films[k] in all
        invariant forall i, j :: 0 <= i < j < |all| ==> all[i] != all[j]
        decreases rest
      {
        HasElement(rest);
        var k :| k in rest;
        all := all + [films[k]];
        rest := rest - {k};
      }
    }

    /** `findFilmById`: the film whose id is `id`, if any. */
    function FindFilmById(id: int): (r: Option<Film>)
      reads this
      requires Valid()
      ensures r.Some? ==> r.value in films.Values && r.value.id == Some(id)
      ensures r.None? ==> forall k :: k in films ==> films[k].id != Some(id)
    {
      if id in films then Some(films[id]) else None
    }

    /** `create`: validate, take the next id, store. A new film has no likes. */
    method Create(film: Film) returns (r: Result<Film>)
      requires Valid()
      modifies this
      ensures Valid()
      ensures FilmValidator.Validate(film, old(films)).Fail? ==>
                r == Err(FilmValidator.Validate(film, old(films)).kind) && films == old(films)
      ensures FilmValidator.Validate(film, old(films)) == Pass ==>
                && r == Ok(film.(id := Some(|old(films)| + 1), likes := {}))
                && films == old(films)[|old(films)| + 1 := r.value]
      ensures forall k :: k in old(films) ==> k in films && films[k] == old(films)[k]
    {
      var check := FilmValidator.Validate(film, films);
      if check.Fail? {
        return Err(check.kind);
      }
      var id := NextId(films.Keys);
      NextOfDense(films.Keys, id);
      var stored := film.(id := Some(id), likes := {});
      InsertKeepsCatalogue(films, film, id);
      films := films[id := stored];
      r := Ok(stored);
    }

    /** `update`: id given, name not in use by any stored film (the target included),
        validation, id stored, in that order; then the stored film is patched. */
    method Update(newFilm: Film) returns (r: Result<Film>)
      requires Valid()
      modifies this
      ensures Valid()
      ensures newFilm.id.None? ==> r == Err(NotFound)
      ensures newFilm.id.Some? && NameInUse(newFilm, old(films)) ==> r == Err(Duplicated)
      ensures newFilm.id.Some? && !NameInUse(newFilm, old(films)) && FilmValidator.Validate(newFilm, old(films)).Fail? ==>
                r == Err(FilmValidator.Validate(newFilm, old(films)).kind)
      ensures (newFilm.id.Some? && !NameInUse(newFilm, old(films)) && FilmValidator.Validate(newFilm, old(films)) == Pass
               && newFilm.id.value !in old(films)) ==> r == Err(NotFound)
      ensures (newFilm.id.Some? && !NameInUse(newFilm, old(films)) && FilmValidator.Validate(newFilm, old(films)) == Pass
               && newFilm.id.value in old(films)) ==> r.Ok?
      ensures r.Err? ==> films == old(films)
      ensures r.Ok? ==>
                && newFilm.id.Some? && newFilm.id.value in old(films)
                && films == old(films)[newFilm.id.value := Patch(old(films)[newFilm.id.value], newFilm)]
                && r.value == films[newFilm.id.value]
                && r.value == newFilm.(likes := old(films)[newFilm.id.value].likes)
    {
      if newFilm.id.None? {
        return Err(NotFound);
      }
      if NameInUse(newFilm, films) {
        return Err(Duplicated);
      }
      var check := FilmValidator.Validate(newFilm, films);
      if check.Fail? {
        return Err(check.kind);
      }
      var id := newFilm.id.value;
      if id !in films {
        return Err(NotFound);
      }
      var patched := Patch(films[id], newFilm);
      PatchWithValidFilm(films[id], newFilm);
      films := films[id := patched];
      r := Ok(patched);
    }
  }
}
