/** `FilmValidator.validate`: an ordered chain of guards over a film and the stored films;
    the first guard that fails decides the exception. */
module FilmValidator {

  import opened Common
  import opened Text
  import opened Dates
  import opened Model

  const MaxDescription: int := 200
  /** The first public film screening; no film may be released earlier. */
  const FilmStartDate: Date := Date(1895, 12, 28)

  /** `films.containsValue(film)`: some stored film is equal to it, that is, has its name. */
  predicate IsStored(film: Film, films: map<int, Film>)
  {
    exists k :: k in films && SameFilm(films[k], film)
  }

  /** A release-date text that is a date no earlier than the first screening. */
  predicate InCinemaEra(text: string)
  {
    match Parse(text)
    case Some(d) => !IsBefore(d, FilmStartDate)
    case None => false
  }

  /** The field rules of a film, independent of the other stored films. */
  predicate HasValidFields(film: Film)
  {
    && Present(film.name)
    && Present(film.description) && |film.description.value| <= MaxDescription
    && Present(film.releaseDate) && InCinemaEra(film.releaseDate.value)
    && film.duration > 0
  }

  function Validate(film: Film, films: map<int, Film>): (r: Outcome)
    // succeeds exactly when every rule holds
    ensures r == Pass <==> HasValidFields(film) && !IsStored(film, films)
    // 1. name
    ensures !Present(film.name) ==> r == Fail(NotFound)
    // 2. duplicate, by name only
    ensures r == Fail(Duplicated) <==> Present(film.name) && IsStored(film, films)
    // 3. description
    ensures Present(film.name) && !IsStored(film, films) ==>
              (!Present(film.description) ==> r == Fail(NotFound))
              && (Present(film.description) && |film.description.value| > MaxDescription ==> r == Fail(ConditionsNotMet))
    // 4. release date
    ensures Present(film.name) && !IsStored(film, films)
            && Present(film.description) && |film.description.value| <= MaxDescription ==>
              (!Present(film.releaseDate) ==> r == Fail(NotFound))
              && (Present(film.releaseDate) && !InCinemaEra(film.releaseDate.value) ==> r == Fail(ConditionsNotMet))
    // 5. duration
    ensures Present(film.name) && !IsStored(film, films)
            && Present(film.description) && |film.description.value| <= MaxDescription
            && Present(film.releaseDate) && InCinemaEra(film.releaseDate.value) ==>
              (r == Pass <==> film.duration > 0)
              && (film.duration <= 0 ==> r == Fail(ConditionsNotMet))
  {
    if !Present(film.name) then Fail(NotFound)
    else if IsStored(film, films) then Fail(Duplicated)
    else if !Present(film.description) then Fail(NotFound)
    else if |film.description.value| > MaxDescription then Fail(ConditionsNotMet)
    else if !Present(film.releaseDate) then Fail(NotFound)
    else if Parse(film.releaseDate.value).None? then Fail(ConditionsNotMet)
    else if IsBefore(Parse(film.releaseDate.value).value, FilmStartDate) then Fail(ConditionsNotMet)
    else if film.duration <= 0 then Fail(ConditionsNotMet)
    else Pass
  }

  /** The names stored in a film map. */
  function StoredNames(films: map<int, Film>): set<Option<string>>
  {
    set k | k in films :: films[k].name
  }

  lemma {:induction false} StoredIffNameStored(film: Film, films: map<int, Film>)
    ensures IsStored(film, films) <==> film.name in StoredNames(films)
  {
    if film.name in StoredNames(films) {
      var k :| k in films && films[k].name == film.name;
      assert SameFilm(films[k], film);
    }
    if IsStored(film, films) {
      var k :| k in films && SameFilm(films[k], film);
      assert films[k].name in StoredNames(films);
    }
  }

  /** Only the stored names matter: two stores with the same names judge every film alike. */
  lemma {:induction false} OnlyStoredNamesMatter(film: Film, films: map<int, Film>, others: map<int, Film>)
    requires StoredNames(films) == StoredNames(others)
    ensures Validate(film, films) == Validate(film, others)
  {
    StoredIffNameStored(film, films);
    StoredIffNameStored(film, others);
  }

  /** A release on the day of the first screening is accepted: `isBefore` is strict. */
  lemma FirstScreeningDayAccepted()
    ensures InCinemaEra("1895-12-28")
    ensures !InCinemaEra("1895-12-27")
  {
    assert Parse("1895-12-28") == Some(FilmStartDate);
    assert Parse("1895-12-27") == Some(Date(1895, 12, 27));
  }

  /** A date without separators, such as "10102010", is malformed. */
  lemma UnseparatedDateIsMalformed(film: Film, films: map<int, Film>)
    requires Present(film.name) && !IsStored(film, films)
    requires Present(film.description) && |film.description.value| <= MaxDescription
    requires film.releaseDate == Some("10102010")
    ensures Validate(film, films) == Fail(ConditionsNotMet)
  {
    assert !IsBlank("10102010") by { assert !IsWhitespace("10102010"[0]); }
  }
}
