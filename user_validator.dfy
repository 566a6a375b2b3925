/** `UserValidator.validate`: the guard chain for users. `LocalDate.now()` is the
    parameter `today`. The display name is never looked at. */
module UserValidator {

  import opened Common
  import opened Text
  import opened Dates
  import opened Model

  /** `users.containsValue(user)`: some stored user has its e-mail. */
  predicate IsStored(user: User, users: map<int, User>)
  {
    exists k :: k in users && SameUser(users[k], user)
  }

  /** A birthday text that is a date no later than `today`. */
  predicate BornBy(text: string, today: Date)
  {
    match Parse(text)
    case Some(d) => !IsAfter(d, today)
    case None => false
  }

  /** An e-mail that is present and has an '@'. */
  predicate IsEmail(email: Option<string>)
  {
    Present(email) && Contains(email.value, '@')
  }

  /** A login that is present and has no space. */
  predicate IsLogin(login: Option<string>)
  {
    Present(login) && !Contains(login.value, ' ')
  }

  /** The field rules of a user, independent of the other stored users. */
  predicate HasValidFields(user: User, today: Date)
  {
    && IsEmail(user.email)
    && IsLogin(user.login)
    && Present(user.birthday) && BornBy(user.birthday.value, today)
  }

  function Validate(user: User, users: map<int, User>, today: Date): (r: Outcome)
    // succeeds exactly when every rule holds
    ensures r == Pass <==> HasValidFields(user, today) && !IsStored(user, users)
    // 1. e-mail
    ensures !Present(user.email) ==> r == Fail(NotFound)
    ensures Present(user.email) && !Contains(user.email.value, '@') ==> r == Fail(ConditionsNotMet)
    // 2. duplicate, by e-mail only, and only once the e-mail is well formed
    ensures r == Fail(Duplicated) <==> IsEmail(user.email) && IsStored(user, users)
    // 3. login
    ensures IsEmail(user.email) && !IsStored(user, users) ==>
              (!Present(user.login) ==> r == Fail(NotFound))
              && (Present(user.login) && Contains(user.login.value, ' ') ==> r == Fail(ConditionsNotMet))
    // 4. birthday: missing and unreadable are both NotFound, a future date is ConditionsNotMet
    ensures IsEmail(user.email) && !IsStored(user, users) && IsLogin(user.login) ==>
              (!Present(user.birthday) ==> r == Fail(NotFound))
              && (Present(user.birthday) && Parse(user.birthday.value).None? ==> r == Fail(NotFound))
              && (Present(user.birthday) && Parse(user.birthday.value).Some? ==>
                    (r == Fail(ConditionsNotMet) <==> IsAfter(Parse(user.birthday.value).value, today)))
  {
    if !Present(user.email) then Fail(NotFound)
    else if !Contains(user.email.value, '@') then Fail(ConditionsNotMet)
    else if IsStored(user, users) then Fail(Duplicated)
    else if !Present(user.login) then Fail(NotFound)
    else if Contains(user.login.value, ' ') then Fail(ConditionsNotMet)
    else if !Present(user.birthday) then Fail(NotFound)
    else if Parse(user.birthday.value).None? then Fail(NotFound)
    else if IsAfter(Parse(user.birthday.value).value, today) then Fail(ConditionsNotMet)
    else Pass
  }

  /** The display name takes no part in validation. */
  lemma NameIsIgnored(user: User, name: Option<string>, users: map<int, User>, today: Date)
    ensures Validate(user.(name := name), users, today) == Validate(user, users, today)
  {
    if IsStored(user, users) {
      var k :| k in users && SameUser(users[k], user);
      assert SameUser(users[k], user.(name := name));
    }
    if IsStored(user.(name := name), users) {
      var k :| k in users && SameUser(users[k], user.(name := name));
      assert SameUser(users[k], user);
    }
  }

  /** A birthday of today passes; `isAfter` is strict. */
  lemma {:induction false} BornTodayAccepted(d: Date)
    requires IsValid(d)
    ensures BornBy(Format(d), d)
  {
    ParseFormat(d);
  }
}
