/** `InMemoryUserStorage`: the users, keyed by id, in a map that `create` and `update`
    change in place and that the friend operations of the user service also change. */
module UserStorage {

  import opened Common
  import opened Text
  import opened Dates
  import opened Model
  import opened Ids
  import UserValidator

  /** Each user is stored under its own id. */
  ghost predicate StoredUnderOwnId(users: map<int, User>)
  {
    forall k :: k in users ==> users[k].id == Some(k)
  }

  /** What validation at creation and at every update leaves in a stored user: a good
      e-mail and login, a readable birthday, and a display name. Whether the birthday
      lies in the past depends on the day and is not kept. */
  ghost predicate AllWellFormed(users: map<int, User>)
  {
    forall k :: k in users ==>
      && UserValidator.IsEmail(users[k].email)
      && UserValidator.IsLogin(users[k].login)
      && users[k].birthday.Some? && Parse(users[k].birthday.value).Some?
      && users[k].name.Some?
  }

  /** No two stored users are equal, that is, share an e-mail. */
  ghost predicate EmailsDistinct(users: map<int, User>)
  {
    forall j, k :: j in users && k in users && j != k ==> users[j].email != users[k].email
  }

  /** Every friend id names a stored user. */
  ghost predicate FriendsKnown(users: map<int, User>)
  {
    forall k, f :: k in users && f in users[k].friends ==> f in users
  }

  /** Friendship is symmetric: b is a friend of a exactly when a is a friend of b. */
  ghost predicate FriendsMutual(users: map<int, User>)
  {
    forall j, k :: j in users && k in users && k in users[j].friends ==> j in users[k].friends
  }

  /** What every reachable user map satisfies. */
  ghost predicate Directory(users: map<int, User>)
  {
    && Dense(users.Keys) && StoredUnderOwnId(users) && AllWellFormed(users) && EmailsDistinct(users)
    && FriendsKnown(users) && FriendsMutual(users)
  }

  /** The pre-check of `update`: some stored user, the target included, has the requested e-mail. */
  predicate EmailInUse(newUser: User, users: map<int, User>)
  {
    newUser.email.Some? && exists k :: k in users && users[k].email == newUser.email
  }

  /** The display name `create` stores: the login when the name is missing or blank. */
  function DisplayName(user: User): (name: Option<string>)
    ensures Present(user.name) ==> name == user.name
    ensures !Present(user.name) ==> name == user.login
  {
    if Present(user.name) then user.name else user.login
  }

  /** The field-by-field overwrite of `update`: a `null` field leaves the stored value; a
      blank name is stored as it is; the id and the friends are never touched. */
  function Patch(stored: User, newUser: User): (r: User)
    ensures r.id == stored.id && r.friends == stored.friends
    ensures r.email == if newUser.email.Some? then newUser.email else stored.email
    ensures r.login == if newUser.login.Some? then newUser.login else stored.login
    ensures r.name == if newUser.name.Some? then newUser.name else stored.name
    ensures r.birthday == if newUser.birthday.Some? then newUser.birthday else stored.birthday
  {
    var email := if newUser.email.Some? then newUser.email else stored.email;
    var login := if newUser.login.Some? then newUser.login else stored.login;
    var name := if newUser.name.Some? then newUser.name else stored.name;
    var birthday := if newUser.birthday.Some? then newUser.birthday else stored.birthday;
    stored.(email := email, login := login, name := name, birthday := birthday)
  }

  lemma {:induction false} InsertKeepsEmailsDistinct(users: map<int, User>, user: User, stored: User, id: int)
    requires EmailsDistinct(users) && !UserValidator.IsStored(user, users) && id !in users
    requires stored.email == user.email
    ensures EmailsDistinct(users[id := stored])
  {
    assert forall k :: k in users ==> users[k].email != user.email;
  }

  /** A user without friends, under a fresh id, is nobody's friend: the friend graph stays closed and symmetric. */
  lemma {:induction false} InsertKeepsFriendGraph(users: map<int, User>, stored: User, id: int)
    requires FriendsKnown(users) && FriendsMutual(users) && id !in users && stored.friends == {}
    ensures FriendsKnown(users[id := stored]) && FriendsMutual(users[id := stored])
  {
    assert forall k :: k in users ==> id !in users[k].friends;
  }

  /** Storing a user that passed validation, with no friends, under the next id keeps the directory. */
  lemma {:induction false} InsertKeepsDirectory(users: map<int, User>, user: User, id: int, today: Date)
    requires Directory(users)
    requires UserValidator.HasValidFields(user, today) && !UserValidator.IsStored(user, users)
    requires id == |users| + 1
    ensures Directory(users[id := user.(name := DisplayName(user), id := Some(id), friends := {})])
  {
    var stored := user.(name := DisplayName(user), id := Some(id), friends := {});
    var users' := users[id := stored];
    NextOfDense(users.Keys, id);
    assert users'.Keys == users.Keys + {id};
    assert StoredUnderOwnId(users');
    assert AllWellFormed(users');
    InsertKeepsEmailsDistinct(users, user, stored, id);
    InsertKeepsFriendGraph(users, stored, id);
  }

  /** Patching a stored user with one that passed validation and whose e-mail is unused keeps the directory. */
  lemma {:induction false} PatchKeepsDirectory(users: map<int, User>, newUser: User, id: int, today: Date)
    requires Directory(users) && id in users
    requires UserValidator.HasValidFields(newUser, today) && !EmailInUse(newUser, users)
    ensures Directory(users[id := Patch(users[id], newUser)])
  {
    var users' := users[id := Patch(users[id], newUser)];
    assert users'.Keys == users.Keys;
    assert StoredUnderOwnId(users');
    assert AllWellFormed(users');
    assert forall k :: k in users ==> users[k].email != newUser.email;
    assert EmailsDistinct(users');
    assert FriendsKnown(users');
    assert FriendsMutual(users');
  }

  class InMemoryUserStorage {
    var users: map<int, User>

    ghost predicate Valid()
      reads this
    {
      Directory(users)
    }

    constructor()
      ensures Valid() && users == map[]
    {
      users := map[];
    }

    /** `findAll`: the stored users, each once, in an order the caller cannot rely on. */
    method FindAll() returns (all: seq<User>)
      requires Valid()
      ensures |all| == |users|
      ensures forall i :: 0 <= i < |all| ==> all[i] in users.Values
      ensures forall k :: k in users ==> users[k] in all
      ensures forall i, j :: 0 <= i < j < |all| ==> all[i] != all[j]
    {
      all := [];
      var rest := users.Keys;
      while rest != {}
        invariant rest <= users.Keys
        invariant |all| + |rest| == |users|
        invariant forall i :: 0 <= i < |all| ==>
                    all[i].id.Some? && all[i].id.value in users && all[i].id.value !in rest && users[all[i].id.value] == all[i]
        invariant forall k :: k in users && k !in rest ==> users[k] in all
        invariant forall i, j :: 0 <= i < j < |all| ==> all[i] != all[j]
        decreases rest
      {
        HasElement(rest);
        var k :| k in rest;
        all := all + [users[k]];
        rest := rest - {k};
      }
    }

    /** `findUserById`: the user whose id is `id`; an absent id is NotFound, never an empty result. */
    function FindUserById(id: int): (r: Result<User>)
      reads this
      requires Valid()
      ensures r.Ok? ==> r.value in users.Values && r.value.id == Some(id)
      ensures r.Err? ==> r.kind == NotFound && forall k :: k in users ==> users[k].id != Some(id)
    {
      if id in users then Ok(users[id]) else Err(NotFound)
    }

    /** `create`: validate, default the name to the login, take the next id, start with no
        friends, store. */
    method Create(user: User, today: Date) returns (r: Result<User>)
      requires Valid()
      modifies this
      ensures Valid()
      ensures UserValidator.Validate(user, old(users), today).Fail? ==>
                r == Err(UserValidator.Validate(user, old(users), today).kind) && users == old(users)
      ensures UserValidator.Validate(user, old(users), today) == Pass ==>
                && r.Ok?
                && r.value == user.(name := DisplayName(user), id := Some(|old(users)| + 1), friends := {})
                && users == old(users)[|old(users)| + 1 := r.value]
      ensures forall k :: k in old(users) ==> k in users && users[k] == old(users)[k]
    {
      var check := UserValidator.Validate(user, users, today);
      if check.Fail? {
        return Err(check.kind);
      }
      var named := if !Present(user.name) then user.(name := user.login) else user;
      var id := NextId(users.Keys);
      NextOfDense(users.Keys, id);
      var stored := named.(id := Some(id), friends := {});
      InsertKeepsDirectory(users, user, id, today);
      users := users[id := stored];
      r := Ok(stored);
    }

    /** `update`: id given, e-mail not in use by any stored user (the target included),
        validation, id stored, in that order; then the stored user is patched. */
    method Update(newUser: User, today: Date) returns (r: Result<User>)
      requires Valid()
      modifies this
      ensures Valid()
      ensures newUser.id.None? ==> r == Err(NotFound)
      ensures newUser.id.Some? && EmailInUse(newUser, old(users)) ==> r == Err(Duplicated)
      ensures (newUser.id.Some? && !EmailInUse(newUser, old(users))
               && UserValidator.Validate(newUser, old(users), today).Fail?) ==>
                r == Err(UserValidator.Validate(newUser, old(users), today).kind)
      ensures (newUser.id.Some? && !EmailInUse(newUser, old(users))
               && UserValidator.Validate(newUser, old(users), today) == Pass
               && newUser.id.value !in old(users)) ==> r == Err(NotFound)
      ensures (newUser.id.Some? && !EmailInUse(newUser, old(users))
               && UserValidator.Validate(newUser, old(users), today) == Pass
               && newUser.id.value in old(users)) ==> r.Ok?
      ensures r.Err? ==> users == old(users)
      ensures r.Ok? ==>
                && newUser.id.Some? && newUser.id.value in old(users)
                && users == old(users)[newUser.id.value := Patch(old(users)[newUser.id.value], newUser)]
                && r.value == users[newUser.id.value]
                && r.value.email == newUser.email && r.value.login == newUser.login
                && r.value.birthday == newUser.birthday
    {
      if newUser.id.None? {
        return Err(NotFound);
      }
      if EmailInUse(newUser, users) {
        return Err(Duplicated);
      }
      var check := UserValidator.Validate(newUser, users, today);
      if check.Fail? {
        return Err(check.kind);
      }
      var id := newUser.id.value;
      if id !in users {
        return Err(NotFound);
      }
      PatchKeepsDirectory(users, newUser, id, today);
      var patched := Patch(users[id], newUser);
      users := users[id := patched];
      r := Ok(patched);
    }
  }
}
