/** `UserService`: friendship, which changes two stored users' friend sets in place, and the
    friend lists, which read a copy of those sets. */
module UserService {

  import opened Common
  import opened Model
  import opened Ids
  import opened UserStorage

  /** `addFriend` on the stored users: `b` joins `a`'s friends, then `a` joins `b`'s
      (the same user twice when `a == b`). */
  function Befriend(users: map<int, User>, a: int, b: int): (r: map<int, User>)
    requires a in users && b in users
    ensures r.Keys == users.Keys
    ensures b in r[a].friends && a in r[b].friends
    ensures r[a].friends == users[a].friends + {b} + (if a == b then {a} else {})
    ensures r[b].friends == users[b].friends + {a} + (if a == b then {b} else {})
    ensures forall k :: k in r && k != a && k != b ==> r[k] == users[k]
    ensures forall k :: k in r ==> r[k].(friends := {}) == users[k].(friends := {})
  {
    var afterA := users[a := users[a].(friends := users[a].friends + {b})];
    afterA[b := afterA[b].(friends := afterA[b].friends + {a})]
  }

  /** `deleteFriend` on the stored users: `b` leaves `a`'s friends, then `a` leaves `b`'s. */
  function Unfriend(users: map<int, User>, a: int, b: int): (r: map<int, User>)
    requires a in users && b in users
    ensures r.Keys == users.Keys
    ensures b !in r[a].friends && a !in r[b].friends
    ensures r[a].friends == users[a].friends - {b} - (if a == b then {a} else {})
    ensures r[b].friends == users[b].friends - {a} - (if a == b then {b} else {})
    ensures forall k :: k in r && k != a && k != b ==> r[k] == users[k]
    ensures forall k :: k in r ==> r[k].(friends := {}) == users[k].(friends := {})
  {
    var afterA := users[a := users[a].(friends := users[a].friends - {b})];
    afterA[b := afterA[b].(friends := afterA[b].friends - {a})]
  }

  /** Two user maps that differ in friend sets only. */
  ghost predicate SameButFriends(users: map<int, User>, users': map<int, User>)
  {
    users'.Keys == users.Keys && forall k :: k in users ==> users'[k].(friends := {}) == users[k].(friends := {})
  }

  /** The rules on ids, fields and e-mails do not look at friends. */
  lemma {:induction false} FriendEditKeepsRecords(users: map<int, User>, users': map<int, User>)
    requires Directory(users) && SameButFriends(users, users')
    ensures Dense(users'.Keys) && StoredUnderOwnId(users') && AllWellFormed(users') && EmailsDistinct(users')
  {
    forall k | k in users
      ensures users'[k].id == users[k].id && users'[k].email == users[k].email && users'[k].login == users[k].login
      ensures users'[k].name == users[k].name && users'[k].birthday == users[k].birthday
    {
      assert users'[k].(friends := {}) == users[k].(friends := {});
    }
  }

  /** Befriending two stored users keeps friendship closed and symmetric. */
  lemma {:induction false} BefriendKeepsDirectory(users: map<int, User>, a: int, b: int)
    requires Directory(users) && a in users && b in users
    ensures Directory(Befriend(users, a, b))
  {
    var r := Befriend(users, a, b);
    FriendEditKeepsRecords(users, r);
    forall j, k | j in r && k in r && k in r[j].friends ensures j in r[k].friends {
      if (j, k) != (a, b) && (j, k) != (b, a) {
        assert k in users[j].friends;
      }
    }
    forall k, f | k in r && f in r[k].friends ensures f in r {
      if f != a && f != b {
        assert f in users[k].friends;
      }
    }
  }

  /** Unfriending two stored users keeps friendship closed and symmetric. */
  lemma {:induction false} UnfriendKeepsDirectory(users: map<int, User>, a: int, b: int)
    requires Directory(users) && a in users && b in users
    ensures Directory(Unfriend(users, a, b))
  {
    var r := Unfriend(users, a, b);
    FriendEditKeepsRecords(users, r);
    forall j, k | j in r && k in r && k in r[j].friends ensures j in r[k].friends {
      assert k in users[j].friends;
      assert j in users[k].friends;
    }
    forall k, f | k in r && f in r[k].friends ensures f in r {
      assert f in users[k].friends;
    }
  }

  /** `list` holds exactly one stored user per id of `ids`, and nothing else. */
  ghost predicate Resolves(list: seq<User>, ids: set<int>, users: map<int, User>)
  {
    && |list| == |ids|
    && (forall i :: 0 <= i < |list| ==>
          list[i].id.Some? && list[i].id.value in ids && list[i].id.value in users && users[list[i].id.value] == list[i])
    && (forall id :: id in ids ==> id in users && users[id] in list)
    && (forall i, j :: 0 <= i < j < |list| ==> list[i] != list[j])
  }

  /** Two resolutions of the same ids hold the same users, whatever their order. */
  lemma {:induction false} ResolvesSameUsers(l1: seq<User>, l2: seq<User>, ids: set<int>, users: map<int, User>)
    requires Resolves(l1, ids, users) && Resolves(l2, ids, users)
    ensures forall u :: u in l1 <==> u in l2
  {
    forall u | u in l1 ensures u in l2 {
      var i :| 0 <= i < |l1| && l1[i] == u;
      var id := l1[i].id.value;
      assert id in ids && users[id] == u;
    }
    forall u | u in l2 ensures u in l1 {
      var i :| 0 <= i < |l2| && l2[i] == u;
      var id := l2[i].id.value;
      assert id in ids && users[id] == u;
    }
  }

  /** Common friends of (a, b) and of (b, a) are the same users. */
  lemma {:induction false} CommonFriendsSymmetric(l1: seq<User>, l2: seq<User>, users: map<int, User>, a: int, b: int)
    requires a in users && b in users
    requires Resolves(l1, users[a].friends * users[b].friends, users)
    requires Resolves(l2, users[b].friends * users[a].friends, users)
    ensures forall u :: u in l1 <==> u in l2
  {
    assert users[a].friends * users[b].friends == users[b].friends * users[a].friends;
    ResolvesSameUsers(l1, l2, users[a].friends * users[b].friends, users);
  }

  class UserService {
    const userStorage: InMemoryUserStorage

    constructor(userStorage: InMemoryUserStorage)
      ensures this.userStorage == userStorage
    {
      this.userStorage := userStorage;
    }

    /** `addFriend`: both users must exist; each joins the other's friends. */
    method AddFriend(userId: int, friendId: int) returns (r: Outcome)
      requires userStorage.Valid()
      modifies userStorage
      ensures userStorage.Valid()
      ensures r.Fail? <==> userId !in old(userStorage.users) || friendId !in old(userStorage.users)
      ensures r.Fail? ==> r.kind == NotFound && userStorage.users == old(userStorage.users)
      ensures r.Pass? ==> userStorage.users == Befriend(old(userStorage.users), userId, friendId)
      ensures r.Pass? && friendId in old(userStorage.users)[userId].friends ==> userStorage.users == old(userStorage.users)
    {
      var user := userStorage.FindUserById(userId);
      if user.Err? {
        return Fail(NotFound);
      }
      var friend := userStorage.FindUserById(friendId);
      if friend.Err? {
        return Fail(NotFound);
      }
      ghost var before := userStorage.users;
      BefriendKeepsDirectory(before, userId, friendId);
      userStorage.users := userStorage.users[userId := user.value.(friends := user.value.friends + {friendId})];
      var current := userStorage.users[friendId];
      userStorage.users := userStorage.users[friendId := current.(friends := current.friends + {userId})];
      r := Pass;
      if friendId in before[userId].friends {
        assert userId in before[friendId].friends;
        assert forall k :: k in before ==> userStorage.users[k] == before[k];
      }
    }

    /** `deleteFriend`: both users must exist; each leaves the other's friends, which is no
        error when they were not friends. */
    method DeleteFriend(userId: int, friendId: int) returns (r: Outcome)
      requires userStorage.Valid()
      modifies userStorage
      ensures userStorage.Valid()
      ensures r.Fail? <==> userId !in old(userStorage.users) || friendId !in old(userStorage.users)
      ensures r.Fail? ==> r.kind == NotFound && userStorage.users == old(userStorage.users)
      ensures r.Pass? ==> userStorage.users == Unfriend(old(userStorage.users), userId, friendId)
      ensures r.Pass? && friendId !in old(userStorage.users)[userId].friends ==> userStorage.users == old(userStorage.users)
    {
      var user := userStorage.FindUserById(userId);
      if user.Err? {
        return Fail(NotFound);
      }
      var friend := userStorage.FindUserById(friendId);
      if friend.Err? {
        return Fail(NotFound);
      }
      ghost var before := userStorage.users;
      UnfriendKeepsDirectory(before, userId, friendId);
      userStorage.users := userStorage.users[userId := user.value.(friends := user.value.friends - {friendId})];
      var current := userStorage.users[friendId];
      userStorage.users := userStorage.users[friendId := current.(friends := current.friends - {userId})];
      r := Pass;
      if friendId !in before[userId].friends {
        assert userId !in before[friendId].friends;
        assert forall k :: k in before ==> userStorage.users[k] == before[k];
      }
    }

    /** `ids.stream().map(findUserById).collect(toList())`: the stored user of each id, in an
        order the caller cannot rely on; NotFound when an id is not stored. */
    method FindAllById(ids: set<int>) returns (r: Result<seq<User>>)
      requires userStorage.Valid()
      ensures r.Ok? <==> forall id :: id in ids ==> id in userStorage.users
      ensures r.Err? ==> r.kind == NotFound
      ensures r.Ok? ==> Resolves(r.value, ids, userStorage.users)
    {
      var list: seq<User> := [];
      var rest := ids;
      while rest != {}
        invariant rest <= ids
        invariant |list| + |rest| == |ids|
        invariant forall id :: id in ids && id !in rest ==> id in userStorage.users && userStorage.users[id] in list
        invariant forall i :: 0 <= i < |list| ==>
                    && list[i].id.Some? && list[i].id.value in ids && list[i].id.value !in rest
                    && list[i].id.value in userStorage.users && userStorage.users[list[i].id.value] == list[i]
        invariant forall i, j :: 0 <= i < j < |list| ==> list[i] != list[j]
        decreases rest
      {
        HasElement(rest);
        var id :| id in rest;
        var user := userStorage.FindUserById(id);
        if user.Err? {
          return Err(NotFound);
        }
        list := list + [user.value];
        rest := rest - {id};
      }
      r := Ok(list);
    }

    /** `getUserFriends`: the user must exist; then one stored user per friend id. */
    method GetUserFriends(userId: int) returns (r: Result<seq<User>>)
      requires userStorage.Valid()
      ensures r.Err? <==> userId !in userStorage.users
      ensures r.Err? ==> r.kind == NotFound
      ensures r.Ok? ==> Resolves(r.value, userStorage.users[userId].friends, userStorage.users)
    {
      var user := userStorage.FindUserById(userId);
      if user.Err? {
        return Err(NotFound);
      }
      r := FindAllById(user.value.friends);
    }

    /** `getCommonFriends`: both users must exist; then one stored user per id in both
        friend sets. The sets themselves are only read. */
    method GetCommonFriends(userId: int, otherId: int) returns (r: Result<seq<User>>)
      requires userStorage.Valid()
      ensures r.Err? <==> userId !in userStorage.users || otherId !in userStorage.users
      ensures r.Err? ==> r.kind == NotFound
      ensures r.Ok? ==>
                Resolves(r.value, userStorage.users[userId].friends * userStorage.users[otherId].friends, userStorage.users)
    {
      var user := userStorage.FindUserById(userId);
      if user.Err? {
        return Err(NotFound);
      }
      var other := userStorage.FindUserById(otherId);
      if other.Err? {
        return Err(NotFound);
      }
      var common := user.value.friends * other.value.friends;
      r := FindAllById(common);
    }
  }
}
