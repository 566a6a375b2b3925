/** Identifier allocation shared by both stores: `getNextId` takes the largest stored key
    (0 when there is none) and adds one. */
module Ids {

  /** The keys are exactly 1, 2, ..., n: what allocating max + 1 from 1 on, and never
      deleting, leaves behind. */
  ghost predicate Dense(keys: set<int>)
  {
    forall k :: k in keys <==> 1 <= k <= |keys|
  }

  method NextId(keys: set<int>) returns (id: int)
    ensures keys == {} ==> id == 1
    ensures keys != {} ==> id - 1 in keys && forall k :: k in keys ==> k < id
    ensures id !in keys
  {
    var currentMax := 0;
    var seen := false;
    var rest := keys;
    ghost var visited: set<int> := {};
    while rest != {}
      invariant visited + rest == keys && visited !! rest
      invariant !seen ==> visited == {} && currentMax == 0
      invariant seen ==> currentMax in visited
      invariant forall j :: j in visited ==> j <= currentMax
      decreases rest
    {
      HasElement(rest);
      var k :| k in rest;
      if !seen || currentMax < k {
        currentMax := k;
      }
      seen := true;
      rest := rest - {k};
      visited := visited + {k};
    }
    id := currentMax + 1;
  }

  lemma HasElement(s: set<int>)
    requires s != {}
    ensures exists x :: x in s
  {
    if forall x :: x !in s {
      assert false;
    }
  }

  /** On dense keys the next id is the count plus one, and adding it keeps the keys dense. */
  lemma {:induction false} NextOfDense(keys: set<int>, id: int)
    requires Dense(keys)
    requires keys == {} ==> id == 1
    requires keys != {} ==> id - 1 in keys && forall k :: k in keys ==> k < id
    ensures id == |keys| + 1
    ensures Dense(keys + {id}) && |keys + {id}| == |keys| + 1
  {
    if keys != {} {
      assert |keys| in keys by { assert 1 <= |keys|; }
      assert id - 1 <= |keys|;
    }
    assert id !in keys;
  }
}
