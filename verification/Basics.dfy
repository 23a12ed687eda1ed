// Small things every module may need.
module Basics {

  datatype Option<+T> = None | Some(value: T)

  // Positions in a sequence of length n, in order.
  predicate Ascending(at: seq<nat>, n: nat) {
    && (forall k :: 0 <= k < |at| ==> at[k] < n)
    && (forall j, k :: 0 <= j < k < |at| ==> at[j] < at[k])
  }

  // The elements at these positions.
  predicate PickedFrom<T(==)>(some: seq<T>, all: seq<T>, at: seq<nat>) {
    |at| == |some| && Ascending(at, |all|) && forall k :: 0 <= k < |at| ==> some[k] == all[at[k]]
  }

  lemma PickedNext<T>(some: seq<T>, all: seq<T>, at: seq<nat>, x: T)
    requires PickedFrom(some, all, at)
    ensures PickedFrom(some, all + [x], at) && PickedFrom(some + [x], all + [x], at + [|all|])
    ensures |all| !in at && forall i :: i in at + [|all|] <==> i in at || i == |all|
  {
  }

  lemma HasMember<T>(keys: set<T>)
    ensures keys == {} || exists k :: k in keys
  {
    if forall k :: k !in keys {
      assert forall k :: k in keys <==> k in {};
    }
  }

  lemma SomeMember<T>(keys: set<T>) returns (k: T)
    requires keys != {}
    ensures k in keys
  {
    HasMember(keys);
    k :| k in keys;
  }
}
