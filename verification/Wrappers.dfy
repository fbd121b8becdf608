/** What several modules share: the optional value used where the source has `undefined`, `null` or an absent field. */
module Wrappers {
  datatype Option<+T> = None | Some(value: T)

  function Min(a: nat, b: nat): nat {
    if a < b then a else b
  }

  function AtLeast(low: int, value: int): (n: int)
    ensures n >= low
  {
    if value > low then value else low
  }

  // 0, 1, 2 and so on, n numbers.
  function UpTo(n: nat): seq<nat> {
    seq(n, i => i)
  }

  lemma Regroup<T>(a: seq<T>, b: seq<T>, c: seq<T>)
    ensures a + (b + c) == a + b + c
  {
  }

  ghost predicate Increasing(at: seq<int>) {
    forall j, k :: 0 <= j < k < |at| ==> at[j] < at[k]
  }

  // r holds the elements of s at these places, in order, and they are the places of the elements to keep.
  ghost predicate Selects<T(!new)>(s: seq<T>, keep: T -> bool, r: seq<T>, at: seq<int>) {
    && Increasing(at) && |at| == |r|
    && (forall k :: 0 <= k < |at| ==> 0 <= at[k] < |s| && r[k] == s[at[k]])
    && forall i :: 0 <= i < |s| ==> (keep(s[i]) <==> i in at)
  }

  lemma SelectsSnoc<T(!new)>(s: seq<T>, keep: T -> bool, r: seq<T>, at: seq<int>, x: T)
    requires Selects(s, keep, r, at)
    ensures Selects(s + [x], keep, if keep(x) then r + [x] else r, if keep(x) then at + [|s|] else at)
  {
    var all, places := s + [x], if keep(x) then at + [|s|] else at;
    PlacesSnoc(at, |s|);
    forall i | 0 <= i < |all| ensures keep(all[i]) <==> i in places {
      if i < |s| {
        assert all[i] == s[i];
        assert i in at + [|s|] <==> i in at;
      } else {
        assert i !in at;
      }
    }
  }

  lemma PlacesSnoc(at: seq<int>, n: int)
    requires Increasing(at) && forall k :: 0 <= k < |at| ==> at[k] < n
    ensures Increasing(at + [n]) && n !in at
  {
  }
}
