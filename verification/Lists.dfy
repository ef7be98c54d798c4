/** Optional values, and singly linked lists whose links live in a table of `next` fields. */
module Lists {

  datatype Option<+T> = None | Some(value: T)

  function LinkAt(xs: seq<nat>, i: nat): Option<nat> {
    if i < |xs| then Some(xs[i]) else None
  }

  ghost predicate Distinct(xs: seq<nat>) {
    forall i, j :: 0 <= i < j < |xs| ==> xs[i] != xs[j]
  }

  ghost predicate LinkedAt(next: seq<Option<nat>>, xs: seq<nat>, i: nat)
    requires i < |xs|
  {
    xs[i] < |next| && next[xs[i]] == LinkAt(xs, i + 1)
  }

  ghost predicate Chained(next: seq<Option<nat>>, xs: seq<nat>) {
    forall i {:trigger LinkedAt(next, xs, i)} :: 0 <= i < |xs| ==> LinkedAt(next, xs, i)
  }

  function Without<T>(xs: seq<T>, i: nat): seq<T>
    requires i < |xs|
  {
    xs[..i] + xs[i + 1..]
  }

  lemma WithoutMembers(xs: seq<nat>, i: nat)
    requires Distinct(xs) && i < |xs|
    ensures Distinct(Without(xs, i))
    ensures forall t: nat :: t in Without(xs, i) <==> t in xs && t != xs[i]
  {
    forall t: nat
      ensures t in Without(xs, i) <==> t in xs && t != xs[i]
    {
      if t in xs && t != xs[i] {
        var j :| 0 <= j < |xs| && xs[j] == t;
        assert Without(xs, i)[if j < i then j else j - 1] == t;
      }
    }
  }

  lemma AppendedMembers(xs: seq<nat>, r: nat)
    ensures forall t: nat :: t in xs + [r] <==> t in xs || t == r
    ensures Distinct(xs) && r !in xs ==> Distinct(xs + [r])
  {
  }
}
