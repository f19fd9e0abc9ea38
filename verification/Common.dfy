/** What several of the models use. */
module Common {
  datatype Option<T> = None | Some(value: T)

  function Min(a: nat, b: nat): nat {
    if a < b then a else b
  }

  /** A sequence in front of what may have failed. */
  function Prepended<T>(head: seq<T>, rest: Option<seq<T>>): Option<seq<T>> {
    match rest
    case None => None
    case Some(tail) => Some(head + tail)
  }

  lemma PrependedTwice<T>(head: seq<T>, more: seq<T>, rest: Option<seq<T>>)
    ensures Prepended(head, Prepended(more, rest)) == Prepended(head + more, rest)
  {
    if rest.Some? {
      assert head + (more + rest.value) == head + more + rest.value;
    }
  }

  lemma PrependedEnds<T>(head: seq<T>, rest: Option<seq<T>>)
    ensures Prepended([], rest) == rest && Prepended(head, Some([])) == Some(head)
  {
    assert head + [] == head;
    assert rest.Some? ==> [] + rest.value == rest.value;
  }

  ghost function Sum(xs: seq<nat>): nat {
    if xs == [] then 0 else xs[0] + Sum(xs[1..])
  }

  lemma {:induction false} SumUpdate(xs: seq<nat>, i: nat, x: nat)
    requires i < |xs|
    ensures Sum(xs[i := x]) == Sum(xs) - xs[i] + x
  {
    if i > 0 {
      assert xs[i := x][1..] == xs[1..][i - 1 := x];
      SumUpdate(xs[1..], i - 1, x);
    } else {
      assert xs[0 := x][1..] == xs[1..];
    }
  }

  lemma {:induction false} SumConstant(n: nat, x: nat)
    ensures Sum(seq(n, _ => x)) == n * x
  {
    if n > 0 {
      assert seq(n, _ => x)[1..] == seq(n - 1, _ => x);
      SumConstant(n - 1, x);
    }
  }

  lemma {:induction false} SumSnoc(xs: seq<nat>, x: nat)
    ensures Sum(xs + [x]) == Sum(xs) + x
  {
    if xs != [] {
      assert (xs + [x])[1..] == xs[1..] + [x];
      SumSnoc(xs[1..], x);
    }
  }
}
