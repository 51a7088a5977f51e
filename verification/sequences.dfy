/** List comprehensions over sequences. */
module Sequences {

  /** `[make(x) for x in xs if keep(x)]` */
  function Pick<T, U>(xs: seq<T>, keep: T -> bool, make: T -> U): (r: seq<U>)
    ensures |r| <= |xs|
    ensures |r| == 0 <==> forall x :: x in xs ==> !keep(x)
    ensures forall i :: 0 <= i < |r| ==> exists x :: x in xs && keep(x) && r[i] == make(x)
    decreases |xs|
  {
    if |xs| == 0 then []
    else
      var rest := Pick(xs[1..], keep, make);
      assert forall x :: x in xs[1..] ==> x in xs;
      assert forall x :: x in xs ==> x == xs[0] || x in xs[1..];
      if keep(xs[0]) then [make(xs[0])] + rest else rest
  }

  /** What `Pick` yields is exactly the images of the kept elements. */
  lemma {:induction false} PickMembers<T, U>(xs: seq<T>, keep: T -> bool, make: T -> U, u: U)
    ensures u in Pick(xs, keep, make) <==> exists x :: x in xs && keep(x) && u == make(x)
    decreases |xs|
  {
    if |xs| > 0 {
      var first, rest := xs[0], xs[1..];
      PickMembers(rest, keep, make, u);
      if exists x :: x in xs && keep(x) && u == make(x) {
        var x :| x in xs && keep(x) && u == make(x);
        if x != first {
          assert x in rest;
        }
      }
    }
  }

  /** `Pick` over two elements of which only the second is kept. */
  lemma PickSecond<T, U>(a: T, b: T, keep: T -> bool, make: T -> U)
    requires !keep(a) && keep(b)
    ensures Pick([a, b], keep, make) == [make(b)]
  {
    assert [a, b][1..] == [b];
    assert [b][1..] == [];
  }

  /** `Pick` over a concatenation is the concatenation of the two picks. */
  lemma {:induction false} PickAppend<T, U>(xs: seq<T>, ys: seq<T>, keep: T -> bool, make: T -> U)
    ensures Pick(xs + ys, keep, make) == Pick(xs, keep, make) + Pick(ys, keep, make)
    decreases |xs|
  {
    if |xs| == 0 {
      assert xs + ys == ys;
    } else {
      assert (xs + ys)[0] == xs[0];
      assert (xs + ys)[1..] == xs[1..] + ys;
      PickAppend(xs[1..], ys, keep, make);
    }
  }

  /** `Pick` over a list whose first element is kept. */
  lemma PickCons<T, U>(x: T, xs: seq<T>, keep: T -> bool, make: T -> U)
    requires keep(x)
    ensures Pick([x] + xs, keep, make) == [make(x)] + Pick(xs, keep, make)
  {
    assert ([x] + xs)[1..] == xs;
  }

  /** `Pick` keeps nothing from a list none of whose elements is kept. */
  lemma PickNone<T, U>(xs: seq<T>, keep: T -> bool, make: T -> U)
    requires forall i :: 0 <= i < |xs| ==> !keep(xs[i])
    ensures Pick(xs, keep, make) == []
  {
  }

  /** `Pick` over a concatenation of five lists. */
  lemma PickFive<T, U>(a: seq<T>, b: seq<T>, c: seq<T>, d: seq<T>, e: seq<T>,
                       keep: T -> bool, make: T -> U)
    ensures Pick(a + b + c + d + e, keep, make)
         == Pick(a, keep, make) + Pick(b, keep, make) + Pick(c, keep, make)
            + Pick(d, keep, make) + Pick(e, keep, make)
  {
    PickAppend(a + b + c + d, e, keep, make);
    PickAppend(a + b + c, d, keep, make);
    PickAppend(a + b, c, keep, make);
    PickAppend(a, b, keep, make);
  }

  /** Empty lists at both ends of a five-part concatenation vanish. */
  lemma DropEmptyEnds<T>(b: seq<T>, c: seq<T>, d: seq<T>)
    ensures [] + b + c + d + [] == b + c + d
  {
  }

  /** Only the third and fifth of five parts are non-empty. */
  lemma KeepMiddleAndLast<T>(c: seq<T>, e: seq<T>)
    ensures [] + [] + c + [] + e == c + e
  {
  }

  /** Indexing the middle of a list framed by one element on each side. */
  lemma MiddleAt<T>(x: T, m: seq<T>, y: T, i: nat)
    requires i < |m|
    ensures ([x] + m + [y])[1 + i] == m[i]
  {
  }

  /** Only the first of five parts is non-empty. */
  lemma KeepFirst<T>(a: seq<T>)
    ensures a + [] + [] + [] + [] == a
  {
  }

  /** Indexing past a prefix lands in the rest. */
  lemma AfterPrefix<T>(a: seq<T>, b: seq<T>, i: nat)
    requires i < |b|
    ensures (a + b)[|a| + i] == b[i]
  {
  }

  /** Membership in four joined sequences. */
  lemma InFour<T>(a: seq<T>, b: seq<T>, c: seq<T>, d: seq<T>, x: T)
    ensures x in a + (b + (c + d)) <==> x in a || x in b || x in c || x in d
  {
  }
}
