/** Sums of a function over a finite set. */
module Sums {
  ghost function Sum<T(!new)>(xs: set<T>, f: T -> nat): nat {
    if xs == {} then 0
    else
      var x :| x in xs;
      f(x) + Sum(xs - {x}, f)
  }

  lemma {:induction false} SumRemove<T(!new)>(xs: set<T>, x: T, f: T -> nat)
    requires x in xs
    ensures Sum(xs, f) == f(x) + Sum(xs - {x}, f)
  {
    var y :| y in xs && Sum(xs, f) == f(y) + Sum(xs - {y}, f);
    if y != x {
      SumRemove(xs - {y}, x, f);
      SumRemove(xs - {x}, y, f);
      assert xs - {y} - {x} == xs - {x} - {y};
    }
  }

  lemma SumAdd<T(!new)>(xs: set<T>, x: T, f: T -> nat)
    requires x !in xs
    ensures Sum(xs + {x}, f) == Sum(xs, f) + f(x)
  {
    SumRemove(xs + {x}, x, f);
    assert xs + {x} - {x} == xs;
  }

  lemma {:induction false} SumAgree<T(!new)>(xs: set<T>, f: T -> nat, g: T -> nat)
    requires forall x :: x in xs ==> f(x) == g(x)
    ensures Sum(xs, f) == Sum(xs, g)
  {
    if xs != {} {
      var x :| x in xs;
      SumRemove(xs, x, f);
      SumRemove(xs, x, g);
      SumAgree(xs - {x}, f, g);
    }
  }

  lemma {:induction false} SumMonotone<T(!new)>(xs: set<T>, ys: set<T>, f: T -> nat)
    requires xs <= ys
    ensures Sum(xs, f) <= Sum(ys, f)
  {
    if ys - xs != {} {
      var y :| y in ys - xs;
      SumRemove(ys, y, f);
      SumMonotone(xs, ys - {y}, f);
    } else {
      assert ys == xs + (ys - xs) == xs;
    }
  }
}
