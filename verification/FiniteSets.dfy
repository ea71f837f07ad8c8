/** Sizes of finite sets.  */
module FiniteSets {

  lemma {:induction false} Within<T>(a: set<T>, b: set<T>)
    requires a <= b
    ensures |a| <= |b|
    decreases a
  {
    if a != {} {
      var x :| x in a;
      Within(a - {x}, b - {x});
    }
  }

  /** A part that misses an element is smaller. */
  lemma Smaller<T>(part: set<T>, all: set<T>, x: T)
    requires part <= all && x in all && x !in part
    ensures |part| <= |all| - 1
  {
    Within(part, all - {x});
  }

  lemma {:induction false} Least(s: set<int>) returns (x: int)
    requires s != {}
    ensures x in s && forall y :: y in s ==> x <= y
    decreases |s|
  {
    var first := Member(s);
    var rest := set y | y in s && y < first;
    assert forall y :: y in s && y < first ==> y in rest;
    x := first;
    if rest != {} {
      Smaller(rest, s, first);
      x := Least(rest);
    }
  }

  lemma Member<T>(s: set<T>) returns (x: T)
    requires s != {}
    ensures x in s
  {
    x :| x in s;
  }
}
