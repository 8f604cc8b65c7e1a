/** Counting list elements, and what the counts say about the sets behind the lists. */
module Counting {

  function CountIf<X>(s: seq<X>, p: X -> bool): nat {
    if s == [] then 0 else (if p(s[0]) then 1 else 0) + CountIf(s[1..], p)
  }

  ghost predicate NoRepeats<X>(s: seq<X>) {
    forall i, j :: 0 <= i < j < |s| ==> s[i] != s[j]
  }

  ghost function Chosen<X(!new)>(s: seq<X>, p: X -> bool): set<X> {
    set x | x in s && p(x)
  }

  /** In a list without repetitions the count is the number of elements chosen. */
  lemma {:induction false} CountIsCardinality<X(!new)>(s: seq<X>, p: X -> bool)
    requires NoRepeats(s)
    ensures CountIf(s, p) == |Chosen(s, p)|
  {
    if s == [] {
      assert Chosen(s, p) == {};
    } else {
      HeadOccursOnce(s);
      ChosenCons(s, p);
      hide Chosen, NoRepeats;
      CountIsCardinality(s[1..], p);
    }
  }

  lemma HeadOccursOnce<X>(s: seq<X>)
    requires NoRepeats(s) && s != []
    ensures s[0] !in s[1..] && NoRepeats(s[1..])
  {
  }

  lemma ChosenCons<X(!new)>(s: seq<X>, p: X -> bool)
    requires s != [] && s[0] !in s[1..]
    ensures s[0] !in Chosen(s[1..], p)
    ensures Chosen(s, p) == Chosen(s[1..], p) + if p(s[0]) then {s[0]} else {}
  {
    assert s == [s[0]] + s[1..];
    assert forall x :: x in s <==> x == s[0] || x in s[1..];
  }

  /** A smaller set has fewer elements exactly when something is missing from it. */
  lemma FewerIffMissing<X>(part: set<X>, whole: set<X>)
    requires part <= whole
    ensures |part| < |whole| <==> exists x :: x in whole && x !in part
  {
    assert whole == part + (whole - part);
    if |part| < |whole| {
      assert whole - part != {};
      var x :| x in whole - part;
    } else {
      assert |whole| == |part| + |whole - part|;
    }
  }

  /** An injective image is as large as what it is the image of. */
  lemma {:induction false} ImageCardinality<X(!new), Y(!new)>(s: set<X>, f: X -> Y, image: set<Y>)
    requires forall x, y :: x in s && y in s && f(x) == f(y) ==> x == y
    requires forall y :: y in image <==> exists x :: x in s && f(x) == y
    ensures |image| == |s|
    decreases s
  {
    if s == {} {
      assert image == {};
    } else {
      var x :| x in s;
      assert f(x) in image;
      ImageCardinality(s - {x}, f, image - {f(x)});
    }
  }
}
