/** Lane sets: what an operation touches, and when two operations touch the same thing. */
module Lanes {
  import opened Wrappers
  import opened Sorting

  datatype BrowserLane =
    | Browser
    | Window(key: string)
    | Group(key: string)
    | Tab(key: string)

  datatype OperationAdmissionError = Closed | Saturated | KeyConflict | EmptyLanes

  // The derived order: first the variant, then the key.

  function Variant(lane: BrowserLane): nat {
    match lane
    case Browser => 0
    case Window(_) => 1
    case Group(_) => 2
    case Tab(_) => 3
  }

  function KeyOf(lane: BrowserLane): string {
    if lane.Browser? then "" else lane.key
  }

  predicate StringLeq(a: string, b: string) {
    a == [] || (b != [] && (a[0] < b[0] || (a[0] == b[0] && StringLeq(a[1..], b[1..]))))
  }

  predicate LaneLeq(a: BrowserLane, b: BrowserLane) {
    Variant(a) < Variant(b) || (Variant(a) == Variant(b) && StringLeq(KeyOf(a), KeyOf(b)))
  }

  lemma {:induction false} StringLeqTotal(a: string, b: string)
    ensures StringLeq(a, b) || StringLeq(b, a)
    ensures StringLeq(a, b) && StringLeq(b, a) ==> a == b
  {
    if a != [] && b != [] {
      StringLeqTotal(a[1..], b[1..]);
      assert a == [a[0]] + a[1..] && b == [b[0]] + b[1..];
    }
  }

  lemma {:induction false} StringLeqTransitive(a: string, b: string, c: string)
    requires StringLeq(a, b) && StringLeq(b, c)
    ensures StringLeq(a, c)
  {
    if a != [] && a[0] == b[0] == c[0] {
      StringLeqTransitive(a[1..], b[1..], c[1..]);
    }
  }

  lemma LaneLeqTotal(a: BrowserLane, b: BrowserLane)
    ensures LaneLeq(a, b) || LaneLeq(b, a)
    ensures LaneLeq(a, b) && LaneLeq(b, a) ==> a == b
  {
    StringLeqTotal(KeyOf(a), KeyOf(b));
  }

  lemma LaneLeqIsTotalPreorder()
    ensures TotalPreorder(LaneLeq)
  {
    forall a, b ensures LaneLeq(a, b) || LaneLeq(b, a) { LaneLeqTotal(a, b); }
    forall a, b, c | LaneLeq(a, b) && LaneLeq(b, c) ensures LaneLeq(a, c) {
      if Variant(a) == Variant(b) == Variant(c) {
        StringLeqTransitive(KeyOf(a), KeyOf(b), KeyOf(c));
      }
    }
  }

  /** Drops every element equal to the one before it. */
  function Dedup(s: seq<BrowserLane>): seq<BrowserLane> {
    if |s| <= 1 then s
    else if s[0] == s[1] then Dedup(s[1..])
    else [s[0]] + Dedup(s[1..])
  }

  datatype BrowserLaneSet = BrowserLaneSet(lanes: seq<BrowserLane>) {
    static function New(lanes: seq<BrowserLane>): Result<BrowserLaneSet, OperationAdmissionError> {
      if lanes == [] then Failure(EmptyLanes)
      else Success(BrowserLaneSet(Dedup(Sort(lanes, LaneLeq))))
    }

    predicate Overlaps(other: BrowserLaneSet) {
      || Browser in lanes
      || Browser in other.lanes
      || exists lane :: lane in lanes && lane in other.lanes
    }
  }

  predicate StrictlySorted(s: seq<BrowserLane>) {
    forall i, j :: 0 <= i < j < |s| ==> s[i] != s[j] && LaneLeq(s[i], s[j])
  }

  lemma {:induction false} DedupOfSorted(s: seq<BrowserLane>)
    requires SortedBy(s, LaneLeq)
    ensures StrictlySorted(Dedup(s))
    ensures forall lane :: lane in Dedup(s) <==> lane in s
    ensures s != [] ==> Dedup(s) != [] && Dedup(s)[0] == s[0]
  {
    if |s| > 1 {
      DedupOfSorted(s[1..]);
      var rest := Dedup(s[1..]);
      assert s == [s[0]] + s[1..];
      if s[0] != s[1] {
        forall j | 0 <= j < |rest| ensures s[0] != rest[j] && LaneLeq(s[0], rest[j]) {
          assert rest[j] in s[1..];
          var k :| 1 <= k < |s| && s[k] == rest[j];
          if s[k] == s[0] {
            assert LaneLeq(s[1], s[k]);
            LaneLeqTotal(s[0], s[1]);
          }
        }
      }
    }
  }

  /** A strictly sorted sequence is determined by its elements. */
  lemma {:induction false} StrictlySortedUnique(a: seq<BrowserLane>, b: seq<BrowserLane>)
    requires StrictlySorted(a) && StrictlySorted(b)
    requires forall lane :: lane in a <==> lane in b
    ensures a == b
  {
    assert a != [] ==> a[0] in b;
    assert b != [] ==> b[0] in a;
    if a != [] {
      LaneLeqTotal(a[0], b[0]);
      assert a[0] == b[0];
      assert a == [a[0]] + a[1..] && b == [b[0]] + b[1..];
      forall lane ensures lane in a[1..] <==> lane in b[1..] {
        assert lane in a[1..] ==> lane != a[0] && lane in b;
        assert lane in b[1..] ==> lane != b[0] && lane in a;
      }
      StrictlySortedUnique(a[1..], b[1..]);
    }
  }

  function Elements(lanes: seq<BrowserLane>): set<BrowserLane> {
    set lane | lane in lanes
  }

  lemma NewIsSortedSet(lanes: seq<BrowserLane>)
    requires lanes != []
    ensures var canonical := BrowserLaneSet.New(lanes).value.lanes;
      StrictlySorted(canonical) && Elements(canonical) == Elements(lanes)
  {
    LaneLeqIsTotalPreorder();
    SortSorts(lanes, LaneLeq);
    SortKeepsElements(lanes, LaneLeq);
    DedupOfSorted(Sort(lanes, LaneLeq));
  }

  /** The sorted, deduplicated form is canonical: two lane lists give the same value exactly when
      they are equal as sets.  Key conflicts compare these values. */
  lemma LaneSetIsCanonical(a: seq<BrowserLane>, b: seq<BrowserLane>)
    ensures BrowserLaneSet.New(a).Failure? <==> a == []
    ensures a != [] && b != [] ==>
      (BrowserLaneSet.New(a) == BrowserLaneSet.New(b) <==> Elements(a) == Elements(b))
  {
    if a != [] && b != [] {
      NewIsSortedSet(a);
      NewIsSortedSet(b);
      if Elements(a) == Elements(b) {
        var ca, cb := BrowserLaneSet.New(a).value.lanes, BrowserLaneSet.New(b).value.lanes;
        forall lane ensures lane in ca <==> lane in cb {
          assert lane in Elements(ca) <==> lane in Elements(cb);
        }
        StrictlySortedUnique(ca, cb);
      }
    }
  }

  /** Overlap is decided by the sets of lanes alone, in either order. */
  lemma OverlapIsSetIntersection(a: seq<BrowserLane>, b: seq<BrowserLane>)
    requires a != [] && b != []
    ensures var x, y := BrowserLaneSet.New(a).value, BrowserLaneSet.New(b).value;
      && (x.Overlaps(y) <==> Browser in Elements(a) + Elements(b) || Elements(a) * Elements(b) != {})
      && (x.Overlaps(y) <==> y.Overlaps(x))
  {
    NewIsSortedSet(a);
    NewIsSortedSet(b);
    var x, y := BrowserLaneSet.New(a).value, BrowserLaneSet.New(b).value;
    assert Browser in x.lanes <==> Browser in Elements(x.lanes);
    assert Browser in y.lanes <==> Browser in Elements(y.lanes);
    var common := Elements(x.lanes) * Elements(y.lanes);
    if common != {} {
      var lane :| lane in common;
      assert lane in x.lanes && lane in y.lanes;
    }
    if lane :| lane in x.lanes && lane in y.lanes {
      assert lane in common;
    }
  }
}
