/** Keyset pagination on a primary key: pages in id order, each after the last id of the one before. */
module Keyset {
  import opened Common

  type Id = nat

  predicate Above(after: Option<Id>, id: Id) { after.None? || after.value < id }

  function Remaining(ids: set<Id>, after: Option<Id>): set<Id> { set id | id in ids && Above(after, id) }

  /** The ids a scan that stands at `after` has behind it. */
  function Passed(ids: set<Id>, after: Option<Id>): set<Id> { ids - Remaining(ids, after) }

  predicate Increasing(s: seq<Id>) { forall i, j | 0 <= i < j < |s| :: s[i] < s[j] }

  function Elements(s: seq<Id>): set<Id> { set x | x in s }

  /** The first `limit` ids above `after`, in order. */
  predicate IsPage(ids: set<Id>, after: Option<Id>, limit: nat, page: seq<Id>) {
    && Increasing(page) && |page| <= limit
    && Elements(page) <= Remaining(ids, after)
    && (|page| < limit ==> Elements(page) == Remaining(ids, after))
    && (page != [] ==> Remaining(ids, Some(page[|page| - 1])) == Remaining(ids, after) - Elements(page))
  }

  lemma {:induction false} Least(s: set<Id>) returns (m: Id)
    requires s != {}
    ensures m in s && forall k | k in s :: m <= k
  {
    var x :| x in s;
    m := x;
    if s != {x} {
      var k := Least(s - {x});
      m := if k < x then k else x;
      assert forall y | y in s :: y == x || y in s - {x};
    }
  }

  /** `WHERE id > after ORDER BY id LIMIT limit`. */
  method NextPage(ids: set<Id>, after: Option<Id>, limit: nat) returns (page: seq<Id>)
    requires limit > 0
    ensures IsPage(ids, after, limit, page)
  {
    page := [];
    var rest := Remaining(ids, after);
    while |page| < limit && rest != {}
      invariant Increasing(page) && |page| <= limit
      invariant Elements(page) + rest == Remaining(ids, after) && Elements(page) !! rest
      invariant forall x, y | x in page && y in rest :: x < y
      decreases rest
    {
      ghost var least := Least(rest);
      var m :| m in rest && forall k | k in rest :: m <= k;
      assert Elements(page + [m]) == Elements(page) + {m};
      assert forall i | 0 <= i < |page| :: page[i] in page;
      page, rest := page + [m], rest - {m};
    }
    if page != [] {
      ghost var last := page[|page| - 1];
      assert last in page && forall i | 0 <= i < |page| :: page[i] <= last;
      forall id ensures id in Remaining(ids, Some(last)) <==> id in rest {
        assert last in Remaining(ids, after) by { assert last in Elements(page); }
        if id in Remaining(ids, Some(last)) { assert id in Elements(page) + rest && id !in page; }
      }
    }
  }

  /** A page is as large as the set of its ids, and leaves strictly less behind. */
  lemma PageAdvances(ids: set<Id>, after: Option<Id>, limit: nat, page: seq<Id>)
    requires IsPage(ids, after, limit, page) && page != []
    ensures |Elements(page)| == |page|
    ensures Remaining(ids, Some(page[|page| - 1])) < Remaining(ids, after)
    ensures Elements(page) <= ids && Elements(page) !! Passed(ids, after)
    ensures Passed(ids, Some(page[|page| - 1])) == Passed(ids, after) + Elements(page)
  {
    DistinctCount(page);
    assert page[0] in Elements(page);
  }
}
