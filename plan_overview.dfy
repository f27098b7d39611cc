/**
 * The overview screen (src/screens/PlanOverviewScreen.tsx): which neighbouring
 * days are shown around the centre day, and how a day's tasks are previewed.
 * Dates compare as strings, code unit by code unit, as JavaScript's `<`,
 * `>` and default `sort()` do.
 */
module PlanOverview {
  import opened Types
  import opened Strings

  /** The number of neighbour slots around the centre. */
  const Slots: nat := 4
  /** Preview limits: the centre day shows 10 tasks, a neighbour 3. */
  const CentreLimit: nat := 10
  const NeighbourLimit: nat := 3

  // ---------------------------------------------------------------------------
  // Ordering a set of dates

  /** `a` comes before `b` in ascending (`asc`) or descending order. */
  predicate Ahead(a: string, b: string, asc: bool) {
    if asc then StrLt(a, b) else StrLt(b, a)
  }

  lemma AheadTotal(a: string, b: string, asc: bool)
    ensures a == b || Ahead(a, b, asc) || Ahead(b, a, asc)
  {
    StrLtTotal(a, b);
  }

  lemma AheadTransitive(a: string, b: string, c: string, asc: bool)
    requires Ahead(a, b, asc) && Ahead(b, c, asc)
    ensures Ahead(a, c, asc)
  {
    if asc { StrLtTransitive(a, b, c); } else { StrLtTransitive(c, b, a); }
  }

  /** Every non-empty set of dates has a first element in either order. */
  lemma {:induction false} FirstExists(s: set<string>, asc: bool)
    requires s != {}
    ensures exists m :: m in s && forall x :: x in s && x != m ==> Ahead(m, x, asc)
    decreases |s|
  {
    var y :| y in s;
    var rest := s - {y};
    if rest == {} {
      assert s == {y};
      assert forall x :: x in s && x != y ==> Ahead(y, x, asc);
    } else {
      FirstExists(rest, asc);
      var m :| m in rest && forall x :: x in rest && x != m ==> Ahead(m, x, asc);
      AheadTotal(m, y, asc);
      if Ahead(m, y, asc) {
        assert forall x :: x in s && x != m ==> Ahead(m, x, asc);
      } else {
        forall x | x in s && x != y ensures Ahead(y, x, asc) {
          if x != m {
            AheadTransitive(y, m, x, asc);
          }
        }
      }
    }
  }

  ghost function First(s: set<string>, asc: bool): (m: string)
    requires s != {}
    ensures m in s
    ensures forall x :: x in s && x != m ==> Ahead(m, x, asc)
  {
    FirstExists(s, asc);
    var m :| m in s && forall x :: x in s && x != m ==> Ahead(m, x, asc);
    m
  }

  /** The set's elements in strictly ascending (or descending) order: what `sort()` gives for distinct keys. */
  ghost function Sorted(s: set<string>, asc: bool): (r: seq<string>)
    ensures |r| == |s|
    ensures forall x :: x in r <==> x in s
    ensures forall i, j :: 0 <= i < j < |r| ==> Ahead(r[i], r[j], asc)
    decreases |s|
  {
    if s == {} then []
    else
      var m := First(s, asc);
      var rest := s - {m};
      assert |rest| == |s| - 1;
      var tail := Sorted(rest, asc);
      PrependFirst(m, rest, tail, asc);
      [m] + tail
  }

  /** Putting the first element in front of the ordered rest gives the ordered whole. */
  lemma PrependFirst(m: string, rest: set<string>, tail: seq<string>, asc: bool)
    requires forall x :: x in rest ==> Ahead(m, x, asc)
    requires forall x :: x in tail <==> x in rest
    requires forall i, j :: 0 <= i < j < |tail| ==> Ahead(tail[i], tail[j], asc)
    ensures forall i, j :: 0 <= i < j < |[m] + tail| ==> Ahead(([m] + tail)[i], ([m] + tail)[j], asc)
  {
    var r := [m] + tail;
    forall i, j | 0 <= i < j < |r|
      ensures Ahead(r[i], r[j], asc)
    {
      assert r[j] == tail[j - 1];
      if i == 0 {
        assert tail[j - 1] in rest;
      } else {
        assert r[i] == tail[i - 1];
      }
    }
  }

  // ---------------------------------------------------------------------------
  // surroundingDays

  /** `allDates`: the dates other than the centre whose plan holds tasks. */
  function Candidates(plans: Plans, centre: string): (r: set<string>)
    ensures forall d :: d in r <==> d in plans && d != centre && |plans[d]| > 0
  {
    set d | d in plans && d != centre && |plans[d]| > 0
  }

  function FutureDates(plans: Plans, centre: string): set<string> {
    set d | d in Candidates(plans, centre) && StrLt(centre, d)
  }

  function PastDates(plans: Plans, centre: string): set<string> {
    set d | d in Candidates(plans, centre) && StrLt(d, centre)
  }

  /**
   * surroundingDays: future dates ascending; when fewer than four, the
   * nearest past dates (descending) fill the free slots; then the first four.
   */
  ghost function SurroundingDays(plans: Plans, centre: string): (r: seq<string>)
    ensures |r| <= Slots
  {
    Layout(Sorted(FutureDates(plans, centre), true), Sorted(PastDates(plans, centre), false))
  }

  /** `selected`: the future dates, topped up from the past dates when fewer than four; then `slice(0, 4)`. */
  function Layout(future: seq<string>, past: seq<string>): seq<string> {
    var selected := if |future| < Slots then future + Prefix(past, Slots - |future|) else future;
    Prefix(selected, Slots)
  }

  /** Where each shown date comes from. */
  lemma LayoutIndex(future: seq<string>, past: seq<string>, i: int)
    requires 0 <= i < |Layout(future, past)|
    ensures i < |future| ==> Layout(future, past)[i] == future[i]
    ensures i >= |future| ==> |future| < Slots && i - |future| < |past| && Layout(future, past)[i] == past[i - |future|]
  {
  }

  lemma LayoutLength(future: seq<string>, past: seq<string>)
    ensures |Layout(future, past)| == if |future| + |past| < Slots then |future| + |past| else Slots
  {
  }

  /** Every candidate is either a future or a past date. */
  lemma CandidatesSplit(plans: Plans, centre: string)
    ensures Candidates(plans, centre) == FutureDates(plans, centre) + PastDates(plans, centre)
    ensures FutureDates(plans, centre) * PastDates(plans, centre) == {}
  {
    forall d | d in Candidates(plans, centre) ensures StrLt(centre, d) || StrLt(d, centre) {
      StrLtTotal(centre, d);
    }
    forall d | d in FutureDates(plans, centre) ensures d !in PastDates(plans, centre) {
      StrLtAsymmetric(centre, d);
    }
  }

  /**
   * At most four dates are shown, and exactly min(4, number of candidates);
   * each is a candidate: never the centre, never a day without tasks.
   */
  lemma SurroundingShape(plans: Plans, centre: string)
    ensures var r := SurroundingDays(plans, centre);
      && |r| == (if |Candidates(plans, centre)| < Slots then |Candidates(plans, centre)| else Slots)
      && forall i :: 0 <= i < |r| ==> r[i] in plans && r[i] != centre && |plans[r[i]]| > 0
  {
    CandidatesSplit(plans, centre);
    var F := FutureDates(plans, centre);
    var P := PastDates(plans, centre);
    assert |F + P| == |F| + |P|;
    var future := Sorted(F, true);
    var past := Sorted(P, false);
    LayoutLength(future, past);
    var r := SurroundingDays(plans, centre);
    forall i | 0 <= i < |r| ensures r[i] in Candidates(plans, centre) {
      LayoutIndex(future, past, i);
    }
  }

  /** The future dates are the candidates after the centre, the past dates those before it. */
  lemma SidesOfCentre(plans: Plans, centre: string)
    ensures forall d :: d in FutureDates(plans, centre) ==> StrLt(centre, d) && !StrLt(d, centre)
    ensures forall d :: d in PastDates(plans, centre) ==> StrLt(d, centre) && !StrLt(centre, d)
  {
    forall d | d in FutureDates(plans, centre) ensures !StrLt(d, centre) {
      StrLtAsymmetric(centre, d);
    }
    forall d | d in PastDates(plans, centre) ensures !StrLt(centre, d) {
      StrLtAsymmetric(d, centre);
    }
  }

  /** Future dates come first, ascending; past dates follow, descending. */
  lemma SurroundingOrder(plans: Plans, centre: string)
    ensures var r := SurroundingDays(plans, centre);
      && (forall i, j :: 0 <= i < j < |r| && StrLt(r[i], centre) ==> StrLt(r[j], centre))
      && (forall i, j :: 0 <= i < j < |r| && StrLt(centre, r[j]) ==> StrLt(r[i], r[j]))
      && (forall i, j :: 0 <= i < j < |r| && StrLt(r[i], centre) ==> StrLt(r[j], r[i]))
  {
    var future := Sorted(FutureDates(plans, centre), true);
    var past := Sorted(PastDates(plans, centre), false);
    var r := SurroundingDays(plans, centre);
    SidesOfCentre(plans, centre);
    forall i, j | 0 <= i < j < |r|
      ensures StrLt(r[i], centre) ==> StrLt(r[j], centre) && StrLt(r[j], r[i])
      ensures StrLt(centre, r[j]) ==> StrLt(r[i], r[j])
    {
      LayoutIndex(future, past, i);
      LayoutIndex(future, past, j);
      if i < |future| {
        assert r[i] in FutureDates(plans, centre);
      }
      if j >= |future| {
        assert r[j] in PastDates(plans, centre);
      }
    }
  }

  /** Past dates are shown only when every future date already is. */
  lemma SurroundingPastOnlyToFill(plans: Plans, centre: string)
    ensures var r := SurroundingDays(plans, centre);
      (exists i :: 0 <= i < |r| && StrLt(r[i], centre)) ==> forall d :: d in FutureDates(plans, centre) ==> d in r
  {
    var F := FutureDates(plans, centre);
    var future := Sorted(F, true);
    var past := Sorted(PastDates(plans, centre), false);
    var r := SurroundingDays(plans, centre);
    SidesOfCentre(plans, centre);
    if i :| 0 <= i < |r| && StrLt(r[i], centre) {
      assert |future| < Slots by {
        LayoutIndex(future, past, i);
      }
      forall d | d in F ensures d in r {
        var k :| 0 <= k < |future| && future[k] == d;
        LayoutLength(future, past);
        LayoutIndex(future, past, k);
      }
    }
  }

  /** A future date that is left out lies after every future date shown: the nearest are kept. */
  lemma SurroundingNearestFuture(plans: Plans, centre: string, d: string)
    requires d in FutureDates(plans, centre) && d !in SurroundingDays(plans, centre)
    ensures forall i :: 0 <= i < |SurroundingDays(plans, centre)| && StrLt(centre, SurroundingDays(plans, centre)[i]) ==>
      StrLt(SurroundingDays(plans, centre)[i], d)
  {
    var future := Sorted(FutureDates(plans, centre), true);
    var past := Sorted(PastDates(plans, centre), false);
    var r := SurroundingDays(plans, centre);
    SidesOfCentre(plans, centre);
    var k :| 0 <= k < |future| && future[k] == d;
    LayoutLength(future, past);
    assert k >= |r| by {
      if k < |r| {
        LayoutIndex(future, past, k);
      }
    }
    forall i | 0 <= i < |r| && StrLt(centre, r[i]) ensures StrLt(r[i], d) {
      LayoutIndex(future, past, i);
    }
  }

  // ---------------------------------------------------------------------------
  // renderTaskPreview

  /** getPriorityWeight: high 3, medium 2, low 1, no priority 0. */
  function PriorityWeight(p: Option<Priority>): (w: nat)
    ensures w <= 3
    ensures w == 0 <==> p.None?
    ensures p.Some? ==> (p.value == High <==> w == 3) && (p.value == Medium <==> w == 2) && (p.value == Low <==> w == 1)
  {
    match p
    case Some(High) => 3
    case Some(Medium) => 2
    case Some(Low) => 1
    case None => 0
  }

  function Weight(t: Task): nat {
    PriorityWeight(t.priority)
  }

  /** The tasks of weight `w`, in their stored order. */
  function WithWeight(tasks: seq<Task>, w: nat): (r: seq<Task>)
    ensures |r| <= |tasks|
  {
    if tasks == [] then []
    else (if Weight(tasks[0]) == w then [tasks[0]] else []) + WithWeight(tasks[1..], w)
  }

  /** The tasks of one weight are the stored list with the other tasks left out, in stored order. */
  lemma {:induction false} WithWeightInOrder(tasks: seq<Task>, w: nat)
    ensures Subsequence(WithWeight(tasks, w), tasks)
  {
    if tasks != [] {
      WithWeightInOrder(tasks[1..], w);
      WithWeightAll(tasks[1..], w);
      var r := WithWeight(tasks, w);
      if Weight(tasks[0]) == w {
        assert r[0] == tasks[0] && r[1..] == WithWeight(tasks[1..], w);
      } else {
        assert r == WithWeight(tasks[1..], w);
        if r != [] {
          assert r[0] in r;
        }
      }
    }
  }

  /**
   * `[...tasks].sort((a, b) => weight(b) - weight(a))`: JavaScript's sort is
   * stable, so the result is the heaviest tasks first, each weight keeping
   * the stored order.
   */
  function SortByWeight(tasks: seq<Task>): (r: seq<Task>)
    ensures multiset(r) == multiset(tasks)
  {
    WithWeightMultiset(tasks);
    WithWeight(tasks, 3) + WithWeight(tasks, 2) + WithWeight(tasks, 1) + WithWeight(tasks, 0)
  }

  lemma WithWeightCons(t: Task, rest: seq<Task>, w: nat)
    ensures WithWeight([t] + rest, w) == (if Weight(t) == w then [t] else []) + WithWeight(rest, w)
  {
    assert ([t] + rest)[0] == t;
    assert ([t] + rest)[1..] == rest;
  }

  lemma {:induction false} WithWeightMultiset(tasks: seq<Task>)
    ensures multiset(tasks) == multiset(WithWeight(tasks, 3)) + multiset(WithWeight(tasks, 2))
                             + multiset(WithWeight(tasks, 1)) + multiset(WithWeight(tasks, 0))
  {
    if tasks != [] {
      var t, rest := tasks[0], tasks[1..];
      WithWeightMultiset(rest);
      assert tasks == [t] + rest;
      WithWeightCons(t, rest, 3);
      WithWeightCons(t, rest, 2);
      WithWeightCons(t, rest, 1);
      WithWeightCons(t, rest, 0);
      assert multiset(tasks) == multiset{t} + multiset(rest);
    }
  }

  /** Every task kept by `WithWeight(tasks, w)` has weight w. */
  lemma {:induction false} WithWeightAll(tasks: seq<Task>, w: nat)
    ensures forall t :: t in WithWeight(tasks, w) ==> Weight(t) == w
  {
    if tasks != [] {
      WithWeightAll(tasks[1..], w);
      assert WithWeight(tasks, w) == (if Weight(tasks[0]) == w then [tasks[0]] else []) + WithWeight(tasks[1..], w);
    }
  }

  /** The sorted preview list is a reordering of the stored list: nothing is lost or invented. */
  lemma SortIsPermutation(tasks: seq<Task>)
    ensures multiset(SortByWeight(tasks)) == multiset(tasks)
  {
    WithWeightMultiset(tasks);
  }

  /** Weights never increase along the sorted list. */
  lemma SortIsOrdered(tasks: seq<Task>)
    ensures var r := SortByWeight(tasks);
      forall i, j :: 0 <= i < j < |r| ==> Weight(r[i]) >= Weight(r[j])
  {
    var a, b, c, d := WithWeight(tasks, 3), WithWeight(tasks, 2), WithWeight(tasks, 1), WithWeight(tasks, 0);
    var r := SortByWeight(tasks);
    WithWeightAll(tasks, 3);
    WithWeightAll(tasks, 2);
    WithWeightAll(tasks, 1);
    WithWeightAll(tasks, 0);
    forall i | 0 <= i < |r|
      ensures Weight(r[i]) == if i < |a| then 3 else if i < |a| + |b| then 2 else if i < |a| + |b| + |c| then 1 else 0
    {
      if i < |a| { assert r[i] == a[i] && a[i] in a; }
      else if i < |a| + |b| { assert r[i] == b[i - |a|] && b[i - |a|] in b; }
      else if i < |a| + |b| + |c| { assert r[i] == c[i - |a| - |b|] && c[i - |a| - |b|] in c; }
      else { assert r[i] == d[i - |a| - |b| - |c|] && d[i - |a| - |b| - |c|] in d; }
    }
  }

  lemma {:induction false} WithWeightOfConstant(s: seq<Task>, w: nat, v: nat)
    requires forall t :: t in s ==> Weight(t) == w
    ensures WithWeight(s, v) == if v == w then s else []
  {
    if s != [] {
      WithWeightOfConstant(s[1..], w, v);
      assert s == [s[0]] + s[1..];
    }
  }

  lemma {:induction false} WithWeightAppend(a: seq<Task>, b: seq<Task>, w: nat)
    ensures WithWeight(a + b, w) == WithWeight(a, w) + WithWeight(b, w)
  {
    if a == [] {
      assert a + b == b;
    } else {
      var ab, head := a + b, if Weight(a[0]) == w then [a[0]] else [];
      assert ab[0] == a[0] && ab[1..] == a[1..] + b;
      WithWeightAppend(a[1..], b, w);
      calc {
        WithWeight(ab, w);
        head + WithWeight(a[1..] + b, w);
        head + (WithWeight(a[1..], w) + WithWeight(b, w));
        (head + WithWeight(a[1..], w)) + WithWeight(b, w);
      }
    }
  }

  /** Stability: the tasks of each weight appear in the sorted list in their stored order. */
  lemma SortIsStable(tasks: seq<Task>, w: nat)
    ensures WithWeight(SortByWeight(tasks), w) == WithWeight(tasks, w)
  {
    var a, b, c, d := WithWeight(tasks, 3), WithWeight(tasks, 2), WithWeight(tasks, 1), WithWeight(tasks, 0);
    assert WithWeight(SortByWeight(tasks), w) == WithWeight(a, w) + WithWeight(b, w) + WithWeight(c, w) + WithWeight(d, w) by {
      WithWeightAppend(a + b + c, d, w);
      WithWeightAppend(a + b, c, w);
      WithWeightAppend(a, b, w);
    }
    WithWeightAll(tasks, 3);
    WithWeightAll(tasks, 2);
    WithWeightAll(tasks, 1);
    WithWeightAll(tasks, 0);
    WithWeightOfConstant(a, 3, w);
    WithWeightOfConstant(b, 2, w);
    WithWeightOfConstant(c, 1, w);
    WithWeightOfConstant(d, 0, w);
    if w == 3 {
      assert a + [] + [] + [] == a;
    } else if w == 2 {
      assert [] + b + [] + [] == b;
    } else if w == 1 {
      assert [] + [] + c + [] == c;
    } else if w == 0 {
      assert [] + [] + [] + d == d;
    } else {
      WithWeightNone(tasks, w);
    }
  }

  lemma {:induction false} WithWeightNone(tasks: seq<Task>, w: nat)
    requires w > 3
    ensures WithWeight(tasks, w) == []
  {
    if tasks != [] {
      WithWeightNone(tasks[1..], w);
    }
  }

  /** What the preview of one day shows. */
  datatype Preview =
    | Placeholder                                 // "Plan yok"
    | Items(shown: seq<Task>, more: Option<nat>)  // the first tasks, and "+ N daha..."

  function PreviewOf(plans: Plans, date: string, limit: nat): (p: Preview)
    ensures p.Placeholder? <==> date !in plans || plans[date] == []
    ensures p.Items? ==> (p.more.Some? <==> |plans[date]| > limit)
  {
    var tasks := if date in plans then plans[date] else [];
    if |tasks| == 0 then Placeholder
    else Items(Prefix(SortByWeight(tasks), limit), if |tasks| > limit then Some(|tasks| - limit) else None)
  }

  /**
   * The placeholder appears exactly for an absent or empty plan; otherwise
   * min(limit, n) tasks are shown, all taken from the plan, none lighter than
   * a hidden one, and "+N" appears exactly when n > limit, with N = n - limit.
   */
  lemma PreviewShape(plans: Plans, date: string, limit: nat)
    ensures var tasks := if date in plans then plans[date] else [];
      var p := PreviewOf(plans, date, limit);
      && (p.Placeholder? <==> |tasks| == 0)
      && (p.Items? ==>
        && |p.shown| == (if |tasks| < limit then |tasks| else limit)
        && multiset(p.shown) <= multiset(tasks)
        && (p.more.Some? <==> |tasks| > limit)
        && (p.more.Some? ==> p.more.value == |tasks| - limit)
        && forall i, j :: 0 <= i < |p.shown| <= j < |SortByWeight(tasks)| ==>
             Weight(p.shown[i]) >= Weight(SortByWeight(tasks)[j]))
  {
    var tasks := if date in plans then plans[date] else [];
    if |tasks| > 0 {
      SortIsPermutation(tasks);
      SortIsOrdered(tasks);
      ShownPart(SortByWeight(tasks), tasks, limit);
    }
  }

  /** The first `limit` tasks of a heaviest-first reordering of `tasks`. */
  lemma ShownPart(sorted: seq<Task>, tasks: seq<Task>, limit: nat)
    requires multiset(sorted) == multiset(tasks)
    requires forall i, j :: 0 <= i < j < |sorted| ==> Weight(sorted[i]) >= Weight(sorted[j])
    ensures var shown := Prefix(sorted, limit);
      && |shown| == (if |tasks| < limit then |tasks| else limit)
      && multiset(shown) <= multiset(tasks)
      && forall i, j :: 0 <= i < |shown| <= j < |sorted| ==> Weight(shown[i]) >= Weight(sorted[j])
  {
    var shown := Prefix(sorted, limit);
    assert |sorted| == |tasks| by {
      assert |multiset(sorted)| == |multiset(tasks)|;
    }
    assert sorted == shown + sorted[|shown|..];
    assert multiset(sorted) == multiset(shown) + multiset(sorted[|shown|..]);
  }
}
