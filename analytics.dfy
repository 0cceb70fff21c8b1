/** daily_comment_analytic: for each calendar day in [first, last] (both
    included) on which someone commented on a post the user wrote, the
    number of those comments and how many of them are blocked; days in
    ascending order. The SQL GROUP BY / ORDER BY is modelled as a walk over
    the days of the range. */
module Analytics {
  import opened Records
  import opened Store

  /** One row of the result (DailyCommentAnalyticItem). */
  datatype DailyItem = DailyItem(day: int, totalComments: int, blockedComments: int)

  /** Comment `c` is on a post authored by `uid` (the join with posts and the author filter). */
  predicate OnPostOf(t: Tables, uid: int, c: int)
  {
    c in t.comments && t.comments[c].postId in t.posts && t.posts[t.comments[c].postId].authorId == uid
  }

  /** The counted comments made on `day`. */
  function CommentsOn(t: Tables, uid: int, day: int): set<int>
  {
    set c | c in t.comments && OnPostOf(t, uid, c) && Day(t.comments[c].createdAt) == day
  }

  /** Those of them that are blocked. */
  function BlockedOn(t: Tables, uid: int, day: int): set<int>
  {
    set c | c in CommentsOn(t, uid, day) && t.comments[c].blocked
  }

  /** The counted comments made between day `first` and day `last`, both included. */
  function CommentsBetween(t: Tables, uid: int, first: int, last: int): set<int>
  {
    set c | c in t.comments && OnPostOf(t, uid, c) && first <= Day(t.comments[c].createdAt) <= last
  }

  lemma SubsetNoLarger(a: set<int>, b: set<int>)
    requires a <= b
    ensures |a| <= |b|
  {
    assert b == a + (b - a);
  }

  /** The row of day `d`: present exactly when some counted comment was
      made that day, with that day's counts. */
  function DayRow(t: Tables, uid: int, d: int): (r: seq<DailyItem>)
    ensures |r| <= 1
    ensures r != [] <==> CommentsOn(t, uid, d) != {}
    ensures r != [] ==> r[0] == DailyItem(d, |CommentsOn(t, uid, d)|, |BlockedOn(t, uid, d)|)
    ensures r != [] ==> 0 <= r[0].blockedComments <= r[0].totalComments && 0 < r[0].totalComments
  {
    var total := CommentsOn(t, uid, d);
    var blocked := BlockedOn(t, uid, d);
    SubsetNoLarger(blocked, total);
    if total == {} then [] else [DailyItem(d, |total|, |blocked|)]
  }

  /** The result of the query: one row per day that has counted comments,
      days inside the range, each row with at least one comment and no more
      blocked comments than comments. An inverted
      range gives no rows. */
  function DailyCommentAnalytic(t: Tables, uid: int, first: int, last: int): (r: seq<DailyItem>)
    ensures first > last ==> r == []
    ensures forall i :: 0 <= i < |r| ==> first <= r[i].day <= last
    ensures forall i :: 0 <= i < |r| ==> 0 <= r[i].blockedComments <= r[i].totalComments && 0 < r[i].totalComments
    decreases last - first
  {
    if first > last then [] else DayRow(t, uid, first) + DailyCommentAnalytic(t, uid, first + 1, last)
  }

  /** Rows whose days strictly ascend. */
  predicate Ascending(r: seq<DailyItem>)
  {
    forall i, j :: 0 <= i < j < |r| ==> r[i].day < r[j].day
  }

  /** The rows come in strictly ascending order of day. */
  lemma {:induction false} DaysAscending(t: Tables, uid: int, first: int, last: int)
    ensures Ascending(DailyCommentAnalytic(t, uid, first, last))
    decreases last - first
  {
    if first <= last {
      DaysAscending(t, uid, first + 1, last);
      var head := DayRow(t, uid, first);
      var rest := DailyCommentAnalytic(t, uid, first + 1, last);
      assert Ascending(rest);
      var r := head + rest;
      assert DailyCommentAnalytic(t, uid, first, last) == r;
      forall i, j | 0 <= i < j < |r|
        ensures r[i].day < r[j].day
      {
        assert r[j] == rest[j - |head|];
        if i < |head| {
          assert r[i] == head[0];
          assert first < rest[j - |head|].day;
        } else {
          assert r[i] == rest[i - |head|];
          assert rest[i - |head|].day < rest[j - |head|].day;
        }
      }
    }
  }

  /** Every row of `r` is the row of its own day. */
  predicate RowsOfTheirDays(t: Tables, uid: int, r: seq<DailyItem>)
  {
    forall i :: 0 <= i < |r| ==> DayRow(t, uid, r[i].day) == [r[i]]
  }

  /** Every row is the row of its own day. */
  lemma {:induction false} RowsAreDayRows(t: Tables, uid: int, first: int, last: int)
    ensures RowsOfTheirDays(t, uid, DailyCommentAnalytic(t, uid, first, last))
    decreases last - first
  {
    if first <= last {
      RowsAreDayRows(t, uid, first + 1, last);
      var head := DayRow(t, uid, first);
      var rest := DailyCommentAnalytic(t, uid, first + 1, last);
      assert RowsOfTheirDays(t, uid, rest);
      var r := head + rest;
      assert DailyCommentAnalytic(t, uid, first, last) == r;
      forall i | 0 <= i < |r|
        ensures DayRow(t, uid, r[i].day) == [r[i]]
      {
        if i < |head| {
          assert r[i] == head[0] && head == [head[0]];
        } else {
          assert r[i] == rest[i - |head|];
        }
      }
    }
  }

  /** Some row of `r` is for day `d`. */
  predicate HasRowFor(r: seq<DailyItem>, d: int)
  {
    exists i :: 0 <= i < |r| && r[i].day == d
  }

  /** A day of the range with counted comments has a row. */
  lemma {:induction false} ActiveDayHasRow(t: Tables, uid: int, first: int, last: int, d: int)
    requires first <= d <= last && CommentsOn(t, uid, d) != {}
    ensures HasRowFor(DailyCommentAnalytic(t, uid, first, last), d)
    decreases last - first
  {
    var head := DayRow(t, uid, first);
    var rest := DailyCommentAnalytic(t, uid, first + 1, last);
    var r := head + rest;
    assert DailyCommentAnalytic(t, uid, first, last) == r;
    if d == first {
      assert r[0] == head[0];
    } else {
      ActiveDayHasRow(t, uid, first + 1, last, d);
      assert HasRowFor(rest, d);
      var k :| 0 <= k < |rest| && rest[k].day == d;
      assert r[|head| + k] == rest[k];
    }
    assert HasRowFor(r, d);
  }

  /** A day of the range has a row exactly when some counted comment was made
      that day, and the row carries that day's counts. */
  lemma RowForEachActiveDay(t: Tables, uid: int, first: int, last: int, d: int)
    requires first <= d <= last
    ensures var r := DailyCommentAnalytic(t, uid, first, last);
            (exists i :: 0 <= i < |r| && r[i].day == d) <==> CommentsOn(t, uid, d) != {}
    ensures var r := DailyCommentAnalytic(t, uid, first, last);
            forall i :: 0 <= i < |r| && r[i].day == d ==>
              r[i].totalComments == |CommentsOn(t, uid, d)| && r[i].blockedComments == |BlockedOn(t, uid, d)|
  {
    RowsAreDayRows(t, uid, first, last);
    assert RowsOfTheirDays(t, uid, DailyCommentAnalytic(t, uid, first, last));
    if CommentsOn(t, uid, d) != {} {
      ActiveDayHasRow(t, uid, first, last, d);
      assert HasRowFor(DailyCommentAnalytic(t, uid, first, last), d);
    }
  }

  /** Sum of the total_comments column. */
  function SumTotals(rows: seq<DailyItem>): int
  {
    if rows == [] then 0 else rows[0].totalComments + SumTotals(rows[1..])
  }

  /** The comments of a range are those of its first day and those of the
      remaining days, which are disjoint. */
  lemma FirstDaySplits(t: Tables, uid: int, first: int, last: int)
    requires first <= last
    ensures |CommentsBetween(t, uid, first, last)| == |CommentsOn(t, uid, first)| + |CommentsBetween(t, uid, first + 1, last)|
  {
    var today := CommentsOn(t, uid, first);
    var later := CommentsBetween(t, uid, first + 1, last);
    assert CommentsBetween(t, uid, first, last) == today + later;
    assert today * later == {};
  }

  /** The totals of all rows add up to the number of counted comments in the range. */
  lemma {:induction false} TotalsCountEveryComment(t: Tables, uid: int, first: int, last: int)
    ensures SumTotals(DailyCommentAnalytic(t, uid, first, last)) == |CommentsBetween(t, uid, first, last)|
    decreases last - first
  {
    if first > last {
      assert CommentsBetween(t, uid, first, last) == {};
    } else {
      TotalsCountEveryComment(t, uid, first + 1, last);
      var today := CommentsOn(t, uid, first);
      FirstDaySplits(t, uid, first, last);
      var rest := DailyCommentAnalytic(t, uid, first + 1, last);
      var head := DayRow(t, uid, first);
      assert DailyCommentAnalytic(t, uid, first, last) == head + rest;
      if head != [] {
        assert (head + rest)[1..] == rest;
      } else {
        assert head + rest == rest;
      }
    }
  }
}
