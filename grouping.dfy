/** The first step of the follow-up task: completion rows grouped into
    course -> (user -> completion time). */
module Grouping {
  import opened Base
  import opened DatabaseInterface

  /** course id -> (user id -> completion time), both levels in insertion order. */
  type Grouped = Assoc<Id, Assoc<Id, int>>

  /** Both levels are well-formed arrays and every course has a user. */
  ghost predicate WellGrouped(g: Grouped) {
    g.Valid() && forall c :: c in g.vals ==> g.vals[c].Valid() && |g.vals[c].keys| >= 1
  }

  /** One iteration of the grouping loop:
      `$info[$course][$userid] = $timecompleted`, creating the course entry
      first when it is missing. */
  function AddCompletion(g: Grouped, row: CompletionRow): (r: Grouped)
    requires WellGrouped(g)
    ensures WellGrouped(r)
  {
    var users := if row.course in g.vals then g.vals[row.course] else EmptyAssoc();
    Put(g, row.course, Put(users, row.userid, row.timecompleted))
  }

  /** The loop body's two assignments, the `isset` initialisation and
      the store, make one `AddCompletion`. */
  lemma AddCompletionInTwoSteps(g: Grouped, row: CompletionRow)
    requires WellGrouped(g)
    ensures var g1 := if row.course !in g.vals then Put(g, row.course, EmptyAssoc()) else g;
            && row.course in g1.vals && g1.vals[row.course].Valid()
            && AddCompletion(g, row) == Put(g1, row.course, Put(g1.vals[row.course], row.userid, row.timecompleted))
  {
    if row.course !in g.vals {
      var inner := Put(EmptyAssoc(), row.userid, row.timecompleted);
      PutTwice(g, row.course, EmptyAssoc(), inner);
    }
  }

  /** The grouping of `rows`, processed in order. */
  function Group(rows: seq<CompletionRow>): (r: Grouped)
    ensures WellGrouped(r)
  {
    if rows == [] then EmptyAssoc()
    else AddCompletion(Group(rows[..|rows| - 1]), rows[|rows| - 1])
  }

  /** The courses of the rows, in row order. */
  function CoursesOf(rows: seq<CompletionRow>): seq<Id> {
    if rows == [] then [] else CoursesOf(rows[..|rows| - 1]) + [rows[|rows| - 1].course]
  }

  /** The users of the rows about course `c`, in row order. */
  function UsersOf(rows: seq<CompletionRow>, c: Id): seq<Id> {
    if rows == [] then []
    else UsersOf(rows[..|rows| - 1], c) + if rows[|rows| - 1].course == c then [rows[|rows| - 1].userid] else []
  }

  /** `foreach` visits the courses of the grouping in the order they first
      appear in the rows, so the sessions are built and sent in that order. */
  lemma {:induction false} GroupCourseOrder(rows: seq<CompletionRow>)
    ensures Group(rows).keys == FirstAppearances(CoursesOf(rows))
  {
    if rows != [] {
      var n := |rows| - 1;
      GroupCourseOrder(rows[..n]);
      var cs := CoursesOf(rows);
      assert cs[..|cs| - 1] == CoursesOf(rows[..n]) && cs[|cs| - 1] == rows[n].course;
    }
  }

  /** Within a course, the grouping visits the users in the order they first
      appear in the rows about that course, so a session's users are cut
      into bundles in that order. */
  lemma {:induction false} GroupUserOrder(rows: seq<CompletionRow>, c: Id)
    requires c in Group(rows).vals
    ensures Group(rows).vals[c].keys == FirstAppearances(UsersOf(rows, c))
  {
    assert rows != [];
    var n := |rows| - 1;
    var g := Group(rows[..n]);
    if c in g.vals {
      GroupUserOrder(rows[..n], c);
    } else {
      UsersOfAbsent(rows[..n], c);
    }
    UserOrderStep(g, rows[n], c, UsersOf(rows[..n], c), UsersOf(rows, c));
  }

  /** One iteration keeps the users of course `c` listed in first-appearance
      order. */
  lemma UserOrderStep(g: Grouped, row: CompletionRow, c: Id, us0: seq<Id>, us: seq<Id>)
    requires WellGrouped(g) && c in AddCompletion(g, row).vals
    requires c in g.vals ==> g.vals[c].keys == FirstAppearances(us0)
    requires c !in g.vals ==> us0 == []
    requires us == us0 + if row.course == c then [row.userid] else []
    ensures AddCompletion(g, row).vals[c].keys == FirstAppearances(us)
  {
    AddCompletionUsers(g, row, c);
    if row.course != c {
      assert us == us0;
    } else if c in g.vals {
      NewUserOrder(us, us0, g.vals[c].keys, row.userid, row.userid in g.vals[c].vals);
    } else {
      NewUserOrder(us, us0, [], row.userid, false);
    }
  }

  /** The order step for the row's own course: the users listed so far are
      the first appearances before the row, and the row's user is appended
      exactly when it is new. */
  lemma NewUserOrder(us: seq<Id>, us0: seq<Id>, before: seq<Id>, u: Id, present: bool)
    requires us == us0 + [u] && before == FirstAppearances(us0)
    requires present <==> u in before
    ensures FirstAppearances(us) == if present then before else before + [u]
  {
    assert us[..|us| - 1] == us0;
  }

  /** The users of course `c` after one iteration: those before, and the
      row's user appended when the row is about `c` and the user is new. */
  lemma AddCompletionUsers(g: Grouped, row: CompletionRow, c: Id)
    requires WellGrouped(g) && c in AddCompletion(g, row).vals
    ensures AddCompletion(g, row).vals[c].keys ==
            if row.course != c then g.vals[c].keys
            else if c !in g.vals then [row.userid]
            else if row.userid in g.vals[c].vals then g.vals[c].keys
            else g.vals[c].keys + [row.userid]
  {
  }

  /** A course the grouping does not have has no rows. */
  lemma {:induction false} UsersOfAbsent(rows: seq<CompletionRow>, c: Id)
    requires c !in Group(rows).vals
    ensures UsersOf(rows, c) == []
  {
    if rows != [] {
      var n := |rows| - 1;
      UsersOfAbsent(rows[..n], c);
    }
  }

  /** Rows `a` and `b` are about the same user in the same course. */
  predicate SamePair(a: CompletionRow, b: CompletionRow) {
    a.course == b.course && a.userid == b.userid
  }

  /** `$info[$c][$u]`, or `None` when it is not set. */
  function Lookup(g: Grouped, c: Id, u: Id): Option<int> {
    if c in g.vals && u in g.vals[c].vals then Some(g.vals[c].vals[u]) else None
  }

  /** One iteration sets the row's course and user to its time and leaves
      every other course and user as it was. */
  lemma AddCompletionLookup(g: Grouped, row: CompletionRow, c: Id, u: Id)
    requires WellGrouped(g)
    ensures Lookup(AddCompletion(g, row), c, u) ==
            if row.course == c && row.userid == u then Some(row.timecompleted) else Lookup(g, c, u)
  {
    if c == row.course {
      AddCompletionLookupSameCourse(g, row, u);
    } else {
      AddCompletionLookupOtherCourse(g, row, c, u);
    }
  }

  lemma AddCompletionLookupSameCourse(g: Grouped, row: CompletionRow, u: Id)
    requires WellGrouped(g)
    ensures Lookup(AddCompletion(g, row), row.course, u) ==
            if row.userid == u then Some(row.timecompleted) else Lookup(g, row.course, u)
  {
    var c := row.course;
    var users := if c in g.vals then g.vals[c] else EmptyAssoc();
    var inner := Put(users, row.userid, row.timecompleted);
    var r := Put(g, c, inner);
    assert AddCompletion(g, row) == r;
    assert c in r.vals && r.vals[c] == inner;
    if u != row.userid {
      assert u in inner.vals <==> u in users.vals;
      if u in users.vals {
        assert inner.vals[u] == users.vals[u];
      }
    }
  }

  lemma AddCompletionLookupOtherCourse(g: Grouped, row: CompletionRow, c: Id, u: Id)
    requires WellGrouped(g) && c != row.course
    ensures Lookup(AddCompletion(g, row), c, u) == Lookup(g, c, u)
  {
    var users := if row.course in g.vals then g.vals[row.course] else EmptyAssoc();
    var r := Put(g, row.course, Put(users, row.userid, row.timecompleted));
    assert AddCompletion(g, row) == r;
    assert c in r.vals <==> c in g.vals;
    if c in g.vals {
      assert r.vals[c] == g.vals[c];
    }
  }

  /** The grouping of a non-empty list is its last row applied to the
      grouping of the others. */
  lemma GroupLastLookup(rows: seq<CompletionRow>, c: Id, u: Id)
    requires rows != []
    ensures Lookup(Group(rows), c, u) ==
            if rows[|rows| - 1].course == c && rows[|rows| - 1].userid == u
            then Some(rows[|rows| - 1].timecompleted)
            else Lookup(Group(rows[..|rows| - 1]), c, u)
  {
    AddCompletionLookup(Group(rows[..|rows| - 1]), rows[|rows| - 1], c, u);
  }

  /** The completion time of the last row about course `c` and user `u`. */
  function LastTime(rows: seq<CompletionRow>, c: Id, u: Id): Option<int> {
    if rows == [] then None
    else if rows[|rows| - 1].course == c && rows[|rows| - 1].userid == u then Some(rows[|rows| - 1].timecompleted)
    else LastTime(rows[..|rows| - 1], c, u)
  }

  /** The grouping holds, for each course and user, the time of the last
      row about them, and nothing for a pair no row mentions. */
  lemma {:induction false} GroupIsLastTime(rows: seq<CompletionRow>, c: Id, u: Id)
    ensures Lookup(Group(rows), c, u) == LastTime(rows, c, u)
  {
    if rows != [] {
      GroupLastLookup(rows, c, u);
      GroupIsLastTime(rows[..|rows| - 1], c, u);
    }
  }

  /** Row `i` is the last row about course `c` and user `u`. */
  predicate IsLastRowFor(rows: seq<CompletionRow>, i: nat, c: Id, u: Id) {
    && i < |rows| && rows[i].course == c && rows[i].userid == u
    && forall j :: i < j < |rows| ==> !SamePair(rows[j], rows[i])
  }

  lemma {:induction false} LastTimeOfLastRow(rows: seq<CompletionRow>, i: nat)
    requires i < |rows|
    requires IsLastRowFor(rows, i, rows[i].course, rows[i].userid)
    ensures LastTime(rows, rows[i].course, rows[i].userid) == Some(rows[i].timecompleted)
  {
    var n := |rows|;
    var init := rows[..n - 1];
    if i < n - 1 {
      assert init[i] == rows[i];
      forall j | i < j < |init| ensures !SamePair(init[j], init[i]) {
        assert init[j] == rows[j];
      }
      LastTimeOfLastRow(init, i);
      assert !SamePair(rows[n - 1], rows[i]);
    }
  }

  lemma {:induction false} LastTimeHasLastRow(rows: seq<CompletionRow>, c: Id, u: Id) returns (i: nat)
    requires LastTime(rows, c, u).Some?
    ensures IsLastRowFor(rows, i, c, u) && LastTime(rows, c, u) == Some(rows[i].timecompleted)
  {
    var n := |rows|;
    var init := rows[..n - 1];
    if rows[n - 1].course == c && rows[n - 1].userid == u {
      i := n - 1;
    } else {
      i := LastTimeHasLastRow(init, c, u);
      assert rows[i] == init[i];
      forall j | i < j < |rows| ensures !SamePair(rows[j], rows[i]) {
        if j < n - 1 {
          assert rows[j] == init[j];
        }
      }
    }
  }

  /** Last write wins: a row that no later row overrides has its completion
      time in the grouping, under its course and its user. */
  lemma GroupKeepsLastRow(rows: seq<CompletionRow>, i: nat)
    requires i < |rows|
    requires forall j :: i < j < |rows| ==> !SamePair(rows[j], rows[i])
    ensures Lookup(Group(rows), rows[i].course, rows[i].userid) == Some(rows[i].timecompleted)
  {
    GroupIsLastTime(rows, rows[i].course, rows[i].userid);
    LastTimeOfLastRow(rows, i);
  }

  /** Every entry of the grouping comes from a row, the last row for its
      course and user. */
  lemma GroupEntryFromLastRow(rows: seq<CompletionRow>, c: Id, u: Id) returns (i: nat)
    requires Lookup(Group(rows), c, u).Some?
    ensures IsLastRowFor(rows, i, c, u)
    ensures Lookup(Group(rows), c, u) == Some(rows[i].timecompleted)
  {
    GroupIsLastTime(rows, c, u);
    i := LastTimeHasLastRow(rows, c, u);
  }

  /** A course and user appear in the grouping exactly when some row has them. */
  lemma GroupHasExactlyTheRowPairs(rows: seq<CompletionRow>, c: Id, u: Id)
    ensures Lookup(Group(rows), c, u).Some? <==>
            exists i :: 0 <= i < |rows| && rows[i].course == c && rows[i].userid == u
  {
    if Lookup(Group(rows), c, u).Some? {
      var i := GroupEntryFromLastRow(rows, c, u);
    }
    if exists i :: 0 <= i < |rows| && rows[i].course == c && rows[i].userid == u {
      var i :| 0 <= i < |rows| && rows[i].course == c && rows[i].userid == u;
      var k := LastOfPair(rows, i);
      GroupKeepsLastRow(rows, k);
    }
  }

  /** The last row for the same course and user as row `i`. */
  function LastOfPair(rows: seq<CompletionRow>, i: nat): (k: nat)
    requires i < |rows|
    ensures i <= k < |rows| && SamePair(rows[k], rows[i])
    ensures forall j :: k < j < |rows| ==> !SamePair(rows[j], rows[k])
    decreases |rows| - i
  {
    if exists j :: i < j < |rows| && SamePair(rows[j], rows[i]) then
      var j :| i < j < |rows| && SamePair(rows[j], rows[i]);
      LastOfPair(rows, j)
    else i
  }

  /** Two rows of the same user in the same course: the later one wins. */
  lemma LaterRowOverwrites(c: Id, u: Id, t1: int, t2: int)
    ensures Group([CompletionRow(c, u, t1), CompletionRow(c, u, t2)]).keys == [c]
    ensures Group([CompletionRow(c, u, t1), CompletionRow(c, u, t2)]).vals[c].keys == [u]
    ensures Group([CompletionRow(c, u, t1), CompletionRow(c, u, t2)]).vals[c].vals[u] == t2
  {
    var rows := [CompletionRow(c, u, t1), CompletionRow(c, u, t2)];
    assert rows[..1] == [CompletionRow(c, u, t1)];
    assert rows[..1][..0] == [];
    var g1 := AddCompletion(EmptyAssoc(), rows[0]);
    assert Group(rows[..1]) == g1;
    assert g1.keys == [c] && g1.vals[c].keys == [u];
    assert Group(rows) == AddCompletion(g1, rows[1]);
  }
}
