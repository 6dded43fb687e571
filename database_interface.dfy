/** The plugin's database access layer, with the database held in memory:
    the completion query is a filter over the completion table, the SIRH
    link query an aggregation over the enrolment tables, and the watermark
    write an update of one row of the session table. */
module DatabaseInterface {
  import opened Base
  import opened PhpStrings

  /** Session status values (the constants of the platform's session class). */
  const StatusInProgress: string := "inprogress"
  const StatusCompleted: string := "completed"
  const StatusArchived: string := "archived"

  /** The statuses the completion query accepts when the caller gives none. */
  const DefaultStatusFilter: seq<string> := [StatusInProgress, StatusCompleted]

  /** A row of `course_completions`; `timecompleted` is nullable. */
  datatype CompletionRecord = CompletionRecord(id: Id, userid: Id, course: Id, timecompleted: Option<int>)

  /** A row of `session`, without its id (the key of the table). `lastsyncsirh`
      is the watermark: when the session was last sent to the SIRH. */
  datatype SessionRecord = SessionRecord(courseshortname: string, status: string, lastsyncsirh: Option<int>)

  /** A row of `user`, reduced to its soft-delete flag (`u.deleted`). */
  datatype UserRecord = UserRecord(deleted: bool)

  /** A row of `enrol`: an enrolment instance of one method (`enrol`) in one
      course; the SIRH method keeps its external triple in the nullable
      columns `customchar1..3`. */
  datatype EnrolRecord = EnrolRecord(id: Id, enrol: string, courseid: Id, customchar1: Option<string>,
                                     customchar2: Option<string>, customchar3: Option<string>)

  /** A row of `user_enrolments`. */
  datatype UserEnrolmentRecord = UserEnrolmentRecord(enrolid: Id, userid: Id)

  /** The tables the plugin reads, in table order where order matters. */
  datatype Tables = Tables(
    courses: map<Id, string>,   // course id -> course shortname
    sessions: map<Id, SessionRecord>,
    users: map<Id, UserRecord>,
    completions: seq<CompletionRecord>,
    enrols: seq<EnrolRecord>,
    userEnrolments: seq<UserEnrolmentRecord>)

  /** A row returned by the completion query, with the columns the task
      reads; the query only returns rows whose completion time is set. */
  datatype CompletionRow = CompletionRow(course: Id, userid: Id, timecompleted: int)

  /** A row returned by the SIRH link query: an SIRH enrolment instance, its
      course, its external triple and the aggregated ids of its users. */
  datatype SirhLinkRow = SirhLinkRow(id: Id, courseid: Id, customchar1: Option<string>, customchar2: Option<string>,
                                     customchar3: Option<string>, usersid: string)

  // ---------------------------------------------------------------------
  // The status condition of the completion query

  /** One alternative of the status condition. */
  function StatusTerm(status: string): string {
    "s.status = '" + status + "'"
  }

  function StatusTerms(statuses: seq<string>): (r: seq<string>)
    ensures |r| == |statuses|
    ensures forall i :: 0 <= i < |statuses| ==> r[i] == StatusTerm(statuses[i])
  {
    seq(|statuses|, i requires 0 <= i < |statuses| => StatusTerm(statuses[i]))
  }

  /** The status condition as it is meant: the alternatives, one per
      status, joined by ` OR ` and put in parentheses. */
  function StatusCondition(statuses: seq<string>): string
    requires |statuses| >= 1
  {
    "(" + Join(StatusTerms(statuses), " OR ") + ")"
  }

  /** What the loop has appended after `k` statuses: every alternative
      followed by ` OR `. */
  function Appended(statuses: seq<string>): string {
    if statuses == [] then ""
    else Appended(statuses[..|statuses| - 1]) + StatusTerm(statuses[|statuses| - 1]) + " OR "
  }

  lemma {:induction false} JoinSnoc(parts: seq<string>, p: string, sep: string)
    requires |parts| >= 1
    ensures Join(parts + [p], sep) == Join(parts, sep) + sep + p
  {
    if |parts| > 1 {
      assert (parts + [p])[1..] == parts[1..] + [p];
      JoinSnoc(parts[1..], p, sep);
    }
  }

  /** For a non-empty filter, the appended text is the joined alternatives
      plus one trailing ` OR `, which is what `substr(..., 0, -4)` removes. */
  lemma {:induction false} AppendedIsJoinPlusSeparator(statuses: seq<string>)
    requires |statuses| >= 1
    ensures Appended(statuses) == Join(StatusTerms(statuses), " OR ") + " OR "
  {
    var n := |statuses|;
    var init := statuses[..n - 1];
    assert Appended(init) == "" ==> Appended(statuses) == StatusTerm(statuses[n - 1]) + " OR ";
    if n > 1 {
      AppendedIsJoinPlusSeparator(init);
      assert StatusTerms(statuses) == StatusTerms(init) + [StatusTerm(statuses[n - 1])];
      JoinSnoc(StatusTerms(init), StatusTerm(statuses[n - 1]), " OR ");
    } else {
      assert init == [];
    }
  }

  /** Builds `$wherestatus` as the source does: `(`, then every alternative
      followed by ` OR `, then the last four characters cut off, then `)`. */
  method BuildStatusCondition(statusfilter: seq<string>) returns (wherestatus: string)
    ensures statusfilter != [] ==> wherestatus == StatusCondition(statusfilter)
    ensures statusfilter == [] ==> wherestatus == ")"
  {
    wherestatus := "(";
    for i := 0 to |statusfilter|
      invariant wherestatus == "(" + Appended(statusfilter[..i])
    {
      AppendedStep(statusfilter, i);
      wherestatus := wherestatus + "s.status = '" + statusfilter[i] + "' OR ";
    }
    assert statusfilter[..|statusfilter|] == statusfilter;
    if statusfilter != [] {
      var joined := Join(StatusTerms(statusfilter), " OR ");
      AppendedIsJoinPlusSeparator(statusfilter);
      AppendAssoc("(", joined, " OR ");
      DropSeparator("(" + joined);
    }
    wherestatus := DropLast(wherestatus, 4);
    wherestatus := wherestatus + ")";
  }

  /** One more turn of the loop of `BuildStatusCondition`. */
  lemma AppendedStep(statuses: seq<string>, i: nat)
    requires i < |statuses|
    ensures "(" + Appended(statuses[..i + 1]) == "(" + Appended(statuses[..i]) + "s.status = '" + statuses[i] + "' OR "
  {
    assert statuses[..i + 1][..i] == statuses[..i];
  }

  /** `substr(..., 0, -4)` removes a trailing ` OR `. */
  lemma DropSeparator(x: string)
    ensures DropLast(x + " OR ", 4) == x
  {
    assert (x + " OR ")[..|x|] == x;
  }

  // ---------------------------------------------------------------------
  // The completion query

  /** The session row `s` lets a completion at time `t` through: its status
      is accepted and its watermark is unset or strictly earlier than `t`. */
  predicate SessionAdmits(s: SessionRecord, statuses: seq<string>, t: int) {
    s.status in statuses && (s.lastsyncsirh.None? || s.lastsyncsirh.value < t)
  }

  /** The WHERE clause of the completion query on one completion row, with
      its joins: the course exists, some session of the course admits the
      completion time, the time is set and the user exists and is not
      deleted. */
  predicate Eligible(db: Tables, statuses: seq<string>, cc: CompletionRecord) {
    && cc.timecompleted.Some?
    && cc.userid in db.users && !db.users[cc.userid].deleted
    && cc.course in db.courses
    && exists sid :: sid in db.sessions && db.sessions[sid].courseshortname == db.courses[cc.course]
                     && SessionAdmits(db.sessions[sid], statuses, cc.timecompleted.value)
  }

  function Project(cc: CompletionRecord): CompletionRow
    requires cc.timecompleted.Some?
  {
    CompletionRow(cc.course, cc.userid, cc.timecompleted.value)
  }

  /** The rows the completion query returns, in table order. */
  function Select(db: Tables, statuses: seq<string>, rows: seq<CompletionRecord>): (r: seq<CompletionRow>)
    ensures |r| <= |rows|
  {
    if rows == [] then []
    else (if Eligible(db, statuses, rows[0]) then [Project(rows[0])] else []) + Select(db, statuses, rows[1..])
  }

  /** A row is returned if and only if it is the projection of an eligible
      completion. */
  lemma {:induction false} SelectIff(db: Tables, statuses: seq<string>, rows: seq<CompletionRecord>, x: CompletionRow)
    ensures x in Select(db, statuses, rows) <==>
            exists i :: 0 <= i < |rows| && Eligible(db, statuses, rows[i]) && x == Project(rows[i])
  {
    if rows != [] {
      SelectIff(db, statuses, rows[1..], x);
      if x in Select(db, statuses, rows[1..]) {
        var i :| 0 <= i < |rows[1..]| && Eligible(db, statuses, rows[1..][i]) && x == Project(rows[1..][i]);
        assert rows[i + 1] == rows[1..][i];
      }
      if exists i :: 0 <= i < |rows| && Eligible(db, statuses, rows[i]) && x == Project(rows[i]) {
        var i :| 0 <= i < |rows| && Eligible(db, statuses, rows[i]) && x == Project(rows[i]);
        if i > 0 {
          assert rows[1..][i - 1] == rows[i];
        }
      }
    }
  }

  /** The shortname links sessions to courses one to one for course `c`:
      at most one session has its shortname. */
  ghost predicate OneSessionFor(db: Tables, c: Id) {
    c in db.courses ==>
      forall s1, s2 ::
        (s1 in db.sessions && s2 in db.sessions
         && db.sessions[s1].courseshortname == db.courses[c]
         && db.sessions[s2].courseshortname == db.courses[c]) ==> s1 == s2
  }

  /** Every returned row is later than the watermark of its session: the
      query never returns a completion at or before the last sync. */
  lemma ReturnedRowsAreAfterWatermark(db: Tables, statuses: seq<string>, x: CompletionRow, sid: Id)
    requires x in Select(db, statuses, db.completions)
    requires OneSessionFor(db, x.course)
    requires sid in db.sessions && x.course in db.courses
    requires db.sessions[sid].courseshortname == db.courses[x.course]
    ensures db.sessions[sid].status in statuses
    ensures db.sessions[sid].lastsyncsirh.None? || db.sessions[sid].lastsyncsirh.value < x.timecompleted
  {
    SelectIff(db, statuses, db.completions, x);
  }

  /** With the default filter, the query returns exactly the new completions
      of in-progress and completed sessions: a completion of an archived
      session is never returned. */
  lemma DefaultFilterSkipsArchived(db: Tables, x: CompletionRow, sid: Id)
    requires x in Select(db, DefaultStatusFilter, db.completions)
    requires OneSessionFor(db, x.course)
    requires sid in db.sessions && x.course in db.courses
    requires db.sessions[sid].courseshortname == db.courses[x.course]
    ensures db.sessions[sid].status != StatusArchived
  {
    ReturnedRowsAreAfterWatermark(db, DefaultStatusFilter, x, sid);
  }

  /** A completion at exactly the watermark is not returned. */
  lemma CompletionAtWatermarkIsSkipped(t: int)
    ensures Select(
      Tables(map[1 := "C1"], map[7 := SessionRecord("C1", StatusInProgress, Some(t))],
             map[3 := UserRecord(false)], [CompletionRecord(9, 3, 1, Some(t))], [], []),
      DefaultStatusFilter,
      [CompletionRecord(9, 3, 1, Some(t))]) == []
  {
    var db := Tables(map[1 := "C1"], map[7 := SessionRecord("C1", StatusInProgress, Some(t))],
                     map[3 := UserRecord(false)], [CompletionRecord(9, 3, 1, Some(t))], [], []);
    var cc := CompletionRecord(9, 3, 1, Some(t));
    assert !Eligible(db, DefaultStatusFilter, cc) by {
      forall sid | sid in db.sessions ensures !SessionAdmits(db.sessions[sid], DefaultStatusFilter, t) {
        assert sid == 7;
      }
    }
  }

  /** One second later, the same completion is returned. */
  lemma CompletionAfterWatermarkIsReturned(t: int)
    ensures Select(
      Tables(map[1 := "C1"], map[7 := SessionRecord("C1", StatusInProgress, Some(t))],
             map[3 := UserRecord(false)], [CompletionRecord(9, 3, 1, Some(t + 1))], [], []),
      DefaultStatusFilter,
      [CompletionRecord(9, 3, 1, Some(t + 1))]) == [CompletionRow(1, 3, t + 1)]
  {
    var db := Tables(map[1 := "C1"], map[7 := SessionRecord("C1", StatusInProgress, Some(t))],
                     map[3 := UserRecord(false)], [CompletionRecord(9, 3, 1, Some(t + 1))], [], []);
    assert SessionAdmits(db.sessions[7], DefaultStatusFilter, t + 1);
  }

  // ---------------------------------------------------------------------
  // The watermark update

  /** The session table after `update_record` of `{id, lastsyncsirh}`: the
      watermark of that one session is set; an id without a row changes
      nothing. */
  function WithLastSync(sessions: map<Id, SessionRecord>, sessionid: Id, lastsync: int): (r: map<Id, SessionRecord>)
    ensures r.Keys == sessions.Keys
    ensures sessionid in sessions ==> r[sessionid].lastsyncsirh == Some(lastsync)
    ensures sessionid in sessions ==> r[sessionid].courseshortname == sessions[sessionid].courseshortname
    ensures sessionid in sessions ==> r[sessionid].status == sessions[sessionid].status
    ensures forall id :: id in sessions && id != sessionid ==> r[id] == sessions[id]
  {
    if sessionid in sessions then sessions[sessionid := sessions[sessionid].(lastsyncsirh := Some(lastsync))]
    else sessions
  }

  /** Writing the same watermark twice is writing it once. */
  lemma WithLastSyncIdempotent(sessions: map<Id, SessionRecord>, sessionid: Id, lastsync: int)
    ensures WithLastSync(WithLastSync(sessions, sessionid, lastsync), sessionid, lastsync)
         == WithLastSync(sessions, sessionid, lastsync)
  {
  }

  /** After the watermark of the only session of course `c` is set to `t`,
      the completion query returns no completion of `c` at or before `t`. */
  lemma UpdatedWatermarkHidesOlderCompletions(db: Tables, statuses: seq<string>, sid: Id, t: int, x: CompletionRow)
    requires sid in db.sessions && x.course in db.courses
    requires db.sessions[sid].courseshortname == db.courses[x.course]
    requires OneSessionFor(db, x.course)
    requires x.timecompleted <= t
    ensures x !in Select(db.(sessions := WithLastSync(db.sessions, sid, t)), statuses, db.completions)
  {
    var db' := db.(sessions := WithLastSync(db.sessions, sid, t));
    if x in Select(db', statuses, db'.completions) {
      ReturnedRowsAreAfterWatermark(db', statuses, x, sid);
      assert false;
    }
  }

  // ---------------------------------------------------------------------
  // The SIRH link query

  /** The users of enrolment instance `enrolid` that exist, in the order of
      the enrolment table. */
  function EnrolledUsers(db: Tables, enrolid: Id, ues: seq<UserEnrolmentRecord>): (r: seq<Id>)
    ensures forall u :: u in r <==> exists i :: 0 <= i < |ues| && ues[i].enrolid == enrolid && ues[i].userid == u && u in db.users
  {
    if ues == [] then []
    else
      var rest := EnrolledUsers(db, enrolid, ues[1..]);
      assert forall i :: 1 <= i < |ues| ==> ues[i] == ues[1..][i - 1];
      (if ues[0].enrolid == enrolid && ues[0].userid in db.users then [ues[0].userid] else []) + rest
  }

  function Decimals(ids: seq<Id>): (r: seq<string>)
    ensures |r| == |ids|
    ensures forall i :: 0 <= i < |ids| ==> r[i] == Decimal(ids[i])
  {
    seq(|ids|, i requires 0 <= i < |ids| => Decimal(ids[i]))
  }

  /** The aggregated id list as the database returns it (`{1,2,3}`). */
  function UsersIdText(ids: seq<Id>): string
    requires |ids| >= 1
  {
    "{" + Join(Decimals(ids), ",") + "}"
  }

  /** The course has a session (the join on the course shortname). */
  predicate CourseHasSession(db: Tables, courseid: Id) {
    courseid in db.courses &&
    exists sid :: sid in db.sessions && db.sessions[sid].courseshortname == db.courses[courseid]
  }

  /** The link row of an SIRH enrolment instance that has a session and at
      least one user (the inner joins drop the others). */
  function LinkRow(db: Tables, e: EnrolRecord): Option<SirhLinkRow> {
    var ids := EnrolledUsers(db, e.id, db.userEnrolments);
    if e.enrol == "sirh" && CourseHasSession(db, e.courseid) && ids != [] then
      Some(SirhLinkRow(e.id, e.courseid, e.customchar1, e.customchar2, e.customchar3, UsersIdText(ids)))
    else None
  }

  /** The rows of the SIRH link query, in enrolment table order. */
  function SirhLinks(db: Tables, enrols: seq<EnrolRecord>): (r: seq<SirhLinkRow>)
    ensures |r| <= |enrols|
  {
    if enrols == [] then []
    else
      (match LinkRow(db, enrols[0]) case Some(l) => [l] case None => []) + SirhLinks(db, enrols[1..])
  }

  /** A link row is returned if and only if it is the row of an SIRH
      instance with a session and users, aggregating those users' ids. */
  lemma {:induction false} SirhLinksIff(db: Tables, enrols: seq<EnrolRecord>, l: SirhLinkRow)
    ensures l in SirhLinks(db, enrols) <==>
            exists i :: 0 <= i < |enrols| && LinkRow(db, enrols[i]) == Some(l)
  {
    if enrols != [] {
      SirhLinksIff(db, enrols[1..], l);
      if l in SirhLinks(db, enrols[1..]) {
        var i :| 0 <= i < |enrols[1..]| && LinkRow(db, enrols[1..][i]) == Some(l);
        assert enrols[i + 1] == enrols[1..][i];
      }
      if exists i :: 0 <= i < |enrols| && LinkRow(db, enrols[i]) == Some(l) {
        var i :| 0 <= i < |enrols| && LinkRow(db, enrols[i]) == Some(l);
        if i > 0 {
          assert enrols[1..][i - 1] == enrols[i];
        }
      }
    }
  }

  // ---------------------------------------------------------------------
  // The database handle and its accessor

  /** The platform database (the global `$DB`). */
  class Database {
    var tables: Tables

    constructor(tables: Tables)
      ensures this.tables == tables
    {
      this.tables := tables;
    }
  }

  class DatabaseInterface {
    const db: Database

    constructor(db: Database)
      ensures this.db == db
    {
      this.db := db;
    }

    /** The completions not yet synced: the default statuses when the
        filter is empty, and the rows of the query in table order. */
    method GetSessionsCompletedByUser(statusfilter: seq<string> := []) returns (rows: seq<CompletionRow>)
      ensures statusfilter != [] ==> rows == Select(db.tables, statusfilter, db.tables.completions)
      ensures statusfilter == [] ==> rows == Select(db.tables, DefaultStatusFilter, db.tables.completions)
    {
      var statuses := statusfilter;
      if statuses == [] {
        statuses := [StatusInProgress, StatusCompleted];
      }
      var wherestatus := BuildStatusCondition(statuses);
      rows := Select(db.tables, statuses, db.tables.completions);
    }

    /** The SIRH enrolment instances with their users. */
    method GetAllInstanceSirhWithUserId() returns (rows: seq<SirhLinkRow>)
      ensures rows == SirhLinks(db.tables, db.tables.enrols)
    {
      rows := SirhLinks(db.tables, db.tables.enrols);
    }

    /** Sets the watermark of one session; nothing else changes. */
    method UpdateLastSyncSirhSession(sessionid: Id, lastsync: int)
      modifies db
      ensures db.tables == old(db.tables).(sessions := WithLastSync(old(db.tables).sessions, sessionid, lastsync))
    {
      db.tables := db.tables.(sessions := WithLastSync(db.tables.sessions, sessionid, lastsync));
    }
  }

  /** The class-level slot behind `get_instance`, bound to the global
      database that a new instance captures. */
  class InstanceSlot {
    const globalDb: Database
    var instance: DatabaseInterface?

    ghost predicate Valid()
      reads this
    {
      instance != null ==> instance.db == globalDb
    }

    constructor(globalDb: Database)
      ensures Valid() && this.globalDb == globalDb && instance == null
    {
      this.globalDb := globalDb;
      instance := null;
    }

    /** The first call creates the instance; every later call returns it. */
    method GetInstance() returns (dbi: DatabaseInterface)
      requires Valid()
      modifies this
      ensures Valid() && instance == dbi && dbi.db == globalDb
      ensures old(instance) != null ==> dbi == old(instance)
      ensures old(instance) == null ==> fresh(dbi)
    {
      if instance == null {
        instance := new DatabaseInterface(globalDb);
      }
      dbi := instance;
    }
  }

  /** Two calls in a row give the same object. */
  method GetInstanceTwice(slot: InstanceSlot) returns (a: DatabaseInterface, b: DatabaseInterface)
    requires slot.Valid()
    modifies slot
    ensures a == b && a.db == slot.globalDb
  {
    a := slot.GetInstance();
    b := slot.GetInstance();
  }
}
