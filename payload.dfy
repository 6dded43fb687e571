/** The second step of the follow-up task: the grouped completions turned
    into one outgoing document per session, with the user data and the SIRH
    identifiers the follow-up service expects. */
module Payload {
  import opened Base
  import opened PhpStrings
  import opened DatabaseInterface
  import opened Grouping

  // ---------------------------------------------------------------------
  // What the platform's lookups return

  /** `date('Y-m-d', t)`, kept as the timestamp it formats: the text depends
      on the server's time zone. */
  datatype YmdDate = YmdDate(timestamp: int)

  /** The training a session belongs to; its SIRH id may be `null`. */
  datatype Training = Training(shortname: string, name: string, idsirh: Option<string>)

  /** A session as the session lookup (by course id) returns it. */
  datatype Session = Session(id: Id, courseshortname: string, fullname: string,
                             sessionstartdate: int, sessionenddate: int, training: Training)

  /** A user record as the user lookup returns it. */
  datatype User = User(email: string, lastname: string, firstname: string)

  /** The platform lookups the payload step calls, as given maps:
      the session of each course (a missing course makes the lookup throw),
      the user records (a missing user is `false`), the `mainentity`
      profile field of each user, and the SIRH code list of each entity
      (a missing entity has none). */
  datatype Platform = Platform(
    sessionsByCourse: map<Id, Session>,
    users: map<Id, User>,
    mainEntities: map<Id, string>,
    entitySirhLists: map<string, seq<string>>)

  // ---------------------------------------------------------------------
  // The outgoing document

  /** The `sessionMentor` object. */
  datatype SessionMentor = SessionMentor(
    identifiantSessionMentor: Id,
    nomAbregeFormation: string,
    nomAbregeSession: string,
    libelleFormation: string,
    libelleSession: string,
    identifiantSirhOrigineFormation: Option<string>,
    dateDebut: YmdDate,
    dateFin: YmdDate)

  /** The `Suivi session utilisateur` object of one user. */
  datatype SessionFollowUp = SessionFollowUp(
    dateAchevement: YmdDate,
    identifiantSirhOrigine: Option<string>,
    identifiantFormation: Option<string>,
    identifiantSession: Option<string>)

  /** One entry of `listeSIRHUtilisateur`. */
  datatype SirhCode = SirhCode(identifiantSIRH: string)

  /** One entry of `utilisateurs`; the user fields are `null` when the
      user lookup returned `false`. */
  datatype UserInfo = UserInfo(
    suivi: SessionFollowUp,
    email: Option<string>,
    nom: Option<string>,
    prenom: Option<string>,
    listeSIRHUtilisateur: seq<SirhCode>)

  /** The document of one session. */
  datatype Document = Document(sessionMentor: SessionMentor, utilisateurs: seq<UserInfo>)

  /** The session lookup throws for a course without a session. */
  datatype TaskError = SessionNotFound(courseid: Id)

  /** The `sessionMentor` object of a session. */
  function MentorOf(s: Session): SessionMentor {
    SessionMentor(s.id, s.training.shortname, s.courseshortname, s.training.name, s.fullname,
                  s.training.idsirh, YmdDate(s.sessionstartdate), YmdDate(s.sessionenddate))
  }

  // ---------------------------------------------------------------------
  // The SIRH instance of a course and its enrolled users

  /** `array_column($links, 'courseid', 'id')`: the course of each link row,
      in row order (the rows are keyed by their distinct enrolment ids). */
  function CourseColumn(links: seq<SirhLinkRow>): (r: seq<Id>)
    ensures |r| == |links|
    ensures forall i :: 0 <= i < |links| ==> r[i] == links[i].courseid
  {
    seq(|links|, i requires 0 <= i < |links| => links[i].courseid)
  }

  /** The SIRH instance used for a course: `array_search` on the course
      column finds the first link row of the course, so only that one is
      used even when the course has several. */
  function SirhInstanceOf(links: seq<SirhLinkRow>, courseid: Id): Option<SirhLinkRow> {
    match ArraySearch(courseid, CourseColumn(links))
    case None => None
    case Some(i) => Some(links[i])
  }

  /** The instance of a course is its first link row, and there is none
      exactly when no link row is about the course. */
  lemma SirhInstanceIsFirst(links: seq<SirhLinkRow>, courseid: Id)
    ensures SirhInstanceOf(links, courseid).None? <==> forall i :: 0 <= i < |links| ==> links[i].courseid != courseid
    ensures SirhInstanceOf(links, courseid).Some? ==>
              exists i :: 0 <= i < |links| && links[i] == SirhInstanceOf(links, courseid).value
                          && links[i].courseid == courseid
                          && forall j :: 0 <= j < i ==> links[j].courseid != courseid
  {
    var col := CourseColumn(links);
    var found := ArraySearch(courseid, col);
    if found.Some? {
      var i := found.value;
      assert forall j :: 0 <= j < i ==> col[..i][j] == links[j].courseid;
    } else {
      assert forall i :: 0 <= i < |links| ==> col[i] == links[i].courseid;
    }
  }

  /** `explode(',', trim($usersid, '{}'))`. */
  function ParseUsersId(usersid: string): (r: seq<string>)
    ensures |r| >= 1
  {
    Explode(',', Trim(usersid, {'{', '}'}))
  }

  /** The enrolment test of the payload step: `array_search` of the user id
      in the parsed list, used as a condition. A user found at index 0 makes
      the index `0`, which PHP reads as false. */
  predicate EnrolledInInstance(userid: Id, link: SirhLinkRow) {
    var found := ArraySearch(Decimal(userid), ParseUsersId(link.usersid));
    found.Some? && found.value != 0
  }

  /** Parsing the aggregated id text of a link row gives back the decimal
      text of each id, in order. */
  lemma ParseUsersIdText(ids: seq<Id>)
    requires |ids| >= 1
    ensures ParseUsersId(UsersIdText(ids)) == Decimals(ids)
  {
    var parts := Decimals(ids);
    var j := Join(parts, ",");
    var braces := {'{', '}'};
    forall i | 0 <= i < |parts| ensures ',' !in parts[i] && '{' !in parts[i] && '}' !in parts[i] {
      DecimalDigits(ids[i]);
    }
    JoinStartsWith(parts, ",");
    JoinEndsWith(parts, ",");
    TrimSurrounded("{", j, "}", braces);
    assert UsersIdText(ids) == "{" + j + "}";
    ExplodeJoin(',', parts);
  }

  /** The decimal text of `u` is in the texts of `ids` exactly when `u` is. */
  lemma DecimalsContain(ids: seq<Id>, u: Id)
    ensures Decimal(u) in Decimals(ids) <==> u in ids
  {
    if Decimal(u) in Decimals(ids) {
      var i :| 0 <= i < |ids| && Decimals(ids)[i] == Decimal(u);
      DecimalInjective(u, ids[i]);
    }
    if u in ids {
      var i :| 0 <= i < |ids| && ids[i] == u;
      assert Decimals(ids)[i] == Decimal(u);
    }
  }

  /** For a link row built by the database, a user counts as enrolled
      exactly when it is among the instance's users and is not the first of
      them. */
  lemma EnrolledInLinkRowIff(ids: seq<Id>, u: Id, link: SirhLinkRow)
    requires |ids| >= 1 && link.usersid == UsersIdText(ids)
    ensures EnrolledInInstance(u, link) <==> u in ids && ids[0] != u
  {
    ParseUsersIdText(ids);
    DecimalsContain(ids, u);
    var list := Decimals(ids);
    assert list[0] == Decimal(ids[0]);
    if ids[0] != u {
      if Decimal(ids[0]) == Decimal(u) {
        DecimalInjective(ids[0], u);
      }
    }
  }

  /** The quirk on a concrete instance enrolling users 5 and 6: user 6 gets
      its SIRH identifiers, user 5 (listed first) does not. */
  lemma FirstEnrolledUserIsMissed(link: SirhLinkRow)
    requires link.usersid == "{5,6}"
    ensures !EnrolledInInstance(5, link)
    ensures EnrolledInInstance(6, link)
  {
    assert Decimal(5) == "5" && Decimal(6) == "6";
    assert Decimals([5, 6]) == ["5", "6"];
    assert Join(["5", "6"], ",") == "5,6" by {
      assert ["5", "6"][1..] == ["6"];
    }
    assert UsersIdText([5, 6]) == "{5,6}";
    EnrolledInLinkRowIff([5, 6], 5, link);
    EnrolledInLinkRowIff([5, 6], 6, link);
  }

  // ---------------------------------------------------------------------
  // Users and entities

  /** The user lookup: `false` (here `None`) for an unknown id. */
  function UserOf(p: Platform, userid: Id): Option<User> {
    if userid in p.users then Some(p.users[userid]) else None
  }

  /** `profile_user_record($userid)->mainentity`; a missing field is `null`,
      which PHP turns into the array key `""`. */
  function MainEntity(p: Platform, userid: Id): string {
    if userid in p.mainEntities then p.mainEntities[userid] else ""
  }

  /** The SIRH code list of an entity; an unknown entity has none. */
  function SirhList(p: Platform, entity: string): seq<string> {
    if entity in p.entitySirhLists then p.entitySirhLists[entity] else []
  }

  /** One `{identifiantSIRH}` object per code, in order. */
  function Codes(list: seq<string>): (r: seq<SirhCode>)
    ensures |r| == |list|
  {
    if list == [] then [] else Codes(list[..|list| - 1]) + [SirhCode(list[|list| - 1])]
  }

  /** Each object carries the code at its position. */
  lemma {:induction false} CodesAt(list: seq<string>, i: nat)
    requires i < |list|
    ensures Codes(list)[i] == SirhCode(list[i])
  {
    if i < |list| - 1 {
      CodesAt(list[..|list| - 1], i);
    }
  }

  /** `listeSIRHUtilisateur` of a user of `entity`: the codes of the
      entity; an unknown entity gives no code. */
  function EntityCodes(p: Platform, entity: string): (r: seq<SirhCode>)
    ensures |r| == |SirhList(p, entity)|
    ensures entity !in p.entitySirhLists ==> r == []
  {
    Codes(SirhList(p, entity))
  }

  /** `listeSIRHUtilisateur` has one `{identifiantSIRH}` per code of the
      entity, in order. */
  lemma EntityCodesEntries(p: Platform, entity: string)
    ensures |EntityCodes(p, entity)| == |SirhList(p, entity)|
    ensures forall i :: 0 <= i < |SirhList(p, entity)| ==> EntityCodes(p, entity)[i].identifiantSIRH == SirhList(p, entity)[i]
  {
    forall i | 0 <= i < |SirhList(p, entity)|
      ensures EntityCodes(p, entity)[i].identifiantSIRH == SirhList(p, entity)[i]
    {
      CodesAt(SirhList(p, entity), i);
    }
  }

  /** The follow-up object of one user: the completion date, and the SIRH
      identifiers only when the course has an SIRH instance that the user
      counts as enrolled in. */
  function FollowUpOf(userid: Id, timecompleted: int, link: Option<SirhLinkRow>): SessionFollowUp {
    if link.Some? && EnrolledInInstance(userid, link.value) then
      SessionFollowUp(YmdDate(timecompleted), link.value.customchar1,
                      link.value.customchar2, link.value.customchar3)
    else SessionFollowUp(YmdDate(timecompleted), None, None, None)
  }

  /** The `utilisateurs` entry of one user. */
  function UserInfoFor(p: Platform, link: Option<SirhLinkRow>, userid: Id, timecompleted: int): UserInfo {
    var user := UserOf(p, userid);
    UserInfo(FollowUpOf(userid, timecompleted, link),
             if user.Some? then Some(user.value.email) else None,
             if user.Some? then Some(user.value.lastname) else None,
             if user.Some? then Some(user.value.firstname) else None,
             EntityCodes(p, MainEntity(p, userid)))
  }

  /** `utilisateurs` of a session: one entry per user of the course's
      completion map, in its iteration order, carrying that user's
      completion date and the codes of the user's main entity, so users
      with the same main entity get equal lists. */
  function UsersInfo(p: Platform, link: Option<SirhLinkRow>, sc: Assoc<Id, int>): seq<UserInfo>
    requires sc.Valid()
  {
    seq(|sc.keys|, i requires 0 <= i < |sc.keys| => UserInfoFor(p, link, sc.keys[i], sc.vals[sc.keys[i]]))
  }

  lemma UsersInfoEntries(p: Platform, link: Option<SirhLinkRow>, sc: Assoc<Id, int>)
    requires sc.Valid()
    ensures var r := UsersInfo(p, link, sc);
            && |r| == |sc.keys|
            && (forall i :: 0 <= i < |r| ==>
                  && r[i].suivi.dateAchevement == YmdDate(sc.vals[sc.keys[i]])
                  && r[i].listeSIRHUtilisateur == EntityCodes(p, MainEntity(p, sc.keys[i]))
                  && (r[i].email.Some? <==> sc.keys[i] in p.users)
                  && (sc.keys[i] in p.users ==> r[i].email == Some(p.users[sc.keys[i]].email)))
            && (forall i, j :: 0 <= i < |r| && 0 <= j < |r| && MainEntity(p, sc.keys[i]) == MainEntity(p, sc.keys[j]) ==>
                  r[i].listeSIRHUtilisateur == r[j].listeSIRHUtilisateur)
  {
  }

  /** The user is among the users of enrolment instance `e`, but not the
      first of them. */
  predicate EnrolledAfterFirst(db: Tables, e: EnrolRecord, userid: Id) {
    var ids := EnrolledUsers(db, e.id, db.userEnrolments);
    userid in ids && ids[0] != userid
  }

  /** On the link rows the database returns, a user counts as enrolled in
      the course's instance exactly when the course's first SIRH instance
      has the user among its users, not in first position. */
  lemma InstanceEnrolmentIff(db: Tables, courseid: Id, userid: Id)
    ensures var inst := SirhInstanceOf(SirhLinks(db, db.enrols), courseid);
            (inst.Some? && EnrolledInInstance(userid, inst.value)) <==>
            (inst.Some? && exists e :: e in db.enrols && LinkRow(db, e) == inst && EnrolledAfterFirst(db, e, userid))
  {
    var links := SirhLinks(db, db.enrols);
    var inst := SirhInstanceOf(links, courseid);
    if inst.Some? {
      var l := inst.value;
      SirhInstanceIsFirst(links, courseid);
      SirhLinksIff(db, db.enrols, l);
      var i :| 0 <= i < |db.enrols| && LinkRow(db, db.enrols[i]) == Some(l);
      LinkRowEnrolment(db, db.enrols[i], userid, l);
      forall e | e in db.enrols && LinkRow(db, e) == inst
        ensures EnrolledAfterFirst(db, e, userid) <==> EnrolledInInstance(userid, l)
      {
        LinkRowEnrolment(db, e, userid, l);
      }
    }
  }

  /** A link row built from instance `e` counts the user as enrolled exactly
      when the user is among the instance's users, not in first position. */
  lemma LinkRowEnrolment(db: Tables, e: EnrolRecord, userid: Id, l: SirhLinkRow)
    requires LinkRow(db, e) == Some(l)
    ensures EnrolledAfterFirst(db, e, userid) <==> EnrolledInInstance(userid, l)
  {
    EnrolledInLinkRowIff(EnrolledUsers(db, e.id, db.userEnrolments), userid, l);
  }

  /** The SIRH instance of a course, when there is one, is the link row of
      an `sirh` enrolment instance of that course in the `enrol` table, and
      carries that instance's three custom fields. */
  lemma SirhInstanceFromTable(db: Tables, courseid: Id)
    requires SirhInstanceOf(SirhLinks(db, db.enrols), courseid).Some?
    ensures var l := SirhInstanceOf(SirhLinks(db, db.enrols), courseid).value;
            exists e :: e in db.enrols && LinkRow(db, e) == Some(l) && e.enrol == "sirh" && e.courseid == courseid
                        && l.customchar1 == e.customchar1 && l.customchar2 == e.customchar2 && l.customchar3 == e.customchar3
  {
    var links := SirhLinks(db, db.enrols);
    var l := SirhInstanceOf(links, courseid).value;
    SirhInstanceIsFirst(links, courseid);
    var k :| 0 <= k < |links| && links[k] == l && links[k].courseid == courseid;
    SirhLinksIff(db, db.enrols, l);
    var i :| 0 <= i < |db.enrols| && LinkRow(db, db.enrols[i]) == Some(l);
    assert db.enrols[i] in db.enrols;
  }

  /** The SIRH identifiers sent for the user at position `i` of course `c`,
      in terms of the tables: when the course has an SIRH instance, it comes
      from an `sirh` enrolment instance of the course; the three identifiers
      are the instance's custom fields when the user is among its users after
      the first, and all `null` otherwise. The date is the user's completion
      date. */
  lemma CourseDocumentSirhIdentifiers(db: Tables, p: Platform, g: Grouped, c: Id, i: nat)
    requires WellGrouped(g) && c in g.vals && c in p.sessionsByCourse && i < |g.vals[c].keys|
    ensures var inst := SirhInstanceOf(SirhLinks(db, db.enrols), c);
            var u := g.vals[c].keys[i];
            var f := CourseDocument(p, SirhLinks(db, db.enrols), g, c).utilisateurs[i].suivi;
            && f.dateAchevement == YmdDate(g.vals[c].vals[u])
            && (inst.Some? ==>
                  exists e :: e in db.enrols && LinkRow(db, e) == inst && e.enrol == "sirh" && e.courseid == c
                              && inst.value.customchar1 == e.customchar1 && inst.value.customchar2 == e.customchar2
                              && inst.value.customchar3 == e.customchar3)
            && (if inst.Some? && exists e :: e in db.enrols && LinkRow(db, e) == inst && EnrolledAfterFirst(db, e, u)
                then f.identifiantSirhOrigine == inst.value.customchar1 && f.identifiantFormation == inst.value.customchar2
                     && f.identifiantSession == inst.value.customchar3
                else f.identifiantSirhOrigine.None? && f.identifiantFormation.None? && f.identifiantSession.None?)
  {
    var links := SirhLinks(db, db.enrols);
    var inst := SirhInstanceOf(links, c);
    var u := g.vals[c].keys[i];
    assert CourseDocument(p, links, g, c).utilisateurs[i] == UserInfoFor(p, inst, u, g.vals[c].vals[u]);
    InstanceEnrolmentIff(db, c, u);
    if inst.Some? {
      SirhInstanceFromTable(db, c);
    }
  }

  // ---------------------------------------------------------------------
  // The payload

  /** The session id of a course that has a session. */
  function SessionIdOf(p: Platform, courseid: Id): Id
    requires courseid in p.sessionsByCourse
  {
    p.sessionsByCourse[courseid].id
  }

  /** The document of a course of the grouping: its session's
      `sessionMentor` and the `utilisateurs` of its users. */
  function CourseDocument(p: Platform, links: seq<SirhLinkRow>, g: Grouped, courseid: Id): Document
    requires WellGrouped(g) && courseid in g.vals && courseid in p.sessionsByCourse
  {
    Document(MentorOf(p.sessionsByCourse[courseid]),
             UsersInfo(p, SirhInstanceOf(links, courseid), g.vals[courseid]))
  }

  /** The first of `courses` without a session. */
  function FirstMissing(p: Platform, courses: seq<Id>): (r: Option<nat>)
    ensures r.None? <==> forall i :: 0 <= i < |courses| ==> courses[i] in p.sessionsByCourse
    ensures r.Some? ==> r.value < |courses| && courses[r.value] !in p.sessionsByCourse
                        && forall j :: 0 <= j < r.value ==> courses[j] in p.sessionsByCourse
  {
    if courses == [] then None
    else if courses[0] !in p.sessionsByCourse then Some(0)
    else
      match FirstMissing(p, courses[1..])
      case None => None
      case Some(i) => Some(i + 1)
  }

  /** The first `n` courses of the grouping all have a session. */
  predicate SessionsFound(p: Platform, g: Grouped, n: nat)
    requires n <= |g.keys|
  {
    forall i :: 0 <= i < n ==> g.keys[i] in p.sessionsByCourse
  }

  /** The session ids of the first `n` courses, in grouping order. */
  function SessionIds(p: Platform, g: Grouped, n: nat): (r: seq<Id>)
    requires n <= |g.keys| && SessionsFound(p, g, n)
    ensures |r| == n
  {
    seq(n, i requires 0 <= i < n => SessionIdOf(p, g.keys[i]))
  }

  /** The documents of the first `n` courses, in grouping order. */
  function CourseDocuments(p: Platform, links: seq<SirhLinkRow>, g: Grouped, n: nat): (r: seq<Document>)
    requires WellGrouped(g) && n <= |g.keys| && SessionsFound(p, g, n)
    ensures |r| == n
  {
    seq(n, i requires 0 <= i < n => CourseDocument(p, links, g, g.keys[i]))
  }

  /** One more course of the grouping: its session id and its document. */
  lemma CourseDocumentsStep(p: Platform, links: seq<SirhLinkRow>, g: Grouped, i: nat)
    requires WellGrouped(g) && i < |g.keys| && SessionsFound(p, g, i + 1)
    ensures SessionIds(p, g, i + 1) == SessionIds(p, g, i) + [SessionIdOf(p, g.keys[i])]
    ensures CourseDocuments(p, links, g, i + 1) == CourseDocuments(p, links, g, i) + [CourseDocument(p, links, g, g.keys[i])]
  {
    assert SessionIds(p, g, i + 1)[..i] == SessionIds(p, g, i);
    assert CourseDocuments(p, links, g, i + 1)[..i] == CourseDocuments(p, links, g, i);
  }

  /** `$sendinformation` after the first `n` courses: their session ids
      assembled with their documents. */
  function PartialPayload(p: Platform, links: seq<SirhLinkRow>, g: Grouped, n: nat): (r: Assoc<Id, Document>)
    requires WellGrouped(g) && n <= |g.keys| && SessionsFound(p, g, n)
    ensures r.Valid()
  {
    Assemble(SessionIds(p, g, n), CourseDocuments(p, links, g, n))
  }

  /** One more course puts its document under its session's id. */
  lemma PartialPayloadStep(p: Platform, links: seq<SirhLinkRow>, g: Grouped, i: nat)
    requires WellGrouped(g) && i < |g.keys| && SessionsFound(p, g, i + 1)
    ensures PartialPayload(p, links, g, i + 1) ==
            Put(PartialPayload(p, links, g, i), SessionIdOf(p, g.keys[i]), CourseDocument(p, links, g, g.keys[i]))
  {
    CourseDocumentsStep(p, links, g, i);
    AssembleSnoc(SessionIds(p, g, i), CourseDocuments(p, links, g, i),
                 SessionIdOf(p, g.keys[i]), CourseDocument(p, links, g, g.keys[i]));
  }

  /** What `create_data_for_api` returns for a grouping: the exception of
      the first course without a session, or `$sendinformation`, where each
      course in turn puts its document under its session's id. */
  function Payload(p: Platform, links: seq<SirhLinkRow>, g: Grouped): Result<Assoc<Id, Document>, TaskError>
    requires WellGrouped(g)
  {
    match FirstMissing(p, g.keys)
    case Some(i) => Err(SessionNotFound(g.keys[i]))
    case None => Ok(Assemble(SessionIds(p, g, |g.keys|), CourseDocuments(p, links, g, |g.keys|)))
  }

  /** The payload step fails exactly when some course of the grouping has no
      session, and the exception names the first such course. */
  lemma PayloadFailsIff(p: Platform, links: seq<SirhLinkRow>, g: Grouped)
    requires WellGrouped(g)
    ensures Payload(p, links, g).Err? <==> exists i :: 0 <= i < |g.keys| && g.keys[i] !in p.sessionsByCourse
    ensures Payload(p, links, g).Err? ==>
              exists i :: 0 <= i < |g.keys| && Payload(p, links, g).error == SessionNotFound(g.keys[i])
                          && g.keys[i] !in p.sessionsByCourse
                          && forall j :: 0 <= j < i ==> g.keys[j] in p.sessionsByCourse
  {
    var m := FirstMissing(p, g.keys);
    if m.Some? {
      assert Payload(p, links, g).error == SessionNotFound(g.keys[m.value]);
    }
  }

  /** A successful payload has one key per session of the grouping's
      courses: the keys are exactly those session ids. */
  lemma PayloadKeys(p: Platform, links: seq<SirhLinkRow>, g: Grouped, k: Id)
    requires WellGrouped(g) && Payload(p, links, g).Ok?
    ensures k in Payload(p, links, g).value.vals <==>
            exists i :: 0 <= i < |g.keys| && g.keys[i] in p.sessionsByCourse && SessionIdOf(p, g.keys[i]) == k
  {
    var n := |g.keys|;
    var ids, docs := SessionIds(p, g, n), CourseDocuments(p, links, g, n);
    assert Payload(p, links, g).value == Assemble(ids, docs);
    AssembleKeys(ids, docs, k);
    SessionIdsHas(p, g, n, k);
  }

  /** The session ids of the first `n` courses are those of their sessions. */
  lemma SessionIdsHas(p: Platform, g: Grouped, n: nat, k: Id)
    requires n <= |g.keys| && SessionsFound(p, g, n)
    ensures k in SessionIds(p, g, n) <==>
            exists i :: 0 <= i < n && g.keys[i] in p.sessionsByCourse && SessionIdOf(p, g.keys[i]) == k
  {
    var ids := SessionIds(p, g, n);
    if k in ids {
      var i :| 0 <= i < |ids| && ids[i] == k;
      assert g.keys[i] in p.sessionsByCourse && SessionIdOf(p, g.keys[i]) == k;
    }
    if exists i :: 0 <= i < n && g.keys[i] in p.sessionsByCourse && SessionIdOf(p, g.keys[i]) == k {
      var i :| 0 <= i < n && g.keys[i] in p.sessionsByCourse && SessionIdOf(p, g.keys[i]) == k;
      assert ids[i] == k;
    }
  }


  /** Each session holds the document of the last course of the grouping
      with that session. */
  lemma PayloadLastCourseWins(p: Platform, links: seq<SirhLinkRow>, g: Grouped, i: nat)
    requires WellGrouped(g) && Payload(p, links, g).Ok? && i < |g.keys|
    requires forall j :: i < j < |g.keys| ==> SessionIdOf(p, g.keys[j]) != SessionIdOf(p, g.keys[i])
    ensures SessionIdOf(p, g.keys[i]) in Payload(p, links, g).value.vals
    ensures Payload(p, links, g).value.vals[SessionIdOf(p, g.keys[i])] == CourseDocument(p, links, g, g.keys[i])
  {
    var n := |g.keys|;
    var ids, docs := SessionIds(p, g, n), CourseDocuments(p, links, g, n);
    assert Payload(p, links, g) == Ok(Assemble(ids, docs));
    forall j | i < j < n ensures ids[j] != ids[i] {
      assert ids[j] == SessionIdOf(p, g.keys[j]);
    }
    AssembleLastWins(ids, docs, i);
  }

  /** No two courses of the grouping share a session. */
  ghost predicate DistinctSessions(p: Platform, g: Grouped)
    requires SessionsFound(p, g, |g.keys|)
  {
    forall i, j :: 0 <= i < j < |g.keys| ==> SessionIdOf(p, g.keys[i]) != SessionIdOf(p, g.keys[j])
  }

  /** One document per session: when no two courses share a session, a
      successful payload lists the courses' session ids in the grouping's
      order, each holding its course's document. */
  lemma PayloadOneDocumentPerSession(p: Platform, links: seq<SirhLinkRow>, g: Grouped)
    requires WellGrouped(g) && Payload(p, links, g).Ok? && DistinctSessions(p, g)
    ensures |Payload(p, links, g).value.keys| == |g.keys|
    ensures forall i :: 0 <= i < |g.keys| ==>
              Payload(p, links, g).value.keys[i] == SessionIdOf(p, g.keys[i])
              && Payload(p, links, g).value.vals[SessionIdOf(p, g.keys[i])] == CourseDocument(p, links, g, g.keys[i])
  {
    var n := |g.keys|;
    var ids, docs := SessionIds(p, g, n), CourseDocuments(p, links, g, n);
    PayloadValue(p, links, g);
    DistinctSessionIds(p, g);
    AssembleDistinct(ids, docs);
    SessionIdsAndDocumentsAt(p, links, g, n);
  }

  /** A successful payload assembles the session ids with the documents. */
  lemma PayloadValue(p: Platform, links: seq<SirhLinkRow>, g: Grouped)
    requires WellGrouped(g) && Payload(p, links, g).Ok?
    ensures SessionsFound(p, g, |g.keys|)
    ensures Payload(p, links, g).value == Assemble(SessionIds(p, g, |g.keys|), CourseDocuments(p, links, g, |g.keys|))
  {
  }

  /** Position `i` of the session ids and of the documents is course `i`'s. */
  lemma SessionIdsAndDocumentsAt(p: Platform, links: seq<SirhLinkRow>, g: Grouped, n: nat)
    requires WellGrouped(g) && n <= |g.keys| && SessionsFound(p, g, n)
    ensures forall i :: 0 <= i < n ==>
              SessionIds(p, g, n)[i] == SessionIdOf(p, g.keys[i])
              && CourseDocuments(p, links, g, n)[i] == CourseDocument(p, links, g, g.keys[i])
  {
  }

  /** Courses with distinct sessions have distinct session ids. */
  lemma DistinctSessionIds(p: Platform, g: Grouped)
    requires SessionsFound(p, g, |g.keys|) && DistinctSessions(p, g)
    ensures forall i, j :: 0 <= i < j < |g.keys| ==> SessionIds(p, g, |g.keys|)[i] != SessionIds(p, g, |g.keys|)[j]
  {
  }


  // ---------------------------------------------------------------------
  // The entity cache

  /** The main entities of a course's users, in the order they are visited. */
  function EntitiesOfUsers(p: Platform, sc: Assoc<Id, int>): (r: seq<string>)
    ensures |r| == |sc.keys|
    ensures forall i :: 0 <= i < |r| ==> r[i] == MainEntity(p, sc.keys[i])
  {
    seq(|sc.keys|, i requires 0 <= i < |sc.keys| => MainEntity(p, sc.keys[i]))
  }

  /** The main entities visited for the first `n` courses. */
  function EntitiesUpTo(p: Platform, g: Grouped, n: nat): seq<string>
    requires WellGrouped(g) && n <= |g.keys|
  {
    if n == 0 then [] else EntitiesUpTo(p, g, n - 1) + EntitiesOfUsers(p, g.vals[g.keys[n - 1]])
  }

  /** The number of entity lookups for visiting `es` in order with the
      entity cache: a lookup on the first visit of an entity, and again on
      every visit while its cached list is empty. */
  function EntityLookups(p: Platform, es: seq<string>): (r: nat)
    ensures r <= |es|
  {
    if es == [] then 0
    else
      var init := es[..|es| - 1];
      var e := es[|es| - 1];
      EntityLookups(p, init) + (if e !in init || EntityCodes(p, e) == [] then 1 else 0)
  }

  /** The visits of entities that have no code. */
  function VisitsWithoutCodes(p: Platform, es: seq<string>): nat {
    if es == [] then 0
    else VisitsWithoutCodes(p, es[..|es| - 1]) + (if EntityCodes(p, es[|es| - 1]) == [] then 1 else 0)
  }

  /** The distinct visited entities that have codes. */
  function EntitiesWithCodes(p: Platform, es: seq<string>): set<string> {
    set e | e in es && EntityCodes(p, e) != []
  }

  /** The lookups are one per distinct entity that has codes, plus one per
      visit of an entity without codes. */
  lemma {:induction false} EntityLookupsCount(p: Platform, es: seq<string>)
    ensures EntityLookups(p, es) == |EntitiesWithCodes(p, es)| + VisitsWithoutCodes(p, es)
  {
    if es != [] {
      var init := es[..|es| - 1];
      var e := es[|es| - 1];
      EntityLookupsCount(p, init);
      assert es == init + [e];
      if EntityCodes(p, e) != [] {
        assert EntitiesWithCodes(p, es) == EntitiesWithCodes(p, init) + {e};
        if e !in init {
          assert e !in EntitiesWithCodes(p, init);
        } else {
          assert e in EntitiesWithCodes(p, init);
        }
      } else {
        assert EntitiesWithCodes(p, es) == EntitiesWithCodes(p, init);
      }
    }
  }

  /** When every visited entity has codes, each is looked up once. */
  lemma EntityLookupsOncePerEntity(p: Platform, es: seq<string>)
    requires forall i :: 0 <= i < |es| ==> EntityCodes(p, es[i]) != []
    ensures EntityLookups(p, es) == |set e | e in es|
  {
    EntityLookupsCount(p, es);
    NoVisitWithoutCodes(p, es);
    assert EntitiesWithCodes(p, es) == set e | e in es;
  }

  lemma {:induction false} NoVisitWithoutCodes(p: Platform, es: seq<string>)
    requires forall i :: 0 <= i < |es| ==> EntityCodes(p, es[i]) != []
    ensures VisitsWithoutCodes(p, es) == 0
  {
    if es != [] {
      NoVisitWithoutCodes(p, es[..|es| - 1]);
    }
  }
}
