/** The scheduled task `send_session_followup_information`: the objects it
    works on, the follow-up service it calls, and its steps run one after
    the other on the platform's data. */
module FollowupTask {
  import opened Base
  import opened PhpStrings
  import opened DatabaseInterface
  import opened Grouping
  import opened Payload
  import opened Transmission

  /** The follow-up service behind `sirh_api::follow_up_session`: it records
      each document sent and answers as its oracle says for that call. */
  class SirhApi {
    const respond: Oracle
    var calls: seq<Document>

    constructor(respond: Oracle)
      ensures this.respond == respond && calls == []
    {
      this.respond := respond;
      calls := [];
    }

    method FollowUpSession(data: Document) returns (response: Response)
      modifies this
      ensures calls == old(calls) + [data]
      ensures response == respond(|old(calls)|, data)
    {
      response := respond(|calls|, data);
      calls := calls + [data];
    }
  }

  /** The object built for one session: its `sessionMentor` and its
      `utilisateurs`, which the sending step cuts down in place. */
  class SessionData {
    const sessionMentor: SessionMentor
    var utilisateurs: seq<UserInfo>

    constructor(sessionMentor: SessionMentor)
      ensures this.sessionMentor == sessionMentor && utilisateurs == []
    {
      this.sessionMentor := sessionMentor;
      utilisateurs := [];
    }

    /** The document the object encodes to at this moment. */
    function Snapshot(): Document
      reads this
    {
      Document(sessionMentor, utilisateurs)
    }

    /** `array_splice($this->utilisateurs, offset)`: the users from `offset`
        on are cut off and returned, the first `offset` stay. */
    method SpliceFrom(offset: nat) returns (removed: seq<UserInfo>)
      modifies this
      ensures offset <= |old(utilisateurs)| ==>
                utilisateurs == old(utilisateurs)[..offset] && removed == old(utilisateurs)[offset..]
      ensures offset > |old(utilisateurs)| ==> utilisateurs == old(utilisateurs) && removed == []
    {
      if offset <= |utilisateurs| {
        removed := utilisateurs[offset..];
        utilisateurs := utilisateurs[..offset];
      } else {
        removed := [];
      }
    }
  }

  /** The object of one session, with its `sessionMentor` set first and its
      `utilisateurs` once they are built. */
  method NewSessionData(sessionMentor: SessionMentor, utilisateurs: seq<UserInfo>, ghost others: set<SessionData>)
    returns (data: SessionData)
    ensures fresh(data) && data !in others
    ensures data.sessionMentor == sessionMentor && data.utilisateurs == utilisateurs
  {
    data := new SessionData(sessionMentor);
    data.utilisateurs := utilisateurs;
  }

  /** The objects of a PHP array of session objects. */
  function Objects(a: Assoc<Id, SessionData>): set<SessionData> {
    set k | k in a.vals :: a.vals[k]
  }

  /** The documents a PHP array of session objects encodes to. */
  function Snapshots(a: Assoc<Id, SessionData>): (r: Assoc<Id, Document>)
    reads Objects(a)
    ensures r.keys == a.keys && r.vals.Keys == a.vals.Keys
    ensures forall k :: k in a.vals ==> r.vals[k] == a.vals[k].Snapshot()
  {
    Assoc(a.keys, map k | k in a.vals :: a.vals[k].Snapshot())
  }

  /** Every key holds its own object. */
  ghost predicate DistinctObjects(a: Assoc<Id, SessionData>) {
    forall k1, k2 :: k1 in a.vals && k2 in a.vals && k1 != k2 ==> a.vals[k1] != a.vals[k2]
  }

  /** The objects of `a` are distinct, sit under the keys of `d` in the
      same order, and each object's mentor is its document's. */
  ghost predicate InStep(a: Assoc<Id, SessionData>, d: Assoc<Id, Document>) {
    && a.Valid() && a.keys == d.keys && a.vals.Keys == d.vals.Keys
    && DistinctObjects(a)
    && forall k :: k in a.vals ==> a.vals[k].sessionMentor == d.vals[k].sessionMentor
  }

  /** Putting an object not yet in `a` and the document it encodes to
      keeps the two arrays in step, each object with its document's users. */
  lemma InStepPut(a: Assoc<Id, SessionData>, d: Assoc<Id, Document>, k: Id, o: SessionData, doc: Document)
    requires InStep(a, d) && o !in Objects(a) && o.Snapshot() == doc
    requires forall k :: k in a.vals ==> a.vals[k].utilisateurs == d.vals[k].utilisateurs
    ensures InStep(Put(a, k, o), Put(d, k, doc))
    ensures forall k' :: k' in Put(a, k, o).vals ==> Put(a, k, o).vals[k'].utilisateurs == Put(d, k, doc).vals[k'].utilisateurs
  {
    InStepPutDistinct(a, d, k, o, doc);
    InStepPutFields(a, d, k, o, doc);
  }

  lemma InStepPutFields(a: Assoc<Id, SessionData>, d: Assoc<Id, Document>, k: Id, o: SessionData, doc: Document)
    requires InStep(a, d) && o.Snapshot() == doc
    requires forall k :: k in a.vals ==> a.vals[k].utilisateurs == d.vals[k].utilisateurs
    ensures Put(a, k, o).keys == Put(d, k, doc).keys && Put(a, k, o).vals.Keys == Put(d, k, doc).vals.Keys
    ensures forall k' :: k' in Put(a, k, o).vals ==> Put(a, k, o).vals[k'].sessionMentor == Put(d, k, doc).vals[k'].sessionMentor
    ensures forall k' :: k' in Put(a, k, o).vals ==> Put(a, k, o).vals[k'].utilisateurs == Put(d, k, doc).vals[k'].utilisateurs
  {
    var a', d' := Put(a, k, o), Put(d, k, doc);
    PutSameShape(a, d, k, o, doc);
    forall k' | k' in a'.vals
      ensures a'.vals[k'].sessionMentor == d'.vals[k'].sessionMentor
      ensures a'.vals[k'].utilisateurs == d'.vals[k'].utilisateurs
    {
      if k' != k {
        assert a'.vals[k'] == a.vals[k'] && d'.vals[k'] == d.vals[k'];
      }
    }
  }

  lemma InStepPutDistinct(a: Assoc<Id, SessionData>, d: Assoc<Id, Document>, k: Id, o: SessionData, doc: Document)
    requires InStep(a, d) && o !in Objects(a)
    ensures DistinctObjects(Put(a, k, o))
  {
    var a' := Put(a, k, o);
    forall k1, k2 | k1 in a'.vals && k2 in a'.vals && k1 != k2 ensures a'.vals[k1] != a'.vals[k2] {
      if k1 == k {
        assert a.vals[k2] in Objects(a);
      } else if k2 == k {
        assert a.vals[k1] in Objects(a);
      }
    }
  }

  /** Arrays in step whose objects have their documents' users: the
      objects encode to the documents. */
  lemma InStepSnapshots(a: Assoc<Id, SessionData>, d: Assoc<Id, Document>)
    requires InStep(a, d)
    requires forall k :: k in a.vals ==> a.vals[k].utilisateurs == d.vals[k].utilisateurs
    ensures Snapshots(a) == d
  {
    assert Snapshots(a).vals == d.vals;
  }

  class SendSessionFollowupInformation {
    const dbi: DatabaseInterface
    const api: SirhApi
    const platform: Platform
    const statusfilter: seq<string>
    const scheduledfailed: bool
    /** The task's trace, line by line. */
    var output: seq<LogLine>
    /** Whether the task has been reported to the scheduler as failed. */
    var failureReported: bool
    /** The number of entity lookups so far. */
    ghost var entityLookups: nat

    constructor(slot: InstanceSlot, api: SirhApi, platform: Platform,
                statusfilter: seq<string> := DefaultStatusFilter, scheduledfailed: bool := true)
      requires slot.Valid()
      modifies slot
      ensures slot.Valid() && dbi == slot.instance && dbi.db == slot.globalDb
      ensures old(slot.instance) != null ==> dbi == old(slot.instance)
      ensures this.api == api && this.platform == platform
      ensures this.statusfilter == statusfilter && this.scheduledfailed == scheduledfailed
      ensures output == [] && !failureReported && entityLookups == 0
    {
      var instance := slot.GetInstance();
      dbi := instance;
      this.api := api;
      this.platform := platform;
      this.statusfilter := statusfilter;
      this.scheduledfailed := scheduledfailed;
      output := [];
      failureReported := false;
      entityLookups := 0;
    }

    /** `execute`: the completions not yet synced, grouped by course and
        user, built into one document per session and sent. A course
        without a session throws before anything is sent; otherwise every
        bundle of every session is sent, and the task is reported as failed
        when `scheduledfailed` is set and some answer was not `true`. The
        watermark of the sessions is never written. */
    method Execute() returns (outcome: Outcome<TaskError>)
      modifies this`output, this`failureReported, this`entityLookups, api
      ensures var g := Group(Select(dbi.db.tables, if statusfilter == [] then DefaultStatusFilter else statusfilter,
                                    dbi.db.tables.completions));
              TaskRun(old(api.calls), old(output), old(failureReported), g, outcome)
      ensures dbi.db.tables == old(dbi.db.tables)
    {
      var completions := dbi.GetSessionsCompletedByUser(statusfilter);
      var sessionscompletion := GetSessionsCompletionInformation(completions);
      outcome := ProcessCompletions(sessionscompletion);
    }

    /** What a run of the task does on the grouped completions `g`, from
        the calls `calls0`, the trace `output0` and the failure flag
        `failed0` it starts with: the exception of a course without a
        session, with nothing sent; or the requests of every bundle of every
        session, their trace, and the failure reported when `scheduledfailed`
        is set and some answer was not `true`. */
    ghost predicate TaskRun(calls0: seq<Document>, output0: seq<LogLine>, failed0: bool, g: Grouped,
                            outcome: Outcome<TaskError>)
      requires WellGrouped(g)
      reads this, api, dbi, dbi.db
    {
      var expected := Payload.Payload(platform, SirhLinks(dbi.db.tables, dbi.db.tables.enrols), g);
      && (outcome.Fail? <==> expected.Err?)
      && (outcome.Fail? ==>
            && outcome.error == expected.error
            && api.calls == calls0 && output == output0 && failureReported == failed0)
      && (outcome.Pass? ==>
            var reqs := RunRequests(Values(expected.value));
            && api.calls == calls0 + reqs
            && output == output0 + CallLogs(api.respond, |calls0|, reqs)
            && failureReported == (failed0 || (scheduledfailed && !AllAccepted(api.respond, |calls0|, reqs))))
    }

    /** The steps of `execute` after the grouping. */
    method ProcessCompletions(g: Grouped) returns (outcome: Outcome<TaskError>)
      requires WellGrouped(g)
      modifies this`output, this`failureReported, this`entityLookups, api
      ensures TaskRun(old(api.calls), old(output), old(failureReported), g, outcome)
    {
      var sessiondata := CreateDataForApi(g);
      if sessiondata.Err? {
        return Fail(sessiondata.error);
      }
      SendAndReport(sessiondata.value);
      return Pass;
    }

    /** The sending step of `execute` and its report to the scheduler. */
    method SendAndReport(sessionsdata: Assoc<Id, SessionData>)
      requires sessionsdata.Valid() && DistinctObjects(sessionsdata)
      modifies this`output, this`failureReported, api, Objects(sessionsdata)
      ensures var reqs := RunRequests(Values(old(Snapshots(sessionsdata))));
              && api.calls == old(api.calls) + reqs
              && output == old(output) + CallLogs(api.respond, |old(api.calls)|, reqs)
              && failureReported == (old(failureReported) || (scheduledfailed && !AllAccepted(api.respond, |old(api.calls)|, reqs)))
    {
      var hasnoerror := SendToApi(sessionsdata);
      if scheduledfailed && !hasnoerror {
        failureReported := true;
      }
    }

    /** `get_sessions_completion_information`: the completion rows grouped
        by course, then by user, in the order the rows come. */
    method GetSessionsCompletionInformation(completions: seq<CompletionRow>) returns (info: Grouped)
      ensures info == Group(completions)
    {
      info := EmptyAssoc();
      for i := 0 to |completions|
        invariant info == Group(completions[..i])
      {
        var completion := completions[i];
        assert completions[..i + 1][..i] == completions[..i];
        AddCompletionInTwoSteps(info, completion);
        if completion.course !in info.vals {
          info := Put(info, completion.course, EmptyAssoc());
        }
        info := Put(info, completion.course, Put(info.vals[completion.course], completion.userid, completion.timecompleted));
      }
      assert completions[..|completions|] == completions;
    }

    /** The entity lookup of `create_data_for_api` for one main entity:
        its SIRH code list, one `{identifiantSIRH}` per code. */
    method LookupEntityCodes(mainentity: string) returns (codes: seq<SirhCode>)
      modifies this`entityLookups
      ensures codes == EntityCodes(platform, mainentity)
      ensures entityLookups == old(entityLookups) + 1
    {
      entityLookups := entityLookups + 1;
      var sirhlist := SirhList(platform, mainentity);
      codes := [];
      for j := 0 to |sirhlist|
        invariant codes == Codes(sirhlist[..j])
      {
        assert sirhlist[..j + 1][..j] == sirhlist[..j];
        codes := codes + [SirhCode(sirhlist[j])];
      }
      assert sirhlist[..|sirhlist|] == sirhlist;
    }

    /** The enrolment test of `create_data_for_api`: the user id is searched
        in the instance's parsed id list and the index found is used as a
        condition. */
    method UserEnrolled(userid: Id, enrolsirh: SirhLinkRow) returns (enrolled: bool)
      ensures enrolled == EnrolledInInstance(userid, enrolsirh)
    {
      var usersidenroled := ParseUsersId(enrolsirh.usersid);
      var found := ArraySearch(Decimal(userid), usersidenroled);
      enrolled := found.Some? && found.value != 0;
    }

    /** The `Suivi session utilisateur` of one user: the completion date,
        and the link row's three custom fields when the user is enrolled in
        the course's SIRH instance. */
    method FollowUp(link: Option<SirhLinkRow>, userid: Id, timecompleted: int) returns (suivi: SessionFollowUp)
      ensures suivi == FollowUpOf(userid, timecompleted, link)
    {
      suivi := SessionFollowUp(YmdDate(timecompleted), None, None, None);
      if link.Some? {
        var enrolsirh := link.value;
        var enrolled := UserEnrolled(userid, enrolsirh);
        if enrolled {
          suivi := SessionFollowUp(YmdDate(timecompleted), enrolsirh.customchar1,
                                   enrolsirh.customchar2, enrolsirh.customchar3);
        }
      }
    }

    /** The entity cache for one visit of `mainentity`: a missing or empty
        entry is looked up, and one more lookup is counted. */
    method CachedEntityCodes(mainentity: string, sirhbyentity0: map<string, seq<SirhCode>>,
                             ghost visits: seq<string>, ghost lookups0: nat)
      returns (sirhbyentity: map<string, seq<SirhCode>>)
      requires EntitiesCached(platform, sirhbyentity0, visits)
      requires entityLookups == lookups0 + EntityLookups(platform, visits)
      modifies this`entityLookups
      ensures EntitiesCached(platform, sirhbyentity, visits + [mainentity])
      ensures entityLookups == lookups0 + EntityLookups(platform, visits + [mainentity])
    {
      EntityLookupsSnoc(platform, visits, mainentity);
      sirhbyentity := sirhbyentity0;
      if mainentity !in sirhbyentity || sirhbyentity[mainentity] == [] {
        var codes := LookupEntityCodes(mainentity);
        sirhbyentity := sirhbyentity[mainentity := codes];
      }
    }

    /** One turn of the inner `foreach` of `create_data_for_api`: the
        `utilisateurs` entry of one user, through the user cache and the
        entity cache. `visits` are the entities visited before. */
    method BuildUserInfo(link: Option<SirhLinkRow>, userid: Id, timecompleted: int,
                         users0: map<Id, Option<User>>, sirhbyentity0: map<string, seq<SirhCode>>,
                         ghost visits: seq<string>, ghost lookups0: nat)
      returns (userinfo: UserInfo, users: map<Id, Option<User>>, sirhbyentity: map<string, seq<SirhCode>>)
      requires UsersCached(platform, users0)
      requires EntitiesCached(platform, sirhbyentity0, visits)
      requires entityLookups == lookups0 + EntityLookups(platform, visits)
      modifies this`entityLookups
      ensures userinfo == UserInfoFor(platform, link, userid, timecompleted)
      ensures UsersCached(platform, users)
      ensures EntitiesCached(platform, sirhbyentity, visits + [MainEntity(platform, userid)])
      ensures entityLookups == lookups0 + EntityLookups(platform, visits + [MainEntity(platform, userid)])
    {
      var suivi := FollowUp(link, userid, timecompleted);
      users := users0;
      if userid !in users {
        users := users[userid := UserOf(platform, userid)];
      }
      var user := users[userid];
      var mainentity := MainEntity(platform, userid);
      sirhbyentity := CachedEntityCodes(mainentity, sirhbyentity0, visits, lookups0);
      userinfo := UserInfo(suivi,
                           if user.Some? then Some(user.value.email) else None,
                           if user.Some? then Some(user.value.lastname) else None,
                           if user.Some? then Some(user.value.firstname) else None,
                           sirhbyentity[mainentity]);
    }

    /** The inner `foreach` of `create_data_for_api`: the `utilisateurs` of
        one course, given the course's SIRH instance, with the user cache and
        the entity cache carried from course to course. `visits0` are the
        entities visited before. */
    method BuildUsersInfo(link: Option<SirhLinkRow>, sessioncompletion: Assoc<Id, int>,
                          users0: map<Id, Option<User>>, sirhbyentity0: map<string, seq<SirhCode>>,
                          ghost visits0: seq<string>, ghost lookups0: nat)
      returns (usersinfo: seq<UserInfo>, users: map<Id, Option<User>>, sirhbyentity: map<string, seq<SirhCode>>)
      requires sessioncompletion.Valid()
      requires UsersCached(platform, users0)
      requires EntitiesCached(platform, sirhbyentity0, visits0)
      requires entityLookups == lookups0 + EntityLookups(platform, visits0)
      modifies this`entityLookups
      ensures usersinfo == UsersInfo(platform, link, sessioncompletion)
      ensures UsersCached(platform, users)
      ensures EntitiesCached(platform, sirhbyentity, visits0 + EntitiesOfUsers(platform, sessioncompletion))
      ensures entityLookups == lookups0 + EntityLookups(platform, visits0 + EntitiesOfUsers(platform, sessioncompletion))
    {
      ghost var expected := UsersInfo(platform, link, sessioncompletion);
      ghost var entities := EntitiesOfUsers(platform, sessioncompletion);
      ghost var visits := visits0;
      usersinfo, users, sirhbyentity := [], users0, sirhbyentity0;
      assert entities[..0] == [];
      for i := 0 to |sessioncompletion.keys|
        invariant usersinfo == expected[..i]
        invariant UsersCached(platform, users)
        invariant visits == visits0 + entities[..i]
        invariant EntitiesCached(platform, sirhbyentity, visits)
        invariant entityLookups == lookups0 + EntityLookups(platform, visits)
      {
        var userid := sessioncompletion.keys[i];
        var userinfo;
        userinfo, users, sirhbyentity :=
          BuildUserInfo(link, userid, sessioncompletion.vals[userid], users, sirhbyentity, visits, lookups0);
        PrefixSnoc(expected, i);
        usersinfo := usersinfo + [userinfo];
        PrefixSnoc(entities, i);
        AppendAssoc(visits0, entities[..i], [entities[i]]);
        visits := visits + [entities[i]];
      }
      assert expected[..|sessioncompletion.keys|] == expected;
      assert entities[..|sessioncompletion.keys|] == entities;
    }

    /** One turn of the outer `foreach` of `create_data_for_api`, for a
        course that has a session: the session's id and the course's fresh
        session object, with the caches carried over. */
    method BuildSession(links: seq<SirhLinkRow>, instancesirhbycoursid: seq<Id>, g: Grouped, i: nat,
                        users0: map<Id, Option<User>>, sirhbyentity0: map<string, seq<SirhCode>>,
                        ghost lookups0: nat, ghost others: set<SessionData>)
      returns (sessionid: Id, data: SessionData, users: map<Id, Option<User>>, sirhbyentity: map<string, seq<SirhCode>>)
      requires WellGrouped(g) && i < |g.keys| && g.keys[i] in platform.sessionsByCourse
      requires instancesirhbycoursid == CourseColumn(links)
      requires UsersCached(platform, users0)
      requires EntitiesCached(platform, sirhbyentity0, EntitiesUpTo(platform, g, i))
      requires entityLookups == lookups0 + EntityLookups(platform, EntitiesUpTo(platform, g, i))
      modifies this`entityLookups
      ensures sessionid == SessionIdOf(platform, g.keys[i])
      ensures fresh(data) && data !in others && data.Snapshot() == CourseDocument(platform, links, g, g.keys[i])
      ensures UsersCached(platform, users)
      ensures EntitiesCached(platform, sirhbyentity, EntitiesUpTo(platform, g, i + 1))
      ensures entityLookups == lookups0 + EntityLookups(platform, EntitiesUpTo(platform, g, i + 1))
    {
      var courseid := g.keys[i];
      var session := platform.sessionsByCourse[courseid];
      var training := session.training;
      var sessionmentor := SessionMentor(session.id, training.shortname, session.courseshortname,
                                         training.name, session.fullname, training.idsirh,
                                         YmdDate(session.sessionstartdate), YmdDate(session.sessionenddate));
      var enrolsirhid := ArraySearch(courseid, instancesirhbycoursid);
      var link := if enrolsirhid.Some? then Some(links[enrolsirhid.value]) else None;
      assert link == SirhInstanceOf(links, courseid);
      var usersinfo;
      usersinfo, users, sirhbyentity :=
        BuildUsersInfo(link, g.vals[courseid], users0, sirhbyentity0, EntitiesUpTo(platform, g, i), lookups0);
      data := NewSessionData(sessionmentor, usersinfo, others);
      sessionid := session.id;
    }

    /** `create_data_for_api`: one fresh session object per session, keyed
        by the session id, built from the grouped completions; the session
        lookup of a course without a session throws. */
    method CreateDataForApi(sessionscompletion: Grouped) returns (result: Result<Assoc<Id, SessionData>, TaskError>)
      requires WellGrouped(sessionscompletion)
      modifies this`entityLookups
      ensures var expected := Payload.Payload(platform, SirhLinks(dbi.db.tables, dbi.db.tables.enrols), sessionscompletion);
              && (result.Err? <==> expected.Err?)
              && (result.Err? ==> result.error == expected.error)
              && (result.Ok? ==> Snapshots(result.value) == expected.value)
      ensures result.Ok? ==>
                && result.value.Valid() && DistinctObjects(result.value)
                && forall k :: k in result.value.vals ==> fresh(result.value.vals[k])
      ensures result.Ok? ==>
                entityLookups == old(entityLookups)
                                 + EntityLookups(platform, EntitiesUpTo(platform, sessionscompletion, |sessionscompletion.keys|))
    {
      var sessionswithinstancesirh := dbi.GetAllInstanceSirhWithUserId();
      var instancesirhbycoursid := CourseColumn(sessionswithinstancesirh);
      result := BuildSessions(sessionswithinstancesirh, instancesirhbycoursid, sessionscompletion);
      if result.Ok? {
        var g, n := sessionscompletion, |sessionscompletion.keys|;
        InStepSnapshots(result.value, PartialPayload(platform, sessionswithinstancesirh, g, n));
      }
    }

    /** One turn of the outer `foreach` of `create_data_for_api`, for a
        course that has a session: its fresh object `data` is put under the
        session's id. */
    method AddSession(links: seq<SirhLinkRow>, instancesirhbycoursid: seq<Id>, g: Grouped, i: nat,
                      sendinformation0: Assoc<Id, SessionData>, ghost before: Assoc<Id, Document>,
                      users0: map<Id, Option<User>>, sirhbyentity0: map<string, seq<SirhCode>>,
                      ghost lookups0: nat)
      returns (sendinformation: Assoc<Id, SessionData>, ghost sessionid: Id, ghost data: SessionData,
               users: map<Id, Option<User>>, sirhbyentity: map<string, seq<SirhCode>>)
      requires WellGrouped(g) && i < |g.keys| && g.keys[i] in platform.sessionsByCourse
      requires instancesirhbycoursid == CourseColumn(links)
      requires before.Valid() && InStep(sendinformation0, before)
      requires forall k :: k in sendinformation0.vals ==> sendinformation0.vals[k].utilisateurs == before.vals[k].utilisateurs
      requires UsersCached(platform, users0)
      requires EntitiesCached(platform, sirhbyentity0, EntitiesUpTo(platform, g, i))
      requires entityLookups == lookups0 + EntityLookups(platform, EntitiesUpTo(platform, g, i))
      modifies this`entityLookups
      ensures sessionid == SessionIdOf(platform, g.keys[i])
      ensures fresh(data) && sendinformation == Put(sendinformation0, sessionid, data)
      ensures InStep(sendinformation, Put(before, sessionid, CourseDocument(platform, links, g, g.keys[i])))
      ensures forall k :: k in sendinformation.vals ==>
                sendinformation.vals[k].utilisateurs == Put(before, sessionid, CourseDocument(platform, links, g, g.keys[i])).vals[k].utilisateurs
      ensures UsersCached(platform, users)
      ensures EntitiesCached(platform, sirhbyentity, EntitiesUpTo(platform, g, i + 1))
      ensures entityLookups == lookups0 + EntityLookups(platform, EntitiesUpTo(platform, g, i + 1))
    {
      var sid, session;
      sid, session, users, sirhbyentity :=
        BuildSession(links, instancesirhbycoursid, g, i, users0, sirhbyentity0, lookups0, Objects(sendinformation0));
      InStepPut(sendinformation0, before, sid, session, CourseDocument(platform, links, g, g.keys[i]));
      sendinformation := Put(sendinformation0, sid, session);
      sessionid, data := sid, session;
    }

    /** `AddSession` for the `i`-th course of the grouping: the session
        objects now encode to the documents of the first `i + 1` courses. */
    method AddCourse(links: seq<SirhLinkRow>, instancesirhbycoursid: seq<Id>, g: Grouped, i: nat,
                     sendinformation0: Assoc<Id, SessionData>,
                     users0: map<Id, Option<User>>, sirhbyentity0: map<string, seq<SirhCode>>,
                     ghost lookups0: nat)
      returns (sendinformation: Assoc<Id, SessionData>, ghost sessionid: Id, ghost data: SessionData,
               users: map<Id, Option<User>>, sirhbyentity: map<string, seq<SirhCode>>)
      requires WellGrouped(g) && i < |g.keys| && SessionsFound(platform, g, i + 1)
      requires instancesirhbycoursid == CourseColumn(links)
      requires InStep(sendinformation0, PartialPayload(platform, links, g, i))
      requires forall k :: k in sendinformation0.vals ==> sendinformation0.vals[k].utilisateurs == PartialPayload(platform, links, g, i).vals[k].utilisateurs
      requires UsersCached(platform, users0)
      requires EntitiesCached(platform, sirhbyentity0, EntitiesUpTo(platform, g, i))
      requires entityLookups == lookups0 + EntityLookups(platform, EntitiesUpTo(platform, g, i))
      modifies this`entityLookups
      ensures fresh(data) && sendinformation == Put(sendinformation0, sessionid, data)
      ensures InStep(sendinformation, PartialPayload(platform, links, g, i + 1))
      ensures forall k :: k in sendinformation.vals ==> sendinformation.vals[k].utilisateurs == PartialPayload(platform, links, g, i + 1).vals[k].utilisateurs
      ensures UsersCached(platform, users)
      ensures EntitiesCached(platform, sirhbyentity, EntitiesUpTo(platform, g, i + 1))
      ensures entityLookups == lookups0 + EntityLookups(platform, EntitiesUpTo(platform, g, i + 1))
    {
      ghost var before := PartialPayload(platform, links, g, i);
      sendinformation, sessionid, data, users, sirhbyentity :=
        AddSession(links, instancesirhbycoursid, g, i, sendinformation0, before, users0, sirhbyentity0, lookups0);
      PartialPayloadStep(platform, links, g, i);
    }

    /** The outer `foreach` of `create_data_for_api` over the courses of
        the grouping `g`, given the SIRH link rows and their course column:
        the exception of the first course without a session, or the session
        objects, which encode to the documents put course by course. */
    method BuildSessions(links: seq<SirhLinkRow>, instancesirhbycoursid: seq<Id>, g: Grouped)
      returns (result: Result<Assoc<Id, SessionData>, TaskError>)
      requires WellGrouped(g) && instancesirhbycoursid == CourseColumn(links)
      modifies this`entityLookups
      ensures result.Err? <==> FirstMissing(platform, g.keys).Some?
      ensures result.Err? ==> result.error == SessionNotFound(g.keys[FirstMissing(platform, g.keys).value])
      ensures result.Ok? ==>
                && SessionsFound(platform, g, |g.keys|)
                && InStep(result.value, PartialPayload(platform, links, g, |g.keys|))
                && (forall k :: k in result.value.vals ==> result.value.vals[k].utilisateurs == PartialPayload(platform, links, g, |g.keys|).vals[k].utilisateurs)
                && forall k :: k in result.value.vals ==> fresh(result.value.vals[k])
      ensures result.Ok? ==>
                entityLookups == old(entityLookups) + EntityLookups(platform, EntitiesUpTo(platform, g, |g.keys|))
    {
      var users: map<Id, Option<User>> := map[];
      var sirhbyentity: map<string, seq<SirhCode>> := map[];
      var sendinformation: Assoc<Id, SessionData> := EmptyAssoc();
      ghost var lookups0 := entityLookups;
      for i := 0 to |g.keys|
        invariant SessionsFound(platform, g, i)
        invariant InStep(sendinformation, PartialPayload(platform, links, g, i))
        invariant forall k :: k in sendinformation.vals ==> sendinformation.vals[k].utilisateurs == PartialPayload(platform, links, g, i).vals[k].utilisateurs
        invariant forall k :: k in sendinformation.vals ==> fresh(sendinformation.vals[k])
        invariant UsersCached(platform, users)
        invariant EntitiesCached(platform, sirhbyentity, EntitiesUpTo(platform, g, i))
        invariant entityLookups == lookups0 + EntityLookups(platform, EntitiesUpTo(platform, g, i))
      {
        var courseid := g.keys[i];
        if courseid !in platform.sessionsByCourse {
          FirstMissingAt(platform, g, i);
          return Err(SessionNotFound(courseid));
        }
        SessionsFoundStep(platform, g, i);
        ghost var sessionid, data;
        sendinformation, sessionid, data, users, sirhbyentity :=
          AddCourse(links, instancesirhbycoursid, g, i, sendinformation, users, sirhbyentity, lookups0);
      }
      return Ok(sendinformation);
    }

    /** `check_errors`: whether the answer is an error, tracing the call
        when it is. */
    method CheckErrors(response: Response, data: Document) returns (isError: bool)
      modifies this`output
      ensures isError == IsError(response)
      ensures output == old(output) + ErrorLog(response, data)
    {
      if response.Accepted? {
        return false;
      }
      output := output + [Separator, CallFailed, StatusLine(response.status), DataLine(data)];
      if response.erreurs.None? {
        output := output + [ErrorLine(response)];
        return true;
      }
      output := output + [ErrorListHeader];
      var erreurs := response.erreurs.value;
      ghost var header := output;
      for i := 0 to |erreurs|
        invariant output == header + FieldErrorLines(erreurs[..i])
      {
        assert FieldErrorLines(erreurs[..i + 1]) == FieldErrorLines(erreurs[..i]) + [FieldErrorLine(erreurs[i].0, erreurs[i].1)];
        output := output + [FieldErrorLine(erreurs[i].0, erreurs[i].1)];
      }
      assert erreurs[..|erreurs|] == erreurs;
      return true;
    }

    /** One call of `send_to_api`: the object as it is now is sent, the
        answer is checked, and the running result stays true only when it
        was true and the answer is `true`. */
    method SendAndCheck(data: Document, hasnoerror0: bool, ghost start: nat, ghost reqs: seq<Document>,
                        ghost out0: seq<LogLine>, ghost clean0: bool)
      returns (hasnoerror: bool)
      requires |api.calls| == start + |reqs|
      requires output == out0 + CallLogs(api.respond, start, reqs)
      requires hasnoerror0 == (clean0 && AllAccepted(api.respond, start, reqs))
      modifies this`output, api
      ensures api.calls == old(api.calls) + [data]
      ensures output == out0 + CallLogs(api.respond, start, reqs + [data])
      ensures hasnoerror == (clean0 && AllAccepted(api.respond, start, reqs + [data]))
    {
      ghost var before := CallLogs(api.respond, start, reqs);
      var response := api.FollowUpSession(data);
      assert response == api.respond(start + |reqs|, data);
      var isError := CheckErrors(response, data);
      hasnoerror := !isError && hasnoerror0;
      CallLogsSnoc(api.respond, start, reqs, data);
      AllAcceptedSnoc(api.respond, start, reqs, data);
      ghost var e := ErrorLog(response, data);
      assert output == (out0 + before) + e;
      assert (out0 + before) + e == out0 + (before + e);
    }

    /** One turn of the `while` loop of `send_to_api`: the users from the
        hundred-and-first on are cut off the object, the object is sent
        with the first hundred, and the cut-off users are put back as its
        whole list. */
    method SendBundle(sessiondata: SessionData, hasnoerror0: bool, ghost start: nat, ghost reqs: seq<Document>,
                      ghost out0: seq<LogLine>, ghost clean0: bool)
      returns (hasnoerror: bool)
      requires |sessiondata.utilisateurs| > BundleSize
      requires |api.calls| == start + |reqs|
      requires output == out0 + CallLogs(api.respond, start, reqs)
      requires hasnoerror0 == (clean0 && AllAccepted(api.respond, start, reqs))
      modifies this`output, api, sessiondata
      ensures sessiondata.utilisateurs == old(sessiondata.utilisateurs)[BundleSize..]
      ensures api.calls == old(api.calls) + [Document(sessiondata.sessionMentor, old(sessiondata.utilisateurs)[..BundleSize])]
      ensures output == out0 + CallLogs(api.respond, start, reqs + [Document(sessiondata.sessionMentor, old(sessiondata.utilisateurs)[..BundleSize])])
      ensures hasnoerror == (clean0 && AllAccepted(api.respond, start, reqs + [Document(sessiondata.sessionMentor, old(sessiondata.utilisateurs)[..BundleSize])]))
    {
      var otheruser := sessiondata.SpliceFrom(BundleSize);
      hasnoerror := SendAndCheck(sessiondata.Snapshot(), hasnoerror0, start, reqs, out0, clean0);
      sessiondata.utilisateurs := otheruser;
    }

    /** The `while` loop of `send_to_api` for one session object: as long
        as more than a hundred users are left, the first hundred are sent and
        cut off. `sent` are the bundles sent, the leading bundles of the
        original list. */
    method SendFullBundles(sessiondata: SessionData, hasnoerror0: bool, ghost start: nat, ghost reqs0: seq<Document>,
                           ghost out0: seq<LogLine>, ghost clean0: bool)
      returns (hasnoerror: bool, ghost sent: seq<seq<UserInfo>>)
      requires |api.calls| == start + |reqs0|
      requires output == out0 + CallLogs(api.respond, start, reqs0)
      requires hasnoerror0 == (clean0 && AllAccepted(api.respond, start, reqs0))
      modifies this`output, api, sessiondata
      ensures |sessiondata.utilisateurs| <= BundleSize
      ensures Chunks(old(sessiondata.utilisateurs)) == sent + Chunks(sessiondata.utilisateurs)
      ensures api.calls == old(api.calls) + Requests(sessiondata.sessionMentor, sent)
      ensures output == out0 + CallLogs(api.respond, start, reqs0 + Requests(sessiondata.sessionMentor, sent))
      ensures hasnoerror == (clean0 && AllAccepted(api.respond, start, reqs0 + Requests(sessiondata.sessionMentor, sent)))
    {
      var mentor := sessiondata.sessionMentor;
      ghost var orig := sessiondata.utilisateurs;
      ghost var calls: seq<Document> := [];
      sent := [];
      hasnoerror := hasnoerror0;
      assert reqs0 + calls == reqs0;
      while |sessiondata.utilisateurs| > BundleSize
        invariant Chunks(orig) == sent + Chunks(sessiondata.utilisateurs)
        invariant calls == Requests(mentor, sent)
        invariant api.calls == old(api.calls) + calls
        invariant output == out0 + CallLogs(api.respond, start, reqs0 + calls)
        invariant hasnoerror == (clean0 && AllAccepted(api.respond, start, reqs0 + calls))
        decreases |sessiondata.utilisateurs|
      {
        ghost var users := sessiondata.utilisateurs;
        ghost var doc := Document(mentor, users[..BundleSize]);
        hasnoerror := SendBundle(sessiondata, hasnoerror, start, reqs0 + calls, out0, clean0);
        BundleStep(sent, users);
        SendStep(mentor, sent, users[..BundleSize]);
        assert (reqs0 + calls) + [doc] == reqs0 + (calls + [doc]);
        calls := calls + [doc];
        sent := sent + [users[..BundleSize]];
      }
    }

    /** The body of the `foreach` of `send_to_api` for one session object:
        the full bundles, then the rest. Every answer is checked, even after
        an error. */
    method SendSession(sessiondata: SessionData, hasnoerror0: bool, ghost start: nat, ghost reqs0: seq<Document>,
                       ghost out0: seq<LogLine>, ghost clean0: bool)
      returns (hasnoerror: bool)
      requires |api.calls| == start + |reqs0|
      requires output == out0 + CallLogs(api.respond, start, reqs0)
      requires hasnoerror0 == (clean0 && AllAccepted(api.respond, start, reqs0))
      modifies this`output, api, sessiondata
      ensures api.calls == old(api.calls) + SessionRequests(old(sessiondata.Snapshot()))
      ensures output == out0 + CallLogs(api.respond, start, reqs0 + SessionRequests(old(sessiondata.Snapshot())))
      ensures hasnoerror == (clean0 && AllAccepted(api.respond, start, reqs0 + SessionRequests(old(sessiondata.Snapshot()))))
      ensures sessiondata.utilisateurs == LastChunk(old(sessiondata.utilisateurs))
    {
      var mentor := sessiondata.sessionMentor;
      ghost var orig := sessiondata.utilisateurs;
      ghost var d := sessiondata.Snapshot();
      ghost var sent;
      hasnoerror, sent := SendFullBundles(sessiondata, hasnoerror0, start, reqs0, out0, clean0);
      ghost var calls := Requests(mentor, sent);
      ghost var rest := sessiondata.utilisateurs;
      ghost var doc := Document(mentor, rest);
      hasnoerror := SendAndCheck(sessiondata.Snapshot(), hasnoerror, start, reqs0 + calls, out0, clean0);
      LastBundleStep(mentor, sent, orig, rest);
      assert SessionRequests(d) == calls + [doc];
      assert (reqs0 + calls) + [doc] == reqs0 + SessionRequests(d);
    }

    /** `send_to_api`: every session object in turn is sent in bundles; the
        result is true exactly when every answer of the run was `true`, and
        each object is left holding only its last bundle. */
    method SendToApi(sessionsdata: Assoc<Id, SessionData>) returns (hasnoerror: bool)
      requires sessionsdata.Valid() && DistinctObjects(sessionsdata)
      modifies this`output, api, Objects(sessionsdata)
      ensures api.calls == old(api.calls) + RunRequests(Values(old(Snapshots(sessionsdata))))
      ensures output == old(output) + CallLogs(api.respond, |old(api.calls)|, RunRequests(Values(old(Snapshots(sessionsdata)))))
      ensures hasnoerror == AllAccepted(api.respond, |old(api.calls)|, RunRequests(Values(old(Snapshots(sessionsdata)))))
      ensures forall k :: k in sessionsdata.vals ==>
                sessionsdata.vals[k].utilisateurs == LastChunk(old(sessionsdata.vals[k].utilisateurs))
    {
      ObjectsInOrder(sessionsdata);
      ghost var docs := Values(Snapshots(sessionsdata));
      var objs := Values(sessionsdata);
      hasnoerror := SendAll(objs, docs);
      forall k | k in sessionsdata.vals
        ensures sessionsdata.vals[k].utilisateurs == LastChunk(old(sessionsdata.vals[k].utilisateurs))
      {
        var j :| 0 <= j < |sessionsdata.keys| && sessionsdata.keys[j] == k;
        assert objs[j] == sessionsdata.vals[k];
      }
    }

    /** The `foreach` of `send_to_api` over the session objects `objs`,
        which encode to `docs` when it starts. */
    method SendAll(objs: seq<SessionData>, ghost docs: seq<Document>) returns (hasnoerror: bool)
      requires |objs| == |docs|
      requires forall i :: 0 <= i < |objs| ==> objs[i].Snapshot() == docs[i]
      requires forall i, j :: 0 <= i < |objs| && 0 <= j < |objs| && i != j ==> objs[i] != objs[j]
      modifies this`output, api, set o | o in objs
      ensures api.calls == old(api.calls) + RunRequests(docs)
      ensures output == old(output) + CallLogs(api.respond, |old(api.calls)|, RunRequests(docs))
      ensures hasnoerror == AllAccepted(api.respond, |old(api.calls)|, RunRequests(docs))
      ensures forall i :: 0 <= i < |objs| ==> objs[i].utilisateurs == LastChunk(docs[i].utilisateurs)
    {
      hasnoerror := true;
      assert docs[..0] == [];
      var i := 0;
      while i < |objs|
        invariant 0 <= i <= |objs|
        invariant api.calls == old(api.calls) + RunRequests(docs[..i])
        invariant output == old(output) + CallLogs(api.respond, |old(api.calls)|, RunRequests(docs[..i]))
        invariant hasnoerror == AllAccepted(api.respond, |old(api.calls)|, RunRequests(docs[..i]))
        invariant forall j :: 0 <= j < |objs| ==>
                    objs[j].utilisateurs == if j < i then LastChunk(docs[j].utilisateurs) else docs[j].utilisateurs
      {
        hasnoerror := SendNext(objs, docs, i, hasnoerror, old(api.calls), old(output));
        i := i + 1;
      }
      assert docs[..|objs|] == docs;
    }

    /** One turn of the `foreach` of `send_to_api`: the session object
        `objs[i]` is sent, and its users are cut to its last chunk. */
    method SendNext(objs: seq<SessionData>, ghost docs: seq<Document>, i: nat, hasnoerror0: bool,
                    ghost calls0: seq<Document>, ghost out0: seq<LogLine>)
      returns (hasnoerror: bool)
      requires i < |objs| == |docs|
      requires forall i, j :: 0 <= i < |objs| && 0 <= j < |objs| && i != j ==> objs[i] != objs[j]
      requires objs[i].sessionMentor == docs[i].sessionMentor
      requires api.calls == calls0 + RunRequests(docs[..i])
      requires output == out0 + CallLogs(api.respond, |calls0|, RunRequests(docs[..i]))
      requires hasnoerror0 == AllAccepted(api.respond, |calls0|, RunRequests(docs[..i]))
      requires forall j :: 0 <= j < |objs| ==>
                 objs[j].utilisateurs == if j < i then LastChunk(docs[j].utilisateurs) else docs[j].utilisateurs
      modifies this`output, api, objs[i]
      ensures api.calls == calls0 + RunRequests(docs[..i + 1])
      ensures output == out0 + CallLogs(api.respond, |calls0|, RunRequests(docs[..i + 1]))
      ensures hasnoerror == AllAccepted(api.respond, |calls0|, RunRequests(docs[..i + 1]))
      ensures forall j :: 0 <= j < |objs| ==>
                objs[j].utilisateurs == if j <= i then LastChunk(docs[j].utilisateurs) else docs[j].utilisateurs
    {
      var sessiondata := objs[i];
      assert sessiondata.Snapshot() == docs[i];
      hasnoerror := SendSession(sessiondata, hasnoerror0, |calls0|, RunRequests(docs[..i]), out0, true);
      SendToApiStep(docs, i);
      AppendAssoc(calls0, RunRequests(docs[..i]), SessionRequests(docs[i]));
    }
  }

  /** The user cache holds each cached user's lookup result (`false`
      included, since `isset` is true for it). */
  ghost predicate UsersCached(p: Platform, users: map<Id, Option<User>>) {
    forall u :: u in users ==> users[u] == UserOf(p, u)
  }

  /** The entities of a visit list, as a set. */
  function Visited(es: seq<string>): set<string> {
    if es == [] then {} else Visited(es[..|es| - 1]) + {es[|es| - 1]}
  }

  lemma {:induction false} VisitedIff(es: seq<string>, e: string)
    ensures e in Visited(es) <==> e in es
  {
    if es != [] {
      VisitedIff(es[..|es| - 1], e);
      assert es == es[..|es| - 1] + [es[|es| - 1]];
    }
  }

  /** The entity cache holds the code list of exactly the entities visited. */
  ghost predicate EntitiesCached(p: Platform, cache: map<string, seq<SirhCode>>, visits: seq<string>) {
    && cache.Keys == Visited(visits)
    && (forall e :: e in cache ==> cache[e] == EntityCodes(p, e))
  }

  /** One more visit of the entity cache: a lookup when the entity was not
      visited before or has no code. */
  lemma EntityLookupsSnoc(p: Platform, es: seq<string>, e: string)
    ensures Visited(es + [e]) == Visited(es) + {e}
    ensures EntityLookups(p, es + [e]) == EntityLookups(p, es) + if e !in Visited(es) || EntityCodes(p, e) == [] then 1 else 0
  {
    assert (es + [e])[..|es|] == es;
    VisitedIff(es, e);
  }

  /** One more course with a session. */
  lemma SessionsFoundStep(p: Platform, g: Grouped, i: nat)
    requires i < |g.keys| && SessionsFound(p, g, i) && g.keys[i] in p.sessionsByCourse
    ensures SessionsFound(p, g, i + 1)
  {
  }

  /** The course at `i` is the first without a session. */
  lemma FirstMissingAt(p: Platform, g: Grouped, i: nat)
    requires i < |g.keys| && SessionsFound(p, g, i) && g.keys[i] !in p.sessionsByCourse
    ensures FirstMissing(p, g.keys) == Some(i)
  {
  }

  /** The objects of a PHP array of session objects, in key order, are
      pairwise distinct and encode to its documents. */
  lemma ObjectsInOrder(a: Assoc<Id, SessionData>)
    requires a.Valid() && DistinctObjects(a)
    ensures forall i, j :: 0 <= i < |a.keys| && 0 <= j < |a.keys| && i != j ==> Values(a)[i] != Values(a)[j]
    ensures forall i :: 0 <= i < |a.keys| ==> Values(a)[i].Snapshot() == Values(Snapshots(a))[i]
  {
    forall i, j | 0 <= i < |a.keys| && 0 <= j < |a.keys| && i != j ensures Values(a)[i] != Values(a)[j] {
      if i < j { NoDuplicatesAt(a.keys, i, j); } else { NoDuplicatesAt(a.keys, j, i); }
    }
  }

  /** One more bundle sent for a session. */
  lemma SendStep(mentor: SessionMentor, sent: seq<seq<UserInfo>>, bundle: seq<UserInfo>)
    ensures Requests(mentor, sent + [bundle]) == Requests(mentor, sent) + [Document(mentor, bundle)]
  {
    var a, b := Requests(mentor, sent + [bundle]), Requests(mentor, sent) + [Document(mentor, bundle)];
    assert |a| == |b|;
    forall i | 0 <= i < |a| ensures a[i] == b[i] {
      if i < |sent| {
        assert (sent + [bundle])[i] == sent[i];
      }
    }
  }

  /** Cutting the first hundred users off a longer list moves one bundle
      from the bundles still to send to the bundles sent. */
  lemma BundleStep(sent: seq<seq<UserInfo>>, users: seq<UserInfo>)
    requires |users| > BundleSize
    ensures sent + Chunks(users) == (sent + [users[..BundleSize]]) + Chunks(users[BundleSize..])
  {
    var head := users[..BundleSize];
    var tail := Chunks(users[BundleSize..]);
    assert Chunks(users) == [head] + tail;
    assert sent + ([head] + tail) == (sent + [head]) + tail;
  }

  /** The last call of a session completes its requests. */
  lemma LastBundleStep(mentor: SessionMentor, sent: seq<seq<UserInfo>>, orig: seq<UserInfo>, rest: seq<UserInfo>)
    requires |rest| <= BundleSize && Chunks(orig) == sent + Chunks(rest)
    ensures Requests(mentor, sent) + [Document(mentor, rest)] == SessionRequests(Document(mentor, orig))
    ensures LastChunk(orig) == rest
  {
    SendStep(mentor, sent, rest);
    assert Chunks(orig) == sent + [rest];
  }

  /** One more session sent in a run. */
  lemma SendToApiStep(docs: seq<Document>, i: nat)
    requires i < |docs|
    ensures RunRequests(docs[..i + 1]) == RunRequests(docs[..i]) + SessionRequests(docs[i])
  {
    assert docs[..i + 1][..i] == docs[..i];
  }
}
