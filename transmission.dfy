/** The third and fourth steps of the follow-up task: each session's user
    list sent in bundles of a hundred, and every answer of the follow-up
    service checked and folded into one result for the run. */
module Transmission {
  import opened Base
  import opened Payload

  // ---------------------------------------------------------------------
  // Bundles

  /** The largest number of users sent in one call. */
  const BundleSize: nat := 100

  /** The user lists of the calls for one session, in call order: while more
      than a hundred users are left, the first hundred are sent and cut off;
      the rest goes in one last call. */
  function Chunks<T>(xs: seq<T>): (r: seq<seq<T>>)
    ensures |r| >= 1
    decreases |xs|
  {
    if |xs| <= BundleSize then [xs] else [xs[..BundleSize]] + Chunks(xs[BundleSize..])
  }

  /** The concatenation of a list of lists. */
  function Flatten<T>(xss: seq<seq<T>>): seq<T> {
    if xss == [] then [] else xss[0] + Flatten(xss[1..])
  }

  /** The bundles put back together give the original list. */
  lemma {:induction false} ChunksFlatten<T>(xs: seq<T>)
    ensures Flatten(Chunks(xs)) == xs
  {
    if |xs| > BundleSize {
      ChunksFlatten(xs[BundleSize..]);
      assert Chunks(xs)[1..] == Chunks(xs[BundleSize..]);
      assert xs == xs[..BundleSize] + xs[BundleSize..];
    } else {
      assert [xs][1..] == [];
      assert xs + [] == xs;
    }
  }

  /** A list of `n` users takes one call when `n` is zero and `n / 100`
      rounded up otherwise. */
  lemma {:induction false} ChunksCount<T>(xs: seq<T>)
    ensures |Chunks(xs)| == if |xs| == 0 then 1 else (|xs| + BundleSize - 1) / BundleSize
  {
    if |xs| > BundleSize {
      ChunksCount(xs[BundleSize..]);
    }
  }

  /** Every bundle but the last holds exactly a hundred users, and the last
      holds at most a hundred, at least one when there are users at all. */
  lemma {:induction false} ChunkSizes<T>(xs: seq<T>)
    ensures forall i :: 0 <= i < |Chunks(xs)| - 1 ==> |Chunks(xs)[i]| == BundleSize
    ensures |Chunks(xs)[|Chunks(xs)| - 1]| <= BundleSize
    ensures |xs| > 0 ==> |Chunks(xs)[|Chunks(xs)| - 1]| >= 1
  {
    if |xs| > BundleSize {
      var rest := xs[BundleSize..];
      ChunkSizes(rest);
      assert Chunks(xs) == [xs[..BundleSize]] + Chunks(rest);
      forall i | 1 <= i < |Chunks(xs)| - 1 ensures |Chunks(xs)[i]| == BundleSize {
        assert Chunks(xs)[i] == Chunks(rest)[i - 1];
      }
    }
  }

  /** Bundle `i` is the slice of the list starting at `100 * i`, so the
      bundles keep the users in order. */
  lemma {:induction false} ChunkAt<T>(xs: seq<T>, i: nat)
    requires i < |Chunks(xs)|
    ensures BundleSize * i <= |xs|
    ensures i < |Chunks(xs)| - 1 ==> BundleSize * (i + 1) < |xs|
    ensures i < |Chunks(xs)| - 1 ==> Chunks(xs)[i] == xs[BundleSize * i .. BundleSize * (i + 1)]
    ensures i == |Chunks(xs)| - 1 ==> Chunks(xs)[i] == xs[BundleSize * i..]
  {
    if |xs| > BundleSize && i > 0 {
      var rest := xs[BundleSize..];
      assert Chunks(xs)[i] == Chunks(rest)[i - 1];
      ChunkAt(rest, i - 1);
      assert BundleSize * i == BundleSize + BundleSize * (i - 1);
      if i < |Chunks(xs)| - 1 {
        assert BundleSize * (i + 1) == BundleSize + BundleSize * i;
        SliceOfSuffix(xs, BundleSize, BundleSize * (i - 1), BundleSize * i);
      } else {
        SliceOfSuffix(xs, BundleSize, BundleSize * (i - 1), BundleSize * (i - 1));
      }
    }
  }

  /** Two hundred and fifty users go in bundles of 100, 100 and 50. */
  lemma ChunksOf250<T>(xs: seq<T>)
    requires |xs| == 250
    ensures |Chunks(xs)| == 3
    ensures |Chunks(xs)[0]| == 100 && |Chunks(xs)[1]| == 100 && |Chunks(xs)[2]| == 50
  {
    assert Chunks(xs) == [xs[..100]] + Chunks(xs[100..]);
    assert Chunks(xs[100..]) == [xs[100..][..100]] + Chunks(xs[100..][100..]);
    assert Chunks(xs[100..][100..]) == [xs[100..][100..]];
  }

  /** Exactly a hundred users go in a single call. */
  lemma ChunksOf100<T>(xs: seq<T>)
    requires |xs| == 100
    ensures Chunks(xs) == [xs]
  {
  }

  /** What is left of a session's user list once it has been sent: the
      last bundle. */
  function LastChunk<T>(xs: seq<T>): seq<T> {
    Chunks(xs)[|Chunks(xs)| - 1]
  }

  /** The last bundle is the tail of the list after the full bundles: at
      most a hundred users, and the whole list when it has no more. */
  lemma LastChunkIsTail<T>(xs: seq<T>)
    ensures |LastChunk(xs)| <= BundleSize
    ensures BundleSize * (|Chunks(xs)| - 1) <= |xs|
    ensures LastChunk(xs) == xs[BundleSize * (|Chunks(xs)| - 1)..]
    ensures |xs| <= BundleSize ==> LastChunk(xs) == xs
  {
    ChunkSizes(xs);
    ChunkAt(xs, |Chunks(xs)| - 1);
  }

  // ---------------------------------------------------------------------
  // Calls

  /** The documents sent for the user lists `bundles` of one session. */
  function Requests(mentor: SessionMentor, bundles: seq<seq<UserInfo>>): seq<Document> {
    seq(|bundles|, i requires 0 <= i < |bundles| => Document(mentor, bundles[i]))
  }

  /** The calls for one session's document. */
  function SessionRequests(d: Document): seq<Document> {
    Requests(d.sessionMentor, Chunks(d.utilisateurs))
  }

  /** The calls of a whole run over the documents in order. */
  function RunRequests(docs: seq<Document>): seq<Document> {
    if docs == [] then [] else RunRequests(docs[..|docs| - 1]) + SessionRequests(docs[|docs| - 1])
  }

  /** The user lists of a sequence of calls. */
  function UserLists(reqs: seq<Document>): (r: seq<seq<UserInfo>>)
    ensures |r| == |reqs|
    ensures forall i :: 0 <= i < |r| ==> r[i] == reqs[i].utilisateurs
  {
    seq(|reqs|, i requires 0 <= i < |reqs| => reqs[i].utilisateurs)
  }

  /** All calls for a session carry its `sessionMentor`, and their user
      lists put together are the session's users. */
  lemma SessionRequestsCoverUsers(d: Document)
    ensures |SessionRequests(d)| == |Chunks(d.utilisateurs)|
    ensures forall i :: 0 <= i < |SessionRequests(d)| ==> SessionRequests(d)[i].sessionMentor == d.sessionMentor
    ensures Flatten(UserLists(SessionRequests(d))) == d.utilisateurs
  {
    assert UserLists(SessionRequests(d)) == Chunks(d.utilisateurs);
    ChunksFlatten(d.utilisateurs);
  }

  // ---------------------------------------------------------------------
  // Answers and the error check

  /** An answer of the follow-up service: `true`, or an error object with
      its status and, for the service's own errors, the list of field
      errors. */
  datatype Response = Accepted | Rejected(status: Option<int>, erreurs: Option<seq<(string, string)>>)

  /** The answer to call number `n` of the run, for the document sent. */
  type Oracle = (nat, Document) -> Response

  /** A line of the task's trace. */
  datatype LogLine =
    | Separator
    | CallFailed
    | StatusLine(status: Option<int>)
    | DataLine(data: Document)
    | ErrorLine(response: Response)
    | ErrorListHeader
    | FieldErrorLine(field: string, message: string)

  /** One line per field error, in the order the service listed them. */
  function FieldErrorLines(erreurs: seq<(string, string)>): (r: seq<LogLine>)
    ensures |r| == |erreurs|
    ensures forall i :: 0 <= i < |r| ==> r[i] == FieldErrorLine(erreurs[i].0, erreurs[i].1)
  {
    seq(|erreurs|, i requires 0 <= i < |erreurs| => FieldErrorLine(erreurs[i].0, erreurs[i].1))
  }

  /** `check_errors`: whether the answer is an error. */
  predicate IsError(response: Response) {
    !response.Accepted?
  }

  /** The trace `check_errors` writes for an answer to the call that sent
      `data`. */
  function ErrorLog(response: Response, data: Document): seq<LogLine> {
    match response
    case Accepted => []
    case Rejected(status, erreurs) =>
      [Separator, CallFailed, StatusLine(status), DataLine(data)]
      + match erreurs
        case None => [ErrorLine(response)]
        case Some(es) => [ErrorListHeader] + FieldErrorLines(es)
  }

  /** Every call from number `start` on was answered `true`. */
  predicate AllAccepted(respond: Oracle, start: nat, reqs: seq<Document>) {
    reqs == [] ||
    (AllAccepted(respond, start, reqs[..|reqs| - 1]) && !IsError(respond(start + |reqs| - 1, reqs[|reqs| - 1])))
  }

  /** A run is clean exactly when no answer of it is an error. */
  lemma {:induction false} AllAcceptedIff(respond: Oracle, start: nat, reqs: seq<Document>)
    ensures AllAccepted(respond, start, reqs) <==> forall i :: 0 <= i < |reqs| ==> !IsError(respond(start + i, reqs[i]))
  {
    if reqs != [] {
      var n := |reqs| - 1;
      AllAcceptedIff(respond, start, reqs[..n]);
      assert forall i :: 0 <= i < n ==> reqs[..n][i] == reqs[i];
    }
  }

  /** The traces `f` writes for the calls `xs`, numbered from `start`, one
      after the other. */
  function Traces<T, L>(f: (nat, T) -> seq<L>, start: nat, xs: seq<T>): seq<L> {
    if xs == [] then []
    else
      var n := |xs| - 1;
      Traces(f, start, xs[..n]) + f(start + n, xs[n])
  }

  lemma TracesSnoc<T, L>(f: (nat, T) -> seq<L>, start: nat, xs: seq<T>, x: T)
    ensures Traces(f, start, xs + [x]) == Traces(f, start, xs) + f(start + |xs|, x)
  {
    assert (xs + [x])[..|xs|] == xs;
  }

  lemma {:induction false} TracesAppend<T, L>(f: (nat, T) -> seq<L>, start: nat, a: seq<T>, b: seq<T>)
    ensures Traces(f, start, a + b) == Traces(f, start, a) + Traces(f, start + |a|, b)
    decreases |b|
  {
    if b == [] {
      assert a + b == a;
    } else {
      var b' := b[..|b| - 1];
      var r := b[|b| - 1];
      SplitLast(b);
      AppendAssoc(a, b', [r]);
      TracesAppend(f, start, a, b');
      TracesSnoc(f, start, a + b', r);
      TracesSnoc(f, start + |a|, b', r);
      AppendAssoc(Traces(f, start, a), Traces(f, start + |a|, b'), f(start + |a| + |b'|, r));
    }
  }

  /** The trace `check_errors` writes for each call of a run. */
  function CallLog(respond: Oracle): (nat, Document) -> seq<LogLine> {
    (k: nat, d: Document) => ErrorLog(respond(k, d), d)
  }

  /** The trace of the calls `reqs`, numbered from `start`. */
  function CallLogs(respond: Oracle, start: nat, reqs: seq<Document>): seq<LogLine> {
    Traces(CallLog(respond), start, reqs)
  }

  /** The trace of one more call. */
  lemma CallLogsSnoc(respond: Oracle, start: nat, reqs: seq<Document>, r: Document)
    ensures CallLogs(respond, start, reqs + [r]) ==
            CallLogs(respond, start, reqs) + ErrorLog(respond(start + |reqs|, r), r)
  {
    TracesSnoc(CallLog(respond), start, reqs, r);
  }

  /** One more call keeps the run clean exactly when it is accepted. */
  lemma AllAcceptedSnoc(respond: Oracle, start: nat, reqs: seq<Document>, r: Document)
    ensures AllAccepted(respond, start, reqs + [r]) <==>
            AllAccepted(respond, start, reqs) && !IsError(respond(start + |reqs|, r))
  {
    assert (reqs + [r])[..|reqs|] == reqs;
  }

  /** The trace of two runs of calls one after the other. */
  lemma CallLogsAppend(respond: Oracle, start: nat, a: seq<Document>, b: seq<Document>)
    ensures CallLogs(respond, start, a + b) == CallLogs(respond, start, a) + CallLogs(respond, start + |a|, b)
  {
    TracesAppend(CallLog(respond), start, a, b);
  }

  /** Two runs of calls are clean together exactly when both are. */
  lemma {:induction false} AllAcceptedAppend(respond: Oracle, start: nat, a: seq<Document>, b: seq<Document>)
    ensures AllAccepted(respond, start, a + b) <==>
            AllAccepted(respond, start, a) && AllAccepted(respond, start + |a|, b)
    decreases |b|
  {
    if b == [] {
      assert a + b == a;
    } else {
      var b' := b[..|b| - 1];
      var r := b[|b| - 1];
      var ab := a + b';
      assert a + b == ab + [r];
      assert b == b' + [r];
      AllAcceptedAppend(respond, start, a, b');
      AllAcceptedSnoc(respond, start, ab, r);
      AllAcceptedSnoc(respond, start + |a|, b', r);
    }
  }

  /** The number of error answers among the calls. */
  function FailedCalls(respond: Oracle, start: nat, reqs: seq<Document>): nat {
    if reqs == [] then 0
    else
      var n := |reqs| - 1;
      FailedCalls(respond, start, reqs[..n]) + (if IsError(respond(start + n, reqs[n])) then 1 else 0)
  }

  /** The number of `CallFailed` lines of a trace. */
  function CountCallFailed(lines: seq<LogLine>): nat {
    if lines == [] then 0
    else CountCallFailed(lines[..|lines| - 1]) + (if lines[|lines| - 1].CallFailed? then 1 else 0)
  }

  lemma {:induction false} CountCallFailedAppend(a: seq<LogLine>, b: seq<LogLine>)
    ensures CountCallFailed(a + b) == CountCallFailed(a) + CountCallFailed(b)
    decreases |b|
  {
    if b == [] {
      assert a + b == a;
    } else {
      var b' := b[..|b| - 1];
      assert a + b == (a + b') + [b[|b| - 1]];
      assert (a + b)[..|a + b| - 1] == a + b';
      CountCallFailedAppend(a, b');
    }
  }

  /** The trace of one answer has one `CallFailed` line when it is an error
      and none otherwise. */
  lemma ErrorLogCountsOne(response: Response, data: Document)
    ensures CountCallFailed(ErrorLog(response, data)) == if IsError(response) then 1 else 0
  {
    if IsError(response) {
      var head := [Separator, CallFailed, StatusLine(response.status), DataLine(data)];
      var tail := ErrorLog(response, data)[4..];
      assert ErrorLog(response, data) == head + tail;
      CountCallFailedAppend(head, tail);
      assert head == [Separator, CallFailed] + [StatusLine(response.status), DataLine(data)];
      CountCallFailedAppend([Separator, CallFailed], [StatusLine(response.status), DataLine(data)]);
      assert [Separator, CallFailed] == [Separator] + [CallFailed];
      CountCallFailedAppend([Separator], [CallFailed]);
      assert [StatusLine(response.status), DataLine(data)] == [StatusLine(response.status)] + [DataLine(data)];
      CountCallFailedAppend([StatusLine(response.status)], [DataLine(data)]);
      NoCallFailedInDetails(response);
    }
  }

  /** The detail lines after the call header never repeat it. */
  lemma NoCallFailedInDetails(response: Response)
    requires IsError(response)
    ensures CountCallFailed(match response.erreurs
                            case None => [ErrorLine(response)]
                            case Some(es) => [ErrorListHeader] + FieldErrorLines(es)) == 0
  {
    if response.erreurs.Some? {
      var es := response.erreurs.value;
      CountCallFailedAppend([ErrorListHeader], FieldErrorLines(es));
      NoCallFailedInFieldErrors(FieldErrorLines(es));
    }
  }

  lemma {:induction false} NoCallFailedInFieldErrors(lines: seq<LogLine>)
    requires forall i :: 0 <= i < |lines| ==> lines[i].FieldErrorLine?
    ensures CountCallFailed(lines) == 0
  {
    if lines != [] {
      NoCallFailedInFieldErrors(lines[..|lines| - 1]);
    }
  }

  /** Every error answer is traced, including those after an earlier error:
      the trace has exactly one call header per failed call. */
  lemma {:induction false} EveryFailureIsLogged(respond: Oracle, start: nat, reqs: seq<Document>)
    ensures CountCallFailed(CallLogs(respond, start, reqs)) == FailedCalls(respond, start, reqs)
  {
    if reqs != [] {
      var n := |reqs| - 1;
      EveryFailureIsLogged(respond, start, reqs[..n]);
      assert reqs == reqs[..n] + [reqs[n]];
      CallLogsSnoc(respond, start, reqs[..n], reqs[n]);
      CountCallFailedAppend(CallLogs(respond, start, reqs[..n]), ErrorLog(respond(start + n, reqs[n]), reqs[n]));
      ErrorLogCountsOne(respond(start + n, reqs[n]), reqs[n]);
    }
  }

  /** The run is clean exactly when no call failed. */
  lemma {:induction false} AllAcceptedIffNoFailure(respond: Oracle, start: nat, reqs: seq<Document>)
    ensures AllAccepted(respond, start, reqs) <==> FailedCalls(respond, start, reqs) == 0
  {
    if reqs != [] {
      var n := |reqs| - 1;
      AllAcceptedIffNoFailure(respond, start, reqs[..n]);
      assert reqs == reqs[..n] + [reqs[n]];
      AllAcceptedSnoc(respond, start, reqs[..n], reqs[n]);
    }
  }
}
