/**
 * The mock router's request handling: the raw-body capture hook of the body
 * parser, and the catch-all handler that picks one expectation for a request
 * and runs its first action, logging around it.
 */
module MockServer {
  import opened Wrappers
  import opened ArrayUtils
  import opened Expectations
  import opened ExpectationQuery

  /** Body size (bytes) from which the raw body is no longer kept: 10 MiB. */
  const MaxRawBodySize: nat := 10 * 1024 * 1024

  /** The request log record `insertReqLog` hands back; `insertResLog` refers to it. */
  datatype LogRecord = LogRecord(logId: nat)

  /** What `getActionImpl(action, delay)` yields: the action bound to the expectation's delay. */
  datatype ActionImpl = ActionImpl(action: Action, delay: real)

  /**
   * The code the handler calls but that is not part of this model, as values:
   * the matcher registry (`getMatcherImpl`, None for an unknown variant), the
   * action registry (which action and delay `getActionImpl` can resolve),
   * whether the promise of `process` resolves (false: it rejects), and the
   * result of `insertReqLog` (None when it returns nothing).
   */
  datatype Collaborators = Collaborators(
    getMatcherImpl: Matcher -> Option<Request -> bool>,
    resolvesAction: (Action, real) -> bool,
    processCompletes: (ActionImpl, Request) -> bool,
    insertReqLog: (Request, string) -> Option<LogRecord>)

  /** The observable steps of one dispatch, in the order they happen. */
  datatype Event =
    | ReqLog(expectationId: string)
    | Process(impl: ActionImpl)
    | ResLog(expectationId: string, reqLog: LogRecord)

  /**
   * How a dispatch ends: no candidate was taken, the candidate at `index` was
   * taken and its handler finished, or it was taken and `process` rejected
   * (the response log is then never written; assuming `first` passes the
   * rejection on, the handler's promise rejects too).
   */
  datatype Outcome = Unmatched | Handled(index: nat) | Rejected(index: nat)

  datatype Dispatch = Dispatch(outcome: Outcome, trace: seq<Event>)

  // ---------------------------------------------------------------------------
  // Raw-body capture (the `verify` hook given to the body parser)
  // ---------------------------------------------------------------------------

  /**
   * The verify hook: attaches the decoded buffer as `rawBody` when the buffer is
   * strictly smaller than MaxRawBodySize, and otherwise leaves the request as it
   * was. `decode` stands for `buf.toString(encoding)`.
   */
  function VerifyHook(req: Request, buf: seq<bv8>, encoding: string,
                      decode: (seq<bv8>, string) -> string): (r: Request)
    ensures |buf| < MaxRawBodySize ==> r.rawBody == Some(decode(buf, encoding))
    ensures |buf| >= MaxRawBodySize ==> r == req
    ensures r.(rawBody := req.rawBody) == req
  {
    if |buf| < MaxRawBodySize then req.(rawBody := Some(decode(buf, encoding))) else req
  }

  /** On a request that has no raw body yet, one is attached iff the buffer is below 10 MiB. */
  lemma RawBodyKeptIffBelowLimit(req: Request, buf: seq<bv8>, encoding: string,
                                 decode: (seq<bv8>, string) -> string)
    requires req.rawBody.None?
    ensures VerifyHook(req, buf, encoding, decode).rawBody.Some? <==> |buf| < 10485760
  {
  }

  // ---------------------------------------------------------------------------
  // Selection: which candidate the scan stops at
  // ---------------------------------------------------------------------------

  /** The callback given to `validAll`: a matcher with no implementation fails. */
  function MatcherHolds(c: Collaborators, req: Request, m: Matcher): bool {
    match c.getMatcherImpl(m)
    case Some(impl) => impl(req)
    case None => false
  }

  /** The AND of an expectation's matchers: every one resolves and matches. */
  function MatchersPass(e: Expectation, req: Request, c: Collaborators): (r: bool)
    ensures r <==> forall i :: 0 <= i < |e.matchers| ==>
      c.getMatcherImpl(e.matchers[i]).Some? && c.getMatcherImpl(e.matchers[i]).value(req)
  {
    ValidAll(e.matchers, m => MatcherHolds(c, req, m))
  }

  /** The scan callback returns true for `e`: its matchers pass and it has an action. */
  predicate Eligible(e: Expectation, req: Request, c: Collaborators) {
    MatchersPass(e, req, c) && |e.actions| != 0
  }

  /** The index `first` stops at when scanning `cands`. */
  function Select(cands: seq<Expectation>, req: Request, c: Collaborators): (r: Option<nat>)
    ensures r.Some? ==> r.value < |cands| && Eligible(cands[r.value], req, c)
    ensures r.Some? ==> forall j :: 0 <= j < r.value ==> !Eligible(cands[j], req, c)
    ensures r.None? <==> forall j :: 0 <= j < |cands| ==> !Eligible(cands[j], req, c)
  {
    First(cands, e => Eligible(e, req, c))
  }

  /** The expectation a request to a project with these stored expectations is dispatched to. */
  function Winner(store: seq<Expectation>, req: Request, c: Collaborators): Option<Expectation> {
    var cands := ActiveSorted(store);
    match Select(cands, req, c)
    case None => None
    case Some(k) => Some(cands[k])
  }

  // ---------------------------------------------------------------------------
  // Execution of the chosen candidate, and the whole handler
  // ---------------------------------------------------------------------------

  /** `getActionImpl(action, delay)`. */
  function GetActionImpl(c: Collaborators, a: Action, delay: real): Option<ActionImpl> {
    if c.resolvesAction(a, delay) then Some(ActionImpl(a, delay)) else None
  }

  /**
   * What the callback does for the candidate `w` at index `k` once it is
   * eligible: request log, then `process` on the resolved first action (skipped
   * when none resolves), then the response log if the request log returned a
   * record. A rejected `process` ends the callback before the response log,
   * and, as `first` is assumed to stop on a rejected callback, the scan too.
   */
  function Execute(w: Expectation, k: nat, req: Request, c: Collaborators): Dispatch
    requires |w.actions| != 0
  {
    var impl := GetActionImpl(c, w.actions[0], w.delay);
    var logM := c.insertReqLog(req, w.id);
    if impl.Some? && !c.processCompletes(impl.value, req) then
      Dispatch(Rejected(k), [ReqLog(w.id), Process(impl.value)])
    else
      Dispatch(Handled(k),
        [ReqLog(w.id)]
        + (if impl.Some? then [Process(impl.value)] else [])
        + (if logM.Some? then [ResLog(w.id, logM.value)] else []))
  }

  /** The handler on a request: query the candidates, scan them, run the one it stops at. */
  function Handle(store: seq<Expectation>, req: Request, c: Collaborators): Dispatch {
    var cands := ActiveSorted(store);
    match Select(cands, req, c)
    case None => Dispatch(Unmatched, [])
    case Some(k) => Execute(cands[k], k, req, c)
  }

  /**
   * The catch-all handler. The scan over the candidates is the loop `first`
   * runs; the trace records the log writes and the `process` call.
   */
  method HandleRequest(store: seq<Expectation>, req: Request, c: Collaborators)
    returns (outcome: Outcome, trace: seq<Event>)
    ensures Dispatch(outcome, trace) == Handle(store, req, c)
  {
    var expectations := ActiveSorted(store);
    outcome, trace := Unmatched, [];
    var i := 0;
    while i < |expectations|
      invariant 0 <= i <= |expectations|
      invariant forall j :: 0 <= j < i ==> !Eligible(expectations[j], req, c)
      invariant outcome == Unmatched && trace == []
    {
      var expectation := expectations[i];
      var allValid := ValidAll(expectation.matchers, m => MatcherHolds(c, req, m));
      if allValid && |expectation.actions| != 0 {
        var actionImpl := GetActionImpl(c, expectation.actions[0], expectation.delay);
        var logM := c.insertReqLog(req, expectation.id);
        trace := trace + [ReqLog(expectation.id)];
        if actionImpl.Some? {
          trace := trace + [Process(actionImpl.value)];
          if !c.processCompletes(actionImpl.value, req) {
            outcome := Rejected(i);
            return;
          }
        }
        if logM.Some? {
          trace := trace + [ResLog(expectation.id, logM.value)];
        }
        outcome := Handled(i);
        return;
      }
      i := i + 1;
    }
  }

  // ---------------------------------------------------------------------------
  // Properties of the dispatch
  // ---------------------------------------------------------------------------

  /** An expectation without matchers matches every request. */
  lemma EmptyMatchersPass(e: Expectation, req: Request, c: Collaborators)
    requires |e.matchers| == 0
    ensures MatchersPass(e, req, c)
  {
  }

  /** A matcher whose implementation cannot be resolved makes its expectation fail. */
  lemma UnresolvedMatcherFails(e: Expectation, req: Request, c: Collaborators, i: nat)
    requires i < |e.matchers| && c.getMatcherImpl(e.matchers[i]).None?
    ensures !MatchersPass(e, req, c)
  {
  }

  /**
   * The dispatch target is the best qualifying active expectation of the store:
   * none exactly when no active expectation qualifies, and otherwise one that is
   * active, qualifies, and ranks before every other active qualifying one.
   */
  lemma {:induction false} WinnerIsBestQualifying(store: seq<Expectation>, req: Request, c: Collaborators)
    ensures Winner(store, req, c).None? <==>
      forall e :: e in store && e.activate ==> !Eligible(e, req, c)
    ensures Winner(store, req, c).Some? ==>
      var w := Winner(store, req, c).value;
      && w in store && w.activate && Eligible(w, req, c)
      && forall e :: e in store && e.activate && Eligible(e, req, c) ==> RanksBefore(w, e)
  {
    var cands := ActiveSorted(store);
    ActiveSortedSpec(store);
    match Select(cands, req, c)
    case None =>
      forall e | e in store && e.activate ensures !Eligible(e, req, c) {
        var j :| 0 <= j < |cands| && cands[j] == e;
      }
    case Some(k) =>
      assert cands[k] in cands;
      forall e | e in store && e.activate && Eligible(e, req, c) ensures RanksBefore(cands[k], e) {
        var j :| 0 <= j < |cands| && cands[j] == e;
        if j == k {
          RanksBeforeTotalPreorder(e, e, e);
        }
      }
  }

  /**
   * An inactive expectation never influences a dispatch, wherever it sits in
   * the store.
   */
  lemma InactiveNeverConsidered(s1: seq<Expectation>, e: Expectation, s2: seq<Expectation>,
                                req: Request, c: Collaborators)
    requires !e.activate
    ensures Handle(s1 + [e] + s2, req, c) == Handle(s1 + s2, req, c)
  {
    FilterActiveIgnoresInactive(s1, e, s2);
  }

  /**
   * A candidate whose matchers pass but that has no action does not stop the
   * scan: the result is that of scanning the remaining candidates.
   */
  lemma NoActionCandidateSkipped(cands: seq<Expectation>, req: Request, c: Collaborators)
    requires |cands| > 0 && MatchersPass(cands[0], req, c) && |cands[0].actions| == 0
    ensures Select(cands, req, c) ==
      match Select(cands[1..], req, c)
      case None => None
      case Some(k) => Some(k + 1)
  {
    assert !Eligible(cands[0], req, c);
    match Select(cands[1..], req, c)
    case None =>
      forall j | 0 <= j < |cands| ensures !Eligible(cands[j], req, c) {
        if j > 0 { assert cands[j] == cands[1..][j - 1]; }
      }
    case Some(k) =>
      assert cands[k + 1] == cands[1..][k];
      forall j | 0 <= j < k + 1 ensures !Eligible(cands[j], req, c) {
        if j > 0 { assert cands[j] == cands[1..][j - 1]; }
      }
  }

  /**
   * The trace of a dispatch: nothing when unmatched; otherwise it starts with
   * the request log of the winner, holds at most one `process` call, which is on
   * the winner's first action with the winner's delay, and ends with the
   * response log exactly when the request log returned a record and `process`
   * did not reject.
   */
  lemma {:induction false} DispatchTrace(store: seq<Expectation>, req: Request, c: Collaborators)
    ensures var d := Handle(store, req, c);
      d.outcome.Unmatched? <==> Winner(store, req, c).None?
    ensures var d := Handle(store, req, c);
      d.outcome.Unmatched? ==> d.trace == []
    ensures var d := Handle(store, req, c);
      Winner(store, req, c).Some? ==>
        var w := Winner(store, req, c).value;
        && ActiveSorted(store)[d.outcome.index] == w
        && 1 <= |d.trace| <= 3 && d.trace[0] == ReqLog(w.id)
        && (forall i :: 0 < i < |d.trace| ==> !d.trace[i].ReqLog?)
        && (forall i :: 0 <= i < |d.trace| && d.trace[i].Process? ==>
              i == 1 && d.trace[i].impl == ActionImpl(w.actions[0], w.delay))
        && (forall i :: 0 <= i < |d.trace| && d.trace[i].ResLog? ==>
              i == |d.trace| - 1 && d.trace[i].expectationId == w.id
              && c.insertReqLog(req, w.id) == Some(d.trace[i].reqLog))
        && ((exists i :: 0 <= i < |d.trace| && d.trace[i].Process?) <==> c.resolvesAction(w.actions[0], w.delay))
        && ((exists i :: 0 <= i < |d.trace| && d.trace[i].ResLog?) <==>
              c.insertReqLog(req, w.id).Some? && d.outcome.Handled?)
        && (d.outcome.Rejected? <==>
              c.resolvesAction(w.actions[0], w.delay) && !c.processCompletes(ActionImpl(w.actions[0], w.delay), req))
  {
    var cands := ActiveSorted(store);
    match Select(cands, req, c)
    case None =>
    case Some(k) =>
      var w := cands[k];
      var d := Execute(w, k, req, c);
      var impl := GetActionImpl(c, w.actions[0], w.delay);
      if impl.Some? {
        assert d.trace[1].Process?;
      }
      var logM := c.insertReqLog(req, w.id);
      if logM.Some? && d.outcome.Handled? {
        assert d.trace[|d.trace| - 1].ResLog?;
      }
  }

  /**
   * In any store, an active expectation is never chosen over an active
   * qualifying one of strictly higher priority.
   */
  lemma HigherPriorityPreferred(store: seq<Expectation>, a: Expectation, b: Expectation,
                                req: Request, c: Collaborators)
    requires a in store && b in store && a.activate && b.activate && Eligible(b, req, c)
    requires a.priority < b.priority
    ensures Winner(store, req, c).Some? && Winner(store, req, c) != Some(a)
  {
    WinnerIsBestQualifying(store, req, c);
  }

  /**
   * In any store, a matching expectation with no action is never chosen, and
   * the request still goes to some expectation when another one qualifies.
   */
  lemma NoActionNeverChosen(store: seq<Expectation>, a: Expectation, b: Expectation,
                            req: Request, c: Collaborators)
    requires a in store && b in store && b.activate && Eligible(b, req, c)
    requires |a.actions| == 0
    ensures Winner(store, req, c).Some? && Winner(store, req, c) != Some(a)
  {
    WinnerIsBestQualifying(store, req, c);
  }

  /** Two active qualifying expectations: the one with the higher priority is chosen. */
  lemma HigherPriorityWins(a: Expectation, b: Expectation, req: Request, c: Collaborators)
    requires a.activate && b.activate && Eligible(a, req, c) && Eligible(b, req, c)
    requires a.priority < b.priority
    ensures Winner([a, b], req, c) == Some(b)
  {
    WinnerIsBestQualifying([a, b], req, c);
  }

  /**
   * A higher-priority candidate whose matchers pass but that has no action
   * falls through to the next qualifying candidate.
   */
  lemma EmptyActionsFallThrough(a: Expectation, b: Expectation, req: Request, c: Collaborators)
    requires a.activate && b.activate && a.priority > b.priority
    requires MatchersPass(a, req, c) && |a.actions| == 0 && Eligible(b, req, c)
    ensures Winner([a, b], req, c) == Some(b)
  {
    WinnerIsBestQualifying([a, b], req, c);
  }
}
