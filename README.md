# LiveMock mock dispatch, modelled in Dafny

LiveMock is a configurable HTTP mock server. A project holds *expectations*.
Each has an activation flag, a priority, a creation time, a delay, a list of
matchers and a list of actions. The mock router of a project
(`backEnd/src/server/mockServer.ts`) handles every inbound request in the same way:

1. It queries the active expectations, highest priority first and, within a
   priority, earliest created first.
2. It scans them with `arrayUtils.first`. Each one is tested by AND-ing its
   matchers with `arrayUtils.validAll`. A matcher whose implementation cannot
   be resolved fails.
3. The first expectation whose matchers all pass and which has at least one
   action is taken. The router then writes a request log, runs `actions[0]`
   bound to the expectation's `delay`, and writes a response log if the
   request log returned a record. Then the scan stops.
4. An expectation that passes but has no action does not stop the scan.

Before this, the body parser's verify hook keeps the raw body only when the
buffer is strictly smaller than 10 MiB.

Files:

- `wrappers.dfy`: `Option`.
- `array_utils.dfy`: the semantics the router assumes of `first` and
  `validAll`. Their source, `backEnd/src/util/arrayUtils`, is not part of
  this model.
- `expectations.dfy`: requests, matchers, actions and expectations as values.
  `priority` and `delay` are JavaScript numbers that the expectation editor
  lets users set to fractions, so the model uses `real` for them.
  `createTime` is a timestamp set when the expectation is created. The
  handler only uses its order (`mockServer.ts:67`), so it is a `real` too.
- `expectation_query.dfy`: the LokiJS query `find({activate: true})` followed
  by `compoundsort`. It is written as a filter and a stable insertion sort,
  with proofs that the result is sorted and holds exactly the active
  expectations.
- `mock_server.dfy`: the raw-body hook, the selection functions, the
  specification `Handle` of one dispatch, the imperative handler
  `HandleRequest` proved equal to it, and the dispatch properties.

Foreign code is passed in as the values of `MockServer.Collaborators`:

- the matcher registry (`getMatcherImpl`);
- which action and delay pairs `getActionImpl` resolves;
- whether the promise of `process` resolves;
- what `insertReqLog` returns.

The writes to the log collection and the `process` call are recorded as an
ordered trace of `ReqLog`, `Process` and `ResLog` events.

Two assumptions are made about `arrayUtils.first`, whose code is not part of
this model:

- It awaits the async callback of each candidate before it calls the next one.
- When a callback's promise rejects, the scan ends there and `first` rejects.

Three behaviours of the handler are easy to misread; the model follows the code:

- If `actions[0]` does not resolve, the candidate still wins and the scan
  stops. Nothing is processed, because the handler calls
  `actionImpl?.process`. The request log is still written, and so is the
  response log if `insertReqLog` returned a record (`mockServer.ts:86-93`).
- If `process` rejects, `insertResLog` is never reached, so no response log
  is written (`mockServer.ts:91-92`). Under the assumption about `first`
  above, the handler's promise then rejects too. This is outcome `Rejected`.
- A matching candidate with an empty action list is skipped, and the scan
  goes on to the next one (`mockServer.ts:85,96`).

## Model

| member | source | states |
|---|---|---|
| ArrayUtils.First | backEnd/src/server/mockServer.ts:70-98 | `first` returns the index of the first element the callback accepts, and every earlier element is rejected; it returns None exactly when no element is accepted |
| ArrayUtils.ValidAll | backEnd/src/server/mockServer.ts:73-83 | `validAll` is true exactly when the callback accepts every element, so it is true on an empty list |
| ExpectationQuery.FilterActiveKeepsActive | backEnd/src/server/mockServer.ts:62-64 | `find({activate: true})` keeps each active expectation as often as it is stored and drops every inactive one |
| ExpectationQuery.FilterActiveIgnoresInactive | backEnd/src/server/mockServer.ts:64 | an inactive expectation at any position of the store leaves the filtered list unchanged |
| ExpectationQuery.RanksBeforeTotalPreorder | backEnd/src/server/mockServer.ts:65-68 | the order "priority descending, then createTime ascending" is reflexive, total and transitive |
| ExpectationQuery.InsertSorted | backEnd/src/server/mockServer.ts:65-68 | inserting into a rank-sorted list keeps it sorted and adds exactly that element |
| ExpectationQuery.SortByRankSorts | backEnd/src/server/mockServer.ts:65-68 | the compound sort returns a rank-sorted permutation of its input |
| ExpectationQuery.ActiveSortedSpec | backEnd/src/server/mockServer.ts:62-69 | the candidate list is rank-sorted and holds exactly the active stored expectations, with multiplicity; an expectation is a candidate iff it is stored and active |
| MockServer.VerifyHook | backEnd/src/server/mockServer.ts:54-60 | a buffer strictly below MaxRawBodySize is decoded into `rawBody`; a buffer of at least that size leaves the request as it was; no other field changes |
| MockServer.RawBodyKeptIffBelowLimit | backEnd/src/server/mockServer.ts:56-57 | on a request without a raw body, one is attached iff the buffer is shorter than 10·1024·1024 bytes (MaxRawBodySize, line 22) |
| MockServer.MatchersPass | backEnd/src/server/mockServer.ts:73-83 | an expectation's matchers pass iff every one resolves to an implementation and that implementation matches the request |
| MockServer.EmptyMatchersPass | backEnd/src/server/mockServer.ts:73-75 | an expectation with no matchers matches every request |
| MockServer.UnresolvedMatcherFails | backEnd/src/server/mockServer.ts:76-81 | one unresolvable matcher makes the expectation fail |
| MockServer.Select | backEnd/src/server/mockServer.ts:70-97 | the scan stops at a candidate whose matchers pass and which has an action, and every earlier candidate lacks one or the other; it stops nowhere exactly when no candidate has both |
| MockServer.NoActionCandidateSkipped | backEnd/src/server/mockServer.ts:84-96 | a leading candidate whose matchers pass but whose action list is empty is skipped: the scan's result is that of the remaining candidates |
| MockServer.WinnerIsBestQualifying | backEnd/src/server/mockServer.ts:62-98 | nothing is chosen iff no active stored expectation qualifies; otherwise the chosen one is stored, active and qualifying, and ranks before (higher priority, or equal priority and no later createTime) every active qualifying expectation |
| MockServer.InactiveNeverConsidered | backEnd/src/server/mockServer.ts:62-64 | an inactive expectation at any position of the store changes neither the outcome nor the trace of a dispatch |
| MockServer.DispatchTrace | backEnd/src/server/mockServer.ts:84-94 | unmatched means no events. Otherwise the trace of the winner starts with its request log and holds one request log. The trace holds at most one `process` call: right after the request log, on `actions[0]` with the winner's delay, and present iff that action resolves with that delay. A response log can only be last. It is present iff the request log returned a record and `process` did not reject, and it refers to that record. The dispatch is rejected iff the action resolves and its `process` rejects |
| MockServer.HigherPriorityPreferred | backEnd/src/server/mockServer.ts:65-68 | in any store, if an active qualifying expectation exists, some expectation is chosen, and it is never an active one of strictly lower priority |
| MockServer.NoActionNeverChosen | backEnd/src/server/mockServer.ts:84-96 | in any store, an expectation with no action is never chosen, and the request still goes to some expectation when an active one qualifies |
| MockServer.HigherPriorityWins | backEnd/src/server/mockServer.ts:65-68 | of two active qualifying expectations, the one with the higher priority is chosen |
| MockServer.EmptyActionsFallThrough | backEnd/src/server/mockServer.ts:84-96 | a higher-priority expectation that matches but has no action yields to a lower-priority qualifying one |
| MockServer.HandleRequest | backEnd/src/server/mockServer.ts:61-99 | the handler's scan loop, with its early stop, produces exactly the outcome and the event trace of `Handle` on the queried candidates |

## Left out

- Express routing, `getExpectationCollection` and `getLogCollection`, and the LokiJS library. Only the effect of the query (filter and sort) is modelled.
- The implementations of matchers and actions, `process`, and log storage (`insertReqLog`/`insertResLog`). They are foreign code, given as values of `Collaborators` and recorded as trace events. The result of `insertReqLog` is treated as a function of the request and the expectation id; the state of the log collection is not modelled.
- `async`/`await`, concurrency between requests, and the real elapsed-time meaning of `delay`. `delay` is only the value bound to the action.
- The HTTP response when nothing matches. The handler writes nothing, and the model records no events.
- Failures other than a rejected `process`. Every other collaborator is assumed total, so a throw from a matcher, `getMatcherImpl`, `getActionImpl`, `insertReqLog` or `insertResLog` is not modelled.
- Short-circuit evaluation of matchers inside `validAll`. Matchers are pure functions here, so evaluation order is not observable.
- Body parsing other than raw-body capture. The verify hook sets `req.rawBody` in place; the model returns the updated request value instead.
- The commented-out streaming raw-body middleware (`mockServer.ts:31-52`).
- The order among expectations equal on both priority and createTime. The model keeps store order (a stable sort), but no property states it.
