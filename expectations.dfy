/** The values the dispatch handler reads: inbound requests and stored expectations. */
module Expectations {
  import opened Wrappers

  /**
   * An inbound HTTP request as matchers and actions see it (`verb` is the HTTP method). `rawBody` is set by
   * the body parser's verify hook only when the body is small enough.
   */
  datatype Request = Request(
    verb: string,
    path: string,
    headers: map<string, string>,
    query: map<string, string>,
    body: string,
    rawBody: Option<string>)

  /** A stored matcher: a variant tag plus its variant-specific configuration. */
  datatype Matcher = Matcher(id: string, kind: string, config: string)

  /** A stored action: a variant tag plus its variant-specific configuration. */
  datatype Action = Action(id: string, kind: string, config: string)

  /**
   * One mock rule of a project. `priority` is preferred high, `createTime` early;
   * `delay` is handed to the action; only `actions[0]` is ever run.
   * `priority` and `delay` are JavaScript numbers that the editor lets users
   * set to fractions, so they are reals here. `createTime` is the timestamp
   * set at creation; only its order matters, and a real represents that.
   */
  datatype Expectation = Expectation(
    id: string,
    activate: bool,
    priority: real,
    createTime: real,
    delay: real,
    matchers: seq<Matcher>,
    actions: seq<Action>)
}
