/**
  The mock authorization server of the sign-in scenarios (mock-oauth.py): the
  tables its handlers share, changed under a lock, one step at a time, by any
  number of threads. The flow is the authorization code grant (sections 4.1.2 and
  4.1.3 of RFC 6749) with S256 PKCE (section 4.6 of RFC 7636) and dynamic client
  registration (section 3.2.1 of RFC 7591).
 */
module OAuthServer {
  import opened Results
  import opened Text

  /** The redirects a client registered. */
  datatype Registration = Registration(redirects: seq<string>)

  datatype Code = Code(client: string, redirect: string, challenge: string)

  /** `CLIENTS`, `CODES` and `TOKENS`. */
  datatype Tables = Tables(clients: map<string, Registration>, codes: map<string, Code>, tokens: set<string>)

  datatype AuthorizeQuery = AuthorizeQuery(client: Option<string>, redirect: Option<string>, challenge: Option<string>)

  datatype TokenForm = TokenForm(code: Option<string>, redirect: Option<string>, verifier: Option<string>)

  function Or(v: Option<string>): string { match v case Some(s) => s case None => "" }

  // ------------------------------------------------------ the steps on tables

  function ClientId(n: nat): string { "web-e2e-client-" + Decimal(n) }

  function Registering(t: Tables, registration: Registration): Tables {
    t.(clients := t.clients[ClientId(|t.clients| + 1) := registration])
  }

  /** The client `/authorize` names. */
  function ClientOf(t: Tables, q: AuthorizeQuery): Option<Registration> {
    if Or(q.client) in t.clients then Some(t.clients[Or(q.client)]) else None
  }

  /** Whether `/authorize` sends the browser to the redirect, given the client it found. */
  predicate Grants(q: AuthorizeQuery, client: Option<Registration>) {
    client.Some? && Or(q.redirect) in client.value.redirects
  }

  function Storing(t: Tables, q: AuthorizeQuery, code: string): Tables {
    t.(codes := t.codes[code := Code(Or(q.client), Or(q.redirect), Or(q.challenge))])
  }

  function Popped(t: Tables, form: TokenForm): Option<Code> {
    if Or(form.code) in t.codes then Some(t.codes[Or(form.code)]) else None
  }

  function Popping(t: Tables, form: TokenForm): Tables {
    t.(codes := t.codes - {Or(form.code)})
  }

  /** Whether `/token` answers with a token, given what it popped. */
  predicate Redeems(s256: string -> string, form: TokenForm, issued: Option<Code>) {
    issued.Some? && Some(issued.value.redirect) == form.redirect && issued.value.challenge == s256(Or(form.verifier))
  }

  function Adding(t: Tables, token: string): Tables { t.(tokens := t.tokens + {token}) }

  /** Whether `/mcp` lets a request with this `authorization` header in. */
  predicate Admits(t: Tables, authorization: string) {
    "Bearer " <= authorization && authorization[7..] in t.tokens
  }

  // ------------------------------------------------------------------- runs

  /** Where a handler's thread is between two steps. */
  datatype Thread =
    | Idle
    | Authorizing(query: AuthorizeQuery, client: Option<Registration>)
    | Exchanging(form: TokenForm, issued: Option<Code>)

  /** A token answered: the code it was exchanged for, and what it was exchanged with. */
  datatype Grant = Grant(token: string, code: string, redirect: string, verifier: string)

  /** What has happened: registrations, codes issued and consumed, tokens answered, requests let in. */
  datatype History = History(
    registered: seq<string>, issued: seq<(string, Code)>, consumed: seq<string>,
    grants: seq<Grant>, admitted: seq<string>)

  datatype World = World(tables: Tables, threads: map<nat, Thread>, history: History)

  /** One handler step; what is between two uses of the lock belongs to the later one. */
  datatype Step =
    | Register(registration: Registration)
    | FindClient(thread: nat, query: AuthorizeQuery)
    | StoreCode(thread: nat, code: string)
    | RefuseAuthorize(thread: nat)
    | PopCode(thread: nat, form: TokenForm)
    | AddToken(thread: nat, token: string)
    | RefuseToken(thread: nat)
    | Mcp(authorization: string)

  const START: World := World(Tables(map[], map[], {}), map[], History([], [], [], [], []))

  function ThreadAt(w: World, thread: nat): Thread {
    if thread in w.threads then w.threads[thread] else Idle
  }

  ghost predicate IssuedAlready(h: History, code: string) {
    exists c :: (code, c) in h.issued
  }

  ghost predicate GrantedAlready(h: History, token: string) {
    exists g :: g in h.grants && g.token == token
  }

  /** When a step can be taken; random codes and tokens are fresh. */
  ghost predicate Enabled(s256: string -> string, w: World, step: Step) {
    match step
    case Register(_) => true
    case FindClient(thread, _) => ThreadAt(w, thread).Idle?
    case StoreCode(thread, code) =>
      var t := ThreadAt(w, thread);
      t.Authorizing? && Grants(t.query, t.client) && !IssuedAlready(w.history, code)
    case RefuseAuthorize(thread) =>
      var t := ThreadAt(w, thread);
      t.Authorizing? && !Grants(t.query, t.client)
    case PopCode(thread, _) => ThreadAt(w, thread).Idle?
    case AddToken(thread, token) =>
      var t := ThreadAt(w, thread);
      t.Exchanging? && Redeems(s256, t.form, t.issued) && !GrantedAlready(w.history, token)
    case RefuseToken(thread) =>
      var t := ThreadAt(w, thread);
      t.Exchanging? && !Redeems(s256, t.form, t.issued)
    case Mcp(_) => true
  }

  ghost function After(s256: string -> string, w: World, step: Step): World
    requires Enabled(s256, w, step)
  {
    var t, h := w.tables, w.history;
    match step
    case Register(registration) =>
      w.(tables := Registering(t, registration),
         history := h.(registered := h.registered + [ClientId(|t.clients| + 1)]))
    case FindClient(thread, query) =>
      w.(threads := w.threads[thread := Authorizing(query, ClientOf(t, query))])
    case StoreCode(thread, code) =>
      var query := ThreadAt(w, thread).query;
      World(Storing(t, query, code), w.threads[thread := Idle],
            h.(issued := h.issued + [(code, Code(Or(query.client), Or(query.redirect), Or(query.challenge)))]))
    case RefuseAuthorize(thread) => w.(threads := w.threads[thread := Idle])
    case PopCode(thread, form) =>
      var issued := Popped(t, form);
      World(Popping(t, form), w.threads[thread := Exchanging(form, issued)],
            if issued.Some? then h.(consumed := h.consumed + [Or(form.code)]) else h)
    case AddToken(thread, token) =>
      var form := ThreadAt(w, thread).form;
      World(Adding(t, token), w.threads[thread := Idle],
            h.(grants := h.grants + [Grant(token, Or(form.code), Or(form.redirect), Or(form.verifier))]))
    case RefuseToken(thread) => w.(threads := w.threads[thread := Idle])
    case Mcp(authorization) =>
      if Admits(t, authorization) then w.(history := h.(admitted := h.admitted + [authorization[7..]])) else w
  }

  /** `steps` can be taken one after the other from the start, in this order. */
  ghost predicate IsRun(s256: string -> string, steps: seq<Step>)
    decreases |steps|, 0
  {
    steps != [] ==>
      var before := steps[..|steps| - 1];
      IsRun(s256, before) && Enabled(s256, Reached(s256, before), steps[|steps| - 1])
  }

  ghost function Reached(s256: string -> string, steps: seq<Step>): World
    requires IsRun(s256, steps)
    decreases |steps|, 1
  {
    if steps == [] then START
    else After(s256, Reached(s256, steps[..|steps| - 1]), steps[|steps| - 1])
  }
}
