/** What every interleaving of the authorization server's steps keeps. */
module OAuthSafety {
  import opened Results
  import opened Sequences
  import opened Text
  import opened OAuthServer

  // ----------------------------------------------------------- the invariant

  /** Clients are numbered as they register, and none is forgotten. */
  ghost predicate ClientsOk(w: World) {
    Numbered(w.tables.clients, w.history.registered)
  }

  ghost predicate Numbered(clients: map<string, Registration>, ids: seq<string>) {
    && |clients| == |ids|
    && (forall i :: 0 <= i < |ids| ==> ids[i] == ClientId(i + 1) && ids[i] in clients)
    && forall c :: c in clients ==> c in ids
  }

  /** The code was issued to a registered client, for a redirect it registered. */
  ghost predicate ForClient(t: Tables, c: Code) {
    c.client in t.clients && c.redirect in t.clients[c.client].redirects
  }

  ghost predicate IssuedOk(w: World) {
    var h := w.history;
    && (forall i, j :: 0 <= i < j < |h.issued| ==> h.issued[i].0 != h.issued[j].0)
    && (forall e :: e in h.issued ==> ForClient(w.tables, e.1))
  }

  /** A code is in the table from when it is issued until it is consumed. */
  ghost predicate CodesOk(w: World) {
    var h, codes := w.history, w.tables.codes;
    && (forall code :: code in codes ==> (code, codes[code]) in h.issued && code !in h.consumed)
    && Distinct(h.consumed)
    && (forall code :: code in h.consumed ==> IssuedAlready(h, code))
  }

  /** A client was found where the thread says. */
  ghost predicate AuthorizingOk(w: World, thread: nat) {
    var t := ThreadAt(w, thread);
    t.Authorizing? && t.client.Some? ==>
      Or(t.query.client) in w.tables.clients && w.tables.clients[Or(t.query.client)] == t.client.value
  }

  /** A thread that popped a code is the one that consumed it, and has answered no token yet. */
  ghost predicate ExchangingOk(w: World, thread: nat) {
    var t := ThreadAt(w, thread);
    t.Exchanging? && t.issued.Some? ==>
      && (Or(t.form.code), t.issued.value) in w.history.issued
      && Or(t.form.code) in w.history.consumed
      && forall g :: g in w.history.grants ==> g.code != Or(t.form.code)
  }

  ghost predicate HoldsCode(w: World, thread: nat, code: string) {
    var t := ThreadAt(w, thread);
    t.Exchanging? && t.issued.Some? && Or(t.form.code) == code
  }

  ghost predicate ThreadsOk(w: World) {
    && (forall thread :: AuthorizingOk(w, thread) && ExchangingOk(w, thread))
    && (forall a, b, code :: HoldsCode(w, a, code) && HoldsCode(w, b, code) ==> a == b)
  }

  /** The token was exchanged for a consumed code, with its redirect and the verifier of its challenge. */
  ghost predicate GrantOk(s256: string -> string, h: History, g: Grant) {
    && g.code in h.consumed
    && exists c :: (g.code, c) in h.issued && c.redirect == g.redirect && c.challenge == s256(g.verifier)
  }

  /** No two grants are of one code or of one token. */
  ghost predicate Apart(grants: seq<Grant>) {
    forall i, j :: 0 <= i < j < |grants| ==> grants[i].code != grants[j].code && grants[i].token != grants[j].token
  }

  /** The stored tokens are those granted, and only they were let in. */
  ghost predicate TokensOk(w: World) {
    var h := w.history;
    && (forall token :: token in w.tables.tokens ==> GrantedAlready(h, token))
    && (forall g :: g in h.grants ==> g.token in w.tables.tokens)
    && (forall token :: token in h.admitted ==> GrantedAlready(h, token))
  }

  ghost predicate GrantsOk(s256: string -> string, w: World) {
    var h := w.history;
    && Apart(h.grants)
    && (forall g :: g in h.grants ==> GrantOk(s256, h, g))
    && TokensOk(w)
  }

  ghost predicate Safe(s256: string -> string, w: World) {
    ClientsOk(w) && IssuedOk(w) && CodesOk(w) && ThreadsOk(w) && GrantsOk(s256, w)
  }

  // ------------------------------------------------------------ preservation

  lemma IdsInjective(m: nat, n: nat)
    requires ClientId(m) == ClientId(n)
    ensures m == n
  {
    var p := "web-e2e-client-";
    assert ClientId(m)[|p|..] == Decimal(m) && ClientId(n)[|p|..] == Decimal(n);
    DecimalInjective(m, n);
  }

  /** The next client's id is new. */
  lemma NextIdIsNew(w: World)
    requires ClientsOk(w)
    ensures ClientId(|w.tables.clients| + 1) !in w.tables.clients
  {
    var n := |w.tables.clients|;
    forall i | 0 <= i < n
      ensures w.history.registered[i] != ClientId(n + 1)
    {
      if ClientId(i + 1) == ClientId(n + 1) { IdsInjective(i + 1, n + 1); }
    }
  }

  lemma ClientsKept(s256: string -> string, w: World, step: Step)
    requires Enabled(s256, w, step) && ClientsOk(w)
    ensures ClientsOk(After(s256, w, step))
    ensures forall c :: c in w.tables.clients ==>
              c in After(s256, w, step).tables.clients && After(s256, w, step).tables.clients[c] == w.tables.clients[c]
  {
    hide Numbered, ClientId;
    if step.Register? {
      NextIdIsNew(w);
      OneMoreClient(w.tables.clients, w.history.registered, ClientId(|w.tables.clients| + 1), step.registration);
    } else {
      assert After(s256, w, step).tables.clients == w.tables.clients;
    }
  }

  lemma OneMoreClient(clients: map<string, Registration>, ids: seq<string>, id: string, registration: Registration)
    requires Numbered(clients, ids) && id == ClientId(|clients| + 1) && id !in clients
    ensures Numbered(clients[id := registration], ids + [id])
  {
    hide ClientId;
    var after, more := clients[id := registration], ids + [id];
    assert after.Keys == clients.Keys + {id} && |after.Keys| == |clients| + 1;
    forall c | c in after
      ensures c in more
    {
      assert c == id || c in ids;
    }
    forall i | 0 <= i < |more|
      ensures more[i] == ClientId(i + 1) && more[i] in after
    {
      assert i < |ids| ==> more[i] == ids[i];
    }
  }

  lemma IssuedKept(s256: string -> string, w: World, step: Step)
    requires Enabled(s256, w, step) && ClientsOk(w) && IssuedOk(w) && ThreadsOk(w)
    ensures IssuedOk(After(s256, w, step))
  {
    ClientsKept(s256, w, step);
    var after := After(s256, w, step);
    if step.StoreCode? {
      assert AuthorizingOk(w, step.thread);
      forall i | 0 <= i < |w.history.issued|
        ensures w.history.issued[i].0 != step.code
      {
        var e := w.history.issued[i];
        assert (e.0, e.1) == e && e in w.history.issued;
      }
      forall e | e in after.history.issued
        ensures ForClient(after.tables, e.1)
      {
        if e in w.history.issued { assert ForClient(w.tables, e.1); }
      }
    } else {
      assert after.history.issued == w.history.issued;
      forall e | e in after.history.issued
        ensures ForClient(after.tables, e.1)
      {
        assert ForClient(w.tables, e.1);
      }
    }
  }

  lemma IssuedGrows(s256: string -> string, w: World, step: Step)
    requires Enabled(s256, w, step)
    ensures forall e :: e in w.history.issued ==> e in After(s256, w, step).history.issued
    ensures forall code :: IssuedAlready(w.history, code) ==> IssuedAlready(After(s256, w, step).history, code)
    ensures forall code :: code in w.history.consumed ==> code in After(s256, w, step).history.consumed
  {
    var after := After(s256, w, step);
    forall code | IssuedAlready(w.history, code)
      ensures IssuedAlready(after.history, code)
    {
      var c :| (code, c) in w.history.issued;
      assert (code, c) in after.history.issued;
    }
  }

  lemma CodesKept(s256: string -> string, w: World, step: Step)
    requires Enabled(s256, w, step) && CodesOk(w)
    ensures CodesOk(After(s256, w, step))
  {
    IssuedGrows(s256, w, step);
    var after := After(s256, w, step);
    match step
    case StoreCode(thread, code) =>
      assert code !in w.history.consumed;
      forall c | c in after.tables.codes
        ensures (c, after.tables.codes[c]) in after.history.issued && c !in after.history.consumed
      {
        if c != code { assert (c, w.tables.codes[c]) in w.history.issued; }
      }
    case PopCode(thread, form) =>
      var code := Or(form.code);
      if code in w.tables.codes {
        assert (code, w.tables.codes[code]) in w.history.issued;
        assert IssuedAlready(after.history, code);
      }
      forall c | c in after.tables.codes
        ensures (c, after.tables.codes[c]) in after.history.issued && c !in after.history.consumed
      {
        assert (c, w.tables.codes[c]) in w.history.issued;
      }
    case _ =>
      assert after.tables.codes == w.tables.codes && after.history.consumed == w.history.consumed;
      forall c | c in after.tables.codes
        ensures (c, after.tables.codes[c]) in after.history.issued && c !in after.history.consumed
      {
        assert (c, w.tables.codes[c]) in w.history.issued;
      }
  }

  /** Each thread after a step is as it was, or the one that took it. */
  lemma OneThreadMoves(s256: string -> string, w: World, step: Step, thread: nat)
    requires Enabled(s256, w, step)
    ensures ThreadAt(After(s256, w, step), thread) == ThreadAt(w, thread)
            || (step.FindClient? && step.thread == thread
                && ThreadAt(After(s256, w, step), thread) == Authorizing(step.query, ClientOf(w.tables, step.query)))
            || (step.PopCode? && step.thread == thread
                && ThreadAt(After(s256, w, step), thread) == Exchanging(step.form, Popped(w.tables, step.form)))
            || ThreadAt(After(s256, w, step), thread) == Idle
  {}

  lemma ThreadKept(s256: string -> string, w: World, step: Step, thread: nat)
    requires Enabled(s256, w, step) && ClientsOk(w) && CodesOk(w) && ThreadsOk(w) && GrantsOk(s256, w)
    ensures AuthorizingOk(After(s256, w, step), thread) && ExchangingOk(After(s256, w, step), thread)
  {
    ClientsKept(s256, w, step);
    IssuedGrows(s256, w, step);
    OneThreadMoves(s256, w, step, thread);
    assert AuthorizingOk(w, thread) && ExchangingOk(w, thread);
    var after := After(s256, w, step);
    var t := ThreadAt(after, thread);
    if t.Exchanging? && t.issued.Some? {
      forall g | g in after.history.grants
        ensures g.code != Or(t.form.code)
      {
        GrantsAndCodes(s256, w, step, thread, g);
      }
    }
  }

  /** A grant is of a code no thread still holds. */
  lemma GrantsAndCodes(s256: string -> string, w: World, step: Step, thread: nat, g: Grant)
    requires Enabled(s256, w, step) && CodesOk(w) && ThreadsOk(w) && GrantsOk(s256, w)
    requires var after := After(s256, w, step); var t := ThreadAt(after, thread);
             t.Exchanging? && t.issued.Some? && g in after.history.grants
    ensures g.code != Or(ThreadAt(After(s256, w, step), thread).form.code)
  {
    OneThreadMoves(s256, w, step, thread);
    var t := ThreadAt(After(s256, w, step), thread);
    var code := Or(t.form.code);
    if t == ThreadAt(w, thread) {
      assert ExchangingOk(w, thread) && HoldsCode(w, thread, code);
      if g !in w.history.grants {
        assert step.AddToken? && g.code == Or(ThreadAt(w, step.thread).form.code);
        assert HoldsCode(w, step.thread, g.code);
        assert step.thread != thread;
      }
    } else {
      assert g in w.history.grants && GrantOk(s256, w.history, g);
      assert code in w.tables.codes && code !in w.history.consumed;
    }
  }

  lemma HoldersKept(s256: string -> string, w: World, step: Step, a: nat, b: nat, code: string)
    requires Enabled(s256, w, step) && CodesOk(w) && ThreadsOk(w)
    requires HoldsCode(After(s256, w, step), a, code) && HoldsCode(After(s256, w, step), b, code)
    ensures a == b
  {
    OneThreadMoves(s256, w, step, a);
    OneThreadMoves(s256, w, step, b);
    assert ExchangingOk(w, a) && ExchangingOk(w, b);
    if HoldsCode(w, a, code) && HoldsCode(w, b, code) {
    } else if step.PopCode? && Or(step.form.code) == code && code in w.tables.codes {
      assert code !in w.history.consumed;
    }
  }

  lemma ThreadsKept(s256: string -> string, w: World, step: Step)
    requires Enabled(s256, w, step) && Safe(s256, w)
    ensures ThreadsOk(After(s256, w, step))
  {
    var after := After(s256, w, step);
    forall thread
      ensures AuthorizingOk(after, thread) && ExchangingOk(after, thread)
    {
      ThreadKept(s256, w, step, thread);
    }
    forall a, b, code | HoldsCode(after, a, code) && HoldsCode(after, b, code)
      ensures a == b
    {
      HoldersKept(s256, w, step, a, b, code);
    }
  }

  lemma GrantStillOk(s256: string -> string, w: World, step: Step, g: Grant)
    requires Enabled(s256, w, step) && GrantOk(s256, w.history, g)
    ensures GrantOk(s256, After(s256, w, step).history, g)
  {
    IssuedGrows(s256, w, step);
  }

  lemma GrantsKept(s256: string -> string, w: World, step: Step)
    requires Enabled(s256, w, step) && Safe(s256, w)
    ensures GrantsOk(s256, After(s256, w, step))
  {
    var after := After(s256, w, step);
    forall g | g in w.history.grants
      ensures GrantOk(s256, after.history, g)
    {
      GrantStillOk(s256, w, step, g);
    }
    TokensKept(s256, w, step);
    if step.AddToken? {
      NewGrant(s256, w, step);
    } else {
      assert after.history.grants == w.history.grants;
    }
    hide Safe, Enabled, GrantOk, After, Apart, TokensOk;
  }

  lemma NewGrant(s256: string -> string, w: World, step: Step)
    requires Enabled(s256, w, step) && step.AddToken? && ThreadsOk(w) && GrantsOk(s256, w)
    ensures var after := After(s256, w, step);
            && Apart(after.history.grants)
            && exists g :: after.history.grants == w.history.grants + [g] && GrantOk(s256, after.history, g)
  {
    var t := ThreadAt(w, step.thread);
    var g := Grant(step.token, Or(t.form.code), Or(t.form.redirect), Or(t.form.verifier));
    assert ExchangingOk(w, step.thread);
    var after := After(s256, w, step);
    assert (g.code, t.issued.value) in after.history.issued;
    assert GrantOk(s256, after.history, g);
    assert after.history.grants == w.history.grants + [g];
    forall i | 0 <= i < |w.history.grants|
      ensures w.history.grants[i].code != g.code && w.history.grants[i].token != g.token
    {
      assert w.history.grants[i] in w.history.grants;
    }
  }

  lemma TokensKept(s256: string -> string, w: World, step: Step)
    requires Enabled(s256, w, step) && TokensOk(w)
    ensures TokensOk(After(s256, w, step))
  {
    var after := After(s256, w, step);
    forall token | GrantedAlready(w.history, token)
      ensures GrantedAlready(after.history, token)
    {
      var g :| g in w.history.grants && g.token == token;
      assert g in after.history.grants;
    }
    if step.AddToken? {
      var grants := after.history.grants;
      assert grants[|grants| - 1] in grants && grants[|grants| - 1].token == step.token;
    }
  }

  /** Every step of every handler keeps the server safe, whichever thread takes it. */
  lemma StepKeepsSafe(s256: string -> string, w: World, step: Step)
    requires Enabled(s256, w, step) && Safe(s256, w)
    ensures Safe(s256, After(s256, w, step))
  {
    ClientsKept(s256, w, step);
    IssuedKept(s256, w, step);
    CodesKept(s256, w, step);
    ThreadsKept(s256, w, step);
    GrantsKept(s256, w, step);
  }

  lemma {:induction false} RunsAreSafe(s256: string -> string, steps: seq<Step>)
    requires IsRun(s256, steps)
    ensures Safe(s256, Reached(s256, steps))
    decreases |steps|
  {
    if steps != [] {
      var before := steps[..|steps| - 1];
      RunsAreSafe(s256, before);
      StepKeepsSafe(s256, Reached(s256, before), steps[|steps| - 1]);
    }
  }

  // ------------------------------------------------------------ the theorems

  /** Client ids never repeat. */
  lemma ClientIdsNeverRepeat(s256: string -> string, steps: seq<Step>)
    requires IsRun(s256, steps)
    ensures Distinct(Reached(s256, steps).history.registered)
  {
    RunsAreSafe(s256, steps);
    var ids := Reached(s256, steps).history.registered;
    forall i, j | 0 <= i < j < |ids|
      ensures ids[i] != ids[j]
    {
      if ClientId(i + 1) == ClientId(j + 1) { IdsInjective(i + 1, j + 1); }
    }
  }

  /**
    Every stored code belongs to a registered client and one of its redirects;
    no code is consumed twice; and every token, and so every request `/mcp` lets
    in, comes from a code of its own, issued to a registered client, exchanged
    for the redirect it was issued for with the verifier of its challenge.
   */
  lemma TokensComeFromCodes(s256: string -> string, steps: seq<Step>)
    requires IsRun(s256, steps)
    ensures var w := Reached(s256, steps);
            && (forall code :: code in w.tables.codes ==> ForClient(w.tables, w.tables.codes[code]))
            && Distinct(w.history.consumed)
            && (forall i, j :: 0 <= i < j < |w.history.grants| ==> w.history.grants[i].code != w.history.grants[j].code)
            && (forall g :: g in w.history.grants ==> GrantOk(s256, w.history, g))
            && (forall e :: e in w.history.issued ==> ForClient(w.tables, e.1))
            && (forall token :: token in w.history.admitted ==> GrantedAlready(w.history, token))
  {
    RunsAreSafe(s256, steps);
    var w := Reached(s256, steps);
    forall code | code in w.tables.codes
      ensures ForClient(w.tables, w.tables.codes[code])
    {
      assert (code, w.tables.codes[code]) in w.history.issued;
    }
  }

  /** A code issued without a challenge never gives a token. */
  lemma NoTokenWithoutChallenge(s256: string -> string, steps: seq<Step>, code: string, c: Code)
    requires IsRun(s256, steps) && forall v :: s256(v) != ""
    requires (code, c) in Reached(s256, steps).history.issued && c.challenge == ""
    ensures forall g :: g in Reached(s256, steps).history.grants ==> g.code != code
  {
    RunsAreSafe(s256, steps);
    var h := Reached(s256, steps).history;
    forall g | g in h.grants
      ensures g.code != code
    {
      assert GrantOk(s256, h, g);
      var other :| (g.code, other) in h.issued && other.challenge == s256(g.verifier);
      var i :| 0 <= i < |h.issued| && h.issued[i] == (g.code, other);
      var j :| 0 <= j < |h.issued| && h.issued[j] == (code, c);
      assert i != j;
    }
  }

  /**
    The flow works: from any reached state, a stored code exchanged by an idle
    thread, for its redirect and with the verifier of its challenge, gives a
    token that `/mcp` then lets in, and the code is gone.
   */
  lemma ExchangeGivesToken(s256: string -> string, steps: seq<Step>, thread: nat, code: string, verifier: string,
      token: string)
    requires IsRun(s256, steps)
    requires var w := Reached(s256, steps);
             code in w.tables.codes && w.tables.codes[code].challenge == s256(verifier)
             && ThreadAt(w, thread).Idle? && !GrantedAlready(w.history, token)
    ensures var w := Reached(s256, steps);
            var form := TokenForm(Some(code), Some(w.tables.codes[code].redirect), Some(verifier));
            var more := steps + [PopCode(thread, form), AddToken(thread, token)];
            IsRun(s256, more) && Admits(Reached(s256, more).tables, "Bearer " + token)
            && code !in Reached(s256, more).tables.codes
  {
    var w := Reached(s256, steps);
    var form := TokenForm(Some(code), Some(w.tables.codes[code].redirect), Some(verifier));
    var pop, add := PopCode(thread, form), AddToken(thread, token);
    OneMoreStep(s256, steps, pop);
    OneMoreStep(s256, steps + [pop], add);
    assert steps + [pop] + [add] == steps + [pop, add];
    assert ("Bearer " + token)[7..] == token;
  }

  lemma OneMoreStep(s256: string -> string, steps: seq<Step>, step: Step)
    requires IsRun(s256, steps) && Enabled(s256, Reached(s256, steps), step)
    ensures IsRun(s256, steps + [step]) && Reached(s256, steps + [step]) == After(s256, Reached(s256, steps), step)
  {
    assert (steps + [step])[..|steps|] == steps;
  }

  /** A browser sent with a registered client and one of its redirects gets a code for them and its challenge. */
  lemma AuthorizeGivesCode(s256: string -> string, steps: seq<Step>, thread: nat, q: AuthorizeQuery, code: string)
    requires IsRun(s256, steps)
    requires var w := Reached(s256, steps);
             && ThreadAt(w, thread).Idle? && !IssuedAlready(w.history, code)
             && q.client.Some? && q.redirect.Some? && q.client.value in w.tables.clients
             && q.redirect.value in w.tables.clients[q.client.value].redirects
    ensures var w, more := Reached(s256, steps), steps + [FindClient(thread, q), StoreCode(thread, code)];
            && IsRun(s256, more)
            && Reached(s256, more).tables.codes ==
                 w.tables.codes[code := Code(q.client.value, q.redirect.value,
                                             if q.challenge.Some? then q.challenge.value else "")]
            && ThreadAt(Reached(s256, more), thread).Idle? && Reached(s256, more).history.grants == w.history.grants
  {
    var find, store := FindClient(thread, q), StoreCode(thread, code);
    OneMoreStep(s256, steps, find);
    OneMoreStep(s256, steps + [find], store);
    assert steps + [find] + [store] == steps + [find, store];
  }

  /** Signing in works: a client that registers, is authorized and exchanges its code gets a token `/mcp` lets in. */
  lemma SignInWorks(s256: string -> string, steps: seq<Step>, thread: nat, registration: Registration, redirect: string,
      code: string, verifier: string, token: string)
    requires IsRun(s256, steps) && redirect in registration.redirects
    requires var w := Reached(s256, steps);
             ThreadAt(w, thread).Idle? && !IssuedAlready(w.history, code) && !GrantedAlready(w.history, token)
    ensures var registered := steps + [Register(registration)];
            && IsRun(s256, registered)
            && Reached(s256, registered).history.registered != []
            && var ids := Reached(s256, registered).history.registered;
               var query := AuthorizeQuery(Some(ids[|ids| - 1]), Some(redirect), Some(s256(verifier)));
               var form := TokenForm(Some(code), Some(redirect), Some(verifier));
               var all := registered + [FindClient(thread, query), StoreCode(thread, code)]
                          + [PopCode(thread, form), AddToken(thread, token)] + [Mcp("Bearer " + token)];
               IsRun(s256, all) && token in Reached(s256, all).history.admitted
  {
    RegisterGivesClient(s256, steps, registration);
    var registered := steps + [Register(registration)];
    hide Reached, IsRun, ClientId, Admits, IssuedAlready, GrantedAlready, ThreadAt;
    var ids := Reached(s256, registered).history.registered;
    var query := AuthorizeQuery(Some(ids[|ids| - 1]), Some(redirect), Some(s256(verifier)));
    AuthorizeGivesCode(s256, registered, thread, query, code);
    var stored := registered + [FindClient(thread, query), StoreCode(thread, code)];
    SameGrants(Reached(s256, steps).history, Reached(s256, stored).history, token);
    ExchangeGivesToken(s256, stored, thread, code, verifier, token);
    var form := TokenForm(Some(code), Some(redirect), Some(verifier));
    BearerIsAdmitted(s256, stored + [PopCode(thread, form), AddToken(thread, token)], token);
  }

  lemma SameGrants(a: History, b: History, token: string)
    requires a.grants == b.grants
    ensures GrantedAlready(a, token) <==> GrantedAlready(b, token)
  {
  }

  lemma RegisterGivesClient(s256: string -> string, steps: seq<Step>, registration: Registration)
    requires IsRun(s256, steps)
    ensures var w, registered := Reached(s256, steps), steps + [Register(registration)];
            && IsRun(s256, registered)
            && var after := Reached(s256, registered);
               && after.threads == w.threads && after.history.issued == w.history.issued
               && after.history.grants == w.history.grants
               && (forall thread :: ThreadAt(after, thread) == ThreadAt(w, thread))
               && (forall code :: IssuedAlready(after.history, code) <==> IssuedAlready(w.history, code))
               && after.history.registered != []
               && var id := after.history.registered[|after.history.registered| - 1];
                  id in after.tables.clients && after.tables.clients[id] == registration
  {
    OneMoreStep(s256, steps, Register(registration));
    hide Reached, IsRun, ClientId;
  }

  lemma BearerIsAdmitted(s256: string -> string, steps: seq<Step>, token: string)
    requires IsRun(s256, steps) && Admits(Reached(s256, steps).tables, "Bearer " + token)
    ensures var more := steps + [Mcp("Bearer " + token)];
            IsRun(s256, more) && token in Reached(s256, more).history.admitted
  {
    OneMoreStep(s256, steps, Mcp("Bearer " + token));
    hide Reached, IsRun;
    assert ("Bearer " + token)[7..] == token;
  }

  /** `/mcp` lets in exactly the bearers of the stored tokens. */
  lemma AdmitsBearers(t: Tables, authorization: string)
    ensures Admits(t, authorization) <==> exists token :: token in t.tokens && authorization == "Bearer " + token
  {
    if Admits(t, authorization) {
      assert authorization == "Bearer " + authorization[7..];
    }
    if token :| token in t.tokens && authorization == "Bearer " + token {
      assert authorization[7..] == token;
    }
  }
}
