/**
  The handlers' parts that hold the lock, as they change the shared tables in place
  (mock-oauth.py). Each is one step of the threads' runs, and keeps them safe.
 */
module OAuthHandlers {
  import opened Results
  import opened OAuthServer
  import opened OAuthSafety

  lemma TokenIsNew(s256: string -> string, w: World, thread: nat, token: string)
    requires Safe(s256, w) && Enabled(s256, w, Step.AddToken(thread, token))
    ensures token !in w.tables.tokens
  {
    assert TokensOk(w);
  }

  class Server {
    var clients: map<string, Registration>
    var codes: map<string, Code>
    var tokens: set<string>
    ghost const s256: string -> string
    ghost var world: World

    function Contents(): Tables
      reads this
    {
      Tables(clients, codes, tokens)
    }

    /** The tables are those of the world the steps so far have reached, and it is safe. */
    ghost predicate Valid()
      reads this
    {
      world.tables == Contents() && Safe(s256, world)
    }

    constructor (ghost s256: string -> string)
      ensures Valid() && world == START && this.s256 == s256
    {
      clients, codes, tokens := map[], map[], {};
      this.s256, world := s256, START;
    }

    /** The answered id is new, and the registration is found under it from now on. */
    method Register(registration: Registration) returns (id: string)
      requires Valid()
      modifies this
      ensures Valid() && world == After(s256, old(world), Step.Register(registration))
      ensures id !in old(clients) && id in clients && clients[id] == registration
      ensures world.history.registered == old(world.history.registered) + [id]
    {
      NextIdIsNew(world);
      StepKeepsSafe(s256, world, Step.Register(registration));
      id := ClientId(|clients| + 1);
      clients := clients[id := registration];
      world := After(s256, world, Step.Register(registration));
    }

    /** Finds a client exactly when one was ever registered under the id. */
    method FindClient(ghost thread: nat, q: AuthorizeQuery) returns (client: Option<Registration>)
      requires Valid() && Enabled(s256, world, Step.FindClient(thread, q))
      modifies this`world
      ensures Valid() && world == After(s256, old(world), Step.FindClient(thread, q))
      ensures ThreadAt(world, thread) == Authorizing(q, client)
      ensures client.Some? <==> Or(q.client) in world.history.registered
    {
      StepKeepsSafe(s256, world, Step.FindClient(thread, q));
      client := if Or(q.client) in clients then Some(clients[Or(q.client)]) else None;
      assert client.Some? <==> Or(q.client) in world.history.registered by {
        assert ClientsOk(world);
      }
      world := After(s256, world, Step.FindClient(thread, q));
    }

    /** The code is stored for a registered client and one of its redirects. */
    method StoreCode(ghost thread: nat, q: AuthorizeQuery, code: string)
      requires Valid() && Enabled(s256, world, Step.StoreCode(thread, code)) && ThreadAt(world, thread).query == q
      modifies this
      ensures Valid() && world == After(s256, old(world), Step.StoreCode(thread, code))
      ensures code in codes && ForClient(Contents(), codes[code])
    {
      assert AuthorizingOk(world, thread);
      StepKeepsSafe(s256, world, Step.StoreCode(thread, code));
      codes := codes[code := Code(Or(q.client), Or(q.redirect), Or(q.challenge))];
      world := After(s256, world, Step.StoreCode(thread, code));
    }

    /** Answers what a code was issued for, if it was and was never consumed before; then it is. */
    method PopCode(ghost thread: nat, form: TokenForm) returns (issued: Option<Code>)
      requires Valid() && Enabled(s256, world, Step.PopCode(thread, form))
      modifies this
      ensures Valid() && world == After(s256, old(world), Step.PopCode(thread, form))
      ensures ThreadAt(world, thread) == Exchanging(form, issued) && Or(form.code) !in codes
      ensures issued.Some? ==>
                && (Or(form.code), issued.value) in world.history.issued
                && Or(form.code) !in old(world.history.consumed) && Or(form.code) in world.history.consumed
    {
      StepKeepsSafe(s256, world, Step.PopCode(thread, form));
      var code := Or(form.code);
      issued := if code in codes then Some(codes[code]) else None;
      codes := codes - {code};
      world := After(s256, world, Step.PopCode(thread, form));
    }

    /** The token is let in from now on. */
    method AddToken(ghost thread: nat, token: string)
      requires Valid() && Enabled(s256, world, Step.AddToken(thread, token))
      modifies this
      ensures Valid() && world == After(s256, old(world), Step.AddToken(thread, token))
      ensures token !in old(tokens) && Admits(Contents(), "Bearer " + token)
    {
      hide Safe, GrantedAlready, Redeems;
      StepKeepsSafe(s256, world, Step.AddToken(thread, token));
      TokenIsNew(s256, world, thread, token);
      assert ("Bearer " + token)[7..] == token;
      tokens := tokens + {token};
      world := After(s256, world, Step.AddToken(thread, token));
    }

    /** Lets a request in exactly when its token was answered to an exchange before. */
    method LetsIn(authorization: string) returns (valid: bool)
      requires Valid()
      modifies this`world
      ensures Valid() && world == After(s256, old(world), Mcp(authorization))
      ensures valid <==> "Bearer " <= authorization && GrantedAlready(world.history, authorization[7..])
    {
      StepKeepsSafe(s256, world, Mcp(authorization));
      valid := "Bearer " <= authorization && authorization[7..] in tokens;
      world := After(s256, world, Mcp(authorization));
    }
  }
}
