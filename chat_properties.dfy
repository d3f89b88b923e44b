/**
 What one request does to the session store and what it answers, stated
 about `Chat.Step`, and what a sequence of requests does, stated about `Run`.
 */
module ChatProperties {
  import opened Chat

  /** A request that gets past the method gate and the validation: a POST whose body has a truthy message. */
  predicate Accepted(req: Request)
  {
    req.verb == "POST" && req.body.Some? && Truthy(req.body.value.message)
  }

  /** The upstream call produced a first completion. */
  predicate Succeeds(u: Upstream)
  {
    u.Completed? && u.choices != []
  }

  /** The session an accepted request works on, before its messages are appended. */
  function Addressed(store: Store, inv: Invocation): Session
    requires Accepted(inv.req)
  {
    Resolve(store, inv.req.body.value.sessionId, inv.freshId, inv.clock.created)
  }

  /** The user message an accepted request appends. */
  function Asked(inv: Invocation): Message
    requires Accepted(inv.req)
  {
    Message(User, inv.req.body.value.message.value, inv.clock.asked)
  }

  /** Projection commutes with concatenation. */
  lemma ProjectAppend(a: seq<Message>, b: seq<Message>)
    ensures Project(a + b) == Project(a) + Project(b)
  {
  }

  /** OPTIONS answers 200 with no body and any other non-POST verb 405; neither touches the store or calls upstream. */
  lemma MethodGate(store: Store, inv: Invocation)
    requires WellKeyed(store)
    ensures inv.req.verb == "OPTIONS" ==>
      Step(store, inv) == Outcome(store, Response(200, NoContent), None)
    ensures inv.req.verb != "OPTIONS" && inv.req.verb != "POST" ==>
      Step(store, inv) == Outcome(store, Response(405, Error(MethodNotAllowed)), None)
  {
  }

  /** A POST whose message is missing or empty answers 400, touches nothing and calls nothing. */
  lemma MessageIsRequired(store: Store, inv: Invocation)
    requires WellKeyed(store)
    requires inv.req.verb == "POST" && inv.req.body.Some? && !Truthy(inv.req.body.value.message)
    ensures Step(store, inv) == Outcome(store, Response(400, Error(MessageRequired)), None)
  {
  }

  /** Upstream is called exactly for accepted requests, and a request that makes no call leaves the store as it was. */
  lemma CalledExactlyWhenAccepted(store: Store, inv: Invocation)
    requires WellKeyed(store)
    ensures Step(store, inv).sent.Some? <==> Accepted(inv.req)
    ensures !Accepted(inv.req) ==> Step(store, inv).store == store
  {
  }

  /** An unknown or absent session id creates an empty session named by the id if it is truthy, else by the fresh id. */
  lemma UnknownIdCreatesSession(store: Store, inv: Invocation)
    requires WellKeyed(store) && Accepted(inv.req)
    requires Lookup(store, inv.req.body.value.sessionId).None?
    ensures var s := Addressed(store, inv);
      && s.messages == []
      && s.createdAt == inv.clock.created
      && (Truthy(inv.req.body.value.sessionId) ==> s.id == inv.req.body.value.sessionId.value)
      && (!Truthy(inv.req.body.value.sessionId) ==> s.id == inv.freshId)
    ensures Addressed(store, inv).id in Step(store, inv).store
    ensures Truthy(inv.req.body.value.sessionId) ==> Addressed(store, inv).id !in store
  {
  }

  /** A known session id reuses that session: same id, same creation time, prior messages kept as a prefix. */
  lemma KnownIdReusesSession(store: Store, inv: Invocation)
    requires WellKeyed(store) && Accepted(inv.req)
    requires inv.req.body.value.sessionId.Some? && inv.req.body.value.sessionId.value in store
    ensures var id := inv.req.body.value.sessionId.value;
      && Addressed(store, inv) == store[id]
      && id in Step(store, inv).store
      && Step(store, inv).store[id].id == id
      && Step(store, inv).store[id].createdAt == store[id].createdAt
      && store[id].messages < Step(store, inv).store[id].messages
  {
  }

  /** What goes upstream is the whole history, the new user message last, each entry reduced to role and content. */
  lemma SentIsWholeHistory(store: Store, inv: Invocation)
    requires WellKeyed(store) && Accepted(inv.req)
    ensures var prior := Addressed(store, inv).messages;
      && Step(store, inv).sent == Some(Project(prior) + [Turn(User, inv.req.body.value.message.value)])
      && |Step(store, inv).sent.value| == |prior| + 1
  {
  }

  /** A successful exchange appends exactly the user message and then the reply, and returns the reply, the session id and the citations (or none). */
  lemma SuccessAppendsTwo(store: Store, inv: Invocation)
    requires WellKeyed(store) && Accepted(inv.req) && Succeeds(inv.upstream)
    ensures var s := Addressed(store, inv);
      var answer := inv.upstream.choices[0];
      && Step(store, inv).response
         == Response(200, Answer(answer, s.id, GetOr(inv.upstream.citations, [])))
      && s.id in Step(store, inv).store
      && Step(store, inv).store[s.id]
         == s.(messages := s.messages + [Asked(inv), Message(Assistant, answer, inv.clock.answered)])
      && |Step(store, inv).store[s.id].messages| == |s.messages| + 2
  {
  }

  /** A failed upstream call maps 401 and 429 to their own messages and everything else to 500, and keeps the user message without a reply. */
  lemma FailureKeepsUserMessage(store: Store, inv: Invocation)
    requires WellKeyed(store) && Accepted(inv.req) && !Succeeds(inv.upstream)
    ensures inv.upstream == HttpError(401) ==>
      Step(store, inv).response == Response(401, Error(InvalidApiKey))
    ensures inv.upstream == HttpError(429) ==>
      Step(store, inv).response == Response(429, Error(RateLimited))
    ensures inv.upstream != HttpError(401) && inv.upstream != HttpError(429) ==>
      Step(store, inv).response == Response(500, Error(RequestFailed))
    ensures var s := Addressed(store, inv);
      && s.id in Step(store, inv).store
      && Step(store, inv).store[s.id] == s.(messages := s.messages + [Asked(inv)])
  {
    var s := Addressed(store, inv);
    assert Step(store, inv).store == store[s.id := s.(messages := s.messages + [Asked(inv)])];
  }

  /** Only the addressed session's entry is inserted or updated; every other entry is left alone. */
  lemma OnlyAddressedEntryChanges(store: Store, inv: Invocation)
    requires WellKeyed(store) && Accepted(inv.req)
    ensures var id := Addressed(store, inv).id;
      && Step(store, inv).store.Keys == store.Keys + {id}
      && forall k :: k in store && k != id ==> Step(store, inv).store[k] == store[k]
  {
  }

  /** The id a success returns names the stored session, and sending it back continues that very session. */
  lemma ReturnedIdContinuesSession(store: Store, inv: Invocation, next: Invocation)
    requires WellKeyed(store) && Accepted(inv.req) && Succeeds(inv.upstream)
    requires Accepted(next.req)
    requires next.req.body.value.sessionId == Some(Step(store, inv).response.reply.sessionId)
    ensures var after := Step(store, inv).store;
      var id := Step(store, inv).response.reply.sessionId;
      && (inv.freshId != "" && "" !in store ==> id != "")
      && id in after
      && Addressed(after, next) == after[id]
  {
  }

  /**
   The example of a first question: no session id, the service answers "4"
   with one citation; the reply carries the generated id and a new session
   holds exactly the two messages.
   */
  lemma FirstQuestion(store: Store, freshId: string, clock: Clock)
    requires WellKeyed(store)
    ensures var inv := Invocation(Request("POST", Some(Body(Some("What is 2+2?"), None))), freshId, clock,
                                  Completed(["4"], Some(["src1"])));
      && Step(store, inv).response == Response(200, Answer("4", freshId, ["src1"]))
      && freshId in Step(store, inv).store
      && Step(store, inv).store[freshId]
         == Session(freshId, [Message(User, "What is 2+2?", clock.asked), Message(Assistant, "4", clock.answered)],
                    clock.created)
  {
  }

  /** An empty message under session id "abc" answers 400 and does not create "abc". */
  lemma EmptyMessageCreatesNothing(store: Store, freshId: string, clock: Clock, upstream: Upstream)
    requires WellKeyed(store)
    ensures var inv := Invocation(Request("POST", Some(Body(Some(""), Some("abc")))), freshId, clock, upstream);
      && Step(store, inv).response == Response(400, Error(MessageRequired))
      && ("abc" in Step(store, inv).store <==> "abc" in store)
  {
  }

  /** Two successful exchanges on one session id leave user, assistant, user, assistant after the prior history. */
  lemma TwoExchanges(store: Store, id: string, c1: Clock, c2: Clock, f1: string, f2: string, r1: string, r2: string)
    requires WellKeyed(store) && id != ""
    ensures var first := Invocation(Request("POST", Some(Body(Some("hello"), Some(id)))), f1, c1, Completed([r1], None));
      var second := Invocation(Request("POST", Some(Body(Some("how are you"), Some(id)))), f2, c2, Completed([r2], None));
      var after := Step(Step(store, first).store, second).store;
      var prior := if id in store then store[id].messages else [];
      && id in after
      && after[id].messages
         == prior + [Message(User, "hello", c1.asked), Message(Assistant, r1, c1.answered),
                     Message(User, "how are you", c2.asked), Message(Assistant, r2, c2.answered)]
  {
    var first := Invocation(Request("POST", Some(Body(Some("hello"), Some(id)))), f1, c1, Completed([r1], None));
    var second := Invocation(Request("POST", Some(Body(Some("how are you"), Some(id)))), f2, c2, Completed([r2], None));
    SuccessAppendsTwo(store, first);
    KnownIdReusesSession(Step(store, first).store, second);
    SuccessAppendsTwo(Step(store, first).store, second);
  }

  /** The store after a sequence of requests, each handled to completion before the next. */
  function Run(store: Store, invs: seq<Invocation>): (final: Store)
    requires WellKeyed(store)
    ensures WellKeyed(final)
    decreases |invs|
  {
    if invs == [] then store else Run(Step(store, invs[0]).store, invs[1..])
  }

  /** No request's generated id is already a key when that request runs. */
  predicate FreshIdsUnused(store: Store, invs: seq<Invocation>)
    requires WellKeyed(store)
    decreases |invs|
  {
    invs == [] || (invs[0].freshId !in store && FreshIdsUnused(Step(store, invs[0]).store, invs[1..]))
  }

  /** One request never loses a session and only appends to its history, unless the generated id overwrites one. */
  lemma StepAppendOnly(store: Store, inv: Invocation)
    requires WellKeyed(store) && inv.freshId !in store
    ensures forall k :: k in store ==>
      && k in Step(store, inv).store
      && Step(store, inv).store[k].createdAt == store[k].createdAt
      && store[k].messages <= Step(store, inv).store[k].messages
  {
    if Accepted(inv.req) {
      OnlyAddressedEntryChanges(store, inv);
      var s := Addressed(store, inv);
      if s.id in store {
        assert Lookup(store, inv.req.body.value.sessionId) == Some(s);
      }
    }
  }

  /** Over any run whose generated ids are unused, every session survives with its creation time and its history as a prefix. */
  lemma {:induction false} RunAppendOnly(store: Store, invs: seq<Invocation>, k: string)
    requires WellKeyed(store) && FreshIdsUnused(store, invs) && k in store
    ensures k in Run(store, invs)
    ensures Run(store, invs)[k].createdAt == store[k].createdAt
    ensures store[k].messages <= Run(store, invs)[k].messages
    decreases |invs|
  {
    if invs != [] {
      var next := Step(store, invs[0]).store;
      StepAppendOnly(store, invs[0]);
      RunAppendOnly(next, invs[1..], k);
    }
  }

  /** No request removes a key, whatever ids are generated. */
  lemma {:induction false} RunKeepsKeys(store: Store, invs: seq<Invocation>)
    requires WellKeyed(store)
    ensures store.Keys <= Run(store, invs).Keys
    decreases |invs|
  {
    if invs != [] {
      var next := Step(store, invs[0]).store;
      assert store.Keys <= next.Keys;
      RunKeepsKeys(next, invs[1..]);
    }
  }
}
