/**
 The in-memory session relay of the chat endpoint (api/chat.js).

 A process-wide store maps session ids to sessions. Each request passes a
 method gate and a validation step, gets or creates its session, appends the
 user's message, sends the projected history upstream and, on success,
 appends the assistant's reply. The upstream answer, the generated id and the
 clock readings are supplied as inputs.
 */
module Chat {

  datatype Option<+T> = None | Some(value: T)

  function GetOr<T>(o: Option<T>, default: T): T
  {
    match o
    case Some(v) => v
    case None => default
  }

  datatype Role = User | Assistant

  /** One stored turn of a conversation, with the time it was recorded. */
  datatype Message = Message(role: Role, content: string, timestamp: nat)

  /** What one turn looks like upstream: the timestamp is not sent. */
  datatype Turn = Turn(role: Role, content: string)

  datatype Session = Session(id: string, messages: seq<Message>, createdAt: nat)

  type Store = map<string, Session>

  /** The request body; an absent field (or a JSON null) is None. */
  datatype Body = Body(message: Option<string>, sessionId: Option<string>)

  /** An incoming request; `body` is None when the framework supplied no body. */
  datatype Request = Request(verb: string, body: Option<Body>)

  /** The three readings of the clock a request may take, in order. */
  datatype Clock = Clock(created: nat, asked: nat, answered: nat)

  /**
   What the completion service did with the request: answered (the message
   contents of its candidate completions, and its citations if any), failed
   with an HTTP status, or failed without any HTTP response.
   */
  datatype Upstream =
    | Completed(choices: seq<string>, citations: Option<seq<string>>)
    | HttpError(status: int)
    | NoResponse

  datatype Reply =
    | NoContent
    | Error(error: string)
    | Answer(response: string, sessionId: string, citations: seq<string>)

  datatype Response = Response(status: nat, reply: Reply)

  /** Everything one request needs besides the store. */
  datatype Invocation = Invocation(req: Request, freshId: string, clock: Clock, upstream: Upstream)

  /** The effect of one request: the new store, the response, and the history sent upstream if a call was made. */
  datatype Outcome = Outcome(store: Store, response: Response, sent: Option<seq<Turn>>)

  const MethodNotAllowed: string := "Method not allowed"
  const MessageRequired: string := "Message is required"
  const InvalidApiKey: string := "Invalid API key. Please check your Perplexity API configuration."
  const RateLimited: string := "Rate limit exceeded. Please try again later."
  const RequestFailed: string := "Failed to process your request. Please try again."

  /** JavaScript truthiness of an optional string: present and non-empty. */
  predicate Truthy(s: Option<string>)
  {
    s.Some? && s.value != ""
  }

  /** Every session is stored under its own id. */
  predicate WellKeyed(store: Store)
  {
    forall k :: k in store ==> store[k].id == k
  }

  /** `chatSessions.get(sessionId)`: an absent id is never a key. */
  function Lookup(store: Store, sessionId: Option<string>): Option<Session>
  {
    if sessionId.Some? && sessionId.value in store then Some(store[sessionId.value]) else None
  }

  /** `sessionId || uuidv4()` */
  function NewSessionId(sessionId: Option<string>, freshId: string): string
  {
    if Truthy(sessionId) then sessionId.value else freshId
  }

  /** The session a request works on: the stored one, or a new empty one. */
  function Resolve(store: Store, sessionId: Option<string>, freshId: string, created: nat): Session
  {
    match Lookup(store, sessionId)
    case Some(s) => s
    case None => Session(NewSessionId(sessionId, freshId), [], created)
  }

  /** The history as sent upstream: each message reduced to its role and content, in order. */
  function Project(history: seq<Message>): (turns: seq<Turn>)
    ensures |turns| == |history|
    ensures forall i :: 0 <= i < |history| ==> turns[i] == Turn(history[i].role, history[i].content)
  {
    if history == [] then []
    else
      var last := history[|history| - 1];
      Project(history[..|history| - 1]) + [Turn(last.role, last.content)]
  }

  /** The catch block: the upstream HTTP status, if the error carried a response, decides the answer. */
  function Caught(status: Option<int>): Response
  {
    if status == Some(401) then Response(401, Error(InvalidApiKey))
    else if status == Some(429) then Response(429, Error(RateLimited))
    else Response(500, Error(RequestFailed))
  }

  function Say(role: Role, content: string, at: nat, s: Session): Session
  {
    s.(messages := s.messages + [Message(role, content, at)])
  }

  /** One request, handled as one atomic step. */
  function Step(store: Store, inv: Invocation): (o: Outcome)
    requires WellKeyed(store)
    ensures WellKeyed(o.store)
  {
    var req := inv.req;
    if req.verb == "OPTIONS" then Outcome(store, Response(200, NoContent), None)
    else if req.verb != "POST" then Outcome(store, Response(405, Error(MethodNotAllowed)), None)
    // destructuring a missing body throws inside the try block
    else if req.body.None? then Outcome(store, Caught(None), None)
    else if !Truthy(req.body.value.message) then Outcome(store, Response(400, Error(MessageRequired)), None)
    else
      var body := req.body.value;
      var session := Resolve(store, body.sessionId, inv.freshId, inv.clock.created);
      var asked := Say(User, body.message.value, inv.clock.asked, session);
      var pending := store[session.id := asked];
      var sent := Some(Project(asked.messages));
      match inv.upstream
      case Completed(choices, citations) =>
        // `choices[0]` of an empty list throws a TypeError, which has no response
        if choices == [] then Outcome(pending, Caught(None), sent)
        else
          var answered := Say(Assistant, choices[0], inv.clock.answered, asked);
          Outcome(pending[session.id := answered],
                  Response(200, Answer(choices[0], session.id, GetOr(citations, []))), sent)
      case HttpError(status) => Outcome(pending, Caught(Some(status)), sent)
      case NoResponse => Outcome(pending, Caught(None), sent)
  }

  /** The module-level `chatSessions` map and the request handler that mutates it. */
  class ChatSessions {
    var sessions: Store

    ghost predicate Valid()
      reads this
    {
      WellKeyed(sessions)
    }

    constructor ()
      ensures Valid() && sessions == map[]
    {
      sessions := map[];
    }

    /** The handler; CORS headers and logging are not modelled. */
    method Handle(req: Request, freshId: string, clock: Clock, upstream: Upstream)
      returns (response: Response, sent: Option<seq<Turn>>)
      requires Valid()
      modifies this
      ensures Valid()
      ensures Outcome(sessions, response, sent) == Step(old(sessions), Invocation(req, freshId, clock, upstream))
    {
      sent := None;
      if req.verb == "OPTIONS" {
        response := Response(200, NoContent);
        return;
      }
      if req.verb != "POST" {
        response := Response(405, Error(MethodNotAllowed));
        return;
      }
      if req.body.None? {
        response := Caught(None);
        return;
      }
      var message, sessionId := req.body.value.message, req.body.value.sessionId;
      if !Truthy(message) {
        response := Response(400, Error(MessageRequired));
        return;
      }

      ghost var before := sessions;
      var session: Session;
      var found := Lookup(sessions, sessionId);
      if found.Some? {
        session := found.value;
      } else {
        session := Session(NewSessionId(sessionId, freshId), [], clock.created);
        sessions := sessions[session.id := session];
      }
      assert session == Resolve(before, sessionId, freshId, clock.created);
      ghost var id := session.id;

      // the push changes the stored session object
      session := Say(User, message.value, clock.asked, session);
      sessions := sessions[session.id := session];
      assert sessions == before[id := session];

      sent := Some(Project(session.messages));

      if upstream.HttpError? {
        response := Caught(Some(upstream.status));
        return;
      }
      if upstream.NoResponse? || upstream.choices == [] {
        response := Caught(None);
        return;
      }
      var aiResponse := upstream.choices[0];

      ghost var pending := sessions;
      session := Say(Assistant, aiResponse, clock.answered, session);
      sessions := sessions[session.id := session];
      // the explicit re-`set` stores the same session under the same key again
      sessions := sessions[session.id := session];
      assert sessions == pending[id := session];

      response := Response(200, Answer(aiResponse, session.id, GetOr(upstream.citations, [])));
    }
  }
}
