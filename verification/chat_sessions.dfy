/** server/enhanced-chat-routes.ts: the `activeSessions` map behind
    `POST /api/gemini/chat` (get or create a session, append the turns of a
    successful exchange), the idle sweep the server runs every half hour,
    and the project preview page. Fresh ids, the clock and the model's
    answer are parameters. */
module ChatSessions {
  import opened Common
  import opened Records
  import opened Workspace
  import opened FileService
  import Routes

  datatype Turn = Turn(role: string, content: string)

  datatype Session = Session(projectId: string, userId: string, history: seq<Turn>, lastActivity: int)

  /** What the chat service answered: a success with its message (possibly
      empty), or a failure with its error, if any. */
  datatype ServiceReply = Answered(message: string) | ServiceFailed(error: Option<string>)

  /** The reply of the route. */
  datatype ChatOutcome =
    | MessageRequired               // status 400
    | NotConfigured                 // status 503
    | Replied(message: string, sessionId: string)
    | GenerationFailed(error: string)   // status 500

  /** One hour, in milliseconds. */
  const MaxAge: int := 60 * 60 * 1000

  /** A session is swept once it has been idle for strictly more than an
      hour. */
  predicate Idle(s: Session, now: int) {
    now - s.lastActivity > MaxAge
  }

  /** The sessions a sweep at `now` keeps. */
  function Swept(sessions: map<string, Session>, now: int): (kept: map<string, Session>)
    ensures forall id :: id in kept <==> id in sessions && !Idle(sessions[id], now)
    ensures forall id :: id in kept ==> kept[id] == sessions[id]
  {
    map id | id in sessions && !Idle(sessions[id], now) :: sessions[id]
  }

  /** The session a request starts from: the stored one, or a new one
      carrying the request's project id (else a fresh one), the user id
      (else `anonymous`), no history and the current time. */
  function SessionFor(sessions: map<string, Session>, sessionId: string, projectId: Option<string>,
                      userId: Option<string>, freshProjectId: string, now: int): (s: Session)
    ensures sessionId in sessions ==> s == sessions[sessionId]
    ensures sessionId !in sessions ==>
              s.history == [] && s.lastActivity == now &&
              s.projectId == (if Given(projectId) then projectId.value else freshProjectId) &&
              s.userId == (if Given(userId) then userId.value else "anonymous")
  {
    if sessionId in sessions then sessions[sessionId]
    else Session(if Given(projectId) then projectId.value else freshProjectId,
                 if Given(userId) then userId.value else "anonymous",
                 [], now)
  }

  /** The turns a successful exchange adds: the user's, then the
      assistant's unless its message is empty. */
  function NewTurns(message: string, answer: string): (turns: seq<Turn>)
    ensures |turns| == if answer == [] then 1 else 2
    ensures turns[0] == Turn("user", message)
    ensures answer != [] ==> turns[1] == Turn("assistant", answer)
  {
    [Turn("user", message)] + if answer == [] then [] else [Turn("assistant", answer)]
  }

  class SessionTracker {
    /** `activeSessions`, by session id. */
    var sessions: map<string, Session>

    constructor ()
      ensures sessions == map[]
    {
      sessions := map[];
    }

    /** `POST /api/gemini/chat`. Without a message nothing happens. Otherwise
        the session (given id, else `freshSessionId`) is fetched or created
        and stored before the model is asked, so it stays even when the
        service is not configured or fails; a successful answer appends its
        turns and stamps the session with `now`. */
    method Chat(message: Option<string>, sessionId: Option<string>, projectId: Option<string>,
                userId: Option<string>, freshSessionId: string, freshProjectId: string, now: int,
                ready: bool, reply: ServiceReply) returns (r: ChatOutcome)
      modifies this
      ensures r.MessageRequired? <==> !Given(message)
      ensures r.MessageRequired? ==> sessions == old(sessions)
      ensures !r.MessageRequired? ==>
                var id := if Given(sessionId) then sessionId.value else freshSessionId;
                var s := SessionFor(old(sessions), id, projectId, userId, freshProjectId, now);
                (r.NotConfigured? <==> !ready) &&
                (r.Replied? <==> ready && reply.Answered?) &&
                (r.Replied? ==> (r == Replied(reply.message, id) &&
                   sessions == old(sessions)[id := s.(history := s.history + NewTurns(message.value, reply.message),
                                                      lastActivity := now)])) &&
                (!r.Replied? ==> sessions == old(sessions)[id := s]) &&
                (r.GenerationFailed? ==>
                   r.error == if reply.error.Some? && reply.error.value != [] then reply.error.value
                              else "Chat generation failed")
    {
      if !Given(message) {
        return MessageRequired;
      }
      var id := if Given(sessionId) then sessionId.value else freshSessionId;
      var session := SessionFor(sessions, id, projectId, userId, freshProjectId, now);
      if id !in sessions {
        sessions := sessions[id := session];
      } else {
        assert sessions == sessions[id := session];
      }
      if !ready {
        return NotConfigured;
      }
      match reply {
        case Answered(answer) =>
          var history := session.history + [Turn("user", message.value)];
          if answer != [] {
            history := history + [Turn("assistant", answer)];
          }
          assert history == session.history + NewTurns(message.value, answer);
          sessions := sessions[id := session.(history := history, lastActivity := now)];
          r := Replied(answer, id);
        case ServiceFailed(error) =>
          r := GenerationFailed(if error.Some? && error.value != [] then error.value else "Chat generation failed");
      }
    }

    /** The timer's body: every session idle for more than an hour is
        deleted, every other one is kept as it is. */
    method Sweep(now: int)
      modifies this
      ensures sessions == Swept(old(sessions), now)
    {
      var pending := sessions.Keys;
      while pending != {}
        invariant pending <= old(sessions).Keys
        invariant forall id :: id in sessions <==> id in old(sessions) && (id in pending || !Idle(old(sessions)[id], now))
        invariant forall id :: id in sessions ==> sessions[id] == old(sessions)[id]
        decreases pending
      {
        var id :| id in pending;
        if Idle(sessions[id], now) {
          sessions := sessions - {id};
        }
        pending := pending - {id};
      }
    }
  }

  /** Sweeping twice at the same time removes nothing more. */
  lemma SweepIdempotent(sessions: map<string, Session>, now: int)
    ensures Swept(Swept(sessions, now), now) == Swept(sessions, now)
  {
  }

  /** A session active at `t` survives every sweep up to one hour later,
      the boundary included, and no sweep after that. */
  lemma ActiveSurvives(sessions: map<string, Session>, id: string, now: int)
    requires id in sessions
    ensures id in Swept(sessions, now) <==> now <= sessions[id].lastActivity + MaxAge
  {
  }

  /** A successful exchange leaves a session that the next sweep at the
      same time keeps, with both turns on the end of its history. */
  lemma AnsweredSessionKept(sessions: map<string, Session>, id: string, s: Session, message: string,
                            answer: string, now: int)
    requires answer != []
    ensures var after := sessions[id := s.(history := s.history + NewTurns(message, answer), lastActivity := now)];
            id in Swept(after, now) &&
            Swept(after, now)[id].history == s.history + [Turn("user", message), Turn("assistant", answer)]
  {
  }

  /** What `GET /api/projects/:projectId/preview` sends. */
  datatype ProjectPreviewReply =
    | IndexPage(content: string)
    | ManifestListing(projectId: string, files: seq<(string, string)>)

  /** The project's `index.html`, read through the file service (so cut at
      its 8000-character default), else a listing of every manifest file
      with its content. The manifest is given. */
  function ProjectPreview(service: FileService, projectId: string, manifest: seq<(string, string)>)
    : (r: ProjectPreviewReply)
    requires service.projectId == projectId
    reads service.disk
    ensures var full := ResolvePath(service.workspaceRoot, "index.html");
            r.IndexPage? <==> full.Some? && full.value in service.disk.files
    ensures r.IndexPage? ==>
              var file := service.disk.files[ResolvePath(service.workspaceRoot, "index.html").value];
              r.content == Take(file, DefaultMaxBytes)
    ensures r.ManifestListing? ==> r == ManifestListing(projectId, manifest)
  {
    match service.ReadFile("index.html", DefaultMaxBytes)
    case Success(_, data) => IndexPage(data.content)
    case Failure(_) => ManifestListing(projectId, manifest)
  }
}
