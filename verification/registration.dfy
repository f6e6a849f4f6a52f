/** The routes server/index.ts ends up registering, in registration order,
    and Express's dispatch over them: the first route whose method and path
    pattern match a request handles it, and every later one is never
    reached. Handlers answer and do not pass the request on, and the
    `app.use` middlewares in between (logging, body parsing, sessions, the
    guard on every `/api` path) call `next()` for the requests modelled
    here, so only the routes decide. Two exceptions are outside the model:
    the CORS middleware (server/index.ts:51-61) answers every `OPTIONS`
    request itself with 200, and `express.json` hands a body that does not
    parse to the error handler instead of any route.

    A request path is given as its segments (`/api/chat` is
    `["api", "chat"]`); a route is named by the file and line that
    registers it. */
module Registration {
  import opened Common

  datatype Verb = Get | Post

  /** One segment of a route pattern: a literal word, a `:name` parameter,
      or the final `*`. */
  datatype Segment = Lit(word: string) | Param | Rest

  datatype Route = Route(verb: Verb, pattern: seq<Segment>, handler: string)

  /** `:name` takes one non-empty segment; `*` takes everything that is
      left after its slash, so at least one (possibly empty) segment. */
  predicate SegmentsMatch(pattern: seq<Segment>, path: seq<string>)
    decreases |pattern|
  {
    if pattern == [] then path == []
    else match pattern[0]
      case Rest => path != []
      case Param => path != [] && path[0] != [] && SegmentsMatch(pattern[1..], path[1..])
      case Lit(w) => path != [] && path[0] == w && SegmentsMatch(pattern[1..], path[1..])
  }

  /** A route takes the requests of its method whose path fits its
      pattern. */
  predicate Matches(r: Route, verb: Verb, path: seq<string>) {
    r.verb == verb && SegmentsMatch(r.pattern, path)
  }

  /** The route that handles the request: the first one that matches;
      `None` when the request falls through to the client-side fallback. */
  function First(routes: seq<Route>, verb: Verb, path: seq<string>): (r: Option<Route>)
    ensures r.Some? ==> r.value in routes && Matches(r.value, verb, path)
    ensures r.None? <==> forall i :: 0 <= i < |routes| ==> !Matches(routes[i], verb, path)
  {
    if routes == [] then None
    else if Matches(routes[0], verb, path) then Some(routes[0])
    else
      var rest := First(routes[1..], verb, path);
      assert rest.None? ==> forall i :: 0 <= i < |routes| ==> !Matches(routes[i], verb, path) by {
        if rest.None? {
          forall i | 1 <= i < |routes| ensures !Matches(routes[i], verb, path) {
            assert routes[i] == routes[1..][i - 1];
          }
        }
      }
      rest
  }

  /** The route chosen is exactly the first one that matches. */
  lemma {:induction false} FirstIsEarliest(routes: seq<Route>, verb: Verb, path: seq<string>, i: nat)
    requires i < |routes| && Matches(routes[i], verb, path)
    requires forall j :: 0 <= j < i ==> !Matches(routes[j], verb, path)
    ensures First(routes, verb, path) == Some(routes[i])
    decreases i
  {
    if i > 0 {
      assert !Matches(routes[0], verb, path);
      forall j | 0 <= j < i - 1 ensures !Matches(routes[1..][j], verb, path) {
        assert routes[1..][j] == routes[j + 1];
      }
      assert routes[1..][i - 1] == routes[i];
      FirstIsEarliest(routes[1..], verb, path, i - 1);
    }
  }

  /** Registering a group after another: the later group is only asked
      when no route of the earlier one matches. */
  lemma {:induction false} FirstAppend(a: seq<Route>, b: seq<Route>, verb: Verb, path: seq<string>)
    ensures First(a + b, verb, path) == if First(a, verb, path).Some? then First(a, verb, path) else First(b, verb, path)
  {
    if a == [] {
      assert a + b == b;
    } else {
      assert (a + b)[0] == a[0];
      assert (a + b)[1..] == a[1..] + b;
      FirstAppend(a[1..], b, verb, path);
      if !Matches(a[0], verb, path) {
        assert First(a + b, verb, path) == First(a[1..] + b, verb, path);
        assert First(a, verb, path) == First(a[1..], verb, path);
      }
    }
  }

  /** A route registered after another with the same method and pattern
      is never reached, whatever the path. */
  lemma Shadows(a: seq<Route>, b: seq<Route>, early: Route, late: Route, path: seq<string>)
    requires early in a && late !in a
    requires early.verb == late.verb && early.pattern == late.pattern
    ensures First(a + b, late.verb, path) != Some(late)
  {
    FirstAppend(a, b, late.verb, path);
    if Matches(late, late.verb, path) {
      assert Matches(early, late.verb, path);
    }
  }

  /** The handlers server/index.ts registers itself. */
  const CreateFile := Route(Post, [Lit("api"), Lit("files"), Lit("create")], "server/index.ts:97")
  const PreviewDiskFile := Route(Get, [Lit("preview"), Param], "server/index.ts:149")
  const ListFiles := Route(Get, [Lit("api"), Lit("files"), Lit("list")], "server/index.ts:168")
  const IndexPreviewFiles := Route(Get, [Lit("api"), Lit("preview-files"), Param], "server/index.ts:226")
  const IndexRoutes := [CreateFile, PreviewDiskFile, ListFiles, IndexPreviewFiles]

  /** `viraajAuth.initialize`: the users.txt routes. */
  const AuthMe := Route(Get, [Lit("api"), Lit("auth"), Lit("me")], "server/viraaj-auth.ts:137")
  const ViraajRoutes := [
    Route(Post, [Lit("api"), Lit("viraaj"), Lit("register")], "server/viraaj-auth.ts:42"),
    Route(Post, [Lit("api"), Lit("viraaj"), Lit("login")], "server/viraaj-auth.ts:85"),
    Route(Get, [Lit("api"), Lit("viraaj"), Lit("check-device")], "server/viraaj-auth.ts:118"),
    AuthMe
  ]

  /** `registerChatRoutes` of server/chat-routes.ts. */
  const LocalChat := Route(Post, [Lit("api"), Lit("chat")], "server/chat-routes.ts:346")
  const LocalChatRoutes := [LocalChat]

  /** `registerEnhancedChatRoutes`. */
  const GeminiChat := Route(Post, [Lit("api"), Lit("gemini"), Lit("chat")], "server/enhanced-chat-routes.ts:18")
  const EnhancedRoutes := [
    GeminiChat,
    Route(Post, [Lit("api"), Lit("gemini"), Lit("chat-stream")], "server/enhanced-chat-routes.ts:98"),
    Route(Get, [Lit("api"), Lit("projects"), Param, Lit("files")], "server/enhanced-chat-routes.ts:205"),
    Route(Get, [Lit("api"), Lit("projects"), Param, Lit("files"), Rest], "server/enhanced-chat-routes.ts:224"),
    Route(Get, [Lit("api"), Lit("projects"), Param, Lit("preview")], "server/enhanced-chat-routes.ts:251"),
    Route(Get, [Lit("api"), Lit("gemini"), Lit("status")], "server/enhanced-chat-routes.ts:318"),
    Route(Post, [Lit("api"), Lit("enhanced-chat")], "server/enhanced-chat-routes.ts:326")
  ]

  /** `setupSimpleAuth`, the first thing `registerRoutes` does. */
  const SessionMe := Route(Get, [Lit("api"), Lit("auth"), Lit("me")], "server/simple-auth.ts:131")
  const SimpleAuthRoutes := [
    Route(Post, [Lit("api"), Lit("auth"), Lit("register")], "server/simple-auth.ts:32"),
    Route(Post, [Lit("api"), Lit("auth"), Lit("login")], "server/simple-auth.ts:78"),
    Route(Post, [Lit("api"), Lit("auth"), Lit("logout")], "server/simple-auth.ts:121"),
    SessionMe,
    Route(Get, [Lit("api"), Lit("auth"), Lit("projects")], "server/simple-auth.ts:155"),
    Route(Post, [Lit("api"), Lit("auth"), Lit("projects")], "server/simple-auth.ts:166")
  ]

  /** The rest of `registerRoutes`. */
  const RoutesPreviewFiles := Route(Get, [Lit("api"), Lit("preview-files"), Param], "server/routes.ts:52")
  const RoutesChat := Route(Post, [Lit("api"), Lit("chat")], "server/routes.ts:139")
  const RoutesGeminiChat := Route(Post, [Lit("api"), Lit("gemini"), Lit("chat")], "server/routes.ts:223")
  const RoutesTsRoutes := [
    Route(Post, [Lit("api"), Lit("preview")], "server/routes.ts:17"),
    Route(Get, [Lit("api"), Lit("preview"), Lit("debug")], "server/routes.ts:43"),
    RoutesPreviewFiles,
    Route(Get, [Lit("preview"), Param, Param], "server/routes.ts:92"),
    Route(Post, [Lit("api"), Lit("preview"), Lit("update")], "server/routes.ts:116"),
    Route(Post, [Lit("api"), Lit("preview"), Lit("stop")], "server/routes.ts:127"),
    RoutesChat,
    RoutesGeminiChat,
    Route(Get, [Lit("api"), Lit("gemini"), Lit("code-status"), Param], "server/routes.ts:316"),
    Route(Get, [Lit("api"), Lit("project-files"), Param], "server/routes.ts:335")
  ]

  /** Everything `registerRoutes` adds. */
  const RegisterRoutes := SimpleAuthRoutes + RoutesTsRoutes

  /** The routes in the order server/index.ts registers them: its own
      handlers, the users.txt routes, the local chat, the Gemini chat
      routes, then `registerRoutes`. */
  const ServerRoutes := IndexRoutes + (ViraajRoutes + (LocalChatRoutes + (EnhancedRoutes + RegisterRoutes)))

  /** The handler that answers a request, if any route does. */
  function Handler(verb: Verb, path: seq<string>): (h: Option<string>)
    ensures h.Some? <==> exists i :: 0 <= i < |ServerRoutes| && Matches(ServerRoutes[i], verb, path)
    ensures h.Some? ==> exists i :: 0 <= i < |ServerRoutes| && Matches(ServerRoutes[i], verb, path) &&
                                    h.value == ServerRoutes[i].handler
  {
    match First(ServerRoutes, verb, path)
    case None => None
    case Some(r) => Some(r.handler)
  }

  /** A route outside a group registered first is chosen only where the
      rest of the table would choose it. */
  lemma NotFromPrefix(pre: seq<Route>, rest: seq<Route>, late: Route, verb: Verb, path: seq<string>)
    requires late !in pre
    ensures First(pre + rest, verb, path) == Some(late) ==> First(rest, verb, path) == Some(late)
  {
    FirstAppend(pre, rest, verb, path);
  }

  /** The preview-files handler of server/index.ts takes every request
      routes.ts:52 would match. */
  lemma PreviewFilesShadowed(path: seq<string>)
    ensures First(ServerRoutes, Get, path) != Some(RoutesPreviewFiles)
  {
    assert IndexRoutes[3] == IndexPreviewFiles;
    Shadows(IndexRoutes, ViraajRoutes + (LocalChatRoutes + (EnhancedRoutes + RegisterRoutes)),
            IndexPreviewFiles, RoutesPreviewFiles, path);
  }

  /** The users.txt `/api/auth/me`, which always answers 401, takes every
      request the session one of server/simple-auth.ts would match. */
  lemma AuthMeShadowed(path: seq<string>)
    ensures First(ServerRoutes, Get, path) != Some(SessionMe)
  {
    assert SessionMe !in IndexRoutes;
    NotFromPrefix(IndexRoutes, ViraajRoutes + (LocalChatRoutes + (EnhancedRoutes + RegisterRoutes)), SessionMe, Get, path);
    assert ViraajRoutes[3] == AuthMe;
    Shadows(ViraajRoutes, LocalChatRoutes + (EnhancedRoutes + RegisterRoutes), AuthMe, SessionMe, path);
  }

  /** The local chat of server/chat-routes.ts takes every request
      routes.ts:139 would match. */
  lemma ChatShadowed(path: seq<string>)
    ensures First(ServerRoutes, Post, path) != Some(RoutesChat)
  {
    var rest3 := EnhancedRoutes + RegisterRoutes;
    var rest2 := LocalChatRoutes + rest3;
    NotInEarlyGroups(RoutesChat);
    NotFromPrefix(IndexRoutes, ViraajRoutes + rest2, RoutesChat, Post, path);
    NotFromPrefix(ViraajRoutes, rest2, RoutesChat, Post, path);
    assert LocalChatRoutes[0] == LocalChat;
    Shadows(LocalChatRoutes, rest3, LocalChat, RoutesChat, path);
  }

  /** The Gemini chat of server/enhanced-chat-routes.ts takes every request
      routes.ts:223 would match. */
  lemma GeminiChatShadowed(path: seq<string>)
    ensures First(ServerRoutes, Post, path) != Some(RoutesGeminiChat)
  {
    var rest3 := EnhancedRoutes + RegisterRoutes;
    var rest2 := LocalChatRoutes + rest3;
    NotInEarlyGroups(RoutesGeminiChat);
    NotFromPrefix(IndexRoutes, ViraajRoutes + rest2, RoutesGeminiChat, Post, path);
    NotFromPrefix(ViraajRoutes, rest2, RoutesGeminiChat, Post, path);
    NotFromPrefix(LocalChatRoutes, rest3, RoutesGeminiChat, Post, path);
    assert EnhancedRoutes[0] == GeminiChat;
    Shadows(EnhancedRoutes, RegisterRoutes, GeminiChat, RoutesGeminiChat, path);
  }

  /** The two chat handlers of server/routes.ts are registered by none of
      the groups before `registerRoutes`. */
  lemma NotInEarlyGroups(r: Route)
    requires r == RoutesChat || r == RoutesGeminiChat
    ensures r !in IndexRoutes && r !in ViraajRoutes && r !in LocalChatRoutes
  {
  }

  /** A group that takes nothing leaves the request to the groups after
      it. */
  lemma PassesOver(pre: seq<Route>, rest: seq<Route>, verb: Verb, path: seq<string>)
    requires First(pre, verb, path).None?
    ensures First(pre + rest, verb, path) == First(rest, verb, path)
  {
    FirstAppend(pre, rest, verb, path);
  }

  /** The first group to take the request answers it. */
  lemma TakenBy(pre: seq<Route>, rest: seq<Route>, r: Route, verb: Verb, path: seq<string>)
    requires First(pre, verb, path) == Some(r)
    ensures First(pre + rest, verb, path) == Some(r)
  {
    FirstAppend(pre, rest, verb, path);
  }

  /** `POST /api/chat` is answered by the local chat of
      server/chat-routes.ts. */
  lemma ChatHandler()
    ensures Handler(Post, ["api", "chat"]) == Some("server/chat-routes.ts:346")
  {
    var path := ["api", "chat"];
    var rest3 := EnhancedRoutes + RegisterRoutes;
    EarlyGroupsPassChat();
    PassesOver(IndexRoutes, ViraajRoutes + (LocalChatRoutes + rest3), Post, path);
    PassesOver(ViraajRoutes, LocalChatRoutes + rest3, Post, path);
    FirstIsEarliest(LocalChatRoutes, Post, path, 0);
    TakenBy(LocalChatRoutes, rest3, LocalChat, Post, path);
  }

  lemma EarlyGroupsPassChat()
    ensures First(IndexRoutes, Post, ["api", "chat"]).None?
    ensures First(ViraajRoutes, Post, ["api", "chat"]).None?
  {
  }

  /** `GET /api/preview-files/{id}` is answered by server/index.ts. */
  lemma PreviewFilesHandler(id: string)
    requires id != []
    ensures Handler(Get, ["api", "preview-files", id]) == Some("server/index.ts:226")
  {
    var path := ["api", "preview-files", id];
    assert !Matches(IndexRoutes[0], Get, path) && !Matches(IndexRoutes[1], Get, path);
    assert !Matches(IndexRoutes[2], Get, path) && Matches(IndexRoutes[3], Get, path);
    FirstIsEarliest(IndexRoutes, Get, path, 3);
    TakenBy(IndexRoutes, ViraajRoutes + (LocalChatRoutes + (EnhancedRoutes + RegisterRoutes)), IndexPreviewFiles, Get, path);
  }

  /** A one-segment path under `/preview/` goes to the disk-file route of
      server/index.ts, never to a preview store. */
  lemma PreviewPathHandler(name: string)
    requires name != []
    ensures Handler(Get, ["preview", name]) == Some("server/index.ts:149")
  {
    var path := ["preview", name];
    assert !Matches(IndexRoutes[0], Get, path) && Matches(IndexRoutes[1], Get, path);
    FirstIsEarliest(IndexRoutes, Get, path, 1);
    TakenBy(IndexRoutes, ViraajRoutes + (LocalChatRoutes + (EnhancedRoutes + RegisterRoutes)), PreviewDiskFile, Get, path);
  }
}
