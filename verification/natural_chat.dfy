/** server/gemini-natural-chat.ts: the two-phase chat service. A
    conversational answer comes first; when the message asks for something
    to be built, code generation starts in the background, and its JSON
    answer is cut out of a fenced block, counted and stored as a preview.

    The API key, the models' answers, `JSON.parse` and `nanoid` are
    parameters; whether the key configured the client is the only state. */
module NaturalChat {
  import opened Common
  import opened Records
  import opened Keywords
  import opened PreviewStore

  /** The words that make a message a request to build something. */
  const BuildKeywords := ["create", "build", "make", "develop", "generate", "app", "website", "api", "dashboard"]

  /** `buildKeywords.some(k => message.toLowerCase().includes(k))` */
  predicate WantsToBuild(message: string) {
    AnyKeyword(ToLower(message), BuildKeywords)
  }

  /** The project type: `webapp`, overwritten in turn by `api`,
      `dashboard`, `mobile` and `game` when the message mentions them, so
      the last test that holds wins. */
  function ProjectTypeOf(message: string): string {
    var lm := ToLower(message);
    var projectType := "webapp";
    var projectType := if Contains(lm, "api") then "api" else projectType;
    var projectType := if Contains(lm, "dashboard") then "dashboard" else projectType;
    var projectType := if Contains(lm, "mobile") then "mobile" else projectType;
    var projectType := if Contains(lm, "game") then "game" else projectType;
    projectType
  }

  /** The overwriting chain read as a first-match table: the tests in
      reverse order. */
  const ProjectTypeRules := [Rule(["game"], "game"), Rule(["mobile"], "mobile"),
                             Rule(["dashboard"], "dashboard"), Rule(["api"], "api")]

  /** The project type is the label of the last keyword of the chain that
      the message mentions, that is, the first rule of the reversed table
      that matches; `webapp` when none does. */
  lemma ProjectTypeByRules(message: string)
    ensures ProjectTypeOf(message) == FirstMatch(ProjectTypeRules, ToLower(message), "webapp")
  {
    var lm := ToLower(message);
    var rules := ProjectTypeRules;
    AnyOfOne(lm, "game");
    AnyOfOne(lm, "mobile");
    AnyOfOne(lm, "dashboard");
    AnyOfOne(lm, "api");
    if Contains(lm, "game") {
      FirstMatchIs(rules, lm, "webapp", 0);
    } else if Contains(lm, "mobile") {
      FirstMatchIs(rules, lm, "webapp", 1);
    } else if Contains(lm, "dashboard") {
      FirstMatchIs(rules, lm, "webapp", 2);
    } else if Contains(lm, "api") {
      FirstMatchIs(rules, lm, "webapp", 3);
    } else {
      FirstMatchFallback(rules, lm, "webapp");
    }
  }

  /** A message that asks to build something is not empty, so the
      truthiness test on `suggestedProject` agrees with `wantsToBuild`. */
  lemma BuildRequestNotEmpty(message: string)
    requires WantsToBuild(message)
    ensures message != []
  {
    var i :| 0 <= i < |BuildKeywords| && Contains(ToLower(message), BuildKeywords[i]);
    var p :| 0 <= p <= |ToLower(message)| - |BuildKeywords[i]| && OccursAt(ToLower(message), BuildKeywords[i], p);
  }

  /** `api` and `dashboard` are build keywords too, so a message typed as
      either is always a build request. */
  lemma TypedAsBuild(message: string)
    requires ProjectTypeOf(message) == "api" || ProjectTypeOf(message) == "dashboard"
    ensures WantsToBuild(message)
  {
    var lm := ToLower(message);
    if Contains(lm, "api") {
      assert Contains(lm, BuildKeywords[7]);
    } else {
      assert Contains(lm, BuildKeywords[8]);
    }
  }

  /** The tests are substring tests: "happy" contains "app", so it reads
      as a request to build something. */
  lemma HappyWantsToBuild()
    ensures WantsToBuild("happy")
  {
    var lm := ToLower("happy");
    assert lm == "happy";
    assert lm[1..4] == "app";
    ContainsAt(lm, BuildKeywords[5], 1);
  }

  const JsonOpen := "```json\n"
  const JsonClose := "\n```"

  /** `/```json\n([\s\S]*?)\n```/`: the text between the first opening
      fence and the first closing fence after it. A later opening fence
      could only have fewer closings after it, so the first one decides. */
  function JsonBlock(response: string): (body: Option<string>)
    ensures body.None? <==> !exists i, k :: OccursAt(response, JsonOpen, i) && i + |JsonOpen| <= k
                                            && OccursAt(response, JsonClose, k)
    ensures body.Some? ==>
              exists i :: && OccursAt(response, JsonOpen + body.value + JsonClose, i)
                          && (forall p :: 0 <= p < i ==> !OccursAt(response, JsonOpen, p))
                          && (forall k :: i + |JsonOpen| <= k < i + |JsonOpen| + |body.value| ==>
                                            !OccursAt(response, JsonClose, k))
  {
    match FindFrom(response, JsonOpen)
    case None => None
    case Some(i) =>
      var rest := response[i + |JsonOpen|..];
      match FindFrom(rest, JsonClose)
      case None =>
        NoCloseAfter(response, i);
        None
      case Some(j) =>
        OpenBodyClose(response, i, j);
        FirstCloseAfter(response, i, j);
        assert |rest[..j]| == j;
        Some(rest[..j])
  }

  /** A match inside the text after position `k` is a match of the whole
      text, `k` further on. */
  lemma OccursShift(s: string, t: string, k: nat, p: int)
    requires k <= |s|
    ensures OccursAt(s[k..], t, p) <==> 0 <= p && OccursAt(s, t, k + p)
  {
    if 0 <= p && k + p + |t| <= |s| {
      assert s[k..][p..p + |t|] == s[k + p..k + p + |t|];
    }
  }

  /** No closing fence after the first opening one: no opening fence at
      all is followed by a closing one. */
  lemma NoCloseAfter(response: string, i: nat)
    requires OccursAt(response, JsonOpen, i)
    requires forall p :: 0 <= p < i ==> !OccursAt(response, JsonOpen, p)
    requires FindFrom(response[i + |JsonOpen|..], JsonClose).None?
    ensures !exists i', k :: OccursAt(response, JsonOpen, i') && i' + |JsonOpen| <= k
                             && OccursAt(response, JsonClose, k)
  {
    forall i', k | OccursAt(response, JsonOpen, i') && i' + |JsonOpen| <= k
      ensures !OccursAt(response, JsonClose, k)
    {
      assert i <= i';
      OccursShift(response, JsonClose, i + |JsonOpen|, k - i - |JsonOpen|);
    }
  }

  /** The first closing fence after the opening one at `i`, found `j`
      characters on, is a closing fence of the whole reply, and none
      starts before it. */
  lemma FirstCloseAfter(response: string, i: nat, j: nat)
    requires OccursAt(response, JsonOpen, i)
    requires FindFrom(response[i + |JsonOpen|..], JsonClose) == Some(j)
    ensures OccursAt(response, JsonClose, i + |JsonOpen| + j)
    ensures forall k :: i + |JsonOpen| <= k < i + |JsonOpen| + j ==> !OccursAt(response, JsonClose, k)
  {
    OccursShift(response, JsonClose, i + |JsonOpen|, j);
    forall k | i + |JsonOpen| <= k < i + |JsonOpen| + j
      ensures !OccursAt(response, JsonClose, k)
    {
      OccursShift(response, JsonClose, i + |JsonOpen|, k - i - |JsonOpen|);
    }
  }

  /** A body placed in the fence the prompt asks for is found again,
      whatever text surrounds it, as long as no backquote comes before the
      closing fence. */
  lemma JsonBlockOf(pre: string, body: string, post: string)
    requires '`' !in pre && '`' !in body
    ensures JsonBlock(pre + JsonOpen + body + JsonClose + post) == Some(body)
  {
    var s := pre + JsonOpen + body + JsonClose + post;
    var rest := body + JsonClose + post;
    assert s == pre + JsonOpen + rest;
    OpenFoundFirst(pre, rest);
    assert s[|pre| + |JsonOpen|..] == rest;
    CloseFoundFirst(body, post);
    assert rest[..|body|] == body;
  }

  /** The opening fence matched at `i` and the first closing fence `j`
      characters after it enclose the body between them. */
  lemma OpenBodyClose(response: string, i: nat, j: nat)
    requires OccursAt(response, JsonOpen, i)
    requires OccursAt(response[i + |JsonOpen|..], JsonClose, j)
    ensures var rest := response[i + |JsonOpen|..];
      OccursAt(response, JsonOpen + rest[..j] + JsonClose, i)
  {
    var rest := response[i + |JsonOpen|..];
    assert response[i..i + |JsonOpen| + j + |JsonClose|]
        == response[i..i + |JsonOpen|] + rest[..j] + rest[j..j + |JsonClose|];
  }

  /** With no backquote before it, the opening fence is found where it
      was put. */
  lemma OpenFoundFirst(pre: string, rest: string)
    requires '`' !in pre
    ensures FindFrom(pre + JsonOpen + rest, JsonOpen) == Some(|pre|)
  {
    var s := pre + JsonOpen + rest;
    assert s[|pre|..|pre| + |JsonOpen|] == JsonOpen;
    forall p | 0 <= p < |pre|
      ensures !OccursAt(s, JsonOpen, p)
    {
      assert s[p] == pre[p];
      assert s[p..p + |JsonOpen|][0] == s[p];
    }
    FindFromFirst(s, JsonOpen, |pre|);
  }

  /** With no backquote in the body, the closing fence is found right
      after it. */
  lemma CloseFoundFirst(body: string, post: string)
    requires '`' !in body
    ensures FindFrom(body + JsonClose + post, JsonClose) == Some(|body|)
  {
    var rest := body + JsonClose + post;
    assert rest[|body|..|body| + |JsonClose|] == JsonClose;
    forall p | 0 <= p < |body|
      ensures !OccursAt(rest, JsonClose, p)
    {
      if p + 1 < |body| {
        assert rest[p + 1] == body[p + 1];
      } else {
        assert rest[p + 1] == JsonClose[0];
      }
      assert rest[p..p + |JsonClose|][1] == rest[p + 1];
    }
    FindFromFirst(rest, JsonClose, |body|);
  }

  /** What `JSON.parse(jsonMatch[1])` gave: `None` when it throws, else
      the `files` field if it has one. */
  type Parser = string -> Option<Option<Files>>

  /** `parsed.files || {}` */
  function FilesOf(parsed: Option<Files>): (files: Files)
    ensures parsed.Some? ==> files == parsed.value
    ensures parsed.None? ==> files == []
  {
    match parsed
    case Some(files) => files
    case None => []
  }

  /** At least three files make a project. */
  const MinFiles := 3

  const PreviewFilesBase := "/api/preview-files/"

  /** The outcome of `generateNaturalResponse`. */
  datatype NaturalReply =
    | NaturalNotInitialized               // throws 'Gemini not initialized'
    | NaturalFailed                       // the model call threw; rethrown
    | Natural(conversationalResponse: string, suggestedProject: Option<string>, projectType: Option<string>)

  /** The outcome of `generateCodeInBackground`; all but the last throw. */
  datatype CodeReply =
    | CodeNotInitialized                  // 'Gemini not initialized'
    | CodeFailed                          // the model call threw
    | InvalidFormat                       // 'Invalid response format from Gemini'
    | ParseFailed                         // `JSON.parse` threw
    | Insufficient                        // 'Insufficient files generated'
    | CodeGenerated(files: Files, projectId: string, previewUrl: string)

  /** The background request `processUserMessage` starts. */
  datatype CodeRequest = CodeRequest(prompt: string, projectType: string)

  /** The outcome of `processUserMessage`: the conversational answer and,
      for a build request, the generation it starts (status `started`). */
  datatype Processed =
    | ProcessFailed                       // `generateNaturalResponse` threw
    | Processed(conversationalResponse: string, started: Option<CodeRequest>)

  class GeminiNaturalChat {
    /** Whether `gemini`, `conversationModel` and `codeModel` are set. */
    var client: bool
    var conversationModel: bool
    var codeModel: bool

    /** With a non-empty `GEMINI_API_KEY` the client and both models are
        created; otherwise all three stay `null`. */
    constructor (apiKey: Option<string>)
      ensures client == Given(apiKey) && conversationModel == Given(apiKey) && codeModel == Given(apiKey)
      ensures IsReady() <==> Given(apiKey)
    {
      client := Given(apiKey);
      conversationModel := Given(apiKey);
      codeModel := Given(apiKey);
    }

    /** `isReady()`: the client and both models are set. */
    predicate IsReady()
      reads this
    {
      client && conversationModel && codeModel
    }

    /** `generateNaturalResponse`: the model's answer (`None` when the call
        throws) and, only for a build request, the message as the suggested
        project with its project type. */
    function GenerateNaturalResponse(message: string, answer: Option<string>): (r: NaturalReply)
      reads this
      ensures r.NaturalNotInitialized? <==> !conversationModel
      ensures r.NaturalFailed? <==> conversationModel && answer.None?
      ensures r.Natural? ==>
                && r.conversationalResponse == answer.value
                && (r.suggestedProject.Some? <==> WantsToBuild(message))
                && (r.projectType.Some? <==> WantsToBuild(message))
                && (WantsToBuild(message) ==>
                      r.suggestedProject.value == message && r.projectType.value == ProjectTypeOf(message))
    {
      if !conversationModel then NaturalNotInitialized
      else match answer
        case None => NaturalFailed
        case Some(response) =>
          var wantsToBuild := WantsToBuild(message);
          Natural(response,
                  if wantsToBuild then Some(message) else None,
                  if wantsToBuild then Some(ProjectTypeOf(message)) else None)
    }

    /** `generateCodeInBackground`: cut the JSON out of the answer, parse
        it, demand at least three files, then store them under a fresh id
        and point at their preview. Only a success touches the store. */
    method GenerateCodeInBackground(store: Store, response: Option<string>, parse: Parser, freshId: string)
      returns (r: CodeReply)
      requires store.Valid()
      modifies store
      ensures store.Valid()
      ensures r.CodeNotInitialized? <==> !codeModel
      ensures codeModel ==> (r.CodeFailed? <==> response.None?)
      ensures codeModel && response.Some? ==>
                var block := JsonBlock(response.value);
                && (r.InvalidFormat? <==> block.None?)
                && (block.Some? ==>
                      && (r.ParseFailed? <==> parse(block.value).None?)
                      && (parse(block.value).Some? ==>
                            var files := FilesOf(parse(block.value).value);
                            && (r.Insufficient? <==> |files| < MinFiles)
                            && (|files| >= MinFiles ==>
                                  r == CodeGenerated(files, freshId, PreviewFilesBase + freshId))))
      ensures r.CodeGenerated? ==> store.previews == Set(old(store.previews), r.projectId, r.files)
      ensures !r.CodeGenerated? ==> store.previews == old(store.previews)
    {
      if !codeModel {
        return CodeNotInitialized;
      }
      if response.None? {
        return CodeFailed;
      }
      var jsonMatch := JsonBlock(response.value);
      if jsonMatch.None? {
        return InvalidFormat;
      }
      var parsed := parse(jsonMatch.value);
      if parsed.None? {
        return ParseFailed;
      }
      var files := FilesOf(parsed.value);
      if |files| < MinFiles {
        return Insufficient;
      }
      store.StorePreview(freshId, files);
      r := CodeGenerated(files, freshId, PreviewFilesBase + freshId);
    }

    /** `processUserMessage`: the conversational answer, and a background
        generation started exactly for a build request, on the message and
        its project type. Its later completion or failure is not part of
        the reply. */
    function ProcessUserMessage(message: string, answer: Option<string>): (r: Processed)
      reads this
      ensures r.ProcessFailed? <==> !conversationModel || answer.None?
      ensures r.Processed? ==>
                && r.conversationalResponse == answer.value
                && (r.started.Some? <==> WantsToBuild(message))
                && (r.started.Some? ==> r.started.value == CodeRequest(message, ProjectTypeOf(message)))
    {
      match GenerateNaturalResponse(message, answer)
      case Natural(response, suggested, projectType) =>
        if suggested.Some? && suggested.value != [] then
          Processed(response, Some(CodeRequest(suggested.value,
                                               if projectType.Some? && projectType.value != [] then projectType.value
                                               else "webapp")))
        else
          assert !WantsToBuild(message) by {
            if WantsToBuild(message) { BuildRequestNotEmpty(message); }
          }
          Processed(response, None)
      case _ => ProcessFailed
    }
  }
}
