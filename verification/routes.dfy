/** The handlers of server/routes.ts over the shared preview store:
    create, update and stop a preview, the local fallback generator and the
    `/api/chat` composition that always ends with at least one file. The
    read-only responders (the preview page, one file, the project-files
    listing, the code status) are in `PreviewPages`. */
module Routes {
  import opened Common
  import opened Records
  import opened PreviewStore
  import opened PreviewPages
  import opened EnhancedAi

  /** `process.env.PORT || '5000'`. */
  function PortOf(envPort: Option<string>): (port: string)
    ensures port != []
    ensures Given(envPort) ==> port == envPort.value
  {
    if Given(envPort) then envPort.value else "5000"
  }

  /** What the preview-management handlers reply. */
  datatype PreviewResponse =
    | BadRequest(error: string)   // status 400
    | PreviewCreated(url: string, port: string, serverId: string, message: string)
    | Done(message: string)

  const FieldsRequired := "projectId and files are required"

  /** `POST /api/preview`: 400 unless both `projectId` and `files` are given;
      otherwise the project's entry is replaced and its preview url is
      `/api/preview-files/{projectId}`. */
  method CreatePreview(store: Store, projectId: Option<string>, files: Option<Files>, envPort: Option<string>)
    returns (r: PreviewResponse)
    requires store.Valid()
    modifies store
    ensures store.Valid()
    ensures r.BadRequest? <==> !Given(projectId) || files.None?
    ensures r.BadRequest? ==> r.error == FieldsRequired && store.previews == old(store.previews)
    ensures !r.BadRequest? ==>
              store.previews == Set(old(store.previews), projectId.value, files.value) &&
              r == PreviewCreated(ApiPreviewBase + projectId.value, PortOf(envPort), projectId.value,
                                  "Preview created successfully")
  {
    if !Given(projectId) || files.None? {
      return BadRequest(FieldsRequired);
    }
    store.StorePreview(projectId.value, files.value);
    r := PreviewCreated(ApiPreviewBase + projectId.value, PortOf(envPort), projectId.value,
                        "Preview created successfully");
  }

  /** `POST /api/preview/update`: the same checks, the entry replaced. */
  method UpdatePreview(store: Store, projectId: Option<string>, files: Option<Files>) returns (r: PreviewResponse)
    requires store.Valid()
    modifies store
    ensures store.Valid()
    ensures r.BadRequest? <==> !Given(projectId) || files.None?
    ensures r.BadRequest? ==> r.error == FieldsRequired && store.previews == old(store.previews)
    ensures !r.BadRequest? ==>
              store.previews == Set(old(store.previews), projectId.value, files.value) &&
              r == Done("Updated successfully")
  {
    if !Given(projectId) || files.None? {
      return BadRequest(FieldsRequired);
    }
    store.StorePreview(projectId.value, files.value);
    r := Done("Updated successfully");
  }

  /** `POST /api/preview/stop`: 400 without `projectId`; otherwise the entry
      is deleted (an absent id included). */
  method StopPreview(store: Store, projectId: Option<string>) returns (r: PreviewResponse)
    requires store.Valid()
    modifies store
    ensures store.Valid()
    ensures r.BadRequest? <==> !Given(projectId)
    ensures r.BadRequest? ==> r.error == "projectId is required" && store.previews == old(store.previews)
    ensures !r.BadRequest? ==>
              store.previews == Remove(old(store.previews), projectId.value) && r == Done("Preview stopped")
  {
    if !Given(projectId) {
      return BadRequest("projectId is required");
    }
    store.DeletePreview(projectId.value);
    r := Done("Preview stopped");
  }

  /** A created preview is found at its url: the `/api/preview-files`
      handler that answers it serves a page, never a 404. */
  lemma CreatedPreviewFound(previews: Record<Files>, projectId: string, files: Files)
    ensures !PreviewPage(projectId, Get(Set(previews, projectId, files), projectId), ApiPreviewBase).NotFound?
    ensures CodeStatusOf(projectId, Get(Set(previews, projectId, files), projectId)) == Completed(files, ApiPreviewBase + projectId)
  {
    SetGet(previews, projectId, files, projectId);
  }

  /** `generateLocalFiles`: exactly one file, `index.html` in `html`; the
      todo page when the lower-cased prompt mentions `todo` or `task`, the
      welcome page otherwise. The page bodies are given. */
  function GenerateLocalFiles(prompt: string, todoPage: string, welcomePage: string): (files: Files)
    ensures Keys(files) == [IndexHtml]
    ensures files[0].1.language == "html"
    ensures var lower := ToLower(prompt);
            files[0].1.content == if Contains(lower, "todo") || Contains(lower, "task") then todoPage else welcomePage
  {
    var lower := ToLower(prompt);
    if Contains(lower, "todo") || Contains(lower, "task") then [(IndexHtml, FileEntry(todoPage, "html"))]
    else [(IndexHtml, FileEntry(welcomePage, "html"))]
  }

  /** The message of the local fallback when generation throws. */
  const LocalMessage := "I'll create a working application for you!"

  /** `message || prompt`. */
  function UserInput(message: Option<string>, prompt: Option<string>): (input: Option<string>)
    ensures input.Some? <==> Given(message) || Given(prompt)
    ensures input.Some? ==> input.value != [] && (input == message || input == prompt)
  {
    if Given(message) then message else if Given(prompt) then prompt else None
  }

  /** The files `/api/chat` answers with: the generated ones when generation
      succeeded with at least one file; otherwise the local fallback's.
      `generated` is `None` when the call threw. */
  function ChatFiles(input: string, generated: Option<GenerationResult>, todoPage: string, welcomePage: string)
    : (files: Files)
    ensures |files| >= 1
    ensures generated.Some? && generated.value.Success? && generated.value.files != [] ==> files == generated.value.files
    ensures !(generated.Some? && generated.value.Success? && generated.value.files != []) ==>
              files == GenerateLocalFiles(input, todoPage, welcomePage)
  {
    match generated
    case Some(Success(_, fs)) => if fs == [] then GenerateLocalFiles(input, todoPage, welcomePage) else fs
    case _ => GenerateLocalFiles(input, todoPage, welcomePage)
  }

  /** `result.message`: the reply on success, nothing on a failure result
      (which carries `error` instead), the local message when it threw. */
  function ChatMessage(generated: Option<GenerationResult>): (message: Option<string>)
    ensures message.None? <==> generated.Some? && generated.value.Failure?
    ensures generated.None? ==> message == Some(LocalMessage)
    ensures generated.Some? && generated.value.Success? ==> message == Some(generated.value.message)
  {
    match generated
    case None => Some(LocalMessage)
    case Some(Failure(_)) => None
    case Some(Success(m, _)) => Some(m)
  }

  datatype ChatReply =
    | MessageRequired   // status 400
    | ChatDone(response: Option<string>, files: Files, previewUrl: string)

  /** `POST /api/chat` of server/routes.ts: 400 without a message or prompt;
      otherwise the files are stored as preview `project-{now}` and the reply
      carries them with the url `/preview/project-{now}`. */
  method ApiChat(store: Store, message: Option<string>, prompt: Option<string>, generated: Option<GenerationResult>,
                 now: nat, todoPage: string, welcomePage: string) returns (r: ChatReply)
    requires store.Valid()
    modifies store
    ensures store.Valid()
    ensures r.MessageRequired? <==> UserInput(message, prompt).None?
    ensures r.MessageRequired? ==> store.previews == old(store.previews)
    ensures r.ChatDone? ==>
              var projectId := "project-" + NatToString(now);
              r.files == ChatFiles(UserInput(message, prompt).value, generated, todoPage, welcomePage) &&
              r.response == ChatMessage(generated) &&
              r.previewUrl == SimplePreviewBase + projectId &&
              store.previews == Set(old(store.previews), projectId, r.files)
  {
    var userInput := UserInput(message, prompt);
    if userInput.None? {
      return MessageRequired;
    }
    var result := generated;
    if result.None? {
      result := Some(Success(LocalMessage, GenerateLocalFiles(userInput.value, todoPage, welcomePage)));
    }
    var files: Files;
    var response: Option<string>;
    match result.value {
      case Success(m, fs) =>
        files := fs;
        response := Some(m);
      case Failure(_) =>
        files := [];
        response := None;
    }
    if files == [] {
      files := GenerateLocalFiles(userInput.value, todoPage, welcomePage);
    }
    var projectId := "project-" + NatToString(now);
    store.StorePreview(projectId, files);
    r := ChatDone(response, files, SimplePreviewBase + projectId);
  }

  /** Whatever generation did, the stored preview holds at least one file
      and it is what the reply carries. */
  lemma ChatPreviewNonEmpty(previews: Record<Files>, input: string, generated: Option<GenerationResult>,
                            now: nat, todoPage: string, welcomePage: string)
    ensures var files := ChatFiles(input, generated, todoPage, welcomePage);
            var stored := Get(Set(previews, "project-" + NatToString(now), files), "project-" + NatToString(now));
            stored == Some(files) && |stored.value| >= 1
  {
    SetGet(previews, "project-" + NatToString(now), ChatFiles(input, generated, todoPage, welcomePage),
           "project-" + NatToString(now));
  }
}
