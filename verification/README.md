# A verified model of the AI app generator's server core

The server turns a chat prompt into a small web project and previews the
result. Several parts of it make up the core modelled here:

- **Keyword classifiers.** A local fallback chat (`server/chat-routes.ts`,
  `shared/server/chat-routes.ts`) and the Gemini services
  (`server/gemini-chat.ts`, `server/gemini-natural-chat.ts`) read the
  lower-cased prompt. The first group of keywords that occurs decides the
  project type, the architecture, the features and the canned reply.
- **Fenced-code extractors.** The `extractFilesFromResponse` of
  `server/chat-routes.ts` and of `server/enhanced-ai-api.ts` turn the
  ```` ``` ```` blocks of a reply into a file record.
- **Preview store.** The generated files are kept in the process-wide
  `Map` of `server/preview-store.ts` and in the second map of
  `server/simple-preview.ts`. The responders of `server/routes.ts`,
  `server/simple-preview.ts` and `server/index.ts` serve them as pages,
  single files and listings.
- **Chat-session tracker.** The map of active Gemini chat sessions in
  `server/enhanced-chat-routes.ts`.
- **File service.** The sandboxed workspace of `server/file-service.ts`,
  whose path guard keeps the model's file tools inside one directory.
- **File database.** The JSON user and project lists of
  `server/file-database.ts`.
- **`users.txt` authentication.** `server/viraaj-auth.ts` keeps one
  `|`-separated line per user.
- **Route precedence.** The Express routes that `server/index.ts`
  registers, in registration order: the first route that matches a
  request handles it.

Each module follows the source's own form:

- Pure computations are functions, with lemmas about them.
- The stores are classes whose methods update their fields. Their
  `ensures` give the new state as a function of the old state, and lemmas
  prove what that function promises.
- JavaScript objects become ordered association lists (`Records`), because
  `Object.keys` and JSON output follow insertion order.
- Things the server does not decide are parameters: the clock, random
  draws, generated ids, password hashes, the text a language model
  returns, `JSON.parse` and the disk's directory listings.
- The long HTML, CSS and JavaScript templates the server writes are
  parameters too. Lemmas state what is required of them, for example that
  a page does not close its code fence early.

## Model

| member | source | states |
|---|---|---|
| Common.ToLower | server/gemini-chat.ts:237 | `toLowerCase` keeps the length and lower-cases each ASCII capital, leaving every other character |
| Common.ToLowerIdempotent | server/gemini-chat.ts:237 | lower-casing a lower-cased prompt changes nothing, so the classifiers see the same text either way |
| Common.FindFrom | server/gemini-natural-chat.ts:147 | `indexOf`: the position found is an occurrence and no earlier position is one; none is found only when the text does not occur |
| Common.TrimSpec | server/enhanced-ai-api.ts:165 | `trim()` returns a slice of its input that neither starts nor ends with JavaScript whitespace, and is empty exactly when the input is all whitespace |
| Common.TrimIdempotent | server/chat-routes.ts:324 | trimming a trimmed body changes nothing |
| Common.NatToString | server/chat-routes.ts:327 | the counter written into `file{k}` is a non-empty run of decimal digits |
| Common.Split | server/viraaj-auth.ts:146 | `split` on one character yields at least one part and no part holds the separator |
| Common.SplitJoin | server/viraaj-auth.ts:151 | splitting a line joined with `|` gives its fields back when no field holds `|` |
| Common.SplitConcat | server/viraaj-auth.ts:146 | splitting two texts joined by the separator gives the parts of the first followed by those of the second |
| Common.JoinContainsPart | server/gemini-chat.ts:298 | the joined text contains whatever one of its parts contains |
| Common.AfterLast | server/gemini-chat.ts:249 | `split('.').pop()` is a suffix of the name without a dot, and is preceded by the last dot when there is one |
| Common.AfterLastOf | server/routes.ts:101 | the text after the last dot of `a.b` is `b` when `b` has no dot |
| Records.Keys | server/preview-store.ts:20 | `Object.keys` lists one key per pair, in insertion order |
| Records.Get | server/preview-store.ts:9-12 | `r[k]` is defined exactly when `k` is a key |
| Records.GetAt | server/index.ts:236-243 | in an object with unique keys, the value read under the key at a position is the value stored there |
| Records.SetGet | server/preview-store.ts:5 | after `r[k] = v`, `k` reads `v` and every other key reads as before |
| Records.SetKeys | server/chat-routes.ts:337 | assigning an existing key keeps the key order; a new key is added last |
| Records.SetUnique | server/chat-routes.ts:337 | assignment never creates a duplicate key |
| Records.SetTwice | server/preview-store.ts:5 | assigning one key twice leaves exactly the second value, with nothing of the first merged in |
| Records.RemoveGet | server/preview-store.ts:16 | after `delete`, the key is absent and every other key reads as before |
| Records.RemoveKeys | server/preview-store.ts:16 | deleting removes exactly that key from the key list and keeps the order of the others |
| Records.RemoveKey | server/preview-store.ts:20 | the key list without `k` holds exactly the other keys |
| Records.RemoveAbsent | server/preview-store.ts:16 | deleting an absent key changes nothing |
| Records.RemoveUnique | server/preview-store.ts:16 | deleting never creates a duplicate key |
| Records.RemoveKeyUnique | server/preview-store.ts:20 | a duplicate-free key list stays duplicate-free after removing a key |
| Records.SetAllGet | server/chat-routes.ts:322-340 | after a loop of assignments, each key holds the value of its last assignment, or its old value when never assigned |
| Records.SetAllSnoc | server/chat-routes.ts:337 | one more loop iteration performs exactly one more assignment |
| Records.SetAllKeys | server/chat-routes.ts:322-340 | the keys after the loop are the old keys plus every key assigned |
| Records.SetAllUnique | server/chat-routes.ts:322-340 | the loop never creates a duplicate key |
| Fences.WordRun | server/enhanced-ai-api.ts:158 | the `(\w+)` run stays inside the text |
| Fences.WordRunSpec | server/enhanced-ai-api.ts:158 | the run is greedy: word characters up to its end, and no word character just after it |
| Fences.LineRunSpec | server/enhanced-ai-api.ts:158 | the `[^\n]+` path run is greedy: no newline up to its end, and a newline right after it unless the text ends |
| Fences.FindFence | server/enhanced-ai-api.ts:158 | the lazy body ends at a fence that lies at or after the body start |
| Fences.FindFenceSpec | server/chat-routes.ts:318 | the lazy `[\s\S]*?` stops at the first closing fence, and fails only when no fence follows |
| Fences.Header | server/enhanced-ai-api.ts:158 | the optional `:path` group and the newline end strictly after the language and inside the text |
| Fences.MatchAt | server/enhanced-ai-api.ts:158 | a match tried at `p` starts at `p` and spans at least the fence, a newline and the closing fence |
| Fences.Exec | server/enhanced-ai-api.ts:162 | `exec` with `lastIndex` at `from` returns a match that starts at or after `from` |
| Fences.ExecLeftmost | server/enhanced-ai-api.ts:162 | `exec` returns the leftmost match: it is a match, and no match starts between `lastIndex` and it (none at all when it returns null) |
| Fences.MatchAtSound | server/chat-routes.ts:318 | every match is the text of a fenced block: three backticks, a language fitting the pattern, the optional path, a newline, a body that stops at its closing fence, and three backticks |
| Fences.MatchBlockText | server/enhanced-ai-api.ts:158 | round trip: a block written with fitting groups and a body without a fence is matched where it was written, giving back its language, path and body |
| Fences.MatchBlockAt | server/chat-routes.ts:318 | the same round trip for a block found at any position of a larger text |
| Fences.NoBacktickNoMatch | server/enhanced-ai-api.ts:162 | `exec` over text with no backtick returns null |
| Fences.SkipPlainText | server/enhanced-ai-api.ts:162 | text without a backtick before a position is skipped: `exec` from before it finds what `exec` from it finds |
| Extraction.Language | server/chat-routes.ts:323 | `match[1] \|\| 'text'` is never empty and keeps a language that was written |
| Extraction.BlockIsMatch | server/enhanced-ai-api.ts:162 | each block the `while (exec)` loop sees is a real match after the start, and the next one starts no earlier than it ends |
| Extraction.NothingBeforeFirst | server/chat-routes.ts:322 | the loop skips no match before its first block |
| Extraction.NothingBetween | server/chat-routes.ts:322 | the loop skips no match between two blocks it sees, nor after the last |
| Extraction.Kept | server/chat-routes.ts:326 | `if (content)` keeps at most the blocks it is given |
| Extraction.EntriesOfKept | server/chat-routes.ts:327-338 | the counter counts stored entries: the `j`-th non-blank block is stored with counter `j`, and only non-blank blocks are stored |
| Extraction.EntriesLength | server/chat-routes.ts:338 | one assignment per non-blank block |
| Extraction.ExtractedKeys | server/chat-routes.ts:337 | a name is a key of the result exactly when some stored block was assigned under it |
| Extraction.ExtractedGet | server/enhanced-ai-api.ts:185 | when two blocks get the same name, the later one wins |
| Extraction.ExtractedUnique | server/chat-routes.ts:337 | the result holds no name twice |
| Extraction.ExtractedContent | server/enhanced-ai-api.ts:165-167 | every stored file is non-empty, already trimmed, and has a non-empty language |
| Extraction.KeptIndex | server/chat-routes.ts:326-338 | a non-blank block sits among the kept ones at a position no later than its own |
| Extraction.KeptBlockStored | server/chat-routes.ts:326-338 | every non-blank block names a key of the result, with a counter no larger than its position |
| Extraction.TableNameStored | server/enhanced-ai-api.ts:176-182 | a non-blank block without a path whose language is in the table is stored under the table's name |
| Extraction.NoMatchNoFiles | server/enhanced-ai-api.ts:155-162 | a reply where the pattern matches nowhere gives the empty object, with no error |
| Extraction.ExecFindsBlock | server/enhanced-ai-api.ts:162 | `exec` started before a well-formed block with only backtick-free text in between finds that block |
| Extraction.BlocksOfOne | server/chat-routes.ts:322 | a reply holding one well-formed block in backtick-free text yields exactly that block |
| Extraction.BlocksOfTwo | server/chat-routes.ts:322 | two well-formed blocks written back to back yield exactly those two blocks, in order |
| Extraction.ExtractedOfOne | server/chat-routes.ts:322-342 | with one block, the result is empty when its body is blank and otherwise holds its single entry with counter 0 |
| Extraction.ExtractedOfTwo | server/chat-routes.ts:337 | with two non-blank blocks, the second is assigned after the first with counter 1, so a repeated name keeps the second |
| Extraction.NoBacktickNoFiles | server/enhanced-ai-api.ts:155-162 | a reply with no backtick yields the empty object |
| ChatRoutes.ChooseTemplate | server/chat-routes.ts:300-313 | the keyword groups are tried in order: `website`/`landing` gives the website, else `react`/`component` React, else `python`/`script` Python, else `api`/`backend` the API, else the website; a non-website template is chosen only when one of its keywords occurs |
| ChatRoutes.ChooseTemplateByRules | server/chat-routes.ts:300-313 | the `if` chain is the first-match reading of its four keyword groups, in order, with the website as fallback |
| ChatRoutes.ChooseTemplateIgnoresCase | server/chat-routes.ts:301 | the choice does not depend on letter case |
| ChatRoutes.IntroPlain | server/chat-routes.ts:7 | the sentence before each template's code has no backtick |
| ChatRoutes.ReplyFiles | server/chat-routes.ts:7 | each template reply yields exactly one file: index.html, App.jsx, main.py or script.js, holding the trimmed code |
| ChatRoutes.ReplyBlocks | server/chat-routes.ts:79 | each template reply holds exactly one fenced block, the template's code |
| ChatRoutes.NameOfTemplate | server/chat-routes.ts:329-335 | the name table maps each template's language to its expected file name |
| ChatRoutes.ExtractFilesFromResponse | server/chat-routes.ts:316-343 | the `while (exec)` loop computes exactly the extraction specification for the optional-language pattern |
| ChatRoutes.HandleChat | server/chat-routes.ts:346-364 | 400 "Message is required" exactly when the message is missing or empty; otherwise the reply and the files extracted from it |
| ChatRoutes.ChatReturnsOneFile | server/chat-routes.ts:357-358 | whatever the prompt, `/api/chat` returns exactly one file, named after the chosen template |
| EnhancedAi.FirstBlockFiles | server/enhanced-ai-api.ts:154-192 | as written, the method returns something exactly when the reply holds a match, and then at most one file |
| EnhancedAi.ExtractFilesFromResponse | server/enhanced-ai-api.ts:154-192 | as written, only the first match is looked at: `undefined` (None) when there is none, an empty object when it is blank or carries a `:path`, otherwise its one file |
| EnhancedAi.ExtractFilesCorrected | server/enhanced-ai-api.ts:154-192 | the corrected loop computes the extraction in which a block with a path is stored under its trimmed path |
| EnhancedAi.PathBlockStored | server/enhanced-ai-api.ts:171-172 | corrected, every non-blank block with a path is stored under its trimmed path |
| EnhancedAi.PathBlockDropped | server/enhanced-ai-api.ts:171-187 | the one-block reply `ts:a.ts` yields an empty object as written and the file `a.ts` once corrected |
| EnhancedAi.OnlyFirstBlockStored | server/enhanced-ai-api.ts:161-190 | for two pathless, non-blank blocks, as written only the first one's file comes back; corrected, both are stored in order |
| EnhancedAi.SecondBlockIgnored | server/enhanced-ai-api.ts:161-190 | the reply of an `html` block then a `css` block yields only `index.html` as written, and `index.html` and `styles.css` once corrected |
| EnhancedAi.OneBlockAgrees | server/enhanced-ai-api.ts:161-190 | on a reply with a single pathless block the as-written and corrected extractors agree |
| EnhancedAi.GenerateProject | server/enhanced-ai-api.ts:31-50 | without a client it fails with the fixed "not configured" message and never throws; a thrown model call fails with "Gemini API Error: …"; otherwise it succeeds with the reply and its extracted files |
| PreviewStore.Store.constructor | server/preview-store.ts:2 | the store starts empty |
| PreviewStore.Store.GetPreview | server/preview-store.ts:9-13 | `getPreview` finds files exactly for the stored ids |
| PreviewStore.Store.GetAllPreviews | server/preview-store.ts:19-21 | `getAllPreviews` lists one id per entry, in insertion order |
| PreviewStore.Store.StorePreview | server/preview-store.ts:4-7 | after `storePreview(id, f)`, `getPreview(id)` is `f`, replaced whole with no merge; every other id reads as before; a new id is listed last and an existing one keeps its place |
| PreviewStore.Store.DeletePreview | server/preview-store.ts:15-17 | after `deletePreview(id)`, `getPreview(id)` is undefined; every other id reads as before; deleting an absent id changes nothing |
| PreviewStore.IdsDistinct | server/preview-store.ts:19-20 | `getAllPreviews` lists each stored id once |
| PreviewStore.LastStoreWins | server/preview-store.ts:5 | storing twice under one id leaves exactly the second files |
| SimplePreview.SimplePreviewServer.constructor | server/simple-preview.ts:5 | the server's map starts as the given store |
| SimplePreview.SimplePreviewServer.Create | server/simple-preview.ts:9-23 | 400 "projectId and files are required" exactly when either is missing, with the map unchanged; otherwise the entry is replaced whole and the url is `/preview/{id}` |
| SimplePreview.SimplePreviewServer.Update | server/simple-preview.ts:96-105 | the same checks as create; on success the entry is replaced whole |
| SimplePreview.SimplePreviewServer.Delete | server/simple-preview.ts:108-117 | 400 "projectId is required" exactly when it is missing; otherwise the id is deleted, and deleting an absent id succeeds and changes nothing |
| SimplePreview.SimplePreviewServer.Page | server/simple-preview.ts:26-65 | 404 exactly for an unknown id; `index.html` when present; otherwise a listing whose links are `/preview/{id}/{name}`, one per key in key order |
| SimplePreview.SimplePreviewServer.File | server/simple-preview.ts:68-93 | 404 exactly when the project or the file is missing; otherwise the file's content with the `extname` Content-Type |
| PreviewPages.ListingLinks | server/routes.ts:66-68 | one link per name, in order, each pointing at the prefix followed by the name and showing the name |
| PreviewPages.PreviewPage | server/routes.ts:52-89 | 404 "Project not found" exactly for an unknown project; its `index.html` content when present; otherwise a listing titled after the project with one link per key, in key order |
| PreviewPages.DotTableAgrees | server/simple-preview.ts:79-90 | the `extname` table of simple-preview.ts and the dotless table of routes.ts give every extension the same Content-Type |
| PreviewPages.DotTableListed | server/routes.ts:102-110 | on the seven listed extensions the two tables agree |
| PreviewPages.DotTableUnlisted | server/routes.ts:112 | every other extension is `text/plain` in both tables |
| PreviewPages.DotUnlisted | server/simple-preview.ts:90 | an `extname` outside the table is `text/plain` |
| PreviewPages.LowerDot | server/simple-preview.ts:79 | lower-casing leaves the dot in front of an extension |
| PreviewPages.ContentTypesAgree | server/routes.ts:101-112 | for a name `stem.ext` with a proper stem, routes.ts and simple-preview.ts send the same Content-Type |
| PreviewPages.DotFileContentTypes | server/simple-preview.ts:79 | for a dot file such as `.html` they differ: routes.ts uses the text after the dot, simple-preview.ts sends `text/plain` because `extname` is empty |
| PreviewPages.ServeFile | server/routes.ts:92-114 | 404 "File not found" exactly when the project or the file is missing; otherwise the file's content with the given Content-Type |
| PreviewPages.FileInfos | server/routes.ts:341-346 | one entry per stored path, in order, with its content, language and a size equal to the content length |
| PreviewPages.ProjectFileList | server/routes.ts:335-359 | 404 exactly for an unknown project; otherwise one entry per stored file, tagged with the project id |
| PreviewPages.ProjectFilePaths | server/routes.ts:341-342 | the listed paths are exactly the stored keys, in order |
| PreviewPages.CodeStatusOf | server/routes.ts:316-332 | "completed" with the stored files and `/api/preview-files/{id}` exactly when the id is stored, "in-progress" otherwise |
| Routes.PortOf | server/routes.ts:27 | `PORT \|\| '5000'` is never empty and is the environment's port when one is set |
| Routes.CreatePreview | server/routes.ts:17-40 | 400 exactly when `projectId` or `files` is missing, with the store unchanged; otherwise the entry is replaced and the url is `/api/preview-files/{projectId}` |
| Routes.UpdatePreview | server/routes.ts:116-125 | the same checks; on success the entry is replaced |
| Routes.StopPreview | server/routes.ts:127-136 | 400 exactly when `projectId` is missing; otherwise the entry is deleted |
| Routes.CreatedPreviewFound | server/routes.ts:52-62 | a created preview is found at its url, and the code-status route reports it completed |
| Routes.GenerateLocalFiles | server/routes.ts:366-528 | exactly one file, `index.html` in `html`: the todo page when the lower-cased prompt mentions todo or task, else the welcome page |
| Routes.UserInput | server/routes.ts:142-146 | `message \|\| prompt` is present exactly when one of them is given, and is then non-empty and one of them |
| Routes.ChatFiles | server/routes.ts:151-172 | at least one file always: the generated files when generation succeeded with some, otherwise `generateLocalFiles` |
| Routes.ChatMessage | server/routes.ts:159-187 | `response: result.message`: the generated message on success, absent exactly on a failure result, and the local message when generation threw |
| Routes.ApiChat | server/routes.ts:139-192 | 400 exactly when neither message nor prompt is given, with the store unchanged; otherwise the files are stored as `project-{now}` and returned with the url `/preview/project-{now}` |
| Routes.ChatPreviewNonEmpty | server/routes.ts:170-180 | whatever generation did, the stored preview holds at least one file and it is what the reply carries |
| ServerIndex.TruncateLog | server/index.ts:85-87 | a logged line is at most 80 characters; a short line is kept; a long one keeps its first 79 characters and has length 80 |
| ServerIndex.TruncateIdempotent | server/index.ts:85-87 | cutting a cut line changes nothing |
| ServerIndex.TargetPath | server/index.ts:109-127 | the handler's reassignments of `targetPath` compute the rule-by-rule target in which later rules win |
| ServerIndex.TsIsNotTsx | server/index.ts:112-115 | a name ending in `.ts` never ends in `.tsx` |
| ServerIndex.TsxStays | server/index.ts:112-116 | a `.tsx` file is never moved, in particular never into `client/src/components/` |
| ServerIndex.ServerBeatsComponent | server/index.ts:113-114 | a bare `.ts` name mentioning `server` goes to `server/`, even when it also mentions `component` |
| ServerIndex.ProjectDir | server/index.ts:106 | the project directory is an absolute path |
| ServerIndex.CreateAiFile | server/index.ts:97-146 | 400 exactly when `fileName` is missing or empty or `content` is undefined, writing nothing; empty content is accepted; otherwise the content is written at the target path under the project directory |
| ServerIndex.ListingTypeAgrees | server/index.ts:191-199 | on the extensions the listing knows, its type agrees with the file service's `getFileType` |
| ServerIndex.ListingTypeOfMarkdown | server/index.ts:192 | the listing calls `.md` `text` where the file service says `markdown` |
| ServerIndex.FirstHtml | server/index.ts:240 | `find` returns the first name ending in `.html`, and nothing only when no name does |
| ServerIndex.IndexPreviewFiles | server/index.ts:226-248 | 404 "Project not found" exactly for an unknown id; `index.html` when present; a JSON error listing every key exactly when no name ends in `.html` |
| ServerIndex.FirstHtmlServed | server/index.ts:240-243 | without `index.html`, the first `.html` file in key order is served |
| ChatSessions.Swept | server/enhanced-chat-routes.ts:306-315 | a sweep keeps exactly the sessions not idle for strictly more than an hour, each unchanged |
| ChatSessions.SessionFor | server/enhanced-chat-routes.ts:28-40 | an existing session is reused as stored, so its project id wins over the request's; a new one gets the request's project id or a fresh one, the user id or "anonymous", an empty history and the current time |
| ChatSessions.NewTurns | server/enhanced-chat-routes.ts:63-73 | a success adds the user turn, then the assistant turn only when the answer is non-empty |
| ChatSessions.SessionTracker.constructor | server/enhanced-chat-routes.ts:8-13 | the tracker starts with no sessions |
| ChatSessions.SessionTracker.Chat | server/enhanced-chat-routes.ts:18-95 | 400 exactly when the message is missing, with no session created; otherwise the session is stored before generation, so 503 and failures leave it with its history unchanged; a success appends the turns and stamps `lastActivity`; a failure reports the service's error or "Chat generation failed" |
| ChatSessions.SessionTracker.Sweep | server/enhanced-chat-routes.ts:306-315 | the timer's loop leaves exactly the swept map |
| ChatSessions.SweepIdempotent | server/enhanced-chat-routes.ts:310-313 | sweeping twice at the same time removes nothing more |
| ChatSessions.ActiveSurvives | server/enhanced-chat-routes.ts:311 | a session survives a sweep exactly when it was active at most an hour before |
| ChatSessions.AnsweredSessionKept | server/enhanced-chat-routes.ts:63-75 | after a successful exchange, a sweep at the same time keeps the session with both turns at the end of its history |
| ChatSessions.ProjectPreview | server/enhanced-chat-routes.ts:251-298 | `index.html` is served, cut at 8000 characters, exactly when it is inside the workspace and on disk; otherwise a listing of every manifest file |
| FileService.Take | server/file-service.ts:155 | `slice(0, n)` is a prefix of the text, of length `n` or the whole text |
| FileService.NamesOfSnoc | server/file-service.ts:191-197 | one more loop iteration pushes the entry's name onto the list of its kind and no other |
| FileService.KindsPartition | server/file-service.ts:192-196 | every entry is a file, a directory or neither, exactly once |
| FileService.NamesOfSound | server/file-service.ts:192-196 | a name is listed under a kind exactly when an entry of that kind has that name |
| FileService.FileService.constructor | server/file-service.ts:12-18 | the root is `WORKSPACE_ROOT/{workspaceId}` or `…/default`, and the preview key is the id or "default" |
| FileService.FileService.StoreFileForPreview | server/file-service.ts:73-84 | the project's preview entry becomes a map holding only this path, with its language; every other project is unchanged |
| FileService.FileService.CreateFile | server/file-service.ts:41-70 | succeeds exactly for a path inside the workspace; then the file is written, the preview entry replaced by that one file, the reply carries the length and a 200-character preview, and reading the file back gives its first 8000 characters; otherwise nothing changes |
| FileService.FileService.UpdateFile | server/file-service.ts:103-136 | succeeds exactly for an existing file inside the workspace, writing only it; a missing file gives "does not exist. Use create_file instead." and writes nothing |
| FileService.FileService.ReadFile | server/file-service.ts:139-176 | succeeds exactly for an existing file inside the workspace; the content is the first `maxBytes` characters of the file, `size` its full length, `truncated` true exactly when the file is longer than `maxBytes`, and the message is "Read {path}" with " (truncated)" exactly then; a missing file gives "File {path} does not exist" and a path outside the workspace the traversal error |
| FileService.FileService.ListDirectory | server/file-service.ts:179-222 | outside the workspace an error; an unreadable directory gives "does not exist"; otherwise the file and directory names, each sorted, and their combined count |
| FileService.FileService.SplitEntries | server/file-service.ts:188-197 | the loop over the entries keeps, in `readdir` order, exactly the names of the files and exactly the names of the directories |
| FileService.FileService.CreateFolder | server/file-service.ts:225-247 | succeeds exactly for a path inside the workspace |
| FileService.ListingSpec | server/file-service.ts:204-206 | each listed group is sorted and a permutation of the entries of its kind, and the total counts every entry that is not of another kind |
| FileService.ReadWhole | server/file-service.ts:155-157 | a file no longer than the limit is read whole and not marked truncated |
| Sorting.StrLeTotal | server/file-service.ts:204 | any two strings are ordered one way or the other |
| Sorting.StrLeTrans | server/file-service.ts:204 | the string order is transitive |
| Sorting.StrLeAntisym | server/file-service.ts:204 | two strings ordered both ways are equal |
| Sorting.SortedCons | server/file-service.ts:204 | a string no later than the first of an ascending list can go in front of it |
| Sorting.InsertSorted | server/file-service.ts:204 | inserting into an ascending list keeps it ascending |
| Sorting.InsertPerm | server/file-service.ts:204 | inserting adds exactly that string to the contents |
| Sorting.SortedTail | server/file-service.ts:204 | the tail of an ascending list is ascending |
| Sorting.SameFirst | server/file-service.ts:204-205 | two ascending lists with the same contents start with the same string |
| Sorting.Sort | server/file-service.ts:204-205 | `sort()` keeps the length |
| Sorting.SortSpec | server/file-service.ts:204-205 | `sort()` returns an ascending permutation of its input |
| Sorting.SortedUnique | server/file-service.ts:204-205 | an ascending list is fixed by its contents, so any correct sort gives the same list |
| PosixPath.WalkPlain | server/file-service.ts:31 | resolving leaves only plain segments |
| PosixPath.WalkAppends | server/file-service.ts:31 | resolving plain segments only appends them |
| PosixPath.ResolvedSegments | server/file-service.ts:31 | the segments of `path.resolve` are plain |
| PosixPath.Resolve | server/file-service.ts:31 | `path.resolve` gives an absolute path |
| PosixPath.Normalize | server/index.ts:129 | a normalised absolute path stays absolute |
| PosixPath.JoinPath | server/index.ts:106 | `path.join` onto an absolute path stays absolute |
| PosixPath.ExtnameOf | server/simple-preview.ts:79 | the `extname` of `stem.ext` is `.ext` for a proper stem |
| PosixPath.ExtnameAt | server/file-service.ts:296 | the `extname` of a name whose last dot is not its first character starts at that dot |
| PosixPath.NoDotNoExtname | server/file-service.ts:296 | a dot file or a name without a dot has no extension |
| PosixPath.JoinAppend | server/file-service.ts:31 | joining two segment lists puts one `/` between them |
| PosixPath.SplitAfterJoin | server/file-service.ts:31 | splitting a joined path gives its segments back |
| PosixPath.WithinIffPrefix | server/file-service.ts:34 | for normalised paths, lying within the root is exactly having the root's segments as a prefix |
| PosixPath.PrefixWithin | server/file-service.ts:34 | a path with the root's segments as a prefix lies within the root |
| PosixPath.WithinPrefix | server/file-service.ts:34 | a path within the root has the root's segments as a prefix |
| Workspace.ProjectIdOf | server/file-service.ts:17 | the id is the workspace id when given, else "default", and never empty |
| Workspace.WorkspaceRoot | server/file-service.ts:14-16 | the workspace root is an absolute path |
| Workspace.ResolvePathAsWritten | server/file-service.ts:30-39 | as written, an accepted path merely starts with the root's text |
| Workspace.ResolvePath | server/file-service.ts:30-39 | corrected, an accepted path is the root or lies below it |
| Workspace.PathSplit | server/file-service.ts:31 | splitting an absolute path gives an empty first part, then its segments |
| Workspace.NormalizeAppend | server/file-service.ts:15 | joining a plain name onto a root appends one segment |
| Workspace.WorkspaceRootOf | server/file-service.ts:6-16 | the workspace of `id` is `{cwd}/ai-workspace/{id}`, or `…/default` |
| Workspace.ResolveFromRoot | server/file-service.ts:31 | a relative path is resolved against the root's segments |
| Workspace.ResolvePathInside | server/file-service.ts:34 | corrected, a path is accepted exactly when its resolved segments begin with the root's |
| Workspace.RelativeAccepted | server/file-service.ts:30-39 | a relative path of plain segments is accepted by both checks and names the file under the root |
| Workspace.RelativeSegments | server/file-service.ts:31 | such a path resolves to the root's segments followed by its own |
| Workspace.RelativeText | server/file-service.ts:31 | a path joined from plain segments is relative |
| Workspace.CorrectedIsStricter | server/file-service.ts:34 | whatever the corrected check accepts, the check as written accepts with the same path |
| Workspace.SiblingEscapes | server/file-service.ts:34 | as written, `../{sib}/{name}` from a root whose last segment is a proper prefix of `sib` is accepted although it leaves the root; corrected, it is refused |
| Workspace.SiblingSegments | server/file-service.ts:31 | `../{sib}/{name}` from `parent/last` resolves to `parent/sib/name` |
| Workspace.SiblingTextPrefix | server/file-service.ts:34 | the text of `parent/last` is a prefix of the text of `parent/sib/name` when `sib` starts with `last` |
| Workspace.SiblingWorkspaceExample | server/file-service.ts:34 | from `/srv/ai-workspace/p1`, the path `../p10/notes.txt` is accepted as written and refused once corrected |
| Workspace.LanguageOf | server/file-service.ts:86-99 | `getLanguageFromPath` of `stem.ext` is the table's entry for the lower-cased `ext`, default `text` |
| Workspace.FileTypeOf | server/file-service.ts:295-320 | `getFileType` of `stem.ext` is the table's entry for the lower-cased `.ext`, default `text` |
| Workspace.DotFileIsText | server/file-service.ts:295-320 | a dot file such as `.env`, or a name without a dot, has type `text` |
| Workspace.BareNameLanguage | server/file-service.ts:87 | the two lookups differ on a name without a dot: `md` has language `markdown` but type `text` |
| FileDatabase.IndexOfId | server/file-database.ts:132 | `findIndex`: the index, when there is one, holds the id and no earlier user does; none means no user has the id |
| FileDatabase.FindByEmail | server/file-database.ts:85-88 | `find` by email: found iff some user has the email, and then it is the first such user |
| FileDatabase.FindById | server/file-database.ts:90-93 | `find` by id: found iff `findIndex` finds the id, and then it is the user at that index |
| FileDatabase.ProjectsOf | server/file-database.ts:200 | `filter` by owner keeps no more projects than are stored |
| FileDatabase.ProjectsOfSpec | server/file-database.ts:198-201 | `filter` by owner: a project is kept iff it is stored and owned by the user |
| FileDatabase.OnlineCount | server/file-database.ts:221 | the online count is at most the number of users |
| FileDatabase.RecentCount | server/file-database.ts:222-224 | the count of projects younger than a day is at most the number of projects |
| FileDatabase.LoggedIn | server/file-database.ts:135-141 | a login keeps id, email, password, name and creation time, takes each given update and keeps each absent one, stamps the login time, adds one login and sets the user online |
| FileDatabase.Database.constructor | server/file-database.ts:48-59 | a missing `users.json` or `projects.json` starts as an empty list; a file that already exists keeps what it holds, readable or not |
| FileDatabase.Database.GetUsers | server/file-database.ts:68-79 | the parsed user list, or the empty list when the file cannot be read or parsed |
| FileDatabase.Database.GetProjects | server/file-database.ts:158-168 | the parsed project list, or the empty list when the file cannot be read or parsed |
| FileDatabase.Database.GetUserByEmail | server/file-database.ts:85-88 | a stored user with that email, or null only when no stored user has it |
| FileDatabase.Database.GetUserById | server/file-database.ts:90-93 | a stored user with that id, or null only when no stored user has it |
| FileDatabase.Database.CreateUser | server/file-database.ts:95-124 | the list written is the list read plus the new user at its end (logged in once, online, password hashed, fresh id, both times now); the projects are untouched |
| FileDatabase.Database.UpdateUserLogin | server/file-database.ts:126-144 | the first user with the id is replaced by its logged-in self and every other entry is kept; with no such user nothing is written; the projects are untouched |
| FileDatabase.Database.VerifyPassword | server/file-database.ts:146-155 | a user comes back iff the email is found and the hash of the password is the stored hash, and then it is that user |
| FileDatabase.Database.CreateProject | server/file-database.ts:174-196 | the list written is the list read plus the new project at its end, with a fresh id and the creation time; the users are untouched |
| FileDatabase.Database.GetUserProjects | server/file-database.ts:198-201 | exactly the stored projects owned by the user |
| FileDatabase.Database.GetProjectById | server/file-database.ts:203-206 | a stored project with that id, or null only when none has it |
| FileDatabase.Database.GetStats | server/file-database.ts:214-226 | the totals are the list lengths, the online and recent counts are the filters' counts and never exceed the totals |
| FileDatabase.FirstProject | server/file-database.ts:205 | `find` by project id: a stored project with the id, or none only when no project has it |
| FileDatabase.CreatedUserFound | server/file-database.ts:103-120 | after `createUser` with an unused id, lookup by id finds the new user; lookup by email finds the earlier user when the email was already taken (no duplicate check) and the new one otherwise |
| FileDatabase.IndexOfIdAppend | server/file-database.ts:119 | appending a user keeps an existing first index, and gives the new last index when the id was absent |
| FileDatabase.FindByEmailAppend | server/file-database.ts:119 | appending a user keeps an existing email match, and finds the new user when the email was absent |
| FileDatabase.LoginTouchesOne | server/file-database.ts:131-143 | a login keeps the list length and every other entry, lookup by id finds the updated user, with one more login and online |
| FileDatabase.IndexOfIdSameIds | server/file-database.ts:132 | two lists that agree on which entries carry the id have the same first index of it |
| FileDatabase.ProjectsOfAppend | server/file-database.ts:191-201 | a new project appears last in its owner's list and leaves other users' lists as they were |
| ViraajAuth.SecondPiece | server/viraaj-auth.ts:153 | `split(marker)[1]` is undefined exactly when the marker does not occur |
| ViraajAuth.ParseLine | server/viraaj-auth.ts:150-163 | a line gives a user only when it holds `USER_DATA:` and the email, and the name read is never empty; a line lacking either is passed over; under exact matching the user read has exactly the searched email |
| ViraajAuth.FindIn | server/viraaj-auth.ts:143-171 | a user found is the user read from one of the lines |
| ViraajAuth.FindInAfter | server/viraaj-auth.ts:149-165 | lines that are passed over do not change what the scan finds |
| ViraajAuth.FindInSkip | server/viraaj-auth.ts:149-165 | one line passed over is dropped from the scan |
| ViraajAuth.UserDataPrefixParts | server/viraaj-auth.ts:174 | the first field of a user line is the stamp, then `USER_DATA:`, then the id, with no separator in the stamp part |
| ViraajAuth.UserDataFieldsFree | server/viraaj-auth.ts:174 | no field of a storable user's line holds `\|` or a newline |
| ViraajAuth.UserDataLineParts | server/viraaj-auth.ts:151-174 | splitting a user line on `\|` gives back its six fields, and the line holds no newline |
| ViraajAuth.UserDataId | server/viraaj-auth.ts:153-174 | the text after `USER_DATA:` in the first field is the id |
| ViraajAuth.UserDataParsed | server/viraaj-auth.ts:150-174 | a user line that mentions the searched email reads back as the user written (exact matching also demands the email field be equal) |
| ViraajAuth.UserDataRoundTrip | server/viraaj-auth.ts:150-174 | a line written by `saveUser` reads back as the user it was written for |
| ViraajAuth.AppendedLines | server/viraaj-auth.ts:146-175 | appending a line and a newline to a file ending in a newline adds that line to the file's lines |
| ViraajAuth.FoundAfterSkipped | server/viraaj-auth.ts:149-165 | the first line that yields a user, after lines passed over, decides the scan |
| ViraajAuth.NoMatchPrefix | server/viraaj-auth.ts:149-165 | lines all passed over stay so in any prefix |
| ViraajAuth.RegisteredUserFound | server/viraaj-auth.ts:42-176 | after a registration on a file where no line matched the email, the scan by that email finds the registered user |
| ViraajAuth.LongerEmailMatches | server/viraaj-auth.ts:150 | as written, a search for a proper part of a stored email finds that other user |
| ViraajAuth.ExactEmailOnly | server/viraaj-auth.ts:150 | corrected, any user found has exactly the searched email |
| ViraajAuth.ShorterEmailNotFound | server/viraaj-auth.ts:150 | corrected, a proper part of a stored email no longer finds that user |
| ViraajAuth.RegisteredDeviceRemembered | server/viraaj-auth.ts:71-128 | after a registration the registering device is remembered |
| ViraajAuth.LoggedInDeviceRemembered | server/viraaj-auth.ts:104-128 | after a login the logging-in device is remembered |
| ViraajAuth.DevicePrefixRemembered | server/viraaj-auth.ts:128 | every prefix of a remembered device id is remembered too (substring check) |
| ViraajAuth.UsersFile.constructor | server/viraaj-auth.ts:24-38 | an existing file is kept; a missing one starts with the initialisation line |
| ViraajAuth.UsersFile.FindUserByEmail | server/viraaj-auth.ts:143-171 | the loop over the file's lines returns what the scan over those lines gives |
| ViraajAuth.UsersFile.Register | server/viraaj-auth.ts:42-82 | the file only grows; 400 "All fields required" or "Email already registered" leave it as it was; success iff all fields are given and the email is not found, and then exactly the user line and the registration line are appended |
| ViraajAuth.UsersFile.Login | server/viraaj-auth.ts:85-115 | the file only grows; 400 without email or password; success iff the user is found and the password hash matches, and then only a login line with the request's device is appended; 401 "Invalid credentials" leaves the file as it was |
| ViraajAuth.UsersFile.CheckDevice | server/viraaj-auth.ts:118-134 | remembered iff the header is given and the file mentions `DEVICE:` followed by it |
| GeminiChat.ProjectTypeByRules | server/gemini-chat.ts:236-246 | `getProjectType` is the first-match reading of its keyword table over the lower-cased prompt, with `Web Application` as fallback |
| GeminiChat.LaterProjectTypes | server/gemini-chat.ts:242-245 | once the first four groups are absent, the type is decided by the dashboard, portfolio and shop rules alone |
| GeminiChat.ArchitectureTypeByRules | server/gemini-chat.ts:260-268 | `getArchitectureType` is the first-match reading of its framework table, with the vanilla single-page application as fallback |
| GeminiChat.FileDescription | server/gemini-chat.ts:248-258 | the lower-cased text after the last dot `html`, `css`, `js`, `json` and `md` each give their own fixed sentence (for `html`, "Main application structure with embedded functionality"); any other extension gives "Application component" |
| GeminiChat.DescriptionCases | server/gemini-chat.ts:250-257 | the `switch` answers exactly the five listed extensions, each with its sentence, and nothing for any other |
| GeminiChat.DescriptionByExtension | server/gemini-chat.ts:249 | only the final extension counts: `base.ext` is described as `ext` is |
| GeminiChat.FunctionalityList | server/gemini-chat.ts:270-299 | the pushes give the three lines of every category the prompt mentions, in order, else the three default lines, joined by newlines |
| GeminiChat.FeatureCount | server/gemini-chat.ts:270-299 | three lines per matched category, and exactly the default three when none matches |
| GeminiChat.LocalResponseWithAnalysis | server/gemini-chat.ts:301-634 | a prompt mentioning `calc` gets the analysis and only `index.html`; any other prompt gets the analysis, the building section with the feature list, and no file; `hasFiles` and `filesCreated` are read off the files |
| GeminiChat.CalcCoversCalculator | server/gemini-chat.ts:328 | the `calculator` test adds nothing to the `calc` test |
| GeminiChat.GenerateGeminiResponse | server/gemini-chat.ts:54-234 | the model's report and created files when the call succeeds, otherwise the local analysis, whose only possible file is `index.html` exactly for `calc` prompts; `hasFiles` iff files were created |
| Keywords.AnyKeyword | server/gemini-natural-chat.ts:71-74 | `some(includes)` holds iff one of the keywords occurs in the text |
| Keywords.AnyOfOne | server/gemini-chat.ts:238 | a one-keyword group matches iff that keyword occurs |
| Keywords.AnyOfTwo | server/gemini-chat.ts:239 | a two-keyword group matches iff either keyword occurs |
| Keywords.FirstMatchIs | server/gemini-chat.ts:236-246 | a matching rule with no matching rule before it gives the label, whatever follows |
| Keywords.FirstMatchSkipped | server/gemini-chat.ts:236-246 | rules that do not match can be dropped from the front |
| Keywords.FirstMatchFallback | server/gemini-chat.ts:245 | with no rule matching the fallback is the label |
| Keywords.FirstMatchSound | server/gemini-chat.ts:236-246 | the label is the fallback or the label of some matching rule |
| NaturalChat.ProjectTypeByRules | server/gemini-natural-chat.ts:76-80 | the overwriting chain equals the first-match table read from its last test back (game, mobile, dashboard, api), `webapp` as fallback |
| NaturalChat.BuildRequestNotEmpty | server/gemini-natural-chat.ts:82-86 | a build request is a non-empty message, so the later truthiness test on `suggestedProject` (line 204) agrees with `wantsToBuild` |
| NaturalChat.TypedAsBuild | server/gemini-natural-chat.ts:71-80 | a message typed `api` or `dashboard` is always a build request |
| NaturalChat.HappyWantsToBuild | server/gemini-natural-chat.ts:72-74 | the substring test makes "happy" a build request |
| NaturalChat.JsonBlock | server/gemini-natural-chat.ts:147 | no match exactly when no opening ```` ```json ```` fence is followed by a closing fence; otherwise the body between the leftmost opening fence and the first closing fence after it |
| NaturalChat.JsonBlockOf | server/gemini-natural-chat.ts:147 | a body placed in the fence with backtick-free text before it is found again exactly |
| NaturalChat.GeminiNaturalChat.constructor | server/gemini-natural-chat.ts:28-37 | the client and both models exist iff an API key is given; ready iff the key is given |
| NaturalChat.GeminiNaturalChat.GenerateNaturalResponse | server/gemini-natural-chat.ts:39-91 | not initialized iff there is no model, failed iff the call fails; otherwise the answer, with the message as suggested project and its type exactly for a build request |
| NaturalChat.GeminiNaturalChat.GenerateCodeInBackground | server/gemini-natural-chat.ts:93-173 | each failure (no model, failed call, no JSON block, parse error, fewer than three files) exactly when its condition holds and the store is untouched; otherwise the files are stored under the fresh id and the preview URL is `/api/preview-files/{id}` |
| NaturalChat.GeminiNaturalChat.ProcessUserMessage | server/gemini-natural-chat.ts:175-227 | fails iff the conversational phase fails; otherwise the answer, and a background generation on the message and its type is started iff it is a build request |
| SharedChat.KindOf | shared/server/chat-routes.ts:5-345 | calculator iff the lower-cased prompt holds `calc`; todo iff not that and it holds `todo` or `task`; website iff neither and it holds `web` or `page` |
| SharedChat.IntroPlain | shared/server/chat-routes.ts:9 | the sentence before each page (this one and those at lines 195 and 346) holds no backtick |
| SharedChat.ChatIndex | shared/server/chat-routes.ts:455 | for a draw in [0, 1) the index is in the list and is the floor of draw times six |
| SharedChat.EveryLineReachable | shared/server/chat-routes.ts:446-455 | every chat line is picked by some draw |
| SharedChat.GenerateLocalResponse | shared/server/chat-routes.ts:4-456 | the reply is never empty, and a prompt of no code kind gets one of the six chat lines |
| SharedChat.OneBlockBetween | shared/server/chat-routes.ts:9-192 | an html block between backtick-free text is the only block found, at its place |
| SharedChat.CodeReplyBlocks | shared/server/chat-routes.ts:9-192 | each code reply holds exactly one fenced block, the html page, right after the sentence |
| SharedChat.ReplyBlocks | shared/server/chat-routes.ts:4-456 | any code request's reply holds exactly one block, its kind's page |
| Registration.First | server/index.ts:97-264 | Express dispatch: the route chosen is registered and matches, and none is chosen iff no registered route matches |
| Registration.FirstIsEarliest | server/index.ts:97-264 | the earliest matching route is the one chosen |
| Registration.FirstAppend | server/index.ts:251-264 | routes registered later are reached only when no earlier one matches |
| Registration.Shadows | server/index.ts:251-264 | a later route with the method and pattern of an earlier one is never chosen |
| Registration.Handler | server/index.ts:97-264 | a handler answers iff some registered route matches, and it is the handler of a matching route |
| Registration.NotFromPrefix | server/index.ts:251-264 | a route that is not in the front group and answers the whole list is the one the rest of the list chooses |
| Registration.PreviewFilesShadowed | server/routes.ts:52 | the preview-files route of `registerRoutes` never answers: the one at server/index.ts:226 comes first |
| Registration.AuthMeShadowed | server/simple-auth.ts:131 | the session `/api/auth/me` never answers: the users.txt one comes first |
| Registration.ChatShadowed | server/routes.ts:139 | the `/api/chat` of `registerRoutes` never answers: the local chat comes first |
| Registration.GeminiChatShadowed | server/routes.ts:223 | the `/api/gemini/chat` of `registerRoutes` never answers: the enhanced one comes first |
| Registration.NotInEarlyGroups | server/routes.ts:139-223 | the two shadowed chat routes belong to none of the groups registered before the chat routes |
| Registration.PassesOver | server/index.ts:251-264 | a group with no matching route passes the request on |
| Registration.TakenBy | server/index.ts:251-264 | a group with a matching route keeps the request |
| Registration.ChatHandler | server/chat-routes.ts:346 | `POST /api/chat` is answered by server/chat-routes.ts |
| Registration.EarlyGroupsPassChat | server/index.ts:97-252 | neither the server's own routes nor the users.txt routes match `POST /api/chat` |
| Registration.PreviewFilesHandler | server/index.ts:226 | `GET /api/preview-files/{id}` is answered by server/index.ts:226 |
| Registration.PreviewPathHandler | server/index.ts:149 | `GET /preview/{name}` is answered by server/index.ts:149 |

## Notes on the code

- **Paths after the language tag.** A `lang:path` block is dropped by the
  enhanced extractor as written (see Findings). The local chat extractor
  never reads a path at all.
- **Fallback file names.** Unnamed files are called `file{N}.{language}`,
  where `N` is one more than the number of blocks already emitted, so the
  numbering starts at one (`server/chat-routes.ts:326`,
  `server/enhanced-ai-api.ts:175`). TypeScript is in the name table of
  `server/enhanced-ai-api.ts` only.
- **Workspace guard.** The guard compares text prefixes, which lets a
  sibling directory through (see Findings).

## Left out

- Calls to language models, HTTP request and response plumbing, and
  logging. A model's answer, or its failure, is a parameter.
- The server-sent event stream of `/api/gemini/chat-stream`
  (`server/enhanced-chat-routes.ts:98-202`) and the `/api/enhanced-chat`
  handler. They only stream text that the modelled operations produce.
- Background completion. The `.then`/`.catch` of `processUserMessage`
  (`server/gemini-natural-chat.ts:207-223`) and of the background
  generation in `server/routes.ts:276-295` mutate a reply after it has been
  returned. The model states only what starts them.
- Timers. The `setInterval` that sweeps the session map is left out;
  `SessionTracker.Sweep` is the body it runs.
- `JSON.parse`, `crypto.randomUUID`, `nanoid`, SHA-256 and `Date`. They
  are parameters.
- The recursive disk scan `scanDirectory` (`server/index.ts:177-211`) and
  the manifest scan of `getProjectManifest`. Their results are parameters.
- `generateNaturalChat` (`server/gemini-chat.ts:636-659`). It only
  forwards to a model.
- Express details beyond pattern matching: case-insensitive paths, the
  optional trailing slash, URL decoding, and the Vite/static fallback
  registered after the routes.
- Never registered: `server/simple-preview.ts` and the second half of
  `server/routes.ts` (`setupRoutes`, 530 onwards) are not mounted by
  `server/index.ts`. `SimplePreview` models the former anyway. The latter
  is not part of this model.
- Not part of this model: `server/VIRAAJDATA.controller.ts`,
  `server/routes-backup.ts`, `server/preview-server.ts`,
  `server/gemini-tools.ts` and the client files. Of
  `server/simple-auth.ts`, only the routes it registers are modelled, not
  their bodies.
- Text: `toLowerCase` folds ASCII letters only. A byte limit is read as
  a limit on characters, which agrees with the source for ASCII text.
- Object keys: JavaScript lists integer-like keys first. The model keeps
  plain insertion order, and keys inherited from `Object.prototype` are
  not modelled.
- Disk and file errors beyond those the modelled code catches. Examples
  are a failed write in `server/file-database.ts` and the 500 replies of
  `server/viraaj-auth.ts`.
- SharedChat.GenerateLocalResponse: the contract does not show that the
  six chat lines are free of backticks. `SharedChat.ReplyBlocks` covers
  only the code replies.
- GeminiChat.GenerateGeminiResponse: the success report is taken as
  given. The markdown the source assembles around the project type, the
  file descriptions and the feature list is not spelled out. Each of
  those parts is modelled on its own.
- ViraajAuth.UsersFile.Register and ViraajAuth.UsersFile.Login look the
  email up with the corrected exact match, not the substring match as
  written (see Findings). `ViraajAuth.LongerEmailMatches` keeps the
  as-written behaviour.
- Directories. `FileService.Disk` holds only file contents by path, so
  `ensureWorkspace` (`server/file-service.ts:21-27`) and the `mkdir` calls
  of `createFile` and `createFolder` change nothing in the model, and
  whether a directory exists is not modelled: `ListDirectory` is given the
  `readdir` result.
- FileService.FileService.CreateFile uses the corrected segment guard
  `Workspace.ResolvePath`, not the textual `startsWith` test of
  `server/file-service.ts:34`, so it refuses a sibling path such as
  `../p10/notes.txt` under the root `/srv/ai-workspace/p1`, which the
  source accepts (see Findings).
- FileService.FileService.UpdateFile uses the corrected segment guard in
  the same way and refuses the same sibling paths.
- FileService.FileService.ReadFile uses the corrected segment guard in
  the same way and refuses the same sibling paths.
- FileService.FileService.ListDirectory uses the corrected segment guard
  in the same way and refuses the same sibling paths.
- FileService.FileService.CreateFolder uses the corrected segment guard
  in the same way and refuses the same sibling paths.
- Interleaving. Every method of the model runs to completion on its own.
  In the source, `createUser` and `updateUserLogin`
  (`server/file-database.ts:103-120`, `server/file-database.ts:131-143`)
  read the user list, await, then write it back, so two overlapping calls
  can lose one update. `/api/gemini/chat`
  (`server/enhanced-chat-routes.ts:28-73`) stores the session, awaits the
  model, then appends to the history, so overlapping requests on one
  session can interleave their turns.
- The Gemini chat service. `geminiChat` is imported by
  `server/enhanced-chat-routes.ts:2` and `server/routes.ts:7`, but
  `server/gemini-chat.ts` exports only `generateGeminiResponse` (line 54)
  and `generateNaturalChat` (line 636), and it throws while loading when
  `GEMINI_API_KEY` is unset (lines 4-6). The `ready` and `reply`
  parameters of `ChatSessions.SessionTracker.Chat` stand for a service
  with `isReady` and `generateResponse` that the source does not define.
- The outer `catch` of `/api/chat` (`server/routes.ts:194-219`), reached
  only when something outside the inner `try` blocks throws, such as
  `generateLocalFiles` itself: it regenerates the local
  files, stores them under `project-fallback-{now}` and answers "I've
  created a working application for you!", or "I've created files for
  you!" with a null `previewUrl` when storing fails. `Routes.ApiChat` does
  not model it.
- EnhancedAi.GenerateProject and everything downstream use the corrected
  extractor `EnhancedAi.ExtractFilesCorrected`.
- `server/enhanced-ai-api.ts` does not parse as written: the class opened
  at line 18 is never closed, and `export class EnhancedAI` at line 194
  sits inside it. So the dynamic import at `server/routes.ts:153` always
  throws and `/api/chat` always answers with the local fallback;
  `Routes.ApiChat` with `generated == None` is that case. The module is
  modelled for what its methods evidently mean to do.

## Findings

| source | as written | input that shows it | evidently intended | confidence | as-written member | corrected member |
|---|---|---|---|---|---|---|
| server/enhanced-ai-api.ts:171-190 | the store and the counter sit inside the `else` of the path test, so a block with a `:path` header is never stored, and `return files` sits inside the `while`, so only the first block is looked at (and nothing is returned when there is no block) | "```ts:a.ts\nlet x = 1;\n```" gives no file; "```html\nA\n``````css\nB\n```" gives only `index.html` | every block stored, under its header's path when it has one | high, not executed | EnhancedAi.ExtractFilesFromResponse, EnhancedAi.PathBlockDropped, EnhancedAi.SecondBlockIgnored | EnhancedAi.ExtractFilesCorrected, EnhancedAi.PathBlockStored, EnhancedAi.OnlyFirstBlockStored |
| server/file-service.ts:34 | the guard tests `resolved.startsWith(workspaceRoot)` on text, so a sibling directory sharing the prefix passes | root `/srv/ai-workspace/p1`, path `../p10/notes.txt` resolves to `/srv/ai-workspace/p10/notes.txt` and is accepted | only paths whose segments start with the root's segments | high, not executed | Workspace.ResolvePathAsWritten, Workspace.SiblingWorkspaceExample | Workspace.ResolvePath, Workspace.SiblingEscapes, Workspace.CorrectedIsStricter |
| server/viraaj-auth.ts:150 | a user line matches when it contains the email anywhere, so a shorter email matches a longer stored one | with `ab@x.io` stored, registering `b@x.io` answers "Email already registered", and logging in as `b@x.io` checks `ab@x.io`'s password | the email field equal to the searched email | high, not executed | ViraajAuth.LongerEmailMatches | ViraajAuth.ExactEmailOnly, ViraajAuth.ShorterEmailNotFound |
