/** The handlers server/index.ts defines itself: the request-log line cut,
    `POST /api/files/create` with its target-path rules, the type table of
    the file listing, and the `/api/preview-files/:projectId` selection,
    which is registered before, and so shadows, the one in server/routes.ts. */
module ServerIndex {
  import opened Common
  import opened Records
  import opened PosixPath
  import opened Workspace
  import opened PreviewPages
  import opened FileService

  /** The longest logged request line. */
  const MaxLogLine: nat := 80

  /** A log line longer than 80 characters keeps its first 79 and ends
      in `…`. */
  function TruncateLog(line: string): (r: string)
    ensures |r| <= MaxLogLine
    ensures |line| <= MaxLogLine ==> r == line
    ensures |line| > MaxLogLine ==> |r| == MaxLogLine && StartsWith(line, r[..MaxLogLine - 1])
  {
    if |line| > MaxLogLine then line[..MaxLogLine - 1] + "…" else line
  }

  /** Cutting a cut line again changes nothing. */
  lemma TruncateIdempotent(line: string)
    ensures TruncateLog(TruncateLog(line)) == TruncateLog(line)
  {
  }

  /** Where `/api/files/create` puts a file, stated rule by rule with the
      later rules of the handler taking precedence: a `.css` file goes to
      `src/styles/`, an `.html` file and the three configuration files stay
      where they are, a bare `.ts` file goes to `server/`,
      `client/src/components/` or `src/`, and anything else stays. */
  function TargetRule(fileName: string): string {
    if EndsWith(fileName, ".css") then "src/styles/" + fileName
    else if EndsWith(fileName, ".html") then fileName
    else if fileName == "vite.config.ts" || fileName == "tsconfig.json" || fileName == "package.json" then fileName
    else if EndsWith(fileName, ".ts") && '/' !in fileName then
      if fileName == "index.ts" || Contains(fileName, "server") then "server/" + fileName
      else if Contains(fileName, "component") || EndsWith(fileName, ".tsx") then "client/src/components/" + fileName
      else "src/" + fileName
    else fileName
  }

  /** The handler's own sequence of reassignments of `targetPath`. */
  method TargetPath(fileName: string) returns (targetPath: string)
    ensures targetPath == TargetRule(fileName)
  {
    targetPath := fileName;
    if EndsWith(fileName, ".ts") && '/' !in fileName {
      if fileName == "index.ts" || Contains(fileName, "server") {
        targetPath := "server/" + fileName;
      } else if Contains(fileName, "component") || EndsWith(fileName, ".tsx") {
        targetPath := "client/src/components/" + fileName;
      } else {
        targetPath := "src/" + fileName;
      }
    }
    if fileName == "package.json" {
      targetPath := "package.json";
    }
    if fileName == "tsconfig.json" {
      targetPath := "tsconfig.json";
    }
    if fileName == "vite.config.ts" {
      targetPath := "vite.config.ts";
    }
    if EndsWith(fileName, ".html") {
      targetPath := fileName;
    }
    if EndsWith(fileName, ".css") {
      targetPath := "src/styles/" + fileName;
    }
  }

  /** A name ending in `.ts` never ends in `.tsx`, so the `.tsx` test inside
      the `.ts` branch never holds. */
  lemma TsIsNotTsx(fileName: string)
    requires EndsWith(fileName, ".ts")
    ensures !EndsWith(fileName, ".tsx")
  {
    assert fileName[|fileName| - 1] == 's';
  }

  /** A `.tsx` file is never moved, in particular never into
      `client/src/components/`. */
  lemma TsxStays(fileName: string)
    requires EndsWith(fileName, ".tsx")
    ensures TargetRule(fileName) == fileName
  {
    assert !EndsWith(fileName, ".ts") by {
      assert fileName[|fileName| - 1] == 'x';
    }
    assert !EndsWith(fileName, ".css") by {
      assert fileName[|fileName| - 1] == 'x';
    }
    assert !EndsWith(fileName, ".html") by {
      assert fileName[|fileName| - 1] == 'x';
    }
  }

  /** A bare `.ts` name mentioning `server` goes to `server/`, even when it
      also mentions `component`. */
  lemma ServerBeatsComponent(fileName: string)
    requires EndsWith(fileName, ".ts") && '/' !in fileName && Contains(fileName, "server")
    requires fileName != "vite.config.ts"
    ensures TargetRule(fileName) == "server/" + fileName
  {
    assert !EndsWith(fileName, ".css") && !EndsWith(fileName, ".html") by {
      assert fileName[|fileName| - 1] == 's';
      assert fileName[|fileName| - 2] == 't';
    }
  }

  /** The project directory of a request: `cwd/ai-generated/{projectId}`,
      or `…/default-project`. */
  function ProjectDir(cwd: string, projectId: Option<string>): (dir: string)
    ensures StartsWith(dir, "/")
  {
    JoinPath(JoinPath(cwd, "ai-generated"),
             if projectId.Some? && projectId.value != [] then projectId.value else "default-project")
  }

  /** The reply of `POST /api/files/create`. */
  datatype CreateReply =
    | BadRequest(error: string)   // status 400
    | FileWritten(fileName: string, path: string, projectId: Option<string>)

  /** `POST /api/files/create`: 400 without a non-empty `fileName` or without
      `content` (empty content is accepted); otherwise the content is written
      at the target path under the project directory. */
  method CreateAiFile(disk: Disk, cwd: string, fileName: Option<string>, content: Option<string>,
                      projectId: Option<string>) returns (r: CreateReply)
    modifies disk
    ensures r.BadRequest? <==> fileName.None? || fileName.value == [] || content.None?
    ensures r.BadRequest? ==> r.error == "fileName and content are required" && disk.files == old(disk.files)
    ensures r.FileWritten? ==>
              r.fileName == TargetRule(fileName.value) &&
              r.path == JoinPath(ProjectDir(cwd, projectId), r.fileName) &&
              r.projectId == projectId &&
              disk.files == old(disk.files)[r.path := content.value]
  {
    if fileName.None? || fileName.value == [] || content.None? {
      return BadRequest("fileName and content are required");
    }
    var targetPath := TargetPath(fileName.value);
    var fullFilePath := JoinPath(ProjectDir(cwd, projectId), targetPath);
    disk.files := disk.files[fullFilePath := content.value];
    r := FileWritten(targetPath, fullFilePath, projectId);
  }

  /** The type the file listing gives a lower-cased extension. */
  function ListingType(ext: string): string {
    if ext == ".html" then "html"
    else if ext == ".css" then "css"
    else if ext == ".js" || ext == ".jsx" then "javascript"
    else if ext == ".ts" || ext == ".tsx" then "typescript"
    else if ext == ".py" then "python"
    else if ext == ".json" then "json"
    else "text"
  }

  /** On the extensions the listing knows, it agrees with the file
      service's `getFileType`; it has no entry for `.md`, which the file
      service calls `markdown`. */
  lemma ListingTypeAgrees(ext: string)
    requires ext in [".html", ".css", ".js", ".jsx", ".ts", ".tsx", ".py", ".json"]
    ensures ListingType(ext) == TypeForExt(ext) != "text"
  {
  }

  lemma ListingTypeOfMarkdown()
    ensures ListingType(".md") == "text" && TypeForExt(".md") == "markdown"
  {
  }

  /** The index of the first name ending in `.html`. */
  function FirstHtml(names: seq<string>): (r: Option<nat>)
    ensures r.Some? ==> r.value < |names| && EndsWith(names[r.value], ".html")
    ensures r.Some? ==> forall j :: 0 <= j < r.value ==> !EndsWith(names[j], ".html")
    ensures r.None? ==> forall j :: 0 <= j < |names| ==> !EndsWith(names[j], ".html")
  {
    if names == [] then None
    else if EndsWith(names[0], ".html") then Some(0)
    else match FirstHtml(names[1..])
      case None => None
      case Some(i) => Some(i + 1)
  }

  /** `GET /api/preview-files/:projectId` of server/index.ts: 404 for an
      unknown project; `index.html` first; else the first file, in key
      order, whose name ends in `.html`; else a JSON error listing every
      file (not a 404). */
  function IndexPreviewFiles(files: Option<Files>): (r: PreviewReply)
    ensures r.NotFound? <==> files.None?
    ensures r.NotFound? ==> r.message == ProjectNotFound
    ensures files.Some? && IndexHtml in Keys(files.value) ==> r == Html(Get(files.value, IndexHtml).value.content)
    ensures r.NoHtml? <==> files.Some? && forall i :: 0 <= i < |files.value| ==> !EndsWith(files.value[i].0, ".html")
    ensures r.NoHtml? ==> r.availableFiles == Keys(files.value)
    ensures r.Html? || r.NotFound? || r.NoHtml?
  {
    match files
    case None => NotFound(ProjectNotFound)
    case Some(fs) =>
      match Get(fs, IndexHtml)
      case Some(index) => Html(index.content)
      case None =>
        match FirstHtml(Keys(fs))
        case Some(i) => Html(Get(fs, Keys(fs)[i]).value.content)
        case None =>
          assert forall i :: 0 <= i < |fs| ==> !EndsWith(Keys(fs)[i], ".html");
          NoHtml(Keys(fs))
  }

  /** Without `index.html`, the first `.html` file in key order is served,
      whatever follows it. */
  lemma FirstHtmlServed(files: Files, i: nat)
    requires UniqueKeys(files)
    requires IndexHtml !in Keys(files)
    requires i < |files| && EndsWith(files[i].0, ".html")
    requires forall j :: 0 <= j < i ==> !EndsWith(files[j].0, ".html")
    ensures IndexPreviewFiles(Some(files)) == Html(files[i].1.content)
  {
    var k := FirstHtml(Keys(files));
    assert EndsWith(Keys(files)[i], ".html");
    assert forall j :: 0 <= j < i ==> !EndsWith(Keys(files)[j], ".html");
    assert k == Some(i);
    GetAt(files, i);
  }
}
