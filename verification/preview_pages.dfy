/** The read-only preview responders shared by server/routes.ts and
    server/simple-preview.ts: the page for a project (its `index.html`, else
    a listing of its files), a single file with a Content-Type chosen from
    its extension, and the project-files listing. A listing page is
    modelled by its title and its links; the surrounding markup is fixed
    text. */
module PreviewPages {
  import opened Common
  import opened Records
  import opened PosixPath

  datatype Link = Link(href: string, text: string)

  /** What a responder sends. */
  datatype PreviewReply =
    | NotFound(message: string)                      // status 404, plain text
    | Html(content: string)                          // Content-Type text/html
    | FileListing(title: string, links: seq<Link>)   // the generated listing page
    | NoHtml(availableFiles: seq<string>)            // JSON { error: 'No HTML file found', availableFiles }
    | Served(contentType: string, content: string)   // one file

  const IndexHtml := "index.html"
  const ProjectNotFound := "Project not found"
  const FileNotFound := "File not found"

  /** One link per name, in order: `<a href="{base}{name}">{name}</a>`. */
  function ListingLinks(base: string, names: seq<string>): (links: seq<Link>)
    ensures |links| == |names|
    ensures forall i :: 0 <= i < |names| ==> links[i].text == names[i] && links[i].href == base + names[i]
  {
    if names == [] then [] else [Link(base + names[0], names[0])] + ListingLinks(base, names[1..])
  }

  /** `GET …/:projectId`: 404 for an unknown project, its `index.html`
      when it has one, else a page titled `Preview - {id}` linking
      `{linkBase}{id}/{name}` for every file. */
  function PreviewPage(projectId: string, files: Option<Files>, linkBase: string): (r: PreviewReply)
    ensures r.NotFound? <==> files.None?
    ensures files.Some? && IndexHtml in Keys(files.value) ==> r == Html(Get(files.value, IndexHtml).value.content)
    ensures files.Some? && IndexHtml !in Keys(files.value) ==> r.FileListing? && r.title == "Preview - " + projectId
    ensures r.FileListing? ==>
              (|r.links| == |files.value| &&
               forall i :: 0 <= i < |files.value| ==>
                 r.links[i] == Link(linkBase + projectId + "/" + files.value[i].0, files.value[i].0))
  {
    match files
    case None => NotFound(ProjectNotFound)
    case Some(fs) =>
      match Get(fs, IndexHtml)
      case Some(index) => Html(index.content)
      case None => FileListing("Preview - " + projectId, ListingLinks(linkBase + projectId + "/", Keys(fs)))
  }

  /** The listing of server/routes.ts:52-89 links under this prefix. */
  const ApiPreviewBase := "/api/preview-files/"

  /** The listing of server/simple-preview.ts:26-65 links under this prefix. */
  const SimplePreviewBase := "/preview/"

  /** The Content-Type for an extension written without its dot
      (server/routes.ts:102-110), `text/plain` when it is not listed. */
  function MimeForExt(ext: string): string {
    match ext
    case "html" => "text/html"
    case "css" => "text/css"
    case "js" => "application/javascript"
    case "json" => "application/json"
    case "png" => "image/png"
    case "jpg" => "image/jpeg"
    case "svg" => "image/svg+xml"
    case _ => "text/plain"
  }

  /** The same table keyed by `extname`, dot included
      (server/simple-preview.ts:80-88). */
  function MimeForDotExt(ext: string): string {
    match ext
    case ".html" => "text/html"
    case ".css" => "text/css"
    case ".js" => "application/javascript"
    case ".json" => "application/json"
    case ".png" => "image/png"
    case ".jpg" => "image/jpeg"
    case ".svg" => "image/svg+xml"
    case _ => "text/plain"
  }

  /** server/routes.ts: the lower-cased text after the last `.`. */
  function ApiContentType(fileName: string): string {
    MimeForExt(ToLower(AfterLast(fileName, '.')))
  }

  /** server/simple-preview.ts: the lower-cased `path.extname`. */
  function SimpleContentType(fileName: string): string {
    MimeForDotExt(ToLower(Extname(fileName)))
  }

  /** The two tables hold the same entries, one with and one without the
      dot. */
  lemma DotTableAgrees(ext: string)
    ensures MimeForDotExt("." + ext) == MimeForExt(ext)
  {
    if ext == "html" || ext == "css" || ext == "js" || ext == "json" || ext == "png" || ext == "jpg" || ext == "svg" {
      DotTableListed(ext);
    } else {
      DotTableUnlisted(ext);
    }
  }

  lemma DotTableListed(ext: string)
    requires ext == "html" || ext == "css" || ext == "js" || ext == "json" || ext == "png" || ext == "jpg" || ext == "svg"
    ensures MimeForDotExt("." + ext) == MimeForExt(ext)
  {
    var d := "." + ext;
    if ext == "html" { assert d == ".html"; }
    else if ext == "css" { assert d == ".css"; }
    else if ext == "js" { assert d == ".js"; }
    else if ext == "json" { assert d == ".json"; }
    else if ext == "png" { assert d == ".png"; }
    else if ext == "jpg" { assert d == ".jpg"; }
    else { assert d == ".svg"; }
  }

  lemma DotTableUnlisted(ext: string)
    requires ext != "html" && ext != "css" && ext != "js" && ext != "json" && ext != "png" && ext != "jpg" && ext != "svg"
    ensures MimeForDotExt("." + ext) == "text/plain" == MimeForExt(ext)
  {
    DotKey(ext, "html");
    DotKey(ext, "css");
    DotKey(ext, "js");
    DotKey(ext, "json");
    DotKey(ext, "png");
    DotKey(ext, "jpg");
    DotKey(ext, "svg");
    DotUnlisted("." + ext);
  }

  lemma DotUnlisted(d: string)
    requires d != ".html" && d != ".css" && d != ".js" && d != ".json" && d != ".png" && d != ".jpg" && d != ".svg"
    ensures MimeForDotExt(d) == "text/plain"
  {
  }

  lemma DotKey(ext: string, key: string)
    ensures "." + ext == "." + key <==> ext == key
  {
    if "." + ext == "." + key {
      assert ext == ("." + ext)[1..] == ("." + key)[1..] == key;
    }
  }

  lemma LowerDot(ext: string)
    ensures ToLower("." + ext) == "." + ToLower(ext)
  {
    assert forall i :: 0 <= i < |ext| ==> ("." + ext)[i + 1] == ext[i];
  }

  /** For a name `stem.ext` with a proper stem both responders send the same
      Content-Type. */
  lemma ContentTypesAgree(stem: string, ext: string)
    requires stem != [] && stem != "." && '/' !in stem
    requires '.' !in ext && '/' !in ext
    ensures ApiContentType(stem + "." + ext) == SimpleContentType(stem + "." + ext)
  {
    AfterLastOf(stem, '.', ext);
    ExtnameOf(stem, ext);
    LowerDot(ext);
    DotTableAgrees(ToLower(ext));
  }

  /** They part ways on a dot file such as `.html`: server/routes.ts looks
      up the text after the dot (`.html` is sent as `text/html`), while
      `extname` of a dot file is empty, so server/simple-preview.ts sends
      `text/plain`. */
  lemma DotFileContentTypes(ext: string)
    requires ext != [] && '.' !in ext && '/' !in ext
    ensures ApiContentType("." + ext) == MimeForExt(ToLower(ext))
    ensures SimpleContentType("." + ext) == "text/plain"
  {
    AfterLastOf("", '.', ext);
    assert "" + ['.'] + ext == "." + ext;
    var name := "." + ext;
    assert name[1..] == ext;
    NoDotNoExtname(name);
    assert ToLower("") == "";
  }

  /** `GET /preview/:projectId/:fileName`: 404 unless the project holds the
      file, else the file's content with the given Content-Type. */
  function ServeFile(files: Option<Files>, fileName: string, contentType: string): (r: PreviewReply)
    ensures r.NotFound? <==> files.None? || fileName !in Keys(files.value)
    ensures r.NotFound? ==> r.message == FileNotFound
    ensures r.Served? ==> r == Served(contentType, Get(files.value, fileName).value.content)
  {
    if files.None? || Get(files.value, fileName).None? then NotFound(FileNotFound)
    else Served(contentType, Get(files.value, fileName).value.content)
  }

  /** One entry of `/api/project-files/:projectId`. */
  datatype FileInfo = FileInfo(path: string, content: string, language: string, size: nat)

  /** `Object.entries(files).map(...)`: one entry per stored path, in
      order, its size the content's length. */
  function FileInfos(files: Files): (infos: seq<FileInfo>)
    ensures |infos| == |files|
    ensures forall i :: 0 <= i < |files| ==>
              infos[i].path == files[i].0 && infos[i].content == files[i].1.content &&
              infos[i].language == files[i].1.language && infos[i].size == |files[i].1.content|
  {
    if files == [] then []
    else [FileInfo(files[0].0, files[0].1.content, files[0].1.language, |files[0].1.content|)] + FileInfos(files[1..])
  }

  /** The reply of `/api/project-files/:projectId`. */
  datatype ProjectFilesReply =
    | ProjectFiles(files: seq<FileInfo>, projectId: string)
    | ProjectMissing   // status 404, { success: false, error: 'Project not found' }

  function ProjectFileList(projectId: string, files: Option<Files>): (r: ProjectFilesReply)
    ensures r.ProjectMissing? <==> files.None?
    ensures r.ProjectFiles? ==> r.projectId == projectId && |r.files| == |files.value|
  {
    match files
    case None => ProjectMissing
    case Some(fs) => ProjectFiles(FileInfos(fs), projectId)
  }

  /** The listed paths are exactly the stored keys, in order. */
  lemma ProjectFilePaths(projectId: string, files: Files)
    ensures var r := ProjectFileList(projectId, Some(files));
      seq(|r.files|, i requires 0 <= i < |r.files| => r.files[i].path) == Keys(files)
  {
  }

  /** The reply of `/api/gemini/code-status/:projectId`. */
  datatype CodeStatus = Completed(files: Files, previewUrl: string) | InProgress(message: string)

  function CodeStatusOf(projectId: string, files: Option<Files>): (r: CodeStatus)
    ensures r.Completed? <==> files.Some?
    ensures r.Completed? ==> r.files == files.value && r.previewUrl == ApiPreviewBase + projectId
  {
    match files
    case Some(fs) => Completed(fs, ApiPreviewBase + projectId)
    case None => InProgress("Still generating your code...")
  }
}
