/** The pure part of server/file-service.ts: where a workspace lives, how a
    relative path is resolved and checked against it, and the two
    extension tables.

    `resolvePath` accepts a path when the resolved text starts with the
    workspace root. That is a textual test: the root `/srv/ai-workspace/p1`
    also accepts `/srv/ai-workspace/p10/notes.txt`, which lies in a sibling
    workspace. `ResolvePathAsWritten` models the code as it stands and
    `ResolvePath`, used by the file service, the evident intent: the
    resolved path is the root or lies below it. */
module Workspace {
  import opened Common
  import opened Records
  import opened PosixPath

  /** The directory under the working directory that holds every workspace. */
  const WorkspaceDir := "ai-workspace"

  /** The id of a workspace: the given one, or `default` when it is missing
      or empty. */
  function ProjectIdOf(workspaceId: Option<string>): (id: string)
    ensures id != []
    ensures workspaceId.Some? && workspaceId.value != [] ==> id == workspaceId.value
  {
    if workspaceId.Some? && workspaceId.value != [] then workspaceId.value else "default"
  }

  /** `path.join(path.join(cwd, "ai-workspace"), id)` */
  function WorkspaceRoot(cwd: string, workspaceId: Option<string>): (root: string)
    ensures StartsWith(root, "/")
  {
    JoinPath(JoinPath(cwd, WorkspaceDir), ProjectIdOf(workspaceId))
  }

  /** `resolvePath` as written: the resolved path, or a traversal error
      (`None`) unless its text starts with the root. */
  function ResolvePathAsWritten(root: string, rel: string): (r: Option<string>)
    ensures r.Some? ==> StartsWith(r.value, root) && StartsWith(r.value, "/")
  {
    var p := Resolve(root, rel);
    if StartsWith(p, root) then Some(p) else None
  }

  /** `resolvePath` with the containment test the code means. */
  function ResolvePath(root: string, rel: string): (r: Option<string>)
    ensures r.Some? ==> Within(r.value, root) && StartsWith(r.value, "/")
  {
    var p := Resolve(root, rel);
    if Within(p, root) then Some(p) else None
  }

  /** Splitting an absolute path gives an empty first part and then its
      segments. */
  lemma PathSplit(segs: seq<string>)
    requires AllPlain(segs) && |segs| >= 1
    ensures Split(PathOf(segs), '/') == [""] + segs
  {
    SplitFirstPart("", Join(segs, "/"), '/');
    assert PathOf(segs) == "" + "/" + Join(segs, "/");
    SplitJoin(segs, '/');
  }

  /** Normalising `root + "/" + name` appends the name as one segment. */
  lemma NormalizeAppend(segs: seq<string>, name: string)
    requires AllPlain(segs) && |segs| >= 1 && Plain(name)
    ensures JoinPath(PathOf(segs), name) == PathOf(segs + [name])
  {
    var p := PathOf(segs) + "/" + name;
    AppendSplit(segs, name);
    assert Walk([], [""] + segs + [name]) == segs + [name] by {
      assert ([""] + segs + [name])[1..] == segs + [name];
      WalkAppends([], segs + [name]);
    }
    assert !EndsWith(p, "/") by {
      assert p[|p| - 1] == name[|name| - 1];
    }
  }

  lemma AppendSplit(segs: seq<string>, name: string)
    requires AllPlain(segs) && |segs| >= 1 && Plain(name)
    ensures Split(PathOf(segs) + "/" + name, '/') == [""] + segs + [name]
  {
    var p := PathOf(segs) + "/" + name;
    assert p == "" + "/" + (Join(segs, "/") + "/" + name);
    SplitFirstPart("", Join(segs, "/") + "/" + name, '/');
    SplitAfterJoin(segs, name);
    SplitJoin([name], '/');
  }

  /** The workspace of `id` under the working directory `cwd` is
      `cwd/ai-workspace/id`; without an id it is `cwd/ai-workspace/default`. */
  lemma WorkspaceRootOf(cwd: seq<string>, workspaceId: Option<string>)
    requires AllPlain(cwd) && |cwd| >= 1
    requires workspaceId.Some? ==> Plain(workspaceId.value)
    ensures WorkspaceRoot(PathOf(cwd), workspaceId) == PathOf(cwd + [WorkspaceDir, ProjectIdOf(workspaceId)])
  {
    NormalizeAppend(cwd, WorkspaceDir);
    assert AllPlain(cwd + [WorkspaceDir]);
    NormalizeAppend(cwd + [WorkspaceDir], ProjectIdOf(workspaceId));
    assert cwd + [WorkspaceDir] + [ProjectIdOf(workspaceId)] == cwd + [WorkspaceDir, ProjectIdOf(workspaceId)];
  }

  /** A relative path is read from the root's own segments. */
  lemma ResolveFromRoot(root: seq<string>, rel: string)
    requires AllPlain(root) && |root| >= 1 && !StartsWith(rel, "/")
    ensures ResolvedSegments(PathOf(root), rel) == Walk(root, Split(rel, '/'))
  {
    var base := Walk([], Split(PathOf(root), '/'));
    assert base == root by {
      PathSplit(root);
      var parts := [""] + root;
      assert parts[0] == "" && parts[1..] == root;
      assert Walk([], parts) == Walk(Step([], ""), root);
      WalkAppends([], root);
      assert [] + root == root;
    }
  }

  /** Accepted exactly when the resolved segments begin with the root's:
      the corrected check keeps every accepted path inside the workspace. */
  lemma ResolvePathInside(root: seq<string>, rel: string)
    requires AllPlain(root) && |root| >= 1
    ensures var segs := ResolvedSegments(PathOf(root), rel);
      ResolvePath(PathOf(root), rel).Some? <==> |root| <= |segs| && segs[..|root|] == root
  {
    WithinIffPrefix(root, ResolvedSegments(PathOf(root), rel));
  }

  /** A relative path of plain segments is accepted and names the file
      below the root, by both checks. */
  lemma RelativeAccepted(root: seq<string>, rel: seq<string>)
    requires AllPlain(root) && |root| >= 1
    requires AllPlain(rel) && |rel| >= 1
    ensures ResolvePath(PathOf(root), Join(rel, "/")) == Some(PathOf(root + rel))
    ensures ResolvePathAsWritten(PathOf(root), Join(rel, "/")) == Some(PathOf(root + rel))
  {
    var r := Join(rel, "/");
    RelativeSegments(root, rel);
    PrefixWithin(root, root + rel);
    CorrectedIsStricter(PathOf(root), r);
  }

  /** A relative path of plain segments resolves to the root's segments
      followed by its own. */
  lemma RelativeSegments(root: seq<string>, rel: seq<string>)
    requires AllPlain(root) && |root| >= 1
    requires AllPlain(rel) && |rel| >= 1
    ensures ResolvedSegments(PathOf(root), Join(rel, "/")) == root + rel
  {
    var r := Join(rel, "/");
    RelativeText(rel);
    ResolveFromRoot(root, r);
    assert Walk(root, Split(r, '/')) == root + rel by {
      SplitJoin(rel, '/');
      WalkAppends(root, rel);
    }
  }

  /** A path joined from plain segments does not start with `/`. */
  lemma RelativeText(rel: seq<string>)
    requires AllPlain(rel) && |rel| >= 1
    ensures !StartsWith(Join(rel, "/"), "/")
  {
    var r := Join(rel, "/");
    var first := rel[0];
    assert Plain(first);
    assert first[0] != '/' by { assert first[0] in first; }
    JoinStartsWithFirst(rel, "/");
    assert r[0] == first[0] by { assert r[..|first|] == first; }
  }

  /** A join begins with its first part. */
  lemma JoinStartsWithFirst(parts: seq<string>, sep: string)
    requires |parts| >= 1
    ensures StartsWith(Join(parts, sep), parts[0])
  {
    if |parts| > 1 {
      var r := Join(parts, sep);
      assert r == parts[0] + (sep + Join(parts[1..], sep));
      assert r[..|parts[0]|] == parts[0];
    }
  }

  /** Whatever the corrected check accepts, the check as written accepts. */
  lemma CorrectedIsStricter(root: string, rel: string)
    ensures ResolvePath(root, rel).Some? ==> ResolvePathAsWritten(root, rel) == ResolvePath(root, rel)
  {
  }

  /** As written, `../{sib}/{name}` from a root whose last segment is a
      proper prefix of `sib` is accepted, although it lies outside the root;
      the corrected check rejects it. */
  lemma SiblingEscapes(parent: seq<string>, last: string, sib: string, name: string)
    requires AllPlain(parent) && |parent| >= 1
    requires Plain(last) && Plain(sib) && Plain(name)
    requires StartsWith(sib, last) && sib != last
    ensures var root := PathOf(parent + [last]);
      var rel := "../" + sib + "/" + name;
      ResolvePathAsWritten(root, rel) == Some(PathOf(parent + [sib, name])) &&
      ResolvePath(root, rel) == None
  {
    var rootSegs := parent + [last];
    var segs := parent + [sib, name];
    SiblingSegments(parent, last, sib, name);
    SiblingTextPrefix(parent, last, sib, name);
    assert AllPlain(rootSegs) && AllPlain(segs);
    WithinIffPrefix(rootSegs, segs);
    assert segs[..|rootSegs|][|parent|] == sib;
  }

  /** `../{sib}/{name}` read from `parent/last` is `parent/sib/name`. */
  lemma SiblingSegments(parent: seq<string>, last: string, sib: string, name: string)
    requires AllPlain(parent) && |parent| >= 1
    requires Plain(last) && Plain(sib) && Plain(name)
    ensures ResolvedSegments(PathOf(parent + [last]), "../" + sib + "/" + name) == parent + [sib, name]
  {
    var rootSegs := parent + [last];
    var rel := "../" + sib + "/" + name;
    assert AllPlain(rootSegs);
    SplitSibling(sib, name);
    assert !StartsWith(rel, "/") by { assert rel[0] == '.'; }
    ResolveFromRoot(rootSegs, rel);
    WalkSibling(parent, last, sib, name);
  }

  lemma SplitSibling(sib: string, name: string)
    requires Plain(sib) && Plain(name)
    ensures Split("../" + sib + "/" + name, '/') == ["..", sib, name]
  {
    assert "../" + sib + "/" + name == ".." + "/" + (sib + "/" + name);
    SplitFirstPart("..", sib + "/" + name, '/');
    SplitFirstPart(sib, name, '/');
    SplitJoin([name], '/');
  }

  lemma WalkSibling(parent: seq<string>, last: string, sib: string, name: string)
    requires AllPlain(parent) && Plain(last) && Plain(sib) && Plain(name)
    ensures Walk(parent + [last], ["..", sib, name]) == parent + [sib, name]
  {
    assert Step(parent + [last], "..") == parent;
    assert ["..", sib, name][1..] == [sib, name];
    WalkAppends(parent, [sib, name]);
  }

  /** The text of `parent/last` is a prefix of that of `parent/sib/name`
      when `last` is a prefix of `sib`. */
  lemma SiblingTextPrefix(parent: seq<string>, last: string, sib: string, name: string)
    requires |parent| >= 1 && StartsWith(sib, last)
    ensures StartsWith(PathOf(parent + [sib, name]), PathOf(parent + [last]))
  {
    JoinAppend(parent, [last]);
    JoinAppend(parent, [sib, name]);
    assert Join([sib, name], "/") == sib + "/" + name;
    var j := Join(parent, "/");
    var p := PathOf(parent + [sib, name]);
    var q := PathOf(parent + [last]);
    assert q == "/" + j + "/" + last;
    assert p == "/" + j + "/" + sib + "/" + name;
    assert p[..|q|] == q by {
      assert p == ("/" + j + "/") + sib + ("/" + name);
      assert q == ("/" + j + "/") + last;
      assert sib == last + sib[|last|..];
    }
  }

  /** The workspace `/srv/ai-workspace/p1` and the relative path
      `../p10/notes.txt`: accepted as written, rejected once corrected. */
  lemma SiblingWorkspaceExample()
    ensures ResolvePathAsWritten(PathOf(["srv", "ai-workspace", "p1"]), "../" + "p10" + "/" + "notes.txt")
            == Some(PathOf(["srv", "ai-workspace", "p10", "notes.txt"]))
    ensures ResolvePath(PathOf(["srv", "ai-workspace", "p1"]), "../" + "p10" + "/" + "notes.txt") == None
  {
    assert StartsWith("p10", "p1");
    assert AllPlain(["srv", "ai-workspace"]);
    SiblingEscapes(["srv", "ai-workspace"], "p1", "p10", "notes.txt");
    assert ["srv", "ai-workspace"] + ["p1"] == ["srv", "ai-workspace", "p1"];
    assert ["srv", "ai-workspace"] + ["p10", "notes.txt"] == ["srv", "ai-workspace", "p10", "notes.txt"];
  }

  /** `getLanguageFromPath`'s table, keyed by the text after the last `.`,
      with its `text` default. */
  function LanguageForExt(ext: string): string {
    match ext
    case "html" => "html"
    case "css" => "css"
    case "js" => "javascript"
    case "ts" => "typescript"
    case "tsx" => "typescript"
    case "jsx" => "javascript"
    case "py" => "python"
    case "json" => "json"
    case "md" => "markdown"
    case _ => "text"
  }

  /** `getFileType`'s table, keyed by `extname`, with its `text` default. */
  function TypeForExt(ext: string): string {
    match ext
    case ".js" => "javascript"
    case ".jsx" => "javascript"
    case ".ts" => "typescript"
    case ".tsx" => "typescript"
    case ".html" => "html"
    case ".css" => "css"
    case ".scss" => "scss"
    case ".json" => "json"
    case ".md" => "markdown"
    case ".py" => "python"
    case ".java" => "java"
    case ".cpp" => "cpp"
    case ".c" => "c"
    case ".go" => "go"
    case ".rs" => "rust"
    case ".php" => "php"
    case ".rb" => "ruby"
    case ".vue" => "vue"
    case ".svelte" => "svelte"
    case _ => "text"
  }

  /** `getLanguageFromPath`: the lower-cased text after the last `.` (the
      whole path when it has none) looked up in the table. */
  function LanguageFromPath(path: string): string {
    LanguageForExt(ToLower(AfterLast(path, '.')))
  }

  /** `getFileType`: the lower-cased `extname` looked up in the table. */
  function FileType(fileName: string): string {
    TypeForExt(ToLower(Extname(fileName)))
  }

  /** For `stem.ext` the language is the table's entry for the lower-cased
      `ext`, and `text` when there is none. */
  lemma LanguageOf(stem: string, ext: string)
    requires '.' !in ext
    ensures LanguageFromPath(stem + "." + ext) == LanguageForExt(ToLower(ext))
  {
    AfterLastOf(stem, '.', ext);
  }

  /** For a file name `stem.ext` the type is the table's entry for the
      lower-cased `.ext`, whatever the directory part. */
  lemma FileTypeOf(stem: string, ext: string)
    requires stem != [] && stem != "." && '/' !in stem
    requires '.' !in ext && '/' !in ext
    ensures FileType(stem + "." + ext) == TypeForExt(ToLower("." + ext))
  {
    ExtnameOf(stem, ext);
  }

  /** A dot file such as `.env`, and a name without a dot, have type `text`. */
  lemma DotFileIsText(name: string)
    requires '/' !in name && (name == [] || '.' !in name[1..])
    ensures FileType(name) == "text"
  {
    NoDotNoExtname(name);
    assert ToLower([]) == [];
  }

  /** The two lookups part ways on a name without a dot:
      `getLanguageFromPath` looks the whole name up, so `md` has language
      `markdown`, while `getFileType` gives it `text`. */
  lemma BareNameLanguage()
    ensures LanguageFromPath("md") == "markdown"
    ensures FileType("md") == "text"
  {
    AfterLastNone("md", '.');
    assert ToLower("md") == "md";
    assert LanguageForExt("md") == "markdown";
    DotFileIsText("md");
  }
}
