/** server/file-service.ts: the tools the model calls to work on a project
    workspace. The disk is a map from absolute path to file content, shared
    by every service; a write replaces the content at one path. Paths are
    checked with the corrected containment test of `Workspace.ResolvePath`. */
module FileService {
  import opened Common
  import opened Records
  import opened PosixPath
  import opened Sorting
  import opened Workspace
  import opened PreviewStore

  /** The file system the service reaches through `fs`: file contents by
      absolute path. Directories are implied by the paths of their files. */
  class Disk {
    var files: map<string, string>

    /** The file system as the server finds it. */
    constructor (existing: map<string, string>)
      ensures files == existing
    {
      files := existing;
    }
  }

  /** What a tool reports on success. */
  datatype ToolData =
    | Created(path: string, size: nat, preview: string)
    | Updated(path: string, size: nat)
    | ReadData(content: string, size: nat, truncated: bool, path: string)
    | Listed(path: string, files: seq<string>, directories: seq<string>, total: nat)
    | Folder(path: string)

  /** `FileToolResult`: `status: 'success'` with a message and data, or
      `status: 'error'` with a message. */
  datatype ToolResult = Success(message: string, data: ToolData) | Failure(message: string)

  /** The kind `readdir` reports for an entry. */
  datatype EntryKind = RegularFile | Directory | OtherKind

  datatype DirEntry = DirEntry(name: string, kind: EntryKind)

  /** `readFile`'s default limit. */
  const DefaultMaxBytes: nat := 8000

  /** The longest preview of a created file's content. */
  const PreviewLength: nat := 200

  /** The text of the error `resolvePath` throws, as a template string
      renders it. */
  function TraversalError(rel: string): string {
    "Error: Path traversal detected: " + rel
  }

  /** `s.substring(0, n)` / `s.slice(0, n)` */
  function Take(s: string, n: nat): (r: string)
    ensures StartsWith(s, r)
    ensures |r| == if |s| <= n then |s| else n
  {
    if |s| <= n then s else s[..n]
  }

  /** The names of the entries of one kind, in `readdir` order. */
  function NamesOf(items: seq<DirEntry>, kind: EntryKind): (names: seq<string>)
    ensures |names| <= |items|
  {
    if items == [] then []
    else (if items[0].kind == kind then [items[0].name] else []) + NamesOf(items[1..], kind)
  }

  lemma {:induction false} NamesOfSnoc(items: seq<DirEntry>, e: DirEntry, kind: EntryKind)
    ensures NamesOf(items + [e], kind) == NamesOf(items, kind) + (if e.kind == kind then [e.name] else [])
    decreases |items|
  {
    if items == [] {
      assert [e][1..] == [];
    } else {
      assert (items + [e])[1..] == items[1..] + [e];
      NamesOfSnoc(items[1..], e, kind);
    }
  }

  /** Every entry is a file, a directory or neither, exactly once. */
  lemma {:induction false} KindsPartition(items: seq<DirEntry>)
    ensures |NamesOf(items, RegularFile)| + |NamesOf(items, Directory)| + |NamesOf(items, OtherKind)| == |items|
  {
    if items != [] {
      KindsPartition(items[1..]);
    }
  }

  /** A name listed as a file is the name of a file entry. */
  lemma {:induction false} NamesOfSound(items: seq<DirEntry>, kind: EntryKind, name: string)
    ensures name in NamesOf(items, kind) <==> exists i :: 0 <= i < |items| && items[i] == DirEntry(name, kind)
  {
    if items != [] {
      NamesOfSound(items[1..], kind, name);
      if name in NamesOf(items[1..], kind) {
        var i :| 0 <= i < |items[1..]| && items[1..][i] == DirEntry(name, kind);
        assert items[i + 1] == DirEntry(name, kind);
      }
      if exists i :: 0 <= i < |items| && items[i] == DirEntry(name, kind) {
        var i :| 0 <= i < |items| && items[i] == DirEntry(name, kind);
        if i > 0 {
          assert items[1..][i - 1] == DirEntry(name, kind);
        }
      }
    }
  }

  class FileService {
    /** `path.join(WORKSPACE_ROOT, workspaceId or "default")` */
    const workspaceRoot: string
    /** The preview-store key: the workspace id, or `default`. */
    const projectId: string
    const disk: Disk
    /** The process-wide preview store. */
    const store: Store

    /** `new FileService(workspaceId)` in the working directory `cwd`. */
    constructor (cwd: string, workspaceId: Option<string>, disk: Disk, store: Store)
      ensures workspaceRoot == WorkspaceRoot(cwd, workspaceId)
      ensures projectId == ProjectIdOf(workspaceId)
      ensures this.disk == disk && this.store == store
    {
      workspaceRoot := WorkspaceRoot(cwd, workspaceId);
      projectId := ProjectIdOf(workspaceId);
      this.disk := disk;
      this.store := store;
    }

    /** `storeFileForPreview`: the project's preview entry becomes a map
        holding just this one path. */
    method StoreFileForPreview(path: string, content: string)
      requires store.Valid()
      modifies store
      ensures store.Valid()
      ensures store.previews == Set(old(store.previews), projectId, [(path, FileEntry(content, LanguageFromPath(path)))])
      ensures store.GetPreview(projectId) == Some([(path, FileEntry(content, LanguageFromPath(path)))])
      ensures forall id :: id != projectId ==> store.GetPreview(id) == old(store.GetPreview(id))
    {
      store.StorePreview(projectId, [(path, FileEntry(content, LanguageFromPath(path)))]);
    }

    /** `createFile`: outside the workspace nothing changes; inside, the
        file holds `content`, the preview entry holds only this file, and
        reading the file back gives the content (cut at 8000 characters). */
    method CreateFile(filePath: string, content: string) returns (r: ToolResult)
      requires store.Valid()
      modifies disk, store
      ensures store.Valid()
      ensures r.Success? <==> ResolvePath(workspaceRoot, filePath).Some?
      ensures r.Failure? ==>
                r.message == "Failed to create file: " + TraversalError(filePath) &&
                disk.files == old(disk.files) && store.previews == old(store.previews)
      ensures r.Success? ==>
                r == Success("Created file: " + filePath,
                             Created(filePath, |content|, Take(content, PreviewLength) + "...")) &&
                disk.files == old(disk.files)[ResolvePath(workspaceRoot, filePath).value := content] &&
                store.previews == Set(old(store.previews), projectId, [(filePath, FileEntry(content, LanguageFromPath(filePath)))])
      ensures r.Success? ==> ReadFile(filePath, DefaultMaxBytes).data.content == Take(content, DefaultMaxBytes)
    {
      var full := ResolvePath(workspaceRoot, filePath);
      if full.None? {
        return Failure("Failed to create file: " + TraversalError(filePath));
      }
      disk.files := disk.files[full.value := content];
      StoreFileForPreview(filePath, content);
      r := Success("Created file: " + filePath, Created(filePath, |content|, Take(content, PreviewLength) + "..."));
    }

    /** `updateFile`: only an existing file is written; the preview store is
        not touched. */
    method UpdateFile(filePath: string, content: string) returns (r: ToolResult)
      modifies disk
      ensures var full := ResolvePath(workspaceRoot, filePath);
        r.Success? <==> full.Some? && full.value in old(disk.files)
      ensures r.Failure? ==> disk.files == old(disk.files)
      ensures var full := ResolvePath(workspaceRoot, filePath);
        full.None? ==> r == Failure("Failed to update " + filePath + ": " + TraversalError(filePath))
      ensures var full := ResolvePath(workspaceRoot, filePath);
        full.Some? && full.value !in old(disk.files) ==>
          r == Failure("File " + filePath + " does not exist. Use create_file instead.")
      ensures r.Success? ==>
                r == Success("Updated " + filePath, Updated(filePath, |content|)) &&
                disk.files == old(disk.files)[ResolvePath(workspaceRoot, filePath).value := content]
    {
      var full := ResolvePath(workspaceRoot, filePath);
      if full.None? {
        return Failure("Failed to update " + filePath + ": " + TraversalError(filePath));
      }
      if full.value !in disk.files {
        return Failure("File " + filePath + " does not exist. Use create_file instead.");
      }
      disk.files := disk.files[full.value := content];
      r := Success("Updated " + filePath, Updated(filePath, |content|));
    }

    /** `readFile(filePath, maxBytes)`: the first `maxBytes` characters of
        the file, its full size, and whether anything was cut off. */
    function ReadFile(filePath: string, maxBytes: nat): (r: ToolResult)
      reads disk
      ensures r.Success? <==> var full := ResolvePath(workspaceRoot, filePath);
                              full.Some? && full.value in disk.files
      ensures r.Success? ==> r.data.ReadData? && r.data.path == filePath
      ensures r.Success? ==> var file := disk.files[ResolvePath(workspaceRoot, filePath).value];
                              r.data.size == |file| && StartsWith(file, r.data.content) &&
                              |r.data.content| <= maxBytes &&
                              (r.data.truncated <==> |r.data.content| < |file|)
    ensures r.Success? ==> var file := disk.files[ResolvePath(workspaceRoot, filePath).value];
                              && r.data.content == Take(file, maxBytes)
                              && (r.data.truncated <==> |file| > maxBytes)
                              && r.message == "Read " + filePath + (if |file| > maxBytes then " (truncated)" else "")
    ensures ResolvePath(workspaceRoot, filePath).None? ==>
              r == Failure("Failed to read " + filePath + ": " + TraversalError(filePath))
    ensures var full := ResolvePath(workspaceRoot, filePath);
            full.Some? && full.value !in disk.files ==> r == Failure("File " + filePath + " does not exist")
    {
      match ResolvePath(workspaceRoot, filePath)
      case None => Failure("Failed to read " + filePath + ": " + TraversalError(filePath))
      case Some(full) =>
        if full !in disk.files then Failure("File " + filePath + " does not exist")
        else
          var file := disk.files[full];
          var truncated := |file| > maxBytes;
          Success("Read " + filePath + (if truncated then " (truncated)" else ""),
                  ReadData(Take(file, maxBytes), |file|, truncated, filePath))
    }

    /** `listDirectory(dirPath)` given what `readdir` returned (nothing when
        the directory cannot be read): file and directory names, each
        sorted, and their combined count; other entries are skipped. */
    method ListDirectory(dirPath: string, listing: Option<seq<DirEntry>>) returns (r: ToolResult)
      ensures ResolvePath(workspaceRoot, dirPath).None? ==>
                r == Failure("Failed to list directory " + dirPath + ": " + TraversalError(dirPath))
      ensures ResolvePath(workspaceRoot, dirPath).Some? && listing.None? ==>
                r == Failure("Directory " + dirPath + " does not exist")
      ensures ResolvePath(workspaceRoot, dirPath).Some? && listing.Some? ==>
                var files := NamesOf(listing.value, RegularFile);
                var dirs := NamesOf(listing.value, Directory);
                r == Success("Listed directory " + dirPath, Listed(dirPath, Sort(files), Sort(dirs), |files| + |dirs|))
    {
      if ResolvePath(workspaceRoot, dirPath).None? {
        return Failure("Failed to list directory " + dirPath + ": " + TraversalError(dirPath));
      }
      if listing.None? {
        return Failure("Directory " + dirPath + " does not exist");
      }
      var files, directories := SplitEntries(listing.value);
      r := Success("Listed directory " + dirPath,
                   Listed(dirPath, Sort(files), Sort(directories), |files| + |directories|));
    }

    /** The loop of `listDirectory`: each entry's name goes to the files or
        to the directories by its kind, in the order `readdir` gave. */
    static method SplitEntries(items: seq<DirEntry>) returns (files: seq<string>, directories: seq<string>)
      ensures files == NamesOf(items, RegularFile)
      ensures directories == NamesOf(items, Directory)
    {
      files, directories := [], [];
      for i := 0 to |items|
        invariant files == NamesOf(items[..i], RegularFile)
        invariant directories == NamesOf(items[..i], Directory)
      {
        NamesOfSnoc(items[..i], items[i], RegularFile);
        NamesOfSnoc(items[..i], items[i], Directory);
        assert items[..i + 1] == items[..i] + [items[i]];
        if items[i].kind == RegularFile {
          files := files + [items[i].name];
        } else if items[i].kind == Directory {
          directories := directories + [items[i].name];
        }
      }
      assert items[..|items|] == items;
    }

    /** `createFolder(dirPath)`: succeeds exactly for a path inside the
        workspace. */
    function CreateFolder(dirPath: string): (r: ToolResult)
      ensures r.Success? <==> ResolvePath(workspaceRoot, dirPath).Some?
      ensures r.Success? ==> r == Success("Created folder " + dirPath, Folder(dirPath))
      ensures r.Failure? ==> r.message == "Failed to create folder " + dirPath + ": " + TraversalError(dirPath)
    {
      if ResolvePath(workspaceRoot, dirPath).None? then
        Failure("Failed to create folder " + dirPath + ": " + TraversalError(dirPath))
      else
        Success("Created folder " + dirPath, Folder(dirPath))
    }
  }

  /** A listing holds every file entry once per occurrence, in ascending
      order, and the same for directories; the total counts every entry
      that is a file or a directory. */
  lemma ListingSpec(items: seq<DirEntry>)
    ensures Sorted(Sort(NamesOf(items, RegularFile)))
    ensures multiset(Sort(NamesOf(items, RegularFile))) == multiset(NamesOf(items, RegularFile))
    ensures Sorted(Sort(NamesOf(items, Directory)))
    ensures multiset(Sort(NamesOf(items, Directory))) == multiset(NamesOf(items, Directory))
    ensures |NamesOf(items, RegularFile)| + |NamesOf(items, Directory)| == |items| - |NamesOf(items, OtherKind)|
  {
    SortSpec(NamesOf(items, RegularFile));
    SortSpec(NamesOf(items, Directory));
    KindsPartition(items);
  }

  /** The read of a file no longer than the limit returns it whole. */
  lemma ReadWhole(s: FileService, filePath: string, maxBytes: nat)
    requires s.ReadFile(filePath, maxBytes).Success?
    requires s.ReadFile(filePath, maxBytes).data.size <= maxBytes
    ensures var full := ResolvePath(s.workspaceRoot, filePath).value;
      s.ReadFile(filePath, maxBytes).data.content == s.disk.files[full]
    ensures !s.ReadFile(filePath, maxBytes).data.truncated
  {
  }
}
