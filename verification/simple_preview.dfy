/** server/simple-preview.ts: a second in-memory preview map, separate from
    the shared store, with create, update and delete handlers and two
    responders. `setupSimplePreview` is exported but nothing in the server
    registers it, so none of these routes is reachable in the running
    server (see `Registration`). */
module SimplePreview {
  import opened Common
  import opened Records
  import opened PreviewStore
  import opened PreviewPages
  import Routes

  datatype SimpleReply =
    | BadRequest(error: string)   // status 400
    | Ok(url: Option<string>, message: string)

  class SimplePreviewServer {
    /** `previewProjects`. */
    const projects: Store

    ghost predicate Valid()
      reads this, projects
    {
      projects.Valid()
    }

    constructor (projects: Store)
      requires projects.Valid()
      ensures this.projects == projects && Valid()
    {
      this.projects := projects;
    }

    /** `POST /api/preview/create`: 400 unless `projectId` and `files` are
        given; otherwise the entry is replaced and the url is
        `/preview/{projectId}`. */
    method Create(projectId: Option<string>, files: Option<Files>) returns (r: SimpleReply)
      requires Valid()
      modifies projects
      ensures Valid()
      ensures r.BadRequest? <==> !Given(projectId) || files.None?
      ensures r.BadRequest? ==> r.error == Routes.FieldsRequired && projects.previews == old(projects.previews)
      ensures r.Ok? ==>
                projects.previews == Set(old(projects.previews), projectId.value, files.value) &&
                r == Ok(Some(SimplePreviewBase + projectId.value), "Preview created successfully")
    {
      if !Given(projectId) || files.None? {
        return BadRequest(Routes.FieldsRequired);
      }
      projects.StorePreview(projectId.value, files.value);
      r := Ok(Some(SimplePreviewBase + projectId.value), "Preview created successfully");
    }

    /** `POST /api/preview/update`: the same checks, the entry replaced. */
    method Update(projectId: Option<string>, files: Option<Files>) returns (r: SimpleReply)
      requires Valid()
      modifies projects
      ensures Valid()
      ensures r.BadRequest? <==> !Given(projectId) || files.None?
      ensures r.BadRequest? ==> r.error == Routes.FieldsRequired && projects.previews == old(projects.previews)
      ensures r.Ok? ==>
                projects.previews == Set(old(projects.previews), projectId.value, files.value) &&
                r == Ok(None, "Preview updated")
    {
      if !Given(projectId) || files.None? {
        return BadRequest(Routes.FieldsRequired);
      }
      projects.StorePreview(projectId.value, files.value);
      r := Ok(None, "Preview updated");
    }

    /** `POST /api/preview/delete`: 400 without `projectId`; otherwise the
        entry is removed, and an absent id succeeds without change. */
    method Delete(projectId: Option<string>) returns (r: SimpleReply)
      requires Valid()
      modifies projects
      ensures Valid()
      ensures r.BadRequest? <==> !Given(projectId)
      ensures r.BadRequest? ==> r.error == "projectId is required" && projects.previews == old(projects.previews)
      ensures r.Ok? ==>
                projects.previews == Remove(old(projects.previews), projectId.value) &&
                r == Ok(None, "Preview deleted")
      ensures r.Ok? && projectId.value !in old(projects.GetAllPreviews()) ==> projects.previews == old(projects.previews)
    {
      if !Given(projectId) {
        return BadRequest("projectId is required");
      }
      projects.DeletePreview(projectId.value);
      r := Ok(None, "Preview deleted");
    }

    /** `GET /preview/:projectId`: the project's page, its listing linking
        under `/preview/{projectId}/`. */
    function Page(projectId: string): (r: PreviewReply)
      reads this, projects
      ensures r.NotFound? <==> projectId !in projects.GetAllPreviews()
      ensures r.FileListing? ==> forall i :: 0 <= i < |r.links| ==> StartsWith(r.links[i].href, SimplePreviewBase + projectId + "/")
    {
      var files := projects.GetPreview(projectId);
      var r := PreviewPage(projectId, files, SimplePreviewBase);
      assert r.FileListing? ==> forall i :: 0 <= i < |r.links| ==>
        r.links[i].href == (SimplePreviewBase + projectId + "/") + files.value[i].0;
      r
    }

    /** `GET /preview/:projectId/:fileName`: 404 unless the project holds the
        file, else the file sent with the `extname` Content-Type. */
    function File(projectId: string, fileName: string): (r: PreviewReply)
      reads this, projects
      ensures r.NotFound? <==> projectId !in projects.GetAllPreviews() || fileName !in Keys(projects.GetPreview(projectId).value)
      ensures r.Served? ==> r.contentType == SimpleContentType(fileName)
    {
      ServeFile(projects.GetPreview(projectId), fileName, SimpleContentType(fileName))
    }
  }
}
