/** server/preview-store.ts: the process-wide `Map` from project id to the
    project's files, and its four operations. A JavaScript `Map` keeps its
    keys in insertion order and `set` on a present key keeps its place, which
    is exactly how `Records.Set` treats a key. The same class models the
    second map of server/simple-preview.ts. */
module PreviewStore {
  import opened Common
  import opened Records

  class Store {
    /** Project id to files, in insertion order of the ids. */
    var previews: Record<Files>

    /** A `Map` holds each key once. */
    ghost predicate Valid()
      reads this
    {
      UniqueKeys(previews)
    }

    constructor ()
      ensures Valid() && previews == []
    {
      previews := [];
    }

    /** `getPreview(projectId)`: the stored files, or undefined. */
    function GetPreview(projectId: string): (r: Option<Files>)
      reads this
      ensures r.Some? <==> projectId in GetAllPreviews()
    {
      Get(previews, projectId)
    }

    /** `getAllPreviews()`: the stored ids, in insertion order. */
    function GetAllPreviews(): (ids: seq<string>)
      reads this
      ensures |ids| == |previews|
    {
      Keys(previews)
    }

    /** `storePreview(projectId, files)`: the entry is replaced as a whole
        (nothing of an earlier entry survives) and every other id reads as
        before. */
    method StorePreview(projectId: string, files: Files)
      requires Valid()
      modifies this
      ensures Valid()
      ensures previews == Set(old(previews), projectId, files)
      ensures GetPreview(projectId) == Some(files)
      ensures forall id :: id != projectId ==> GetPreview(id) == old(GetPreview(id))
      ensures GetAllPreviews() == if projectId in old(GetAllPreviews()) then old(GetAllPreviews())
                                  else old(GetAllPreviews()) + [projectId]
    {
      SetUnique(previews, projectId, files);
      SetKeys(previews, projectId, files);
      forall id {
        SetGet(previews, projectId, files, id);
      }
      previews := Set(previews, projectId, files);
    }

    /** `deletePreview(projectId)`: the id is gone, every other id reads as
        before, and deleting an absent id changes nothing. */
    method DeletePreview(projectId: string)
      requires Valid()
      modifies this
      ensures Valid()
      ensures previews == Remove(old(previews), projectId)
      ensures GetPreview(projectId) == None
      ensures forall id :: id != projectId ==> GetPreview(id) == old(GetPreview(id))
      ensures GetAllPreviews() == RemoveKey(old(GetAllPreviews()), projectId)
      ensures projectId !in old(GetAllPreviews()) ==> previews == old(previews)
    {
      RemoveUnique(previews, projectId);
      RemoveKeys(previews, projectId);
      forall id {
        RemoveGet(previews, projectId, id);
      }
      if projectId !in Keys(previews) {
        RemoveAbsent(previews, projectId);
      }
      previews := Remove(previews, projectId);
    }
  }

  /** `getAllPreviews` lists each stored id once. */
  lemma IdsDistinct(s: Store)
    requires s.Valid()
    ensures Distinct(s.GetAllPreviews())
  {
    assert forall i :: 0 <= i < |s.previews| ==> s.GetAllPreviews()[i] == s.previews[i].0;
  }

  /** Storing twice under one id leaves exactly the second files, whatever
      the first held. */
  lemma LastStoreWins(previews: Record<Files>, projectId: string, first: Files, second: Files)
    ensures Get(Set(Set(previews, projectId, first), projectId, second), projectId) == Some(second)
    ensures Set(Set(previews, projectId, first), projectId, second) == Set(previews, projectId, second)
  {
    SetTwice(previews, projectId, first, second);
    SetGet(previews, projectId, second, projectId);
  }
}
