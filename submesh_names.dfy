/**
 * A mesh's submesh name map (`Mesh::SubMeshNameMap`, names bound to submesh
 * indices), held in the map's iteration order, and the search both the merge
 * tool and the info tool run over it: the first entry whose index matches.
 */
module SubMeshNames {
  import opened Wrappers

  /** One entry of the name map: a name and the submesh index it is bound to. */
  datatype NameEntry = NameEntry(name: string, index: nat)

  /** The first name, in iteration order, bound to submesh `index`; None when no name is. */
  function NameBoundTo(names: seq<NameEntry>, index: nat): (r: Option<string>)
    ensures r.None? <==> forall k :: 0 <= k < |names| ==> names[k].index != index
    ensures r.Some? ==>
      exists k :: 0 <= k < |names| && names[k] == NameEntry(r.value, index) &&
        forall j :: 0 <= j < k ==> names[j].index != index
  {
    if names == [] then None
    else if names[0].index == index then Some(names[0].name)
    else
      var rest := NameBoundTo(names[1..], index);
      assert forall k :: 1 <= k < |names| ==> names[k] == names[1..][k - 1];
      rest
  }

  /** The entry that comes first among those bound to `index` is the one found. */
  lemma NameBoundToFirst(names: seq<NameEntry>, index: nat, k: nat)
    requires k < |names| && names[k].index == index
    requires forall j :: 0 <= j < k ==> names[j].index != index
    ensures NameBoundTo(names, index) == Some(names[k].name)
  {
  }
}
