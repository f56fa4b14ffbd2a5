/**
 * The rename tool on a mesh: options are applied in list order; a
 * "skeleton" option relinks the mesh to another skeleton name, and a
 * "material" option of the form before/after renames every submesh
 * material equal to `before`. Bone and animation options change nothing in
 * a mesh.
 */
module Rename {
  import opened BoneAssignments
  import opened MeshData
  import opened Optimisation

  /** One tool option: its name and its string value. */
  datatype ToolOption = ToolOption(key: string, value: string)

  /**
   * Ogre's StringUtil::split of a value on '/', which is not part of this
   * model; a parameter of the operations that split.
   */
  type Splitter = string -> seq<string>

  /** The options the tool splits (bone and material renames) split into at least one component. */
  predicate SplitsCleanly(options: seq<ToolOption>, splitter: Splitter) {
    forall k :: 0 <= k < |options| && (options[k].key == "bone" || options[k].key == "material") ==>
      |splitter(options[k].value)| >= 1
  }

  datatype NamePair = NamePair(before: string, after: string)

  /** RenameTool::split: the first two components, or the single component twice. */
  function Split(components: seq<string>): (r: NamePair)
    requires |components| >= 1
    ensures r.before == components[0]
    ensures r.after == components[if |components| == 1 then 0 else 1]
  {
    if |components| == 1 then NamePair(components[0], components[0])
    else NamePair(components[0], components[1])
  }

  /** Components past the second are ignored. */
  lemma SplitIgnoresRest(before: string, after: string, rest: seq<string>)
    ensures Split([before, after] + rest) == NamePair(before, after)
  {
  }

  /** What one material option does to one submesh's material. */
  function RenameMaterial(material: string, names: NamePair): (r: string)
    ensures r != material ==> material == names.before && r == names.after
    ensures material == names.before ==> r == names.after
  {
    if material == names.before then names.after else material
  }

  /** A submesh's material after the options, applied in order. */
  function MaterialAfter(material: string, options: seq<ToolOption>, splitter: Splitter): string
    requires SplitsCleanly(options, splitter)
  {
    if options == [] then material
    else
      var n := |options| - 1;
      var prev := MaterialAfter(material, options[..n], splitter);
      if options[n].key == "material" then RenameMaterial(prev, Split(splitter(options[n].value)))
      else prev
  }

  /** The mesh's skeleton name after the options, applied in order. */
  function SkeletonAfter(name: string, options: seq<ToolOption>): string {
    if options == [] then name
    else
      var n := |options| - 1;
      if options[n].key == "skeleton" then options[n].value else SkeletonAfter(name, options[..n])
  }

  /** Without a skeleton option the skeleton name is left as it was. */
  lemma {:induction false} SkeletonAfterUnchanged(name: string, options: seq<ToolOption>)
    requires forall k :: 0 <= k < |options| ==> options[k].key != "skeleton"
    ensures SkeletonAfter(name, options) == name
  {
    if options != [] {
      var n := |options| - 1;
      SkeletonAfterUnchanged(name, options[..n]);
    }
  }

  /** The skeleton name ends as the value of the last skeleton option. */
  lemma {:induction false} SkeletonAfterIsLast(name: string, options: seq<ToolOption>, k: nat)
    requires k < |options| && options[k].key == "skeleton"
    requires forall j :: k < j < |options| ==> options[j].key != "skeleton"
    ensures SkeletonAfter(name, options) == options[k].value
  {
    var n := |options| - 1;
    if k < n {
      assert options[..n][k] == options[k];
      SkeletonAfterIsLast(name, options[..n], k);
    }
  }

  /** Only material options touch materials: the others leave every material as it was. */
  lemma {:induction false} OtherOptionsKeepMaterial(material: string, options: seq<ToolOption>, splitter: Splitter)
    requires SplitsCleanly(options, splitter)
    requires forall k :: 0 <= k < |options| ==> options[k].key != "material"
    ensures MaterialAfter(material, options, splitter) == material
  {
    if options != [] {
      var n := |options| - 1;
      assert SplitsCleanly(options[..n], splitter);
      OtherOptionsKeepMaterial(material, options[..n], splitter);
    }
  }

  /** A material option whose value does not split in two renames nothing. */
  lemma OneComponentIsNoOp(material: string, option: ToolOption, splitter: Splitter)
    requires option.key == "material" && |splitter(option.value)| == 1
    ensures SplitsCleanly([option], splitter)
    ensures MaterialAfter(material, [option], splitter) == material
  {
    assert [option][..0] == [];
  }

  /** Later options see earlier renames: a/b then b/c sends a to c, while b/c then a/b sends a only to b. */
  lemma RenamesChain(a: string, b: string, c: string, ab: string, bc: string, splitter: Splitter)
    requires a != b && b != c
    requires splitter(ab) == [a, b] && splitter(bc) == [b, c]
    ensures var first := ToolOption("material", ab);
      var second := ToolOption("material", bc);
      && SplitsCleanly([first, second], splitter) && SplitsCleanly([second, first], splitter)
      && MaterialAfter(a, [first, second], splitter) == c
      && MaterialAfter(a, [second, first], splitter) == b
  {
    var first := ToolOption("material", ab);
    var second := ToolOption("material", bc);
    assert [first, second][..1] == [first] && [first][..0] == [];
    assert [second, first][..1] == [second] && [second][..0] == [];
    assert MaterialAfter(a, [first], splitter) == b;
    assert MaterialAfter(a, [second], splitter) == a;
  }

  /** The submesh loop of a material option: each submesh whose material is `before` gets `after`. */
  method RenameSubMeshMaterials(subs: seq<SubMesh>, names: NamePair)
    requires SubMeshesDistinct(subs)
    modifies set s | s in subs
    ensures forall i :: 0 <= i < |subs| ==> subs[i].materialName == RenameMaterial(old(subs[i].materialName), names)
    ensures forall s :: s in subs ==> s.boneAssignments == old(s.boneAssignments) && s.lodFaceList == old(s.lodFaceList)
  {
    var i := 0;
    while i < |subs|
      invariant i <= |subs|
      invariant forall j :: 0 <= j < i ==> subs[j].materialName == RenameMaterial(old(subs[j].materialName), names)
      invariant forall j :: i <= j < |subs| ==> subs[j].materialName == old(subs[j].materialName)
      invariant forall s :: s in subs ==> s.boneAssignments == old(s.boneAssignments) && s.lodFaceList == old(s.lodFaceList)
    {
      var submesh := subs[i];
      if submesh.materialName == names.before {
        submesh.materialName := names.after;
      }
      i := i + 1;
    }
  }

  /**
   * The option loop of processMeshFile: each option in list order; the
   * mesh's skeleton name and submesh materials end as the folds say, and
   * nothing else changes.
   */
  method ApplyMeshOptions(mesh: Mesh, options: seq<ToolOption>, splitter: Splitter)
    requires SubMeshesDistinct(mesh.subMeshes)
    requires SplitsCleanly(options, splitter)
    modifies mesh, set s | s in mesh.subMeshes
    ensures mesh.skeletonName == SkeletonAfter(old(mesh.skeletonName), options)
    ensures forall i :: 0 <= i < |mesh.subMeshes| ==>
      mesh.subMeshes[i].materialName == MaterialAfter(old(mesh.subMeshes[i].materialName), options, splitter)
    ensures mesh.boneAssignments == old(mesh.boneAssignments)
    ensures forall s :: s in mesh.subMeshes ==> s.boneAssignments == old(s.boneAssignments) && s.lodFaceList == old(s.lodFaceList)
  {
    var subs := mesh.subMeshes;
    var k := 0;
    while k < |options|
      invariant k <= |options|
      invariant SplitsCleanly(options[..k], splitter)
      invariant mesh.skeletonName == SkeletonAfter(old(mesh.skeletonName), options[..k])
      invariant forall i :: 0 <= i < |subs| ==>
        subs[i].materialName == MaterialAfter(old(subs[i].materialName), options[..k], splitter)
      invariant mesh.boneAssignments == old(mesh.boneAssignments)
      invariant forall s :: s in subs ==> s.boneAssignments == old(s.boneAssignments) && s.lodFaceList == old(s.lodFaceList)
    {
      var option := options[k];
      assert options[..k + 1][..k] == options[..k] && options[..k + 1][k] == option;
      assert SplitsCleanly(options[..k + 1], splitter);
      if option.key == "skeleton" {
        mesh.skeletonName := option.value;
      } else if option.key == "bone" {
        var names := Split(splitter(option.value));
      } else if option.key == "material" {
        var names := Split(splitter(option.value));
        RenameSubMeshMaterials(subs, names);
      }
      k := k + 1;
    }
    assert options[..k] == options;
  }
}
