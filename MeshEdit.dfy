/*
 * The MeshEdit component: it loads a working copy of the mesh its
 * MeshFilter shows, drags vertices of that copy together with every
 * vertex at the same position, restores the copy from the original and
 * promotes the copy to be the new original.
 */
module MeshEditor {
  import opened MeshSpec

  /**
   * A UnityEngine.Mesh. Its vertices and triangles properties copy the
   * arrays on every get and set, so a mesh holds them as values.
   */
  class Mesh {
    var vertices: seq<Vector3>
    var triangles: seq<int>

    constructor ()
      ensures vertices == [] && triangles == []
    {
      vertices := [];
      triangles := [];
    }
  }

  /** A UnityEngine.MeshFilter: the component that shows one mesh, or none. */
  class MeshFilter {
    var sharedMesh: Mesh?

    constructor (mesh: Mesh?)
      ensures sharedMesh == mesh
    {
      sharedMesh := mesh;
    }
  }

  class MeshEdit {
    /** The mesh edits are reset to and committed into. */
    var originalMesh: Mesh?
    /** The copy that the filter shows while editing. */
    var clonedMesh: Mesh?
    /** The sibling MeshFilter component. */
    const meshFilter: MeshFilter

    var triangles: seq<int>
    /** The working vertex array, written in place by a drag. */
    var vertices: array<Vector3>

    /** Both meshes are present, the guard of a reset. */
    predicate Loaded()
      reads this
    {
      originalMesh != null && clonedMesh != null
    }

    /**
     * Once loaded, the original and the copy are distinct meshes, the
     * filter shows the copy, and the copy holds the working state.
     */
    ghost predicate Valid()
      reads this, meshFilter, clonedMesh, vertices
    {
      (originalMesh == null <==> clonedMesh == null) &&
      (Loaded() ==>
        clonedMesh != originalMesh &&
        meshFilter.sharedMesh == clonedMesh &&
        clonedMesh.vertices == vertices[..] &&
        clonedMesh.triangles == triangles)
    }

    /** The component as attached to its object, before anything is loaded. */
    constructor (filter: MeshFilter)
      ensures Valid() && !Loaded()
      ensures meshFilter == filter && fresh(vertices) && vertices.Length == 0 && triangles == []
    {
      meshFilter := filter;
      originalMesh, clonedMesh := null, null;
      vertices := new Vector3[0];
      triangles := [];
    }

    /**
     * Takes the filter's mesh as the original, shows a fresh copy of it
     * and loads fresh working arrays from that copy. A filter showing no
     * mesh makes the copy of its vertices fail, so it must show one.
     */
    method InitMesh()
      requires meshFilter.sharedMesh != null
      modifies this, meshFilter
      ensures Valid() && Loaded()
      ensures originalMesh == old(meshFilter.sharedMesh) && unchanged(originalMesh)
      ensures fresh(clonedMesh) && fresh(vertices)
      ensures vertices[..] == originalMesh.vertices && triangles == originalMesh.triangles
    {
      originalMesh := meshFilter.sharedMesh;
      var clone := new Mesh();
      clone.vertices := originalMesh.vertices;
      clone.triangles := originalMesh.triangles;
      clonedMesh := clone;
      meshFilter.sharedMesh := clonedMesh;
      vertices := CopyToArray(clonedMesh.vertices);
      triangles := clonedMesh.triangles;
    }

    /** A drag of vertex `index` to `localPos`, passed on to PullSimilarVertices. */
    method DoAction(index: int, localPos: Vector3)
      requires Valid() && Loaded()
      requires 0 <= index < vertices.Length && InRange(triangles, vertices.Length)
      modifies vertices, clonedMesh
      ensures Valid() && unchanged(originalMesh)
      ensures vertices[..] == Pulled(old(vertices[..]), triangles, index, localPos)
      ensures forall i :: 0 <= i < vertices.Length ==>
                vertices[i] == if i in triangles && old(vertices[i]) == old(vertices[index]) then localPos else old(vertices[i])
    {
      PullSimilarVertices(index, localPos);
    }

    /**
     * The indices of every triangle corner whose vertex is at `targetPt`,
     * in scan order and with one entry per corner.
     */
    method FindRelatedVertices(targetPt: Vector3) returns (relatedVertices: seq<int>)
      requires InRange(triangles, vertices.Length)
      ensures relatedVertices == Related(vertices[..], triangles, targetPt)
      ensures |relatedVertices| <= |triangles|
      ensures forall i :: i in relatedVertices <==> 0 <= i < vertices.Length && vertices[i] == targetPt && i in triangles
    {
      relatedVertices := [];
      var t := 0;
      while t < |triangles|
        invariant 0 <= t <= |triangles|
        invariant relatedVertices == Related(vertices[..], triangles[..t], targetPt)
      {
        var idx := triangles[t];
        var pos := vertices[idx];
        assert triangles[..t + 1][..t] == triangles[..t];
        if pos == targetPt {
          relatedVertices := relatedVertices + [idx];
        }
        t := t + 1;
      }
      assert triangles[..t] == triangles;
      forall i ensures i in relatedVertices <==> 0 <= i < vertices.Length && vertices[i] == targetPt && i in triangles {
        RelatedMember(vertices[..], triangles, targetPt, i);
      }
    }

    /**
     * Moves vertex `index` to `newPos` together with every vertex that a
     * triangle names and that sits where `index` sits, then hands the new
     * positions to the shown copy.
     */
    method PullSimilarVertices(index: int, newPos: Vector3)
      requires Valid() && Loaded()
      requires 0 <= index < vertices.Length && InRange(triangles, vertices.Length)
      modifies vertices, clonedMesh
      ensures Valid() && unchanged(originalMesh)
      ensures vertices[..] == Pulled(old(vertices[..]), triangles, index, newPos)
      ensures forall i :: 0 <= i < vertices.Length ==>
                vertices[i] == if i in triangles && old(vertices[i]) == old(vertices[index]) then newPos else old(vertices[i])
    {
      var targetVertexPos := vertices[index];
      var relatedVertices := FindRelatedVertices(targetVertexPos);
      ghost var before := vertices[..];
      var k := 0;
      while k < |relatedVertices|
        modifies vertices
        invariant 0 <= k <= |relatedVertices|
        invariant vertices[..] == Assign(before, relatedVertices[..k], newPos)
      {
        assert relatedVertices[..k + 1][..k] == relatedVertices[..k];
        vertices[relatedVertices[k]] := newPos;
        k := k + 1;
      }
      assert relatedVertices[..k] == relatedVertices;
      clonedMesh.vertices := vertices[..];
      forall i | 0 <= i < vertices.Length
        ensures vertices[i] == if i in triangles && before[i] == before[index] then newPos else before[i]
      {
        PulledAt(before, triangles, index, newPos, i);
      }
    }

    /**
     * When loaded, puts the original's contents back into the shown copy
     * and reloads the working arrays from it; otherwise does nothing.
     */
    method ResetMesh()
      requires Valid()
      modifies this, clonedMesh, meshFilter
      ensures Valid() && Loaded() == old(Loaded())
      ensures originalMesh == old(originalMesh) && clonedMesh == old(clonedMesh)
      ensures !old(Loaded()) ==> unchanged(this, meshFilter)
      ensures old(Loaded()) ==>
                unchanged(originalMesh) && fresh(vertices) &&
                vertices[..] == originalMesh.vertices && triangles == originalMesh.triangles
    {
      if clonedMesh != null && originalMesh != null {
        clonedMesh.vertices := originalMesh.vertices;
        clonedMesh.triangles := originalMesh.triangles;
        meshFilter.sharedMesh := clonedMesh;
        vertices := CopyToArray(clonedMesh.vertices);
        triangles := clonedMesh.triangles;
      }
    }

    /**
     * Saves the edits: the shown copy becomes the original and a fresh
     * copy of it is loaded, so that later resets return to this state.
     * The copy becomes the original because the filter shows it; before
     * anything is loaded, the filter's own mesh is loaded instead.
     */
    method EditMesh()
      requires Valid()
      requires Loaded() || meshFilter.sharedMesh != null
      modifies this, meshFilter
      ensures Valid() && Loaded()
      ensures old(Loaded()) ==>
                originalMesh == old(clonedMesh) &&
                originalMesh.vertices == old(vertices[..]) && originalMesh.triangles == old(triangles)
      ensures !old(Loaded()) ==> originalMesh == old(meshFilter.sharedMesh)
      ensures fresh(clonedMesh) && fresh(vertices)
      ensures vertices[..] == originalMesh.vertices && triangles == originalMesh.triangles
    {
      originalMesh := clonedMesh;
      InitMesh();
    }
  }

  /** A fresh array holding `s`, as a Mesh property getter returns. */
  method CopyToArray(s: seq<Vector3>) returns (a: array<Vector3>)
    ensures fresh(a) && a[..] == s
  {
    a := new Vector3[|s|](i requires 0 <= i < |s| => s[i]);
  }

  /** Resetting twice leaves the state a single reset leaves. */
  method ResetTwice(e: MeshEdit)
    requires e.Valid()
    modifies e, e.clonedMesh, e.meshFilter
    ensures e.Valid() && e.originalMesh == old(e.originalMesh) && e.clonedMesh == old(e.clonedMesh)
    ensures !old(e.Loaded()) ==> unchanged(e, e.meshFilter)
    ensures old(e.Loaded()) ==>
              unchanged(e.originalMesh) &&
              e.vertices[..] == e.originalMesh.vertices && e.triangles == e.originalMesh.triangles
  {
    e.ResetMesh();
    e.ResetMesh();
  }

  /**
   * After a save, a drag followed by a reset returns to the saved state,
   * not to the mesh that was the original before the save.
   */
  method SaveDragReset(e: MeshEdit, index: int, newPos: Vector3)
    requires e.Valid() && e.Loaded()
    requires 0 <= index < e.vertices.Length && InRange(e.triangles, e.vertices.Length)
    modifies e, e.meshFilter
    ensures e.Valid() && e.Loaded()
    ensures e.vertices[..] == old(e.vertices[..]) && e.triangles == old(e.triangles)
  {
    e.EditMesh();
    e.DoAction(index, newPos);
    e.ResetMesh();
  }
}
