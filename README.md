# MeshEditor vertex editing, modelled in Dafny

MeshEditor is a Unity component (`MeshEdit`) for dragging mesh vertices in the editor. It keeps a working copy of the mesh that its MeshFilter shows. When one vertex is dragged, it also moves every vertex sitting at the same position, so seams made of duplicated vertices stay closed. It can reset the copy to the original mesh, and it can save the copy as the new original.

The project has two files:

- `MeshSpec.dfy` (module `MeshSpec`) works on values.
  - A position is `Vector3`. The model only ever compares positions for equality.
  - `Related` is the scan over the triangle array. It collects the indices whose vertex sits at a target position.
  - `Assign` is a run of in-place writes.
  - `Pulled` is one whole drag.
  - The lemmas state what these mean: membership both ways, one entry per triangle corner, scan order, "all and only" the vertices at the dragged position move, idempotence of a repeated drag, and how groups merge.
- `MeshEdit.dfy` (module `MeshEditor`) models the component itself.
  - `Mesh` and `MeshFilter` are reference objects. A Unity mesh copies its vertex and triangle arrays whenever they are read or assigned, so a `Mesh` holds them as sequences.
  - The `MeshEdit` class has the source's fields. `vertices` is an `array` that a drag writes in place. `triangles` is a sequence. `originalMesh` and `clonedMesh` are nullable references.
  - `Valid()` is the invariant every operation keeps, once the component is loaded:
    - the original mesh and the copy are different objects;
    - the filter shows the copy;
    - the copy holds the working arrays.
  - Each method's `ensures` gives its whole new state in terms of the old one.
  - `ResetTwice` and `SaveDragReset` prove properties that span several calls.

Behaviours of the code worth knowing:

- Grouping uses the current working array, not a fixed reference buffer (Assets/Script/MeshEdit.cs:104, 123). Suppose a vertex has been dragged onto another vertex's position. A later drag of either one moves both. `MeshSpec.PulledMerges` proves this.
- The dragged vertex moves only if some triangle names it. A vertex that no triangle names is never collected by the scan. Dragging such a vertex moves the named vertices that share its position, and leaves the dragged vertex where it was. `MeshSpec.PulledAt` and `MeshSpec.PulledIndex` prove this in general, and `MeshSpec.UnreferencedDragMovesOthers` shows a concrete case.
- `EditMesh` commits the edits only because the filter shows the working copy. Its own assignment `_originalMesh = _clonedMesh` (Assets/Script/MeshEdit.cs:166) is overwritten at once by `InitMesh`, which takes the filter's mesh as the original (line 51). `Valid()` keeps the filter pointing at the copy. If something outside the component re-pointed the filter, `EditMesh` would commit the filter's mesh and not the edits.
- An out-of-range index and a drag before loading are not rejected with an error result. The code simply indexes past the array or dereferences null. The model makes both preconditions of `DoAction`.

## Model

| member | source | states |
|---|---|---|
| MeshSpec.Related | Assets/Script/MeshEdit.cs:95-113 | Has at most one entry per triangle corner. Every entry is a valid vertex index whose current position is the target. |
| MeshSpec.RelatedMember | Assets/Script/MeshEdit.cs:101-110 | An index is collected if and only if a triangle names it and its current position is the target. |
| MeshSpec.RelatedMultiplicity | Assets/Script/MeshEdit.cs:101-110 | An index at the target occurs in the result exactly as often as it occurs in the triangle array. Any other index does not occur. |
| MeshSpec.RelatedConcat | Assets/Script/MeshEdit.cs:101-111 | The result keeps triangle scan order. Scanning two runs of corners one after the other gives the two results one after the other. |
| MeshSpec.Assign | Assets/Script/MeshEdit.cs:125-128 | The writes keep the length of the vertex buffer. |
| MeshSpec.AssignAt | Assets/Script/MeshEdit.cs:125-128 | After the writes, a vertex holds the new position exactly when its index was written. Every other vertex is unchanged. |
| MeshSpec.Pulled | Assets/Script/MeshEdit.cs:121-128 | A drag keeps the length of the vertex buffer. |
| MeshSpec.PulledAt | Assets/Script/MeshEdit.cs:123-128 | All and only the vertices that a triangle names and that sat at the dragged vertex's old position end at the new position. All other vertices keep their positions. |
| MeshSpec.PulledIndex | Assets/Script/MeshEdit.cs:123-128 | The dragged vertex ends at the new position if a triangle names it. Otherwise it keeps its old position. |
| MeshSpec.PulledUnchanged | Assets/Script/MeshEdit.cs:123-128 | A drag leaves the buffer as it was if and only if the new position equals the old one or no triangle corner sits at the old position, with positions compared exactly. |
| MeshSpec.UnreferencedDragMovesOthers | Assets/Script/MeshEdit.cs:123-128 | Concrete case: dragging a vertex that no triangle names moves a named vertex at the same spot, and the dragged vertex stays. |
| MeshSpec.PulledIdempotent | Assets/Script/MeshEdit.cs:121-128 | Repeating the same drag changes nothing further, with positions compared exactly. |
| MeshSpec.PulledMerges | Assets/Script/MeshEdit.cs:121-128 | Once vertex i has been pulled onto vertex j's position, a later drag of i also moves j, and a later drag of j also moves i. |
| MeshSpec.SeamExample | Assets/Script/MeshEdit.cs:121-128 | Vertices 1 and 3 coincide, with triangles (0,1,2) and (1,2,3). Dragging vertex 1 moves vertex 3 as well and leaves vertices 0 and 2 alone. |
| MeshEditor.Mesh.constructor | Assets/Script/MeshEdit.cs:54 | A new mesh has no vertices and no triangles. |
| MeshEditor.MeshEdit.constructor | Assets/Script/MeshEdit.cs:39-43 | The component starts with its filter and is not loaded. |
| MeshEditor.MeshEdit.InitMesh | Assets/Script/MeshEdit.cs:48-74 | Requires the filter to show a mesh. The filter's mesh becomes the original and is not changed. The filter shows a fresh copy. The working arrays are fresh and equal the original's vertices and triangles. The invariant holds. |
| MeshEditor.CopyToArray | Assets/Script/MeshEdit.cs:62 | Reading a mesh's vertices yields a fresh array with the same contents. |
| MeshEditor.MeshEdit.DoAction | Assets/Script/MeshEdit.cs:81-84 | Same as PullSimilarVertices. |
| MeshEditor.MeshEdit.FindRelatedVertices | Assets/Script/MeshEdit.cs:92-114 | Returns exactly the triangle-ordered scan result, with length at most the number of corners. An index is in it if and only if a triangle names it and its vertex is at the target. |
| MeshEditor.MeshEdit.PullSimilarVertices | Assets/Script/MeshEdit.cs:121-139 | The new working array is the drag of the old one, pointwise "all and only". The triangle array, the array's length and the original mesh are unchanged. The copy receives the new positions. |
| MeshEditor.MeshEdit.ResetMesh | Assets/Script/MeshEdit.cs:144-159 | Does nothing when not loaded. When loaded, the working arrays are fresh and equal the original's contents, the original is unchanged, and the invariant holds. |
| MeshEditor.MeshEdit.EditMesh | Assets/Script/MeshEdit.cs:164-168 | When loaded, the former copy becomes the original and holds the working state of the time of the call. This holds because the filter shows the copy, as `Valid()` keeps it; line 166 itself is overwritten by line 51. When not loaded, it loads from the filter. In both cases a fresh copy is loaded. |
| MeshEditor.ResetTwice | Assets/Script/MeshEdit.cs:144-159 | Two resets leave exactly the state a single reset leaves. |
| MeshEditor.SaveDragReset | Assets/Script/MeshEdit.cs:164-168 | After a save, a drag followed by a reset returns to the saved state, not to the earlier original. |

## Left out

- Assets/Script/Editor/MeshInspector.cs: editor UI (handles, GUI change detection, buttons, transform maths). It only feeds `(index, localPos)` to `DoAction` and calls `ResetMesh` and `EditMesh`.
- Normals and UVs (Assets/Script/MeshEdit.cs:58-59, 150-151) and the mesh name "clone" (line 55). They are copied along but never read by the editing logic.
- `RecalculateNormals` (line 132): an engine call using floating-point geometry.
- The MeshCollider wiring (lines 65-73, 134-138, 157), including the `Debug.LogError` when it is missing. Without a collider, line 157 throws a NullReferenceException; that exception is not modelled, and it comes after the reset's state changes, so the modelled state of `ResetMesh` is unaffected. This is component plumbing outside the editing state.
- `Start` and `Init` (lines 32-43): the `GetComponent` lookups are replaced by passing the MeshFilter to the constructor. The collider is not modelled. The editor-only fields `handleSize`, `handleColor` and `moveVertexPoint` are not modelled.
- Vector3 equality: Unity's `==` on Vector3 (line 107) is an approximate floating-point comparison that is not shown. The model uses exact equality on a datatype of three reals.
- Index bounds: the code does not check them. `DoAction` and `PullSimilarVertices` require `0 <= index < vertices.Length` and every triangle entry in range. Unity's own validation when a mesh's triangles are assigned is not modelled.
- InitMesh: a filter showing no mesh makes the source store null at line 51 and throw a NullReferenceException at line 56, from `Start` or from `EditMesh`. The model makes a shown mesh a precondition of `InitMesh`, and of `EditMesh` when nothing is loaded, instead of modelling the exception.
- PulledIdempotent, PulledUnchanged: both rest on exact, transitive equality of positions. Under Unity's tolerance comparison they can fail. A repeated drag can snap a vertex that lies within tolerance of the new position. A drag to a point within tolerance of the old position, but not equal to it, changes the buffer. `PulledAt`, `RelatedMember` and `PulledMerges` use only reflexivity and symmetry of the comparison.
- The working array before loading: C# leaves it null. The model starts it as an empty array, and a drag requires the component to be loaded.
