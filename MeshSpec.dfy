/*
 * Value-level specification of the vertex editing done by MeshEdit:
 * the scan that collects the vertices sitting at a position, the writes
 * that move them, and the properties of a whole "pull" step.
 */
module MeshSpec {

  /** A vertex position. The editor only ever compares positions with ==. */
  datatype Vector3 = Vector3(x: real, y: real, z: real)

  /** Every entry of `indices` names one of the first `n` vertices. */
  predicate InRange(indices: seq<int>, n: int) {
    forall k :: 0 <= k < |indices| ==> 0 <= indices[k] < n
  }

  /**
   * The vertex indices that the scan over the triangle array collects
   * for `target`: one entry per triangle corner whose vertex currently
   * sits at `target`, in the order the corners are scanned.
   */
  function Related(vertices: seq<Vector3>, triangles: seq<int>, target: Vector3): (r: seq<int>)
    requires InRange(triangles, |vertices|)
    ensures |r| <= |triangles|
    ensures InRange(r, |vertices|)
    ensures forall k :: 0 <= k < |r| ==> vertices[r[k]] == target
  {
    if triangles == [] then []
    else
      var idx := triangles[|triangles| - 1];
      Related(vertices, triangles[..|triangles| - 1], target)
        + (if vertices[idx] == target then [idx] else [])
  }

  /** The vertex buffer after writing `p` at each of `indices`, one after the other. */
  function Assign(vertices: seq<Vector3>, indices: seq<int>, p: Vector3): (r: seq<Vector3>)
    requires InRange(indices, |vertices|)
    ensures |r| == |vertices|
  {
    if indices == [] then vertices
    else Assign(vertices, indices[..|indices| - 1], p)[indices[|indices| - 1] := p]
  }

  /**
   * The vertex buffer after dragging vertex `index` to `p`: every vertex
   * that the scan finds at the old position of `index` is set to `p`.
   */
  function Pulled(vertices: seq<Vector3>, triangles: seq<int>, index: int, p: Vector3): (r: seq<Vector3>)
    requires InRange(triangles, |vertices|) && 0 <= index < |vertices|
    ensures |r| == |vertices|
  {
    Assign(vertices, Related(vertices, triangles, vertices[index]), p)
  }

  // ---------------------------------------------------------------------
  // The scan over the triangles

  /** An index is collected if and only if some triangle corner names it and it sits at `target`. */
  lemma {:induction false} RelatedMember(vertices: seq<Vector3>, triangles: seq<int>, target: Vector3, i: int)
    requires InRange(triangles, |vertices|)
    ensures i in Related(vertices, triangles, target)
        <==> 0 <= i < |vertices| && vertices[i] == target && i in triangles
  {
    if triangles != [] {
      var rest := triangles[..|triangles| - 1];
      RelatedMember(vertices, rest, target, i);
      assert triangles == rest + [triangles[|triangles| - 1]];
    }
  }

  /**
   * The result holds one entry per triangle corner: an index at `target`
   * occurs as often as it occurs in the triangle array, any other not at all.
   */
  lemma {:induction false} RelatedMultiplicity(vertices: seq<Vector3>, triangles: seq<int>, target: Vector3, i: int)
    requires InRange(triangles, |vertices|)
    ensures multiset(Related(vertices, triangles, target))[i]
         == if 0 <= i < |vertices| && vertices[i] == target then multiset(triangles)[i] else 0
  {
    if triangles != [] {
      var rest := triangles[..|triangles| - 1];
      RelatedMultiplicity(vertices, rest, target, i);
      assert triangles == rest + [triangles[|triangles| - 1]];
    } else {
      assert multiset(triangles) == multiset{};
    }
  }

  /**
   * The scan keeps triangle order: scanning two runs of corners one after
   * the other yields the two results one after the other.
   */
  lemma {:induction false} RelatedConcat(vertices: seq<Vector3>, a: seq<int>, b: seq<int>, target: Vector3)
    requires InRange(a, |vertices|) && InRange(b, |vertices|)
    ensures InRange(a + b, |vertices|)
    ensures Related(vertices, a + b, target) == Related(vertices, a, target) + Related(vertices, b, target)
  {
    assert InRange(a + b, |vertices|) by {
      forall k | 0 <= k < |a + b| ensures 0 <= (a + b)[k] < |vertices| {
        if k < |a| { assert (a + b)[k] == a[k]; } else { assert (a + b)[k] == b[k - |a|]; }
      }
    }
    if b != [] {
      var front := b[..|b| - 1];
      assert InRange(front, |vertices|);
      RelatedConcat(vertices, a, front, target);
      assert (a + b)[..|a + b| - 1] == a + front;
    } else {
      assert a + b == a;
    }
  }

  // ---------------------------------------------------------------------
  // The writes

  /** After the writes, exactly the written indices hold `p`; every other vertex is as before. */
  lemma {:induction false} AssignAt(vertices: seq<Vector3>, indices: seq<int>, p: Vector3, i: int)
    requires InRange(indices, |vertices|) && 0 <= i < |vertices|
    ensures Assign(vertices, indices, p)[i] == if i in indices then p else vertices[i]
  {
    if indices != [] {
      var rest := indices[..|indices| - 1];
      AssignAt(vertices, rest, p, i);
      assert indices == rest + [indices[|indices| - 1]];
    }
  }

  // ---------------------------------------------------------------------
  // A whole pull

  /**
   * All and only: a vertex ends at `p` through the pull exactly when a
   * triangle names it and it sat where vertex `index` sat; every other
   * vertex keeps its position.
   */
  lemma PulledAt(vertices: seq<Vector3>, triangles: seq<int>, index: int, p: Vector3, i: int)
    requires InRange(triangles, |vertices|) && 0 <= index < |vertices| && 0 <= i < |vertices|
    ensures Pulled(vertices, triangles, index, p)[i]
         == if i in triangles && vertices[i] == vertices[index] then p else vertices[i]
  {
    RelatedMember(vertices, triangles, vertices[index], i);
    AssignAt(vertices, Related(vertices, triangles, vertices[index]), p, i);
  }

  /**
   * The dragged vertex itself ends at `p` when some triangle names it; when
   * none does, the scan never collects it and it stays where it was.
   */
  lemma PulledIndex(vertices: seq<Vector3>, triangles: seq<int>, index: int, p: Vector3)
    requires InRange(triangles, |vertices|) && 0 <= index < |vertices|
    ensures Pulled(vertices, triangles, index, p)[index] == if index in triangles then p else vertices[index]
  {
    PulledAt(vertices, triangles, index, p, index);
  }

  /**
   * A pull leaves the buffer as it was exactly when the new position is the
   * old one or no triangle corner sits at the old position of `index`.
   */
  lemma PulledUnchanged(vertices: seq<Vector3>, triangles: seq<int>, index: int, p: Vector3)
    requires InRange(triangles, |vertices|) && 0 <= index < |vertices|
    ensures Pulled(vertices, triangles, index, p) == vertices
        <==> p == vertices[index] || forall t :: 0 <= t < |triangles| ==> vertices[triangles[t]] != vertices[index]
  {
    var r := Pulled(vertices, triangles, index, p);
    if p == vertices[index] || forall t :: 0 <= t < |triangles| ==> vertices[triangles[t]] != vertices[index] {
      forall i | 0 <= i < |vertices| ensures r[i] == vertices[i] {
        PulledAt(vertices, triangles, index, p, i);
      }
    } else {
      var t :| 0 <= t < |triangles| && vertices[triangles[t]] == vertices[index];
      PulledAt(vertices, triangles, index, p, triangles[t]);
      assert r[triangles[t]] != vertices[triangles[t]];
    }
  }

  /**
   * Dragging a vertex that no triangle names still moves the named vertices
   * that share its position, while the dragged vertex stays put.
   */
  lemma UnreferencedDragMovesOthers()
    ensures var o, p := Vector3(0.0, 0.0, 0.0), Vector3(1.0, 0.0, 0.0);
            Pulled([o, o], [1, 1, 1], 0, p) == [o, p]
  {
    var o, p := Vector3(0.0, 0.0, 0.0), Vector3(1.0, 0.0, 0.0);
    assert InRange([1, 1, 1], 2);
    assert 0 !in [1, 1, 1] && 1 in [1, 1, 1];
    PulledAt([o, o], [1, 1, 1], 0, p, 0);
    PulledAt([o, o], [1, 1, 1], 0, p, 1);
  }

  /**
   * Repeating the same drag changes nothing more: the second pull finds
   * every moved vertex at `p` and writes `p` over it again.
   */
  lemma PulledIdempotent(vertices: seq<Vector3>, triangles: seq<int>, index: int, p: Vector3)
    requires InRange(triangles, |vertices|) && 0 <= index < |vertices|
    ensures Pulled(Pulled(vertices, triangles, index, p), triangles, index, p)
         == Pulled(vertices, triangles, index, p)
  {
    var once := Pulled(vertices, triangles, index, p);
    var twice := Pulled(once, triangles, index, p);
    PulledAt(vertices, triangles, index, p, index);
    forall i | 0 <= i < |vertices| ensures twice[i] == once[i] {
      PulledAt(vertices, triangles, index, p, i);
      PulledAt(once, triangles, index, p, i);
    }
  }

  /**
   * Groups come from the current buffer: once vertex `i` is pulled onto the
   * position of vertex `j`, a later pull of either drags the other along,
   * even if the two never shared a position before.
   */
  lemma PulledMerges(vertices: seq<Vector3>, triangles: seq<int>, i: int, j: int, q: Vector3)
    requires InRange(triangles, |vertices|) && 0 <= i < |vertices| && 0 <= j < |vertices|
    requires i in triangles && j in triangles
    ensures Pulled(Pulled(vertices, triangles, i, vertices[j]), triangles, i, q)[j] == q
    ensures Pulled(Pulled(vertices, triangles, i, vertices[j]), triangles, j, q)[i] == q
  {
    var once := Pulled(vertices, triangles, i, vertices[j]);
    PulledAt(vertices, triangles, i, vertices[j], i);
    PulledAt(vertices, triangles, i, vertices[j], j);
    PulledAt(once, triangles, i, q, j);
    PulledAt(once, triangles, j, q, i);
  }

  /**
   * A seam: vertices 1 and 3 share a position and the triangles are
   * (0, 1, 2) and (1, 2, 3). Dragging vertex 1 moves vertex 3 with it and
   * leaves vertices 0 and 2 where they are.
   */
  lemma SeamExample()
    ensures var a, o, c, p := Vector3(1.0, 0.0, 0.0), Vector3(0.0, 0.0, 0.0), Vector3(0.0, 1.0, 0.0), Vector3(5.0, 0.0, 0.0);
            Pulled([a, o, c, o], [0, 1, 2, 1, 2, 3], 1, p) == [a, p, c, p]
  {
    var a, o, c, p := Vector3(1.0, 0.0, 0.0), Vector3(0.0, 0.0, 0.0), Vector3(0.0, 1.0, 0.0), Vector3(5.0, 0.0, 0.0);
    var vs, ts := [a, o, c, o], [0, 1, 2, 1, 2, 3];
    assert InRange(ts, |vs|);
    assert 0 in ts && 1 in ts && 2 in ts && 3 in ts;
    PulledAt(vs, ts, 1, p, 0);
    PulledAt(vs, ts, 1, p, 1);
    PulledAt(vs, ts, 1, p, 2);
    PulledAt(vs, ts, 1, p, 3);
  }
}
