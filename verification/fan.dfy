/**
 Fan triangulation of a face: an `f` line with corners c0 .. c(n-1) becomes
 the triangles (c0, ci, ci+1) for i = 1 .. n-2, visited in that order, each
 triangle's three corners in that order.
 */
module Fan {

  /** Number of triangles the fan of an n-corner face has. */
  function TriangleCount(n: nat): nat {
    if n >= 3 then n - 2 else 0
  }

  /** Corner j (0, 1 or 2) of fan triangle i (1-based), (c0, ci, ci+1). */
  function TriangleCorner(c: seq<string>, i: nat, j: nat): string
    requires 1 <= i && i + 1 < |c| && j < 3
  {
    if j == 0 then c[0] else if j == 1 then c[i] else c[i + 1]
  }

  /** The corners of the first m fan triangles, flattened. */
  function FanPrefix(c: seq<string>, m: nat): (r: seq<string>)
    requires m == 0 || m + 2 <= |c|
    ensures |r| == 3 * m
    ensures forall k :: 0 <= k < |r| ==> r[k] == TriangleCorner(c, k / 3 + 1, k % 3)
    decreases m
  {
    if m == 0 then []
    else FanPrefix(c, m - 1) + [c[0], c[m], c[m + 1]]
  }

  /** The corner sequence the triangulation loop hands to the vertex cache:
      three entries per fan triangle, none for a face of one or two corners. */
  function FanCorners(c: seq<string>): (r: seq<string>)
    ensures |r| == 3 * TriangleCount(|c|)
    ensures |c| < 3 ==> r == []
    ensures forall k :: 0 <= k < |r| ==> r[k] == TriangleCorner(c, k / 3 + 1, k % 3)
  {
    FanPrefix(c, TriangleCount(|c|))
  }

  /** A face of three or more corners uses every corner and nothing else. */
  lemma FanCornersCoverFace(c: seq<string>)
    requires |c| >= 3
    ensures forall t :: t in FanCorners(c) <==> t in c
  {
    forall x | 0 <= x < |c|
      ensures c[x] in FanCorners(c)
    {
      FanUsesCorner(c, x);
    }
    forall k | 0 <= k < |FanCorners(c)|
      ensures FanCorners(c)[k] in c
    {
      FanEntryFromFace(c, k);
    }
  }

  /** Corner x of a face of three or more corners appears in its fan: c0 in
      the first triangle, any other corner in a triangle it opens or closes. */
  lemma FanUsesCorner(c: seq<string>, x: nat)
    requires |c| >= 3 && x < |c|
    ensures c[x] in FanCorners(c)
  {
    if x == 0 {
      FanAt(c, 1, 0);
    } else if x <= |c| - 2 {
      FanAt(c, x, 1);
    } else {
      FanAt(c, x - 1, 2);
    }
  }

  /** Every entry of the fan is one of the face's corners. */
  lemma FanEntryFromFace(c: seq<string>, k: nat)
    requires k < |FanCorners(c)|
    ensures FanCorners(c)[k] in c
  {
    assert FanCorners(c)[k] == TriangleCorner(c, k / 3 + 1, k % 3);
  }

  /** A face of n >= 3 corners yields n - 2 triangles whose first corner is
      always c0 and whose other two corners are consecutive corners. */
  lemma FanShape(c: seq<string>, i: nat)
    requires 1 <= i <= |c| - 2
    ensures 3 * (i - 1) + 2 < |FanCorners(c)|
    ensures FanCorners(c)[3 * (i - 1)] == c[0]
    ensures FanCorners(c)[3 * (i - 1) + 1] == c[i]
    ensures FanCorners(c)[3 * (i - 1) + 2] == c[i + 1]
  {
    var r := FanCorners(c);
    assert r[3 * (i - 1)] == TriangleCorner(c, i, 0);
    assert r[3 * (i - 1) + 1] == TriangleCorner(c, i, 1);
    assert r[3 * (i - 1) + 2] == TriangleCorner(c, i, 2);
  }

  /** The first i triangles of the fan are the first i - 1 followed by
      triangle i, (c0, ci, ci+1). */
  lemma FanSlice(c: seq<string>, i: nat)
    requires 1 <= i <= |c| - 2
    ensures 3 * i <= |FanCorners(c)|
    ensures FanCorners(c)[..3 * i] == FanCorners(c)[..3 * (i - 1)] + [c[0], c[i], c[i + 1]]
  {
    FanShape(c, i);
    var r := FanCorners(c);
    assert r[..3 * i] == r[..3 * (i - 1)] + [r[3 * (i - 1)], r[3 * (i - 1) + 1], r[3 * (i - 1) + 2]];
  }

  /** Entry 3(i-1)+j of the fan is corner j of triangle i. */
  lemma FanAt(c: seq<string>, i: nat, j: nat)
    requires 1 <= i <= |c| - 2 && j < 3
    ensures 3 * (i - 1) + j < |FanCorners(c)|
    ensures FanCorners(c)[3 * (i - 1) + j] == TriangleCorner(c, i, j)
  {
    FanShape(c, i);
  }
}
