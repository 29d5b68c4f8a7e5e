/**
 `objl::Loader`: `LoadFile` clears the two public output lists, runs the
 parser and reports whether anything was loaded. The parser is written
 here a second time the way the source writes it, with the source's own
 decoding: a line loop dispatching on the keyword, the nested triangle and
 corner loops of an `f` line, the cache lookup and the segment loop of a
 miss. Each loop is proved equal to the line-by-line definition in
 `ObjParser`.
 */
module ObjLoader {
  import opened ObjTypes
  import opened CornerToken
  import opened Fan
  import opened ObjParser

  /** What opening the file yields: a file that cannot be opened, or the
      lines of one that can. */
  datatype ObjFile = Unopenable | Opened(lines: seq<Line>)

  /** The public members of `objl::Loader`. */
  datatype Loader = Loader(LoadedVertices: seq<Vertex>, LoadedIndices: seq<nat>)

  /** The boolean `LoadFile` returns, with the loader it leaves behind. */
  datatype LoadOutcome = LoadOutcome(loaded: bool, loader: Loader)

  /** `LoadFile`: a file that cannot be opened leaves both lists empty and
      reports failure; otherwise the parser fills them, and the load counts
      as successful only when neither list is empty. An error of the parser
      (an exception or undefined behaviour in the source) is passed on. */
  function LoadFile(file: ObjFile): (r: Result<LoadOutcome>)
    ensures file.Unopenable? ==> r == Ok(LoadOutcome(false, Loader([], [])))
    ensures file.Opened? ==> (r.Ok? <==> WellFormed(CornerIndices, file.lines))
    ensures r.Ok? ==>
      (r.value.loaded <==> r.value.loader.LoadedVertices != [] && r.value.loader.LoadedIndices != [])
    ensures file.Opened? && r.Ok? ==>
      && Parse(CornerIndices, file.lines).Ok?
      && r.value.loader.LoadedVertices == Parse(CornerIndices, file.lines).value.vertices
      && r.value.loader.LoadedIndices == Parse(CornerIndices, file.lines).value.indices
  {
    match file
    case Unopenable =>
      Ok(LoadOutcome(false, Loader([], [])))
    case Opened(lines) =>
      ParseFacts(CornerIndices, lines);
      var s :- Parse(CornerIndices, lines);
      var loader := Loader(s.vertices, s.indices);
      Ok(LoadOutcome(!(|s.vertices| == 0 || |s.indices| == 0), loader))
  }

  /** Some `f` line of the file has at least three corners, that is, makes
      at least one triangle. */
  predicate HasTriangle(lines: seq<Line>) {
    exists i :: 0 <= i < |lines| && lines[i].F? && |lines[i].corners| >= 3
  }

  /** A file has a triangle exactly when its prefix has one or its last
      line is a face of three or more corners. */
  lemma HasTriangleSnoc(lines: seq<Line>)
    requires |lines| > 0
    ensures var l := lines[|lines| - 1];
      HasTriangle(lines) <==> HasTriangle(lines[..|lines| - 1]) || (l.F? && |l.corners| >= 3)
  {
    var init := lines[..|lines| - 1];
    if HasTriangle(lines) {
      var i :| 0 <= i < |lines| && lines[i].F? && |lines[i].corners| >= 3;
      if i < |init| {
        assert init[i] == lines[i];
      }
    }
    if HasTriangle(init) {
      var i :| 0 <= i < |init| && init[i].F? && |init[i].corners| >= 3;
      assert lines[i] == init[i];
    }
  }

  /** The cache sees no corner at all exactly when no face makes a triangle. */
  lemma {:induction false} CornersEmpty(lines: seq<Line>)
    ensures Corners(lines) == [] <==> !HasTriangle(lines)
    decreases |lines|
  {
    if |lines| > 0 {
      CornersEmpty(lines[..|lines| - 1]);
      CornersSnoc(lines);
      HasTriangleSnoc(lines);
    }
  }

  /** A successful `LoadFile` of an opened file reports `true` exactly when
      some face of the file makes a triangle. */
  lemma LoadFileLoaded(lines: seq<Line>)
    requires LoadFile(Opened(lines)).Ok?
    ensures LoadFile(Opened(lines)).value.loaded <==> HasTriangle(lines)
  {
    var s := Parse(CornerIndices, lines).value;
    ParseOutputs(CornerIndices, lines);
    CornersEmpty(lines);
    TokenSetMembers(Corners(lines));
    if Corners(lines) != [] {
      assert Corners(lines)[0] in CornerSet(lines);
    } else {
      assert CornerSet(lines) == {};
    }
  }

  /** Three indices per fan triangle, summed over the file's `f` lines. */
  function FaceIndexCount(lines: seq<Line>): nat
    decreases |lines|
  {
    if |lines| == 0 then 0
    else
      var l := lines[|lines| - 1];
      FaceIndexCount(lines[..|lines| - 1]) + (if l.F? then 3 * TriangleCount(|l.corners|) else 0)
  }

  lemma {:induction false} CornersLength(lines: seq<Line>)
    ensures |Corners(lines)| == FaceIndexCount(lines)
    decreases |lines|
  {
    if |lines| > 0 {
      CornersLength(lines[..|lines| - 1]);
      CornersSnoc(lines);
    }
  }

  /** After a successful `LoadFile` of an opened file: one index per fan
      corner, three per triangle; one vertex per distinct corner token; every
      index names a loaded vertex. */
  lemma LoadFileCounts(lines: seq<Line>)
    requires LoadFile(Opened(lines)).Ok?
    ensures var l := LoadFile(Opened(lines)).value.loader;
      && |l.LoadedIndices| == FaceIndexCount(lines)
      && |l.LoadedVertices| == |CornerSet(lines)|
      && (forall i :: 0 <= i < |l.LoadedIndices| ==> l.LoadedIndices[i] < |l.LoadedVertices|)
  {
    ParseOutputs(CornerIndices, lines);
    CornersLength(lines);
  }

  // ---------------------------------------------------------------------
  // The parser written with the source's loops
  // ---------------------------------------------------------------------

  /** Once a prefix of the lines fails, the whole parse fails the same way. */
  lemma {:induction false} ParseErrorPersists(dec: Decoder, lines: seq<Line>, n: nat)
    requires n <= |lines| && Parse(dec, lines[..n]).Err?
    ensures Parse(dec, lines) == Parse(dec, lines[..n])
    decreases |lines| - n
  {
    if n < |lines| {
      var init := lines[..|lines| - 1];
      assert init[..n] == lines[..n];
      ParseErrorPersists(dec, init, n);
    } else {
      assert lines[..n] == lines;
    }
  }

  /** Once a prefix of the tokens fails, the whole run fails the same way. */
  lemma {:induction false} CornersErrorPersists(dec: Decoder, st: ParseState, toks: seq<string>, n: nat)
    requires n <= |toks| && ProcessCorners(dec, st, toks[..n]).Err?
    ensures ProcessCorners(dec, st, toks) == ProcessCorners(dec, st, toks[..n])
    decreases |toks| - n
  {
    if n < |toks| {
      var init := toks[..|toks| - 1];
      assert init[..n] == toks[..n];
      CornersErrorPersists(dec, st, init, n);
    } else {
      assert toks[..n] == toks;
    }
  }

  /** One more token on a prefix that went through: the cache step on it. */
  lemma CornersSnocStep(dec: Decoder, st: ParseState, toks: seq<string>, n: nat, s: ParseState)
    requires n < |toks| && ProcessCorners(dec, st, toks[..n]) == Ok(s)
    ensures ProcessCorners(dec, st, toks[..n + 1]) == ProcessCorner(dec, s, toks[n])
  {
    assert toks[..n + 1][..n] == toks[..n];
  }

  /** A failure on a prefix of the fan is the failure of the whole face. */
  lemma FaceLoopFail(dec: Decoder, st: ParseState, corners: seq<string>, m: nat)
    requires |corners| >= 1 && m <= |FanCorners(corners)|
    requires ProcessCorners(dec, st, FanCorners(corners)[..m]).Err?
    ensures ProcessFace(dec, st, corners) == ProcessCorners(dec, st, FanCorners(corners)[..m])
  {
    CornersErrorPersists(dec, st, FanCorners(corners), m);
  }

  /** The body of the `getline(ss_face, segment, '/')` loop of a cache miss,
      over the '/'-separated segments of the key: an empty segment gives 0,
      any other the value `stoi` reads from it, and a segment `stoi` rejects
      makes the key malformed. */
  method ConvertSegments(segs: seq<string>, key: string) returns (r: Result<seq<int>>)
    ensures r == SegmentValues(segs, key)
  {
    var indices: seq<int> := [];
    var k := 0;
    while k < |segs|
      invariant 0 <= k <= |segs| && |indices| == k
      invariant forall i :: 0 <= i < k ==> SegmentValue(segs[i]) == Some(indices[i])
    {
      // an empty segment is 0, any other goes through `stoi`
      var n := SegmentValue(segs[k]);
      if n.None? {
        // `stoi` throws
        SegmentValuesSpec(segs, key);
        return Err(MalformedSegment(key));
      }
      indices := indices + [n.value];
      k := k + 1;
    }
    SegmentValuesSpec(segs, key);
    assert SegmentValues(segs, key).value == indices;
    return Ok(indices);
  }

  /** One corner as the source handles it, with the source's own decoding.
      A cache hit appends the cached index. A miss reads the key's indices
      (`Segments`, `ConvertSegments`), turns them into 0-based slots with
      -1 for an absent or zero texture or normal index, reads the position
      unchecked, the texture coordinate and the normal only when their slot
      is inside the table, and appends the new vertex, its index and the
      cache entry. */
  method CacheCorner(s: ParseState, key: string) returns (r: Result<ParseState>)
    ensures r == ProcessCorner(CornerIndices, s, key)
  {
    if key in s.cache {
      // cache hit
      return Ok(s.(indices := s.indices + [s.cache[key]]));
    }
    // cache miss
    var decoded := ConvertSegments(Segments(key), key);
    assert decoded == CornerIndices(key);
    if decoded.Err? {
      return Err(decoded.error);
    }
    var indices := decoded.value;
    if |indices| == 0 {
      // `indices[0]` is read past the end
      return Err(MissingPosition(key));
    }
    var vIdx := indices[0] - 1;
    var vtIdx := if |indices| > 1 && indices[1] != 0 then indices[1] - 1 else -1;
    var vnIdx := if |indices| > 2 && indices[2] != 0 then indices[2] - 1 else -1;
    if !(0 <= vIdx < |s.positions|) {
      // the unchecked `temp_positions[v_idx]`
      return Err(PositionOutOfRange(key, indices[0]));
    }
    var pos := s.positions[vIdx];
    var tex := ZeroVector2;
    if vtIdx >= 0 && vtIdx < |s.texcoords| {
      tex := s.texcoords[vtIdx];
    }
    var norm := ZeroVector3;
    if vnIdx >= 0 && vnIdx < |s.normals| {
      norm := s.normals[vnIdx];
    }
    assert ResolveCorner(CornerIndices, s, key) == Ok(Vertex(pos, norm, tex));
    var vertices := s.vertices + [Vertex(pos, norm, tex)];
    var newIndex := |vertices| - 1;
    return Ok(s.(vertices := vertices, indices := s.indices + [newIndex], cache := s.cache[key := newIndex]));
  }

  /** The three corners of one fan triangle fed through the cache in order,
      as the source's inner loop does: a failing corner stops the run. */
  method CacheTriangle(s0: ParseState, triangle: seq<string>) returns (r: Result<ParseState>)
    requires |triangle| == 3
    ensures r == ProcessCorners(CornerIndices, s0, triangle)
  {
    var s := s0;
    var j := 0;
    while j < 3
      invariant 0 <= j <= 3
      invariant ProcessCorners(CornerIndices, s0, triangle[..j]) == Ok(s)
    {
      var next := CacheCorner(s, triangle[j]);
      CornersSnocStep(CornerIndices, s0, triangle, j, s);
      if next.Err? {
        CornersErrorPersists(CornerIndices, s0, triangle, j + 1);
        return next;
      }
      s := next.value;
      j := j + 1;
    }
    assert triangle[..3] == triangle;
    return Ok(s);
  }

  /** Fan triangle i run from where the first i - 1 triangles left the
      state continues the run over the fan; when it fails, the whole face
      fails with it. */
  lemma TriangleStep(dec: Decoder, st: ParseState, corners: seq<string>, i: nat, s: ParseState,
                     next: Result<ParseState>)
    requires 1 <= i <= |corners| - 2 && 3 * (i - 1) <= |FanCorners(corners)|
    requires ProcessCorners(dec, st, FanCorners(corners)[..3 * (i - 1)]) == Ok(s)
    requires next == ProcessCorners(dec, s, [corners[0], corners[i], corners[i + 1]])
    ensures next.Err? ==> next == ProcessFace(dec, st, corners)
    ensures next.Ok? ==> 3 * i <= |FanCorners(corners)|
    ensures next.Ok? ==> ProcessCorners(dec, st, FanCorners(corners)[..3 * i]) == next
  {
    var fan := FanCorners(corners);
    FanSlice(corners, i);
    ProcessCornersAppend(dec, st, fan[..3 * (i - 1)], [corners[0], corners[i], corners[i + 1]]);
    if next.Err? {
      FaceLoopFail(dec, st, corners, 3 * i);
    }
  }

  /** The triangulation of one `f` line as the source loops over it: triangle
      i = 1 .. n-2 is (c0, ci, ci+1); each of its three corners is looked up
      in the cache, and on a miss decoded, resolved, appended and cached. */
  method ProcessFaceLoop(st: ParseState, corners: seq<string>) returns (r: Result<ParseState>)
    ensures r == ProcessFace(CornerIndices, st, corners)
  {
    if |corners| == 0 {
      // `size() - 1` wraps around and `faceVertices[0]` is read out of bounds
      return Err(EmptyFace);
    }
    ghost var fan := FanCorners(corners);
    var s := st;
    var i := 1;
    while i < |corners| - 1
      invariant 1 <= i && (|corners| >= 2 ==> i <= |corners| - 1)
      invariant 3 * (i - 1) <= |fan|
      invariant ProcessCorners(CornerIndices, st, fan[..3 * (i - 1)]) == Ok(s)
      decreases |corners| - i
    {
      var triangle := [corners[0], corners[i], corners[i + 1]];
      var next := CacheTriangle(s, triangle);
      TriangleStep(CornerIndices, st, corners, i, s, next);
      if next.Err? {
        return next;
      }
      s := next.value;
      i := i + 1;
    }
    assert fan[..3 * (i - 1)] == fan;
    r := Ok(s);
  }

  /** One more line on a prefix that went through: the parse step on it. */
  lemma ParseSnocStep(dec: Decoder, lines: seq<Line>, n: nat, st: ParseState)
    requires n < |lines| && Parse(dec, lines[..n]) == Ok(st)
    ensures Parse(dec, lines[..n + 1]) == Step(dec, st, lines[n])
  {
    assert lines[..n + 1][..n] == lines[..n];
  }

  /** The `while (getline(...))` loop of `Parse`, one line per iteration,
      leaving at the first error. Each line is dispatched on its keyword:
      `v`, `vt` and `vn` append to their table (`vt` storing 1 - V), `f`
      runs the triangulation loop, anything else is skipped. */
  method ParseLines(lines: seq<Line>) returns (r: Result<ParseState>)
    ensures r == Parse(CornerIndices, lines)
  {
    var st := Initial;
    var i := 0;
    while i < |lines|
      invariant 0 <= i <= |lines|
      invariant Parse(CornerIndices, lines[..i]) == Ok(st)
    {
      ParseSnocStep(CornerIndices, lines, i, st);
      var next: Result<ParseState>;
      match lines[i] {
        case V(x, y, z) =>
          next := Ok(st.(positions := st.positions + [Vector3(x, y, z)]));
        case VT(u, v) =>
          next := Ok(st.(texcoords := st.texcoords + [Vector2(u, 1.0 - v)]));
        case VN(x, y, z) =>
          next := Ok(st.(normals := st.normals + [Vector3(x, y, z)]));
        case F(corners) =>
          next := ProcessFaceLoop(st, corners);
        case Other =>
          next := Ok(st);
      }
      if next.Err? {
        ParseErrorPersists(CornerIndices, lines, i + 1);
        return next;
      }
      st := next.value;
      i := i + 1;
    }
    assert lines[..|lines|] == lines;
    r := Ok(st);
  }
}
