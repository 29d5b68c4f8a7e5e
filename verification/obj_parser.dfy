/**
 The single-pass OBJ decoder `objl::Loader::Parse` and its wrapper
 `objl::Loader::LoadFile`: three append-only attribute tables, fan
 triangulation of `f` lines, and a vertex cache keyed on the raw corner
 token that turns corners into an indexed vertex list plus an index list.
 */
module ObjParser {
  import opened ObjTypes
  import opened CornerToken
  import opened Fan

  /** How a corner token becomes its `/`-separated index list. The parser is
      stated for any decoder; `LoadFile` runs it with `CornerIndices`, the
      `getline`/`stoi` decoding of the source. A decoder is a pure function of
      the token, which is what makes caching on the raw token sound. */
  type Decoder = string -> Result<seq<int>>

  /** Everything one parse carries from line to line: the attribute tables,
      the vertex cache, and the two output sequences (`LoadedVertices`,
      `LoadedIndices`). */
  datatype ParseState = ParseState(
    positions: seq<Vector3>,
    texcoords: seq<Vector2>,
    normals: seq<Vector3>,
    cache: map<string, nat>,
    vertices: seq<Vertex>,
    indices: seq<nat>)

  /** The state before the first line: every table, the cache and both outputs empty. */
  const Initial: ParseState := ParseState([], [], [], map[], [], [])

  // ---------------------------------------------------------------------
  // The state invariant
  // ---------------------------------------------------------------------

  /** Token `t` decodes to an index list whose position index is 1 .. n.
      This is what the unchecked `temp_positions[v_idx]` silently needs. */
  predicate CornerOk(dec: Decoder, n: nat, t: string) {
    var idx := dec(t);
    idx.Ok? && |idx.value| >= 1 && 1 <= idx.value[0] <= n
  }

  /** The 1-based position index of a token that satisfies `CornerOk`. */
  function PositionIndex(dec: Decoder, n: nat, t: string): (p: nat)
    requires CornerOk(dec, n, t)
    ensures 1 <= p <= n
  {
    dec(t).value[0]
  }

  /** Invariant kept by every line:
      - every output index and every cache value names an existing vertex;
      - the cache is injective and holds exactly as many tokens as there are
        vertices, so it is a bijection between its tokens and the vertex
        list: one vertex per distinct token;
      - each cached token still decodes, and its vertex carries the position
        the token names. */
  ghost predicate Valid(dec: Decoder, st: ParseState) {
    && (forall i :: 0 <= i < |st.indices| ==> st.indices[i] < |st.vertices|)
    && (forall t {:trigger st.cache[t]} :: t in st.cache ==> st.cache[t] < |st.vertices|)
    && |st.cache| == |st.vertices|
    && (forall t, u {:trigger st.cache[t], st.cache[u]} ::
          t in st.cache && u in st.cache && t != u ==> st.cache[t] != st.cache[u])
    && (forall t {:trigger st.cache[t]} :: t in st.cache ==>
          CornerOk(dec, |st.positions|, t) &&
          st.vertices[st.cache[t]].Position == st.positions[PositionIndex(dec, |st.positions|, t) - 1])
  }

  lemma InitialValid(dec: Decoder)
    ensures Valid(dec, Initial)
  {
  }

  // ---------------------------------------------------------------------
  // Corner resolution and the vertex cache
  // ---------------------------------------------------------------------

  /** 0-based table slot of the texture-coordinate segment, -1 when absent or 0. */
  function TexSlot(idx: seq<int>): int {
    if |idx| > 1 && idx[1] != 0 then idx[1] - 1 else -1
  }

  /** 0-based table slot of the normal segment, -1 when absent or 0. */
  function NormalSlot(idx: seq<int>): int {
    if |idx| > 2 && idx[2] != 0 then idx[2] - 1 else -1
  }

  /** Builds the vertex a corner token names (the cache-miss branch). The
      position is mandatory; a texture coordinate or normal whose index is
      absent, 0 or outside the table built so far becomes all zeros. */
  function ResolveCorner(dec: Decoder, st: ParseState, token: string): (r: Result<Vertex>)
    ensures r.Ok? <==> CornerOk(dec, |st.positions|, token)
    ensures r.Ok? ==>
      var idx := dec(token).value;
      && r.value.Position == st.positions[idx[0] - 1]
      && r.value.TextureCoordinate ==
           (if |idx| > 1 && 1 <= idx[1] <= |st.texcoords| then st.texcoords[idx[1] - 1] else ZeroVector2)
      && r.value.Normal ==
           (if |idx| > 2 && 1 <= idx[2] <= |st.normals| then st.normals[idx[2] - 1] else ZeroVector3)
    // the three ways a miss can fail: the decoder throws, no segment, position out of range
    ensures dec(token).Err? ==> r == Err(dec(token).error)
    ensures dec(token) == Ok([]) ==> r == Err(MissingPosition(token))
    ensures r.Err? && dec(token).Ok? && |dec(token).value| >= 1 ==>
      r.error == PositionOutOfRange(token, dec(token).value[0])
  {
    var idx :- dec(token);
    if |idx| == 0 then Err(MissingPosition(token))
    else
      var p := idx[0] - 1;
      if !(0 <= p < |st.positions|) then Err(PositionOutOfRange(token, idx[0]))
      else
        var ts := TexSlot(idx);
        var ns := NormalSlot(idx);
        var tex := if 0 <= ts < |st.texcoords| then st.texcoords[ts] else ZeroVector2;
        var norm := if 0 <= ns < |st.normals| then st.normals[ns] else ZeroVector3;
        Ok(Vertex(st.positions[p], norm, tex))
  }

  /** Only the vertex cache and the two output sequences may differ. */
  predicate SameTables(a: ParseState, b: ParseState) {
    a.positions == b.positions && a.texcoords == b.texcoords && a.normals == b.normals
  }

  /** The distinct tokens of a token sequence. */
  function TokenSet(toks: seq<string>): set<string>
    decreases |toks|
  {
    if |toks| == 0 then {} else TokenSet(toks[..|toks| - 1]) + {toks[|toks| - 1]}
  }

  lemma {:induction false} TokenSetAppend(a: seq<string>, b: seq<string>)
    ensures TokenSet(a + b) == TokenSet(a) + TokenSet(b)
    decreases |b|
  {
    if |b| == 0 {
      assert a + b == a;
    } else {
      var b' := b[..|b| - 1];
      TokenSetAppend(a, b');
      assert (a + b)[..|a + b| - 1] == a + b';
    }
  }

  /** `TokenSet` holds exactly the tokens that occur in the sequence. */
  lemma {:induction false} TokenSetMembers(toks: seq<string>)
    ensures forall t :: t in TokenSet(toks) <==> t in toks
    decreases |toks|
  {
    if |toks| > 0 {
      var init := toks[..|toks| - 1];
      TokenSetMembers(init);
      assert toks == init + [toks[|toks| - 1]];
      forall t | t in toks
        ensures t in TokenSet(toks)
      {
        var k :| 0 <= k < |toks| && toks[k] == t;
        if k < |init| {
          assert init[k] == t;
        }
      }
    }
  }

  /** `s` is `st` after the tokens `toks` went through the vertex cache, in
      order: the outputs only grew, by exactly one index per token; the
      tokens are cached and nothing else was added; the old entries kept
      their values; and the index written for each token is its cache entry. */
  predicate Extends(st: ParseState, toks: seq<string>, s: ParseState) {
    && |s.indices| == |st.indices| + |toks|
    && s.indices[..|st.indices|] == st.indices
    && |s.vertices| >= |st.vertices|
    && s.vertices[..|st.vertices|] == st.vertices
    && s.cache.Keys == st.cache.Keys + TokenSet(toks)
    && (forall t {:trigger st.cache[t]} :: t in st.cache ==> s.cache[t] == st.cache[t])
    && (forall k :: 0 <= k < |toks| ==> toks[k] in s.cache && s.indices[|st.indices| + k] == s.cache[toks[k]])
  }

  /** Running `x` and then `y` through the cache is running `x + y`. */
  lemma ExtendsTrans(a: ParseState, x: seq<string>, b: ParseState, y: seq<string>, c: ParseState)
    requires Extends(a, x, b) && Extends(b, y, c)
    ensures Extends(a, x + y, c)
  {
    TokenSetAppend(x, y);
    var xy := x + y;
    var n := |a.indices|;
    assert c.indices[..n] == a.indices by {
      assert c.indices[..n] == c.indices[..|b.indices|][..n];
    }
    assert c.vertices[..|a.vertices|] == a.vertices by {
      assert c.vertices[..|a.vertices|] == c.vertices[..|b.vertices|][..|a.vertices|];
    }
    forall k | 0 <= k < |xy|
      ensures xy[k] in c.cache && c.indices[n + k] == c.cache[xy[k]]
    {
      if k < |x| {
        ExtendsTransFirst(a, x, b, y, c, k);
      } else {
        assert xy[k] == y[k - |x|];
      }
    }
  }

  /** A token of the first run keeps its cached index and its position in
      the index list through the second run. */
  lemma ExtendsTransFirst(a: ParseState, x: seq<string>, b: ParseState, y: seq<string>, c: ParseState, k: int)
    requires Extends(a, x, b) && Extends(b, y, c)
    requires 0 <= k < |x|
    ensures x[k] in c.cache && c.indices[|a.indices| + k] == c.cache[x[k]]
  {
    assert c.indices[|a.indices| + k] == c.indices[..|b.indices|][|a.indices| + k];
    assert c.cache[x[k]] == b.cache[x[k]];
  }

  /** Feeds one corner of a fan triangle through the vertex cache. A hit
      reuses the cached index; a miss resolves the token, appends the new
      vertex, appends its index and records it in the cache. */
  function ProcessCorner(dec: Decoder, st: ParseState, token: string): Result<ParseState> {
    if token in st.cache then
      Ok(st.(indices := st.indices + [st.cache[token]]))
    else
      var v :- ResolveCorner(dec, st, token);
      var n := |st.vertices|;
      Ok(st.(vertices := st.vertices + [v], indices := st.indices + [n], cache := st.cache[token := n]))
  }

  /** What one corner does to the state: it goes through exactly when the
      token is cached or resolves; a hit adds an index and nothing else, a
      miss adds exactly one vertex, indexed by the old vertex count; the
      invariant is kept. */
  lemma ProcessCornerFacts(dec: Decoder, st: ParseState, token: string, r: Result<ParseState>)
    requires r == ProcessCorner(dec, st, token)
    ensures r.Ok? <==> token in st.cache || CornerOk(dec, |st.positions|, token)
    ensures r.Ok? ==> SameTables(r.value, st) && Extends(st, [token], r.value)
    // cache hit: the cached index is reused, no vertex and no cache entry is added
    ensures token in st.cache ==>
      r.Ok? && r.value.vertices == st.vertices && r.value.cache == st.cache
    // cache miss: exactly one vertex, whose index is the old vertex count
    ensures token !in st.cache && r.Ok? ==>
      && |r.value.vertices| == |st.vertices| + 1
      && r.value.cache == st.cache[token := |st.vertices|]
      && ResolveCorner(dec, st, token) == Ok(r.value.vertices[|st.vertices|])
    ensures token !in st.cache && r.Err? ==> ResolveCorner(dec, st, token) == Err(r.error)
    ensures Valid(dec, st) && r.Ok? ==> Valid(dec, r.value)
  {
    TokenSetSingle(token);
    if r.Ok? {
      var st' := r.value;
      if token in st.cache {
        PrefixOfAppend(st.indices, [st.cache[token]]);
        HitPreservesValid(dec, st, token, st');
      } else {
        var n := |st.vertices|;
        PrefixOfAppend(st.indices, [n]);
        PrefixOfAppend(st.vertices, [st'.vertices[n]]);
        MissPreservesValid(dec, st, token, st'.vertices[n], st');
      }
    }
  }

  lemma TokenSetSingle(token: string)
    ensures TokenSet([token]) == {token}
  {
    assert [token][..0] == [];
  }

  /** A cache hit only appends an index that is already a vertex's. */
  lemma HitPreservesValid(dec: Decoder, st: ParseState, token: string, st': ParseState)
    requires token in st.cache
    requires st' == st.(indices := st.indices + [st.cache[token]])
    ensures Valid(dec, st) ==> Valid(dec, st')
  {
    if Valid(dec, st) {
      forall i | 0 <= i < |st'.indices|
        ensures st'.indices[i] < |st'.vertices|
      {
        if i < |st.indices| {
          assert st'.indices[i] == st.indices[i];
        }
      }
    }
  }

  lemma MissPreservesValid(dec: Decoder, st: ParseState, token: string, v: Vertex, st': ParseState)
    requires token !in st.cache
    requires CornerOk(dec, |st.positions|, token)
    requires v.Position == st.positions[PositionIndex(dec, |st.positions|, token) - 1]
    requires st'.positions == st.positions
    requires st'.vertices == st.vertices + [v]
    requires st'.indices == st.indices + [|st.vertices|]
    requires st'.cache == st.cache[token := |st.vertices|]
    ensures Valid(dec, st) ==> Valid(dec, st')
  {
    if Valid(dec, st) {
      var n := |st.vertices|;
      forall i | 0 <= i < |st'.indices|
        ensures st'.indices[i] < |st'.vertices|
      {
        if i < |st.indices| {
          assert st'.indices[i] == st.indices[i];
        }
      }
      assert st'.cache.Keys == st.cache.Keys + {token};
      assert |st'.cache| == |st.cache| + 1;
      forall t | t in st'.cache
        ensures st'.cache[t] < |st'.vertices|
        ensures CornerOk(dec, |st'.positions|, t)
        ensures st'.vertices[st'.cache[t]].Position == st'.positions[PositionIndex(dec, |st'.positions|, t) - 1]
      {
        MissKeepsEntry(dec, st, token, v, st', t);
      }
      MissKeepsDistinct(st, token, st');
    }
  }

  /** A fresh vertex index is new to the cache, so cached indices stay distinct. */
  lemma MissKeepsDistinct(st: ParseState, token: string, st': ParseState)
    requires forall t {:trigger st.cache[t]} :: t in st.cache ==> st.cache[t] < |st.vertices|
    requires forall t, u {:trigger st.cache[t], st.cache[u]} ::
      t in st.cache && u in st.cache && t != u ==> st.cache[t] != st.cache[u]
    requires token !in st.cache
    requires st'.cache == st.cache[token := |st.vertices|]
    ensures forall t, u {:trigger st'.cache[t], st'.cache[u]} ::
      t in st'.cache && u in st'.cache && t != u ==> st'.cache[t] != st'.cache[u]
  {
  }

  lemma MissKeepsEntry(dec: Decoder, st: ParseState, token: string, v: Vertex, st': ParseState, t: string)
    requires Valid(dec, st)
    requires token !in st.cache
    requires CornerOk(dec, |st.positions|, token)
    requires v.Position == st.positions[PositionIndex(dec, |st.positions|, token) - 1]
    requires st'.positions == st.positions
    requires st'.vertices == st.vertices + [v]
    requires st'.cache == st.cache[token := |st.vertices|]
    requires t in st'.cache
    ensures st'.cache[t] < |st'.vertices|
    ensures CornerOk(dec, |st'.positions|, t)
    ensures st'.vertices[st'.cache[t]].Position == st'.positions[PositionIndex(dec, |st'.positions|, t) - 1]
  {
    if t != token {
      var i := st.cache[t];
      assert st'.cache[t] == i;
      assert st'.vertices[i] == st.vertices[i];
    }
  }

  /** Every token of `toks` satisfies `CornerOk` against n positions. */
  predicate AllCornersOk(dec: Decoder, n: nat, toks: seq<string>) {
    forall k :: 0 <= k < |toks| ==> CornerOk(dec, n, toks[k])
  }

  lemma AllCornersOkSnoc(dec: Decoder, n: nat, toks: seq<string>)
    requires |toks| > 0
    ensures AllCornersOk(dec, n, toks) <==>
      AllCornersOk(dec, n, toks[..|toks| - 1]) && CornerOk(dec, n, toks[|toks| - 1])
  {
    var init := toks[..|toks| - 1];
    if AllCornersOk(dec, n, init) && CornerOk(dec, n, toks[|toks| - 1]) {
      forall k | 0 <= k < |toks|
        ensures CornerOk(dec, n, toks[k])
      {
        if k < |init| {
          assert toks[k] == init[k];
        }
      }
    }
  }

  /** A cached token decoded when it was first seen, and still does. */
  lemma CachedCornerOk(dec: Decoder, st: ParseState, t: string)
    ensures Valid(dec, st) && t in st.cache ==> CornerOk(dec, |st.positions|, t)
  {
    if Valid(dec, st) && t in st.cache {
      assert st.cache[t] < |st.vertices|;
    }
  }

  /** Feeds a sequence of corner tokens through the cache, in order, and
      stops at the first one that fails. */
  function ProcessCorners(dec: Decoder, st: ParseState, toks: seq<string>): Result<ParseState>
    decreases |toks|
  {
    if |toks| == 0 then Ok(st)
    else
      var mid :- ProcessCorners(dec, st, toks[..|toks| - 1]);
      ProcessCorner(dec, mid, toks[|toks| - 1])
  }

  /** A run of tokens only touches the cache and the outputs, and adds one
      index per token, naming that token's cached vertex. */
  lemma {:induction false} ProcessCornersExtends(dec: Decoder, st: ParseState, toks: seq<string>)
    ensures ProcessCorners(dec, st, toks).Ok? ==>
      SameTables(ProcessCorners(dec, st, toks).value, st) && Extends(st, toks, ProcessCorners(dec, st, toks).value)
    decreases |toks|
  {
    if |toks| == 0 {
      assert st.indices[..|st.indices|] == st.indices;
      assert st.vertices[..|st.vertices|] == st.vertices;
    } else {
      var init := toks[..|toks| - 1];
      var last := toks[|toks| - 1];
      InitLast(toks);
      ProcessCornersExtends(dec, st, init);
      var prev := ProcessCorners(dec, st, init);
      if prev.Ok? {
        var r := ProcessCorner(dec, prev.value, last);
        ProcessCornerFacts(dec, prev.value, last, r);
        if r.Ok? {
          ExtendsTrans(st, init, prev.value, [last], r.value);
        }
      }
    }
  }

  /** Running `x` through the cache and then `y` from where it stopped is
      running `x + y`; a failure in `x` is the failure of the whole run. */
  lemma {:induction false} ProcessCornersAppend(dec: Decoder, st: ParseState, x: seq<string>, y: seq<string>)
    ensures ProcessCorners(dec, st, x + y) ==
      (if ProcessCorners(dec, st, x).Err? then ProcessCorners(dec, st, x)
       else ProcessCorners(dec, ProcessCorners(dec, st, x).value, y))
    decreases |y|
  {
    if |y| == 0 {
      AppendNil(x);
    } else {
      InitOfAppend(x, y);
      ProcessCornersAppend(dec, st, x, y[..|y| - 1]);
    }
  }

  /** A run of tokens keeps the invariant. */
  lemma {:induction false} ProcessCornersValid(dec: Decoder, st: ParseState, toks: seq<string>)
    ensures Valid(dec, st) && ProcessCorners(dec, st, toks).Ok? ==> Valid(dec, ProcessCorners(dec, st, toks).value)
    decreases |toks|
  {
    if |toks| > 0 && Valid(dec, st) {
      var init := toks[..|toks| - 1];
      ProcessCornersValid(dec, st, init);
      var prev := ProcessCorners(dec, st, init);
      if prev.Ok? {
        ProcessCornerFacts(dec, prev.value, toks[|toks| - 1], ProcessCorner(dec, prev.value, toks[|toks| - 1]));
      }
    }
  }

  /** From a valid state, a run of tokens goes through exactly when every
      token is already cached or resolves. */
  lemma {:induction false} ProcessCornersOk(dec: Decoder, st: ParseState, toks: seq<string>)
    ensures Valid(dec, st) ==> (ProcessCorners(dec, st, toks).Ok? <==> AllCornersOk(dec, |st.positions|, toks))
    decreases |toks|
  {
    if |toks| > 0 && Valid(dec, st) {
      var init := toks[..|toks| - 1];
      var last := toks[|toks| - 1];
      ProcessCornersOk(dec, st, init);
      ProcessCornersValid(dec, st, init);
      ProcessCornersExtends(dec, st, init);
      AllCornersOkSnoc(dec, |st.positions|, toks);
      var prev := ProcessCorners(dec, st, init);
      if prev.Ok? {
        ProcessCornerFacts(dec, prev.value, last, ProcessCorner(dec, prev.value, last));
        CachedCornerOk(dec, prev.value, last);
      }
    }
  }

  // ---------------------------------------------------------------------
  // Faces and lines
  // ---------------------------------------------------------------------

  /** A line the loader can process without throwing or reading out of
      bounds, given the number `n` of positions declared before it: an `f`
      line has a corner, and every corner it triangulates decodes to a
      position index in 1 .. n. */
  predicate LineOk(dec: Decoder, n: nat, line: Line) {
    line.F? ==> |line.corners| >= 1 && AllCornersOk(dec, n, FanCorners(line.corners))
  }

  /** One `f` line: the fan triangles' corners, in loop order, through the
      cache. A face with no corner at all is an error (the source computes
      `size() - 1` on an empty vector and then reads `faceVertices[0]`). */
  function ProcessFace(dec: Decoder, st: ParseState, corners: seq<string>): Result<ParseState> {
    if |corners| == 0 then Err(EmptyFace)
    else ProcessCorners(dec, st, FanCorners(corners))
  }

  /** What one `f` line does: no token is an error; one or two corners
      change nothing; otherwise exactly three indices per fan triangle are
      appended. From a valid state the face goes through exactly when every
      fan corner names an existing position, and keeps the invariant. */
  lemma ProcessFaceFacts(dec: Decoder, st: ParseState, corners: seq<string>, r: Result<ParseState>)
    requires r == ProcessFace(dec, st, corners)
    ensures corners == [] ==> r == Err(EmptyFace)
    ensures 1 <= |corners| <= 2 ==> r == Ok(st)
    ensures r.Ok? ==> SameTables(r.value, st) && Extends(st, FanCorners(corners), r.value)
    ensures r.Ok? ==> |r.value.indices| == |st.indices| + 3 * TriangleCount(|corners|)
    ensures Valid(dec, st) ==> (r.Ok? <==> LineOk(dec, |st.positions|, F(corners)))
    ensures Valid(dec, st) && r.Ok? ==> Valid(dec, r.value)
  {
    if |corners| > 0 {
      ProcessCornersExtends(dec, st, FanCorners(corners));
      ProcessCornersValid(dec, st, FanCorners(corners));
      ProcessCornersOk(dec, st, FanCorners(corners));
    }
  }

  /** After a face of n >= 3 corners, every one of its corners is cached. */
  lemma FaceCornersCached(st: ParseState, corners: seq<string>, s: ParseState)
    requires |corners| >= 3 && Extends(st, FanCorners(corners), s)
    ensures forall k :: 0 <= k < |corners| ==> corners[k] in s.cache
  {
    var fan := FanCorners(corners);
    FanCornersCoverFace(corners);
    forall k | 0 <= k < |corners|
      ensures corners[k] in s.cache
    {
      assert corners[k] in fan;
      var x :| 0 <= x < |fan| && fan[x] == corners[k];
    }
  }

  /** Fan triangle i (1-based) wrote the indices of c0, ci and ci+1. */
  lemma TriangleIndices(st: ParseState, corners: seq<string>, s: ParseState, i: nat)
    requires 1 <= i <= |corners| - 2 && Extends(st, FanCorners(corners), s)
    ensures corners[0] in s.cache && corners[i] in s.cache && corners[i + 1] in s.cache
    ensures s.indices[|st.indices| + 3 * (i - 1)] == s.cache[corners[0]]
    ensures s.indices[|st.indices| + 3 * (i - 1) + 1] == s.cache[corners[i]]
    ensures s.indices[|st.indices| + 3 * (i - 1) + 2] == s.cache[corners[i + 1]]
  {
    var fan := FanCorners(corners);
    FanShape(corners, i);
    var k := 3 * (i - 1);
    assert fan[k] in s.cache && s.indices[|st.indices| + k] == s.cache[fan[k]];
    assert fan[k + 1] in s.cache && s.indices[|st.indices| + (k + 1)] == s.cache[fan[k + 1]];
    assert fan[k + 2] in s.cache && s.indices[|st.indices| + (k + 2)] == s.cache[fan[k + 2]];
  }

  /** One line of the file: `v`, `vt` and `vn` append to their table, `f`
      goes through the triangulation and the cache, anything else is skipped. */
  function Step(dec: Decoder, st: ParseState, line: Line): Result<ParseState> {
    match line
    case V(x, y, z) => Ok(st.(positions := st.positions + [Vector3(x, y, z)]))
    case VT(u, v) => Ok(st.(texcoords := st.texcoords + [Vector2(u, 1.0 - v)]))
    case VN(x, y, z) => Ok(st.(normals := st.normals + [Vector3(x, y, z)]))
    case F(corners) => ProcessFace(dec, st, corners)
    case Other => Ok(st)
  }

  /** What one line does: `v` and `vn` append one entry to their own table,
      `vt` appends its coordinate with V flipped to 1 - V, and no other line
      touches a table; only an `f` line touches the cache and the outputs,
      and only it can fail; the invariant is kept. */
  lemma StepFacts(dec: Decoder, st: ParseState, line: Line, r: Result<ParseState>)
    requires r == Step(dec, st, line)
    ensures !line.F? ==> r.Ok?
    ensures line.F? ==> r == ProcessFace(dec, st, line.corners)
    // each table grows by its own kind of line only, and `vt` stores 1 - V
    ensures r.Ok? ==> r.value.positions == st.positions + (if line.V? then [Vector3(line.x, line.y, line.z)] else [])
    ensures r.Ok? ==> r.value.texcoords == st.texcoords + (if line.VT? then [Vector2(line.u, 1.0 - line.v)] else [])
    ensures r.Ok? ==> r.value.normals == st.normals + (if line.VN? then [Vector3(line.nx, line.ny, line.nz)] else [])
    // only a face touches the cache and the outputs
    ensures !line.F? ==> r.value.cache == st.cache && r.value.vertices == st.vertices && r.value.indices == st.indices
    ensures Valid(dec, st) && r.Ok? ==> Valid(dec, r.value)
  {
    match line
    case V(x, y, z) =>
      PrefixOfAppend(st.positions, [Vector3(x, y, z)]);
      GrowPositionsPreservesValid(dec, st, r.value);
    case F(corners) =>
      ProcessFaceFacts(dec, st, corners, r);
    case _ =>
      assert r.value.positions[..|st.positions|] == st.positions;
      GrowPositionsPreservesValid(dec, st, r.value);
  }

  /** Appending a position keeps every cached token decodable and its
      vertex's position correct: the table only ever grows. */
  lemma GrowPositionsPreservesValid(dec: Decoder, st: ParseState, st': ParseState)
    requires |st.positions| <= |st'.positions| && st'.positions[..|st.positions|] == st.positions
    requires st'.cache == st.cache && st'.vertices == st.vertices && st'.indices == st.indices
    ensures Valid(dec, st) ==> Valid(dec, st')
  {
    if Valid(dec, st) {
      forall t | t in st'.cache
        ensures CornerOk(dec, |st'.positions|, t)
        ensures st'.vertices[st'.cache[t]].Position == st'.positions[PositionIndex(dec, |st'.positions|, t) - 1]
      {
        assert st.cache[t] < |st.vertices|;
        var p := PositionIndex(dec, |st.positions|, t);
        assert st'.positions[p - 1] == st.positions[p - 1];
      }
    }
  }

  // ---------------------------------------------------------------------
  // Reference descriptions of a whole file
  // ---------------------------------------------------------------------

  /** The `v` lines' coordinates, in file order. */
  function Positions(lines: seq<Line>): seq<Vector3>
    decreases |lines|
  {
    if |lines| == 0 then []
    else
      var l := lines[|lines| - 1];
      Positions(lines[..|lines| - 1]) + (if l.V? then [Vector3(l.x, l.y, l.z)] else [])
  }

  /** The `vt` lines' coordinates, in file order, with V flipped. */
  function TexCoords(lines: seq<Line>): seq<Vector2>
    decreases |lines|
  {
    if |lines| == 0 then []
    else
      var l := lines[|lines| - 1];
      TexCoords(lines[..|lines| - 1]) + (if l.VT? then [Vector2(l.u, 1.0 - l.v)] else [])
  }

  /** The `vn` lines' coordinates, in file order. */
  function Normals(lines: seq<Line>): seq<Vector3>
    decreases |lines|
  {
    if |lines| == 0 then []
    else
      var l := lines[|lines| - 1];
      Normals(lines[..|lines| - 1]) + (if l.VN? then [Vector3(l.nx, l.ny, l.nz)] else [])
  }

  /** Every corner token the cache sees, in order: the fan corners of every `f` line. */
  function Corners(lines: seq<Line>): seq<string>
    decreases |lines|
  {
    if |lines| == 0 then []
    else
      var l := lines[|lines| - 1];
      Corners(lines[..|lines| - 1]) + (if l.F? then FanCorners(l.corners) else [])
  }

  /** The distinct corner tokens of a file. */
  function CornerSet(lines: seq<Line>): set<string> {
    TokenSet(Corners(lines))
  }

  /** Every line is `LineOk` against the positions declared before it. */
  predicate WellFormed(dec: Decoder, lines: seq<Line>)
    decreases |lines|
  {
    |lines| == 0 ||
    (WellFormed(dec, lines[..|lines| - 1]) && LineOk(dec, |Positions(lines[..|lines| - 1])|, lines[|lines| - 1]))
  }

  // ---------------------------------------------------------------------
  // The whole parse
  // ---------------------------------------------------------------------

  /** The `while (getline(...))` loop of `Parse`: every line in file order,
      starting from empty tables, an empty cache and empty outputs. */
  function Parse(dec: Decoder, lines: seq<Line>): Result<ParseState>
    decreases |lines|
  {
    if |lines| == 0 then Ok(Initial)
    else
      var prev :- Parse(dec, lines[..|lines| - 1]);
      Step(dec, prev, lines[|lines| - 1])
  }

  /** The parse goes through exactly on a well-formed file; it then keeps
      the invariant, its tables are the file's `v`, `vt` and `vn` lines in
      order, and its outputs are the cache run over the file's fan corners. */
  lemma {:induction false} ParseFacts(dec: Decoder, lines: seq<Line>)
    ensures Parse(dec, lines).Ok? <==> WellFormed(dec, lines)
    ensures Parse(dec, lines).Ok? ==> Valid(dec, Parse(dec, lines).value)
    ensures Parse(dec, lines).Ok? ==>
      && Parse(dec, lines).value.positions == Positions(lines)
      && Parse(dec, lines).value.texcoords == TexCoords(lines)
      && Parse(dec, lines).value.normals == Normals(lines)
    ensures Parse(dec, lines).Ok? ==> Extends(Initial, Corners(lines), Parse(dec, lines).value)
    decreases |lines|
  {
    if |lines| == 0 {
      InitialValid(dec);
    } else {
      ParseFacts(dec, lines[..|lines| - 1]);
      var prev := Parse(dec, lines[..|lines| - 1]);
      if prev.Ok? {
        ParseStep(dec, lines, prev.value, Step(dec, prev.value, lines[|lines| - 1]));
      }
    }
  }

  lemma ParseStep(dec: Decoder, lines: seq<Line>, prev: ParseState, r: Result<ParseState>)
    requires |lines| > 0
    requires r == Step(dec, prev, lines[|lines| - 1])
    requires Valid(dec, prev)
    requires WellFormed(dec, lines[..|lines| - 1])
    requires prev.positions == Positions(lines[..|lines| - 1])
    requires prev.texcoords == TexCoords(lines[..|lines| - 1])
    requires prev.normals == Normals(lines[..|lines| - 1])
    requires Extends(Initial, Corners(lines[..|lines| - 1]), prev)
    ensures r.Ok? <==> WellFormed(dec, lines)
    ensures r.Ok? ==>
      && r.value.positions == Positions(lines)
      && r.value.texcoords == TexCoords(lines)
      && r.value.normals == Normals(lines)
    ensures r.Ok? ==> Extends(Initial, Corners(lines), r.value)
    ensures r.Ok? ==> Valid(dec, r.value)
  {
    var l := lines[|lines| - 1];
    StepFacts(dec, prev, l, r);
    if l.F? {
      ProcessFaceFacts(dec, prev, l.corners, r);
    }
    if r.Ok? {
      CornersSnoc(lines);
      if l.F? {
        ExtendsTrans(Initial, Corners(lines[..|lines| - 1]), prev, FanCorners(l.corners), r.value);
      } else {
        assert Corners(lines) == Corners(lines[..|lines| - 1]) + [];
        assert Corners(lines) == Corners(lines[..|lines| - 1]);
        ExtendsSameOutputs(Initial, Corners(lines[..|lines| - 1]), prev, r.value);
      }
    }
  }

  lemma CornersSnoc(lines: seq<Line>)
    requires |lines| > 0
    ensures var l := lines[|lines| - 1];
      Corners(lines) == Corners(lines[..|lines| - 1]) + (if l.F? then FanCorners(l.corners) else [])
  {
  }

  /** `Extends` only looks at the cache and the two outputs. */
  lemma ExtendsSameOutputs(st: ParseState, toks: seq<string>, s: ParseState, s': ParseState)
    requires Extends(st, toks, s)
    requires s'.cache == s.cache && s'.vertices == s.vertices && s'.indices == s.indices
    ensures Extends(st, toks, s')
  {
  }

  /** What the vertex and index lists hold after a successful parse: one
      index per fan corner of the file, in order, naming that token's
      vertex; exactly one vertex per distinct corner token. */
  lemma ParseOutputs(dec: Decoder, lines: seq<Line>)
    requires Parse(dec, lines).Ok?
    ensures var s := Parse(dec, lines).value;
      && |s.indices| == |Corners(lines)|
      && s.cache.Keys == CornerSet(lines)
      && |s.vertices| == |CornerSet(lines)|
      && (forall k :: 0 <= k < |Corners(lines)| ==>
            Corners(lines)[k] in s.cache && s.indices[k] == s.cache[Corners(lines)[k]])
      && (forall i :: 0 <= i < |s.indices| ==> s.indices[i] < |s.vertices|)
  {
    ParseFacts(dec, lines);
    var s := Parse(dec, lines).value;
    assert |s.cache| == |s.cache.Keys|;
  }

  /** After a successful parse, every corner the file triangulates names an
      existing position, and the vertex behind the index written for it
      carries exactly that position. */
  lemma ParsePositions(dec: Decoder, lines: seq<Line>, s: ParseState, k: nat)
    requires Parse(dec, lines) == Ok(s) && k < |Corners(lines)|
    ensures s.positions == Positions(lines)
    ensures CornerOk(dec, |s.positions|, Corners(lines)[k])
    ensures k < |s.indices| && s.indices[k] < |s.vertices|
    ensures s.vertices[s.indices[k]].Position == s.positions[PositionIndex(dec, |s.positions|, Corners(lines)[k]) - 1]
  {
    ParsedCorner(dec, lines, s, k);
    ParseFacts(dec, lines);
  }

  /** Corner `k` of a parsed file decodes to an existing position, and the
      vertex indexed for it carries that position. */
  lemma ParsedCorner(dec: Decoder, lines: seq<Line>, s: ParseState, k: nat)
    requires Parse(dec, lines) == Ok(s) && k < |Corners(lines)|
    ensures CornerOk(dec, |s.positions|, Corners(lines)[k])
    ensures k < |s.indices| && s.indices[k] < |s.vertices|
    ensures s.vertices[s.indices[k]].Position == s.positions[PositionIndex(dec, |s.positions|, Corners(lines)[k]) - 1]
  {
    ParseOkShape(dec, lines, s);
    IndexedPosition(dec, s, Corners(lines), k);
  }

  /** A parse that goes through ends in a valid state that extends the
      initial one by the file's corners. */
  lemma ParseOkShape(dec: Decoder, lines: seq<Line>, s: ParseState)
    requires Parse(dec, lines) == Ok(s)
    ensures Valid(dec, s) && Extends(Initial, Corners(lines), s)
  {
    ParseFacts(dec, lines);
  }

  lemma IndexedPosition(dec: Decoder, s: ParseState, toks: seq<string>, k: nat)
    requires Valid(dec, s) && Extends(Initial, toks, s) && k < |toks|
    ensures CornerOk(dec, |s.positions|, toks[k])
    ensures k < |s.indices| && s.indices[k] < |s.vertices|
    ensures s.vertices[s.indices[k]].Position == s.positions[PositionIndex(dec, |s.positions|, toks[k]) - 1]
  {
    var t := toks[k];
    assert t in s.cache && s.indices[k] == s.cache[t];
    assert s.cache[t] < |s.vertices|;
  }
}
