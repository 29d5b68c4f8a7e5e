# OBJ mesh loader of NaviEngine, in Dafny

This project models how NaviEngine loads a Wavefront OBJ mesh, and proves properties of that model. Three pieces of the engine are covered.

**`objl::Loader::Parse`** is a single-pass, line-oriented decoder. It keeps three append-only attribute tables:
- positions, from `v` lines;
- texture coordinates, from `vt` lines, with V stored as `1 - v`;
- normals, from `vn` lines.

Each `f` line is triangulated as a fan: n corners give the triangles (c0, ci, ci+1) for i = 1 .. n-2. Every corner of every fan triangle then goes through a vertex cache keyed on the raw corner token (for example `"12/4/7"`):
- **cache hit:** the cached index is reused;
- **cache miss:** the token is split at `/`, converted with `std::stoi` and resolved against the tables. This yields one new vertex, which is appended to `LoadedVertices`. Its index goes into `LoadedIndices` and into the cache.

**`objl::Loader::LoadFile`** clears the two output lists, runs the parser, and reports whether both lists came out non-empty.

**`ModelLoader::Load`** copies a successful load into the engine's `LoadData` record, component by component, with the two counts narrowed to `int`.

The model is functional:
- A file is an already tokenised `seq<Line>`: `V(x,y,z)`, `VT(u,v)`, `VN(x,y,z)`, `F(corners)` or `Other`. A file that cannot be opened is `Unopenable`.
- The parser state holds the three tables, a `map<string, nat>` cache and the two output sequences.
- `Parse` is a fold over the lines.
- The same parser is written a second time as the source's nested loops, as methods proved equal to the fold.

The parser has three behaviours that throw or are undefined:
- `std::stoi` throws on a segment that is not a number, or is out of range;
- the unchecked position lookup `temp_positions[v_idx]` (ParserOBJ.cpp:132) reads out of range when the position index is wrong;
- an `f` line without tokens underflows `size() - 1`.

The read of `indices[0]` (ParserOBJ.cpp:125) would be a fourth, but it needs an empty corner token. The `>>` tokenizer never produces one. The model's `F` line can hold one, and then reports `MissingPosition`, the only way that error arises. `ModelLoader::Load` has one more undefined behaviour, listed under "Left out".

The model gives the parser's cases no invented semantics. Each becomes an explicit `Err` of a `Result`, and `ObjParser.ParseFacts` proves that the parse goes through exactly on the files satisfying `WellFormed`. `WellFormed` is therefore precisely the precondition the C++ code silently needs, with one exception: a texture or normal segment equal to `INT_MIN`, listed under "Left out".

Modules, in dependency order:
- `obj_types.dfy` (`ObjTypes`): the records of `ParserOBJ.h`, lines, errors, `Result`/`Option`.
- `corner_token.dfy` (`CornerToken`): the `getline(ss, segment, '/')` split, `std::stoi`, and a corner token's index list.
- `fan.dfy` (`Fan`): fan triangulation.
- `obj_parser.dfy` (`ObjParser`): the attribute tables, the vertex cache, the state invariant `Valid`, and `Parse`.
- `obj_loader.dfy` (`ObjLoader`): `LoadFile`, and the loop-shaped parser.
- `model_loader.dfy` (`ModelLoader`): `ModelLoader::Load`.

Two details of the code that the model keeps as they are:
- **Cache key.** The cache is keyed on the raw token string (ParserOBJ.cpp:39, 102, 169), so `"1/2/3"` and `"01/2/3"` give two vertices.
- **Failed load.** A failed load returns a default `LoadData`, without the file name (ModelLoader.cpp:31-37).

The computing functions (`Segments`, `SegmentValue`, `CornerIndices`, `ProcessCorner`, `ProcessCorners`, `ProcessFace`, `Step`, `Parse`) carry no contract of their own. Each one's contract is stated by the lemmas named after it in the table below.

## Model

Source paths are under `NaviEngine/`.

| member | source | states |
|---|---|---|
| CornerToken.SplitAll | NaviEngine/source/ParserOBJ.cpp:115 | splitting at '/' yields at least one piece, and the last piece is empty exactly when the string is empty or ends in '/' |
| CornerToken.JoinSplitAll | NaviEngine/source/ParserOBJ.cpp:115 | joining the pieces with '/' gives the string back: the split loses and invents no character |
| CornerToken.SplitAllJoin | NaviEngine/source/ParserOBJ.cpp:115 | splitting a '/'-join of slash-free pieces gives exactly those pieces back |
| CornerToken.SegmentsSlashFree | NaviEngine/source/ParserOBJ.cpp:115 | `Segments`: no segment that getline delivers contains the separator |
| CornerToken.SegmentsRebuildToken | NaviEngine/source/ParserOBJ.cpp:115 | `Segments`: the getline segments, joined with '/' (plus the one trailing '/' getline swallows), rebuild the token exactly |
| CornerToken.SegmentsOfJoin | NaviEngine/source/ParserOBJ.cpp:115 | `Segments`: getline hands back exactly the slash-free segments a token was joined from, when the last one is non-empty |
| CornerToken.LeadingDigitsSpec | NaviEngine/source/ParserOBJ.cpp:120 | the digit run `stoi` reads is all digits and maximal: the next character, if any, is not a digit |
| CornerToken.Stoi | NaviEngine/source/ParserOBJ.cpp:120 | every value `stoi` returns lies in the range of a 32-bit `int` |
| CornerToken.StoiDigits | NaviEngine/source/ParserOBJ.cpp:120 | `stoi` of a digit run followed by a non-digit is that run's decimal value, and fails when the value exceeds `INT_MAX` |
| CornerToken.StoiNegativeDigits | NaviEngine/source/ParserOBJ.cpp:120 | `stoi` of '-' and a digit run followed by a non-digit is the negated value when it fits an `int`, and fails below `INT_MIN` |
| CornerToken.StoiShowInt | NaviEngine/source/ParserOBJ.cpp:120 | `stoi` reads back every `int` from its decimal rendering, whatever non-digit text follows |
| CornerToken.StoiNeedsDigit | NaviEngine/source/ParserOBJ.cpp:120 | a segment without any digit is rejected (the case where `stoi` throws) |
| CornerToken.SegmentValues | NaviEngine/source/ParserOBJ.cpp:115-122 | a failing conversion carries the malformed-segment error of the whole token |
| CornerToken.SegmentValuesSpec | NaviEngine/source/ParserOBJ.cpp:115-122 | `SegmentValue` over every segment: the conversion succeeds exactly when every segment is empty or accepted by `stoi`; it then yields one value per segment, in order, with an empty segment as 0 |
| CornerToken.SegmentValueShowInt | NaviEngine/source/ParserOBJ.cpp:116-120 | `SegmentValue`: a segment holding the rendering of an `int` reads as that `int` |
| CornerToken.CornerIndicesOfSegments | NaviEngine/source/ParserOBJ.cpp:112-122 | `CornerIndices`: a token joined from slash-free segments decodes to those segments' values, in order |
| CornerToken.CornerIndicesShowAll | NaviEngine/source/ParserOBJ.cpp:112-122 | `CornerIndices`: writing any list of `int`s as "a/b/c" and decoding it gives the list back (round trip) |
| CornerToken.CornerIndicesNoTexture | NaviEngine/source/ParserOBJ.cpp:116-117 | the "v//vn" form decodes to [v, 0, vn]: the empty texture segment reads as 0 |
| Fan.FanCorners | NaviEngine/source/ParserOBJ.cpp:88-99 | the fan of n corners has 3(n-2) entries (none when n < 3), and entry k is corner k mod 3 of triangle k/3 + 1, that is c0, ci or ci+1 |
| Fan.FanCornersCoverFace | NaviEngine/source/ParserOBJ.cpp:88-95 | a face of three or more corners uses every one of its corners and no other token |
| Fan.FanShape | NaviEngine/source/ParserOBJ.cpp:88-95 | fan triangle i is (c0, ci, ci+1), and its three corners sit at positions 3(i-1) .. 3(i-1)+2 |
| ObjParser.InitialValid | NaviEngine/source/ParserOBJ.cpp:34-39 | the empty tables, empty cache and empty outputs satisfy the state invariant |
| ObjParser.ResolveCorner | NaviEngine/source/ParserOBJ.cpp:124-159 | a miss succeeds exactly when the token decodes and its first index p is in 1 .. number of positions. The vertex then takes position p-1; a texcoord or normal that is absent, 0 or outside its table becomes all zeros. The three failures are the `stoi` error, a missing position and a position out of range |
| ObjParser.ProcessCornerFacts | NaviEngine/source/ParserOBJ.cpp:99-170 | `ProcessCorner`: a corner goes through exactly when it is cached or resolves. A hit appends the cached index and changes no vertex and no cache entry. A miss appends exactly one vertex, whose index is the old vertex count, and caches the token at that index. The tables are untouched, and the invariant is kept |
| ObjParser.TokenSetMembers | NaviEngine/source/ParserOBJ.cpp:39 | the distinct-token set holds exactly the tokens that occur |
| ObjParser.ExtendsTrans | NaviEngine/source/ParserOBJ.cpp:98-170 | the `Extends` description (old outputs kept as a prefix, one cache-entry index per token, old cache entries kept) composes over concatenated token runs |
| ObjParser.ProcessCornersAppend | NaviEngine/source/ParserOBJ.cpp:98-170 | `ProcessCorners`: running x and then y from where x stopped is running x + y; a failure in x is the failure of the whole run |
| ObjParser.ProcessCornersExtends | NaviEngine/source/ParserOBJ.cpp:98-170 | `ProcessCorners`: a run of corners that goes through leaves the tables alone; it writes one index per token, in order, each the token's cache entry, and caches every token |
| ObjParser.ProcessCornersValid | NaviEngine/source/ParserOBJ.cpp:101-169 | `ProcessCorners`: the state invariant holds after any run of corners that goes through |
| ObjParser.ProcessCornersOk | NaviEngine/source/ParserOBJ.cpp:101-135 | `ProcessCorners`: from a valid state, a run of corners goes through exactly when every token decodes to an existing position |
| ObjParser.ProcessFaceFacts | NaviEngine/source/ParserOBJ.cpp:77-99 | `ProcessFace`: a face with no token fails; a face of one or two corners changes nothing; otherwise it appends exactly 3(n-2) indices, one per fan corner. From a valid state it goes through exactly when every fan corner names an existing position, and keeps the invariant |
| ObjParser.FaceCornersCached | NaviEngine/source/ParserOBJ.cpp:88-169 | after a face of three or more corners, every one of its corners is in the cache |
| ObjParser.TriangleIndices | NaviEngine/source/ParserOBJ.cpp:88-106 | fan triangle i wrote the cache indices of c0, ci and ci+1, in that order |
| ObjParser.StepFacts | NaviEngine/source/ParserOBJ.cpp:56-84 | `Step`: `v` and `vn` append one entry to their own table; `vt` appends (u, 1 - v); no other line touches a table. A line other than `f` changes no cache entry and no output and cannot fail. The invariant is kept |
| ObjParser.GrowPositionsPreservesValid | NaviEngine/source/ParserOBJ.cpp:59 | appending positions keeps every cached vertex's position correct |
| ObjParser.ParseFacts | NaviEngine/source/ParserOBJ.cpp:47-174 | `Parse`: the parse goes through exactly on well-formed files. It then satisfies the invariant; its tables are the file's `v`, `vt` (flipped) and `vn` lines in order; and its outputs are the cache run over every fan corner of the file, in order |
| ObjParser.ParseStep | NaviEngine/source/ParserOBJ.cpp:47-174 | one more line keeps the whole-file description: well-formedness, the three tables and the cache run |
| ObjParser.ParseOutputs | NaviEngine/source/ParserOBJ.cpp:101-169 | after a parse: one index per fan corner, in order, naming that token's cache entry. The cache keys are the distinct corner tokens, there is exactly one vertex per distinct token, and every index names an existing vertex |
| ObjParser.ParsePositions | NaviEngine/source/ParserOBJ.cpp:124-135 | every fan corner of a parsed file names an existing position, and the vertex behind the index written for it carries exactly that position |
| ObjLoader.LoadFile | NaviEngine/source/ParserOBJ.cpp:7-23 | an unopenable file gives `false` with both lists empty. An opened file loads exactly when well-formed; both lists are then the parser's output; the result is `true` exactly when both lists are non-empty |
| ObjLoader.CornersEmpty | NaviEngine/source/ParserOBJ.cpp:82-99 | the cache sees no corner exactly when no face has three or more corners |
| ObjLoader.LoadFileLoaded | NaviEngine/source/ParserOBJ.cpp:19-22 | a load of an opened file reports `true` exactly when some face has at least three corners |
| ObjLoader.CornersLength | NaviEngine/source/ParserOBJ.cpp:88-99 | the number of corners the cache sees is 3(n-2) summed over the faces of n >= 3 corners |
| ObjLoader.LoadFileCounts | NaviEngine/include/ParserOBJ.h:70-82 | after a load: 3(n-2) indices per face, one vertex per distinct corner token, and every index names a loaded vertex |
| ObjLoader.ParseErrorPersists | NaviEngine/source/ParserOBJ.cpp:47-174 | once a prefix of the lines fails, the whole parse fails with the same error |
| ObjLoader.CornersErrorPersists | NaviEngine/source/ParserOBJ.cpp:98-170 | once a prefix of a corner run fails, the whole run fails with the same error |
| ObjLoader.ConvertSegments | NaviEngine/source/ParserOBJ.cpp:115-122 | the `getline(ss_face, segment, '/')` loop yields one index per segment, in order (0 for an empty segment, the `stoi` value otherwise), or `MalformedSegment` of the whole key at the first segment `stoi` rejects: exactly the conversion `SegmentValues` |
| ObjLoader.CacheCorner | NaviEngine/source/ParserOBJ.cpp:99-170 | the source's branch for one corner key with its own decoding (cache lookup; on a miss the segment loop, the 0-based slots with -1 for an absent or zero texture or normal index, the `>= 0 && < size()` checks with the zero fallback, the push of the vertex, of `size() - 1` and of the cache entry) computes exactly `ProcessCorner` over `CornerIndices` |
| ObjLoader.CacheTriangle | NaviEngine/source/ParserOBJ.cpp:90-171 | the loop over the three keys of one triangle computes exactly the cache run over those keys with the source's decoding, stopping at the first failing key |
| ObjLoader.TriangleStep | NaviEngine/source/ParserOBJ.cpp:88-171 | fan triangle i, run from where the first i - 1 triangles left the state, continues the run over the fan; when it fails, the whole face fails with that error |
| ObjLoader.ProcessFaceLoop | NaviEngine/source/ParserOBJ.cpp:77-172 | the source's nested triangle and corner loops compute exactly the fold `ProcessFace` over `CornerIndices` |
| ObjLoader.ParseLines | NaviEngine/source/ParserOBJ.cpp:47-174 | the `getline` loop over all lines, dispatching each on its keyword (`v`, `vt` with V flipped, `vn`, `f` through the nested triangle and corner loops, anything else skipped), computes exactly the fold `Parse` over `CornerIndices`, stopping at the first failing line |
| ModelLoader.Int32Cast | NaviEngine/source/ModelLoader.cpp:62-63 | the `(int)` cast of a count lies in the 32-bit range, agrees with the count modulo 2^32, and is the count itself when it fits |
| ModelLoader.Load | NaviEngine/source/ModelLoader.cpp:28-66 | a failed `LoadFile` gives the default record. On success: the name is the file name; one vertex per loaded vertex, in order, with Pos, Tex and Normal copied component by component; the index list is `LoadedIndices`; the counts are the two lengths cast to `int`. A parser error is passed on |

## Left out

- File I/O. Opening the file, reading lines with `getline` and splitting each line into words with `>>` (ParserOBJ.cpp:41-53, 82-84, 176) are not modelled: a file is either `Unopenable` or a sequence of already tokenised `Line`s. The `ERROR` logging on failure (ParserOBJ.cpp:43, ModelLoader.cpp:35) is an effect on a log only.
- Text-to-float conversion (`ss >> pos.x`, ParserOBJ.cpp:58, 65, 73) and IEEE single precision. Coordinates are `real`, and `1 - v` is exact. A `v`/`vt`/`vn` line with missing numbers (which leaves uninitialised fields in the source) is not representable.
- Keyword matching. Any line whose first word is not `v`, `vt`, `vn` or `f` is `Other`, so comments, `o`, `g`, `usemtl` and `s` all fall there.
- Undefined behaviour and exceptions. The `stoi` exceptions, the out-of-range position read (ParserOBJ.cpp:132), the read of `indices[0]` for an empty corner token (ParserOBJ.cpp:125) and the empty `f` line (ParserOBJ.cpp:88) are modelled as `Err` results that stop the load. The source throws or has undefined behaviour there, and the model does not say what it would do.
- ObjLoader.LoadFile: `LoadedIndices` is `seq<nat>`, so the 32-bit wrap of `unsigned int new_index` (ParserOBJ.cpp:163) is not modelled. It matters only beyond 2^32 vertices.
- ModelLoader.Load: the `int i` counter of the vertex copy loop (ModelLoader.cpp:44) overflows, which is undefined behaviour, once there are more than `INT_MAX` vertices. This is not modelled: the model copies any number of vertices, so its `numVertex` is then the `(int)` cast of a count the source reaches only after that overflow.
- ObjParser.ResolveCorner: the signed overflow of `indices[k] - 1` for a segment equal to `INT_MIN` (ParserOBJ.cpp:125-127) is not modelled. Such a position is rejected as out of range, and such a texture or normal index reads as absent, which is what any wrapped value below the table would give.
- The decoder is a parameter (`Decoder`) of the line-by-line parser, whose properties are proved for any pure token decoder. `LoadFile` and the loop-shaped parser in `ObjLoader` use the source's own `getline`/`stoi` decoding, `CornerIndices`.
- `OBJ_Loader.h`, which ModelLoader.cpp:2 includes, is not part of this model. It is assumed to be the `objl::Loader` of ParserOBJ.h.
- `Prerequisites.h` is not part of this model. `LoadData` and `SimpleVertex` are modelled with the fields ModelLoader.cpp uses. A default `LoadData` is assumed to have an empty name, no data and zero counts.
- The empty `init`/`update`/`render`/`destroy` of `ModelLoader` (ModelLoader.cpp:4-26), and the Direct3D 11 / Win32 wrappers of the engine. They carry no behaviour of the loader.
- The `resize` of `LD.index` before the assignment (ModelLoader.cpp:59). It is overwritten at once and has no visible effect.
