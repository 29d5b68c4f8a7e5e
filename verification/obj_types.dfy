/**
 The records the OBJ loader reads and produces: the `objl` vector and vertex
 shapes, a pre-tokenised OBJ line, and the error channel that stands for the
 places where the loader throws or reads out of bounds.
 */
module ObjTypes {

  /** Two-component vector (texture coordinate U, V). */
  datatype Vector2 = Vector2(X: real, Y: real)

  /** Three-component vector (position or normal X, Y, Z). */
  datatype Vector3 = Vector3(X: real, Y: real, Z: real)

  /** A fully resolved output vertex: position, normal and texture coordinate. */
  datatype Vertex = Vertex(Position: Vector3, Normal: Vector3, TextureCoordinate: Vector2)

  const ZeroVector2: Vector2 := Vector2(0.0, 0.0)
  const ZeroVector3: Vector3 := Vector3(0.0, 0.0, 0.0)

  /** One line of an OBJ file after whitespace tokenisation and number
      conversion. Any keyword other than `v`, `vt`, `vn` and `f` (comments,
      `o`, `g`, `usemtl`, blank lines, ...) is `Other`. */
  datatype Line =
    | V(x: real, y: real, z: real)
    | VT(u: real, v: real)
    | VN(nx: real, ny: real, nz: real)
    | F(corners: seq<string>)
    | Other

  /** The points where the loader throws or has undefined behaviour. */
  datatype ParseError =
    | EmptyFace                               // `f` with no corner token
    | MalformedSegment(token: string)         // a `/`-segment that `stoi` rejects
    | MissingPosition(token: string)          // the empty corner token, which has no `/`-segment
    | PositionOutOfRange(token: string, index: int)

  /** The loader's outcome: a value, or the error that aborted it. */
  datatype Result<+T> = Ok(value: T) | Err(error: ParseError) {
    predicate IsFailure() {
      Err?
    }

    function PropagateFailure<U>(): Result<U>
      requires Err?
    {
      Err(error)
    }

    function Extract(): T
      requires Ok?
    {
      value
    }
  }

  datatype Option<+T> = None | Some(value: T)

  /** A non-empty sequence is its prefix followed by its last element. */
  lemma InitLast<T>(s: seq<T>)
    requires |s| > 0
    ensures s[..|s| - 1] + [s[|s| - 1]] == s
  {
  }

  /** Appending leaves the old sequence as a prefix. */
  lemma PrefixOfAppend<T>(a: seq<T>, b: seq<T>)
    ensures (a + b)[..|a|] == a
  {
  }

  /** Appending nothing changes nothing. */
  lemma AppendNil<T>(a: seq<T>)
    ensures a + [] == a
  {
  }

  /** The prefix and the last element of a concatenation with a non-empty
      right part come from that right part. */
  lemma InitOfAppend<T>(a: seq<T>, b: seq<T>)
    requires |b| > 0
    ensures (a + b)[..|a + b| - 1] == a + b[..|b| - 1]
    ensures (a + b)[|a + b| - 1] == b[|b| - 1]
  {
  }
}
