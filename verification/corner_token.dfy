/**
 Decoding of one face-corner token such as "12/4/7", "12//7" or "12":
 the split on '/' performed by repeated `std::getline(ss, segment, '/')`,
 and the conversion of each non-empty segment by `std::stoi`.
 */
module CornerToken {
  import opened ObjTypes

  /** Range of the C++ `int` that `std::stoi` returns. */
  const IntMin: int := -0x8000_0000
  const IntMax: int := 0x7FFF_FFFF

  /** True when `s` contains no '/'. */
  predicate SlashFree(s: string) {
    forall k :: 0 <= k < |s| ==> s[k] != '/'
  }

  /** Splits `s` at every '/', keeping every piece, empty ones included:
      "a//b" gives ["a", "", "b"], "a/" gives ["a", ""], "" gives [""]. */
  function SplitAll(s: string): (parts: seq<string>)
    ensures |parts| >= 1
    ensures parts[|parts| - 1] == "" <==> |s| == 0 || s[|s| - 1] == '/'
    decreases |s|
  {
    if |s| == 0 then [""]
    else
      var init := SplitAll(s[..|s| - 1]);
      var c := s[|s| - 1];
      if c == '/' then init + [""]
      else init[..|init| - 1] + [init[|init| - 1] + [c]]
  }

  /** Joins pieces with '/' between consecutive ones. */
  function Join(parts: seq<string>): string
    decreases |parts|
  {
    if |parts| == 0 then ""
    else if |parts| == 1 then parts[0]
    else Join(parts[..|parts| - 1]) + "/" + parts[|parts| - 1]
  }

  /** The segments successive `std::getline(ss, segment, '/')` calls deliver:
      every piece between slashes, except that a final empty piece is never
      delivered (the stream is at its end), so "" gives no segment at all,
      "1/" gives ["1"] and "/" gives [""]. */
  function Segments(token: string): seq<string> {
    var parts := SplitAll(token);
    if parts[|parts| - 1] == "" then parts[..|parts| - 1] else parts
  }

  /** No piece contains the separator. */
  lemma {:induction false} SplitAllPiecesSlashFree(s: string)
    ensures forall i :: 0 <= i < |SplitAll(s)| ==> SlashFree(SplitAll(s)[i])
    decreases |s|
  {
    if |s| > 0 {
      SplitAllPiecesSlashFree(s[..|s| - 1]);
    }
  }

  /** No getline segment contains the separator. */
  lemma SegmentsSlashFree(token: string)
    ensures forall i :: 0 <= i < |Segments(token)| ==> SlashFree(Segments(token)[i])
  {
    SplitAllPiecesSlashFree(token);
  }

  /** Splitting and joining are inverse: no character is lost or invented. */
  lemma {:induction false} JoinSplitAll(s: string)
    ensures Join(SplitAll(s)) == s
    decreases |s|
  {
    if |s| > 0 {
      var s' := s[..|s| - 1];
      var c := s[|s| - 1];
      JoinSplitAll(s');
      if c == '/' {
        JoinSnocEmpty(SplitAll(s'));
      } else {
        JoinExtendLast(SplitAll(s'), c);
      }
      InitLast(s);
    }
  }

  /** A new empty last piece adds one '/' to the joined string. */
  lemma JoinSnocEmpty(parts: seq<string>)
    requires |parts| >= 1
    ensures Join(parts + [""]) == Join(parts) + "/"
  {
    PrefixOfAppend(parts, [""]);
    AppendNil(Join(parts) + "/");
  }

  /** Extending the last piece by a character extends the joined string by it. */
  lemma JoinExtendLast(parts: seq<string>, c: char)
    requires |parts| >= 1
    ensures Join(parts[..|parts| - 1] + [parts[|parts| - 1] + [c]]) == Join(parts) + [c]
  {
    var init := parts[..|parts| - 1];
    var last := parts[|parts| - 1];
    PrefixOfAppend(init, [last + [c]]);
    if |parts| > 1 {
      AppendAssoc(Join(init) + "/", last, [c]);
    }
  }

  /** String concatenation is associative. */
  lemma AppendAssoc(a: string, b: string, c: string)
    ensures (a + b) + c == a + (b + c)
  {
  }

  /** Splitting a slash-free string yields that string as the single piece. */
  lemma {:induction false} SplitAllSlashFree(s: string)
    requires SlashFree(s)
    ensures SplitAll(s) == [s]
    decreases |s|
  {
    if |s| > 0 {
      SplitAllSlashFree(s[..|s| - 1]);
      InitLast(s);
    }
  }

  /** A '/' followed by a slash-free tail contributes exactly that tail as a piece. */
  lemma {:induction false} SplitAllAfterSlash(x: string, tail: string)
    requires SlashFree(tail)
    ensures SplitAll(x + "/" + tail) == SplitAll(x) + [tail]
    decreases |tail|
  {
    var s := x + "/" + tail;
    if |tail| == 0 {
      assert s[..|s| - 1] == x;
    } else {
      var t' := tail[..|tail| - 1];
      SplitAllAfterSlash(x, t');
      assert s[..|s| - 1] == x + "/" + t';
      InitLast(tail);
    }
  }

  /** Joining slash-free pieces and splitting again gives the pieces back. */
  lemma {:induction false} SplitAllJoin(parts: seq<string>)
    requires |parts| >= 1
    requires forall i :: 0 <= i < |parts| ==> SlashFree(parts[i])
    ensures SplitAll(Join(parts)) == parts
    decreases |parts|
  {
    if |parts| == 1 {
      SplitAllSlashFree(parts[0]);
    } else {
      var init := parts[..|parts| - 1];
      SplitAllJoin(init);
      SplitAllAfterSlash(Join(init), parts[|parts| - 1]);
      InitLast(parts);
    }
  }

  /** The getline segments of a token, joined back with '/', rebuild the token
      up to the one trailing '/' that getline swallows. */
  lemma SegmentsRebuildToken(token: string)
    ensures Join(Segments(token)) + (if |token| > 0 && token[|token| - 1] == '/' then "/" else "") == token
  {
    JoinSplitAll(token);
    var parts := SplitAll(token);
    if |token| > 0 && token[|token| - 1] == '/' {
      var init := SplitAll(token[..|token| - 1]);
      assert parts == init + [""];
      assert parts[..|parts| - 1] == init;
      JoinSplitAll(token[..|token| - 1]);
      assert token[..|token| - 1] + "/" == token;
    }
  }

  // ---------------------------------------------------------------------
  // std::stoi
  // ---------------------------------------------------------------------

  /** The characters C's `isspace` accepts: ' ', '\t', '\n', '\v', '\f', '\r'. */
  predicate IsSpace(c: char) {
    c == ' ' || '\t' <= c <= '\r'
  }

  predicate IsDigit(c: char) {
    '0' <= c <= '9'
  }

  predicate AllDigits(s: string) {
    forall k :: 0 <= k < |s| ==> IsDigit(s[k])
  }

  /** Value of a digit character (meaningful for '0' .. '9' only). */
  function DigitValue(c: char): int {
    (c as int) - ('0' as int)
  }

  /** Number of leading white-space characters. */
  function LeadingSpaces(s: string): (n: nat)
    ensures n <= |s|
    decreases |s|
  {
    if |s| == 0 || !IsSpace(s[0]) then 0 else 1 + LeadingSpaces(s[1..])
  }

  /** Length of the longest all-digit prefix. */
  function LeadingDigits(s: string): (n: nat)
    ensures n <= |s|
    decreases |s|
  {
    if |s| == 0 || !IsDigit(s[0]) then 0 else 1 + LeadingDigits(s[1..])
  }

  /** Base-10 value of a digit string, most significant digit first. */
  function DecimalValue(digits: string): int
    decreases |digits|
  {
    if |digits| == 0 then 0
    else DecimalValue(digits[..|digits| - 1]) * 10 + DigitValue(digits[|digits| - 1])
  }

  /** The prefix `LeadingDigits` measures is all digits and cannot be extended. */
  lemma {:induction false} LeadingDigitsSpec(s: string)
    ensures AllDigits(s[..LeadingDigits(s)])
    ensures LeadingDigits(s) < |s| ==> !IsDigit(s[LeadingDigits(s)])
    decreases |s|
  {
    if |s| > 0 && IsDigit(s[0]) {
      LeadingDigitsSpec(s[1..]);
      assert s[..LeadingDigits(s)] == [s[0]] + s[1..][..LeadingDigits(s[1..])];
    }
  }

  /** `std::stoi(s)` in base 10: leading white space is skipped, one optional
      sign is read, then the longest run of digits; anything after the digits
      is ignored. `None` stands for the exceptions: `invalid_argument` when no
      digit follows, `out_of_range` when the value does not fit an `int`. */
  function Stoi(s: string): (r: Option<int>)
    ensures r.Some? ==> IntMin <= r.value <= IntMax
  {
    var t := s[LeadingSpaces(s)..];
    if |t| > 0 && t[0] == '-' then SignedDigits(t[1..], true)
    else if |t| > 0 && t[0] == '+' then SignedDigits(t[1..], false)
    else SignedDigits(t, false)
  }

  /** A converted value as `stoi` hands it back: itself when it fits an
      `int`, otherwise `None` for the `out_of_range` exception. */
  function InRange(v: int): Option<int> {
    if IntMin <= v <= IntMax then Some(v) else None
  }

  /** The value of a digit string, negated when a '-' preceded it. */
  function Signed(digits: string, negative: bool): int {
    if negative then -DecimalValue(digits) else DecimalValue(digits)
  }

  /** The digit run at the start of `body`, negated when a '-' preceded it. */
  function SignedDigits(body: string, negative: bool): (r: Option<int>)
    ensures r.Some? ==> IntMin <= r.value <= IntMax
  {
    var n := LeadingDigits(body);
    if n == 0 then None else InRange(Signed(body[..n], negative))
  }

  /** Converting a digit string followed by a non-digit reads exactly that
      string: its decimal value, negated for a '-', kept only within the
      range of an `int`. */
  lemma SignedDigitsOf(d: string, suffix: string, negative: bool)
    requires |d| >= 1 && AllDigits(d)
    requires |suffix| == 0 || !IsDigit(suffix[0])
    ensures SignedDigits(d + suffix, negative) == InRange(Signed(d, negative))
  {
    LeadingDigitsOfDigits(d, suffix);
    PrefixOfAppend(d, suffix);
  }

  /** A leading '-' is the first character, and dropping it leaves the rest. */
  lemma SignPrefix(d: string, suffix: string)
    ensures ("-" + d + suffix)[0] == '-' && ("-" + d + suffix)[1..] == d + suffix
  {
  }

  /** Dropping no characters changes nothing. */
  lemma DropNothing(s: string)
    ensures s[0..] == s
  {
  }

  function DigitChar(d: nat): (c: char)
    requires d < 10
    ensures IsDigit(c) && DigitValue(c) == d
  {
    ('0' as int + d) as char
  }

  /** Canonical decimal rendering of a natural number. */
  function ShowNat(n: nat): (s: string)
    ensures |s| >= 1 && AllDigits(s)
    decreases n
  {
    if n < 10 then [DigitChar(n)] else ShowNat(n / 10) + [DigitChar(n % 10)]
  }

  /** Canonical decimal rendering of an integer, with '-' for negatives. */
  function ShowInt(n: int): string {
    if n < 0 then "-" + ShowNat(-n) else ShowNat(n)
  }

  lemma {:induction false} DecimalValueShowNat(n: nat)
    ensures DecimalValue(ShowNat(n)) == n
    decreases n
  {
    if n >= 10 {
      DecimalValueShowNat(n / 10);
      var s := ShowNat(n);
      assert s[..|s| - 1] == ShowNat(n / 10);
    }
  }

  /** The digit run of a digit string followed by a non-digit is that string. */
  lemma {:induction false} LeadingDigitsOfDigits(d: string, suffix: string)
    requires AllDigits(d)
    requires |suffix| == 0 || !IsDigit(suffix[0])
    ensures LeadingDigits(d + suffix) == |d|
    decreases |d|
  {
    if |d| > 0 {
      assert (d + suffix)[1..] == d[1..] + suffix;
      LeadingDigitsOfDigits(d[1..], suffix);
    }
  }

  /** `stoi` of an unsigned digit run followed by a non-digit. */
  lemma StoiDigits(d: string, suffix: string)
    requires |d| >= 1 && AllDigits(d)
    requires |suffix| == 0 || !IsDigit(suffix[0])
    ensures Stoi(d + suffix) == if DecimalValue(d) <= IntMax then Some(DecimalValue(d)) else None
  {
    var s := d + suffix;
    assert s[0] == d[0];
    assert LeadingSpaces(s) == 0;
    DropNothing(s);
    assert Stoi(s) == SignedDigits(s, false);
    SignedDigitsOf(d, suffix, false);
    DecimalValueNonNegative(d);
    assert Signed(d, false) == DecimalValue(d);
  }

  /** `stoi` of '-' and a digit run followed by a non-digit. */
  lemma StoiNegativeDigits(d: string, suffix: string)
    requires |d| >= 1 && AllDigits(d)
    requires |suffix| == 0 || !IsDigit(suffix[0])
    ensures Stoi("-" + d + suffix) == InRange(-DecimalValue(d))
  {
    StoiMinusDigits(d, suffix);
    SignedDigitsOf(d, suffix, true);
    NegatedInRange(d);
  }

  /** `stoi` of '-' followed by any text reads the digits of that text and
      negates them. */
  lemma StoiMinusDigits(d: string, suffix: string)
    ensures Stoi("-" + d + suffix) == SignedDigits(d + suffix, true)
  {
    SignPrefix(d, suffix);
    StoiMinus("-" + d + suffix);
  }

  /** The negated reading of a digit string is its negated decimal value. */
  lemma NegatedInRange(d: string)
    ensures InRange(Signed(d, true)) == InRange(-DecimalValue(d))
  {
  }

  /** A string that starts with '-' has no leading space, and `stoi` reads
      the digits after the sign and negates them. */
  lemma StoiMinus(s: string)
    requires |s| > 0 && s[0] == '-'
    ensures Stoi(s) == SignedDigits(s[1..], true)
  {
    assert LeadingSpaces(s) == 0;
    DropNothing(s);
  }

  lemma {:induction false} DecimalValueNonNegative(d: string)
    requires AllDigits(d)
    ensures DecimalValue(d) >= 0
    decreases |d|
  {
    if |d| > 0 {
      DecimalValueNonNegative(d[..|d| - 1]);
    }
  }

  /** `stoi` reads back every `int` from its decimal rendering, whatever
      non-digit text follows it. */
  lemma StoiShowInt(n: int, suffix: string)
    requires IntMin <= n <= IntMax
    requires |suffix| == 0 || !IsDigit(suffix[0])
    ensures Stoi(ShowInt(n) + suffix) == Some(n)
  {
    var m: nat := if n < 0 then -n else n;
    DecimalValueShowNat(m);
    if n < 0 {
      StoiNegativeDigits(ShowNat(m), suffix);
    } else {
      StoiDigits(ShowNat(m), suffix);
    }
  }

  /** A string without any digit is rejected by `stoi`. */
  lemma StoiNeedsDigit(s: string)
    requires forall k :: 0 <= k < |s| ==> !IsDigit(s[k])
    ensures Stoi(s) == None
  {
    var t := s[LeadingSpaces(s)..];
    if |t| > 0 {
      assert t[0] == s[LeadingSpaces(s)];
    }
    if |t| > 1 {
      assert t[1] == s[LeadingSpaces(s) + 1];
    }
  }

  // ---------------------------------------------------------------------
  // Corner token -> raw index list
  // ---------------------------------------------------------------------

  /** Value of one segment: an empty segment reads as 0, any other goes through `stoi`. */
  function SegmentValue(seg: string): Option<int> {
    if seg == "" then Some(0) else Stoi(seg)
  }

  /** Converts every segment, left to right; the first one `stoi` rejects
      aborts the conversion. */
  function SegmentValues(segs: seq<string>, token: string): (r: Result<seq<int>>)
    ensures r.Err? ==> r.error == MalformedSegment(token)
    decreases |segs|
  {
    if |segs| == 0 then Ok([])
    else
      var head := SegmentValue(segs[0]);
      if head.None? then Err(MalformedSegment(token))
      else
        var tail :- SegmentValues(segs[1..], token);
        Ok([head.value] + tail)
  }

  /** The conversion succeeds exactly when every segment is empty or accepted
      by `stoi`, and then yields one value per segment, in order. */
  lemma {:induction false} SegmentValuesSpec(segs: seq<string>, token: string)
    ensures SegmentValues(segs, token).Ok? <==> forall i :: 0 <= i < |segs| ==> SegmentValue(segs[i]).Some?
    ensures SegmentValues(segs, token).Ok? ==>
      && |SegmentValues(segs, token).value| == |segs|
      && forall i :: 0 <= i < |segs| ==> SegmentValues(segs, token).value[i] == SegmentValue(segs[i]).value
    decreases |segs|
  {
    if |segs| > 0 {
      SegmentValuesSpec(segs[1..], token);
      var r := SegmentValues(segs, token);
      if SegmentValue(segs[0]).Some? && SegmentValues(segs[1..], token).Ok? {
        assert r.value == [SegmentValue(segs[0]).value] + SegmentValues(segs[1..], token).value;
        forall i | 0 <= i < |segs|
          ensures r.value[i] == SegmentValue(segs[i]).value
        {
          if i > 0 {
            assert segs[i] == segs[1..][i - 1];
          }
        }
      } else if SegmentValue(segs[0]).Some? {
        var i :| 0 <= i < |segs[1..]| && SegmentValue(segs[1..][i]).None?;
        assert segs[i + 1] == segs[1..][i];
      }
    }
  }

  /** The raw index list of a corner token (position, texcoord, normal, and
      any further segments, which are converted but never used). */
  function CornerIndices(token: string): Result<seq<int>> {
    SegmentValues(Segments(token), token)
  }

  // ---------------------------------------------------------------------
  // Round trip of the "v/vt/vn" forms
  // ---------------------------------------------------------------------

  /** A rendered integer is not empty and has no '/'. */
  lemma ShowIntShape(n: int)
    ensures |ShowInt(n)| >= 1 && SlashFree(ShowInt(n))
  {
    var m: nat := if n < 0 then -n else n;
    var d := ShowNat(m);
    forall k | 0 <= k < |ShowInt(n)|
      ensures ShowInt(n)[k] != '/'
    {
      if n < 0 && k > 0 {
        assert ShowInt(n)[k] == d[k - 1];
      } else if n >= 0 {
        assert ShowInt(n)[k] == d[k];
      }
    }
  }

  /** getline hands back exactly the slash-free segments a token was joined
      from, provided the last one is not empty. */
  lemma SegmentsOfJoin(segs: seq<string>)
    requires |segs| >= 1 && segs[|segs| - 1] != ""
    requires forall i :: 0 <= i < |segs| ==> SlashFree(segs[i])
    ensures Segments(Join(segs)) == segs
  {
    SplitAllJoin(segs);
  }

  /** The decimal renderings of a list of integers. */
  function ShowAll(vals: seq<int>): (r: seq<string>)
    ensures |r| == |vals|
    ensures forall i :: 0 <= i < |vals| ==> r[i] == ShowInt(vals[i])
  {
    seq(|vals|, i requires 0 <= i < |vals| => ShowInt(vals[i]))
  }

  /** `stoi` reads back the rendering of any `int`. */
  lemma SegmentValueShowInt(v: int)
    requires IntMin <= v <= IntMax
    ensures SegmentValue(ShowInt(v)) == Some(v)
  {
    ShowIntShape(v);
    StoiShowInt(v, "");
    AppendNil(ShowInt(v));
  }

  /** Decoding a token joined from slash-free segments, the last one not
      empty, each of which reads as the corresponding value. */
  lemma CornerIndicesOfSegments(segs: seq<string>, vals: seq<int>)
    requires |segs| == |vals| >= 1 && segs[|segs| - 1] != ""
    requires forall i :: 0 <= i < |segs| ==> SlashFree(segs[i]) && SegmentValue(segs[i]) == Some(vals[i])
    ensures CornerIndices(Join(segs)) == Ok(vals)
  {
    var token := Join(segs);
    SegmentsOfJoin(segs);
    SegmentValuesSpec(segs, token);
    var r := SegmentValues(segs, token);
    assert r.Ok?;
    assert r.value == vals;
  }

  /** Writing `int` values as "a/b/c" (any number of them) and decoding the
      token gives the values back. */
  lemma CornerIndicesShowAll(vals: seq<int>)
    requires |vals| >= 1
    requires forall i :: 0 <= i < |vals| ==> IntMin <= vals[i] <= IntMax
    ensures CornerIndices(Join(ShowAll(vals))) == Ok(vals)
  {
    var segs := ShowAll(vals);
    forall i | 0 <= i < |segs|
      ensures SlashFree(segs[i]) && SegmentValue(segs[i]) == Some(vals[i])
    {
      ShowIntShape(vals[i]);
      SegmentValueShowInt(vals[i]);
    }
    ShowIntShape(vals[|vals| - 1]);
    CornerIndicesOfSegments(segs, vals);
  }

  /** The "v//vn" form: the empty texture segment reads as 0. */
  lemma CornerIndicesNoTexture(p: int, n: int)
    requires IntMin <= p <= IntMax && IntMin <= n <= IntMax
    ensures CornerIndices(ShowInt(p) + "//" + ShowInt(n)) == Ok([p, 0, n])
  {
    var segs := [ShowInt(p), "", ShowInt(n)];
    ShowIntShape(p);
    ShowIntShape(n);
    SegmentValueShowInt(p);
    SegmentValueShowInt(n);
    JoinEmptyMiddle(ShowInt(p), ShowInt(n));
    CornerIndicesOfSegments(segs, [p, 0, n]);
  }

  /** Three pieces with an empty middle one join with a double slash. */
  lemma JoinEmptyMiddle(a: string, c: string)
    ensures Join([a, "", c]) == a + "//" + c
  {
    var segs := [a, "", c];
    assert segs[..2][..1] == [a];
    assert segs[..2] == [a, ""];
    assert Join(segs[..2]) == a + "/";
    assert Join(segs) == (a + "/") + "/" + c;
    assert (a + "/") + "/" == a + "//";
  }
}
