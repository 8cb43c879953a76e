/** The JavaScript string operations the backend relies on: `startsWith`,
    `split` with a non-empty separator, `length` (UTF-16 code units), the
    white-space class shared by `trim()` and the regular-expression escape `\s`,
    and `trim()` itself. */
module JsText {
  import opened Common

  /** WhiteSpace and LineTerminator code points of ECMA-262 (sections 12.2 and
      12.3): exactly the characters that `String.prototype.trim` strips and that
      `\s` matches. */
  predicate IsWhitespace(c: char)
  {
    || c == '\t' || c == '\n' || c == '\U{000B}' || c == '\U{000C}' || c == '\r'
    || c == ' ' || c == '\U{00A0}' || c == '\U{1680}'
    || ('\U{2000}' <= c <= '\U{200A}')
    || c == '\U{2028}' || c == '\U{2029}' || c == '\U{202F}' || c == '\U{205F}'
    || c == '\U{3000}' || c == '\U{FEFF}'
  }

  predicate NoWhitespace(s: string)
  {
    forall k :: 0 <= k < |s| ==> !IsWhitespace(s[k])
  }

  predicate AllWhitespace(s: string)
  {
    forall k :: 0 <= k < |s| ==> IsWhitespace(s[k])
  }

  /** `s.length`: the number of UTF-16 code units, so a code point above U+FFFF
      counts twice. */
  function JsLength(s: string): (n: nat)
    ensures |s| <= n <= 2 * |s|
  {
    if s == [] then 0
    else JsLength(s[..|s| - 1]) + (if s[|s| - 1] as int > 0xFFFF then 2 else 1)
  }

  /** `s.startsWith(p)`. */
  predicate StartsWith(s: string, p: string)
  {
    |p| <= |s| && s[..|p|] == p
  }

  /** `sep` occurs in `s` at position `k`. */
  predicate OccursAt(s: string, sep: string, k: int)
  {
    0 <= k && k + |sep| <= |s| && s[k..k + |sep|] == sep
  }

  /** The first position at or after `from` where `sep` occurs in `s`. */
  function IndexFrom(s: string, sep: string, from: nat): (r: Option<nat>)
    ensures r.Some? ==> from <= r.value && OccursAt(s, sep, r.value)
    ensures r.Some? ==> forall k :: from <= k < r.value ==> !OccursAt(s, sep, k)
    ensures r.None? ==> forall k :: from <= k ==> !OccursAt(s, sep, k)
    decreases |s| - from
  {
    if from + |sep| > |s| then None
    else if s[from..from + |sep|] == sep then Some(from)
    else IndexFrom(s, sep, from + 1)
  }

  /** `s.indexOf(sep)`, with `None` for -1. */
  function IndexOf(s: string, sep: string): (r: Option<nat>)
    ensures r.Some? ==> OccursAt(s, sep, r.value)
    ensures r.Some? ==> forall k :: 0 <= k < r.value ==> !OccursAt(s, sep, k)
    ensures r.None? ==> forall k :: 0 <= k ==> !OccursAt(s, sep, k)
  {
    IndexFrom(s, sep, 0)
  }

  /** `s.split(sep)` for a non-empty separator and no limit: the pieces between
      successive leftmost, non-overlapping occurrences of `sep`. */
  function Split(s: string, sep: string): (parts: seq<string>)
    requires sep != ""
    ensures |parts| >= 1
    decreases |s|
  {
    match IndexOf(s, sep)
    case None => [s]
    case Some(i) => [s[..i]] + Split(s[i + |sep|..], sep)
  }

  /** `parts.join(sep)`. */
  function Join(parts: seq<string>, sep: string): string
  {
    if |parts| == 0 then ""
    else if |parts| == 1 then parts[0]
    else parts[0] + sep + Join(parts[1..], sep)
  }

  /** Splitting and joining again gives back the original string. */
  lemma {:induction false} JoinSplit(s: string, sep: string)
    requires sep != ""
    ensures Join(Split(s, sep), sep) == s
    decreases |s|
  {
    match IndexOf(s, sep)
    case None =>
    case Some(i) =>
      var rest := s[i + |sep|..];
      var tail := Split(rest, sep);
      var parts := [s[..i]] + tail;
      assert Split(s, sep) == parts;
      assert parts[1..] == tail;
      assert Join(parts, sep) == s[..i] + sep + Join(tail, sep);
      JoinSplit(rest, sep);
      assert s[i..i + |sep|] == sep;
      assert s == s[..i] + s[i..i + |sep|] + rest;
  }

  /** No piece of a split contains the separator. */
  lemma {:induction false} SplitPiecesAvoidSeparator(s: string, sep: string, n: nat)
    requires sep != ""
    requires n < |Split(s, sep)|
    ensures forall k :: 0 <= k ==> !OccursAt(Split(s, sep)[n], sep, k)
    decreases |s|
  {
    match IndexOf(s, sep)
    case None =>
    case Some(i) =>
      if n == 0 {
        forall k | 0 <= k && OccursAt(s[..i], sep, k)
          ensures false
        {
          assert s[..i][k..k + |sep|] == s[k..k + |sep|];
          assert OccursAt(s, sep, k);
        }
      } else {
        SplitPiecesAvoidSeparator(s[i + |sep|..], sep, n - 1);
      }
  }

  /** Joining pieces in which the separator's first character never appears and
      splitting again gives back the same pieces. */
  lemma {:induction false} SplitJoin(parts: seq<string>, sep: string)
    requires sep != "" && |parts| >= 1
    requires forall n :: 0 <= n < |parts| ==> sep[0] !in parts[n]
    ensures Split(Join(parts, sep), sep) == parts
    decreases |parts|
  {
    if |parts| == 1 {
      NoOccurrenceWithoutFirstChar(parts[0], sep, 0);
      assert IndexOf(parts[0], sep).None?;
    } else {
      var p, rest := parts[0], Join(parts[1..], sep);
      var s := p + sep + rest;
      assert Join(parts, sep) == s;
      FirstOccurrenceAfterPiece(p, sep, rest);
      assert s[..|p|] == p && s[|p| + |sep|..] == rest;
      SplitJoin(parts[1..], sep);
      assert Split(s, sep) == [p] + parts[1..];
    }
  }

  /** In `p + sep + rest`, where `p` lacks the separator's first character,
      the first occurrence of `sep` is the one right after `p`. */
  lemma FirstOccurrenceAfterPiece(p: string, sep: string, rest: string)
    requires sep != "" && sep[0] !in p
    ensures IndexOf(p + sep + rest, sep) == Some(|p|)
  {
    var s := p + sep + rest;
    assert s[|p|..|p| + |sep|] == sep;
    assert OccursAt(s, sep, |p|);
    forall k | 0 <= k < |p|
      ensures !OccursAt(s, sep, k)
    {
      assert s[k] == p[k];
    }
  }

  lemma NoOccurrenceWithoutFirstChar(s: string, sep: string, k: int)
    requires sep != "" && sep[0] !in s
    ensures forall j :: 0 <= j ==> !OccursAt(s, sep, j)
  {
  }

  /** The first position at or after `i` that does not hold white space. */
  function SkipWhitespace(s: string, i: nat): (n: nat)
    requires i <= |s|
    ensures i <= n <= |s|
    ensures forall k :: i <= k < n ==> IsWhitespace(s[k])
    ensures n < |s| ==> !IsWhitespace(s[n])
    decreases |s| - i
  {
    if i < |s| && IsWhitespace(s[i]) then SkipWhitespace(s, i + 1) else i
  }

  /** The end of `s[..j]` once its trailing white space is dropped. */
  function SkipWhitespaceBack(s: string, j: nat): (n: nat)
    requires j <= |s|
    ensures n <= j
    ensures forall k :: n <= k < j ==> IsWhitespace(s[k])
    ensures n > 0 ==> !IsWhitespace(s[n - 1])
  {
    if j > 0 && IsWhitespace(s[j - 1]) then SkipWhitespaceBack(s, j - 1) else j
  }

  /** `s.trimStart()`. */
  function TrimStart(s: string): string
  {
    s[SkipWhitespace(s, 0)..]
  }

  /** `s.trimEnd()`. */
  function TrimEnd(s: string): string
  {
    s[..SkipWhitespaceBack(s, |s|)]
  }

  /** `s.trim()`: white space removed at both ends and nothing else. The
      result is a slice of `s`, only white space lies outside it, and it
      neither starts nor ends with white space. */
  function Trim(s: string): (r: string)
    ensures exists i, j :: 0 <= i <= j <= |s| && r == s[i..j] && AllWhitespace(s[..i]) && AllWhitespace(s[j..])
    ensures r == [] || (!IsWhitespace(r[0]) && !IsWhitespace(r[|r| - 1]))
  {
    TrimStartEndIsInnerSlice(s);
    TrimEnd(TrimStart(s))
  }

  /** The bounds of the slice that trimming at the start and then at the end
      keeps: white space before `i` and from `j` on, none at `i` or just
      before `j`. */
  lemma TrimBounds(s: string) returns (i: nat, j: nat)
    ensures i <= j <= |s| && TrimEnd(TrimStart(s)) == s[i..j]
    ensures forall k :: 0 <= k < i ==> IsWhitespace(s[k])
    ensures forall k :: j <= k < |s| ==> IsWhitespace(s[k])
    ensures i < j ==> !IsWhitespace(s[i]) && !IsWhitespace(s[j - 1])
  {
    i := SkipWhitespace(s, 0);
    var t := s[i..];
    var e := SkipWhitespaceBack(t, |t|);
    j := i + e;
    assert TrimEnd(TrimStart(s)) == t[..e] == s[i..j];
    forall k | j <= k < |s|
      ensures IsWhitespace(s[k])
    {
      assert s[k] == t[k - i];
    }
    if i < j {
      assert s[j - 1] == t[e - 1];
    }
  }

  lemma TrimStartEndIsInnerSlice(s: string)
    ensures var r := TrimEnd(TrimStart(s));
      exists i, j :: 0 <= i <= j <= |s| && r == s[i..j] && AllWhitespace(s[..i]) && AllWhitespace(s[j..])
    ensures var r := TrimEnd(TrimStart(s));
      r == [] || (!IsWhitespace(r[0]) && !IsWhitespace(r[|r| - 1]))
  {
    var i, j := TrimBounds(s);
    assert AllWhitespace(s[..i]);
    assert AllWhitespace(s[j..]) by {
      forall k | 0 <= k < |s| - j
        ensures IsWhitespace(s[j..][k])
      {
        assert s[j..][k] == s[j + k];
      }
    }
  }

  /** A string of white space trims to the empty string, and only such a string does. */
  lemma TrimEmptyIffAllWhitespace(s: string)
    ensures Trim(s) == "" <==> AllWhitespace(s)
  {
    var i, j := TrimBounds(s);
    if AllWhitespace(s) {
      AllWhitespaceTrimsAway(s);
    }
  }

  lemma AllWhitespaceTrimsAway(s: string)
    requires AllWhitespace(s)
    ensures TrimStart(s) == ""
    ensures Trim(s) == ""
  {
    var i := SkipWhitespace(s, 0);
    assert i == |s|;
  }

  /** Trimming twice is trimming once. */
  lemma TrimIdempotent(s: string)
    ensures Trim(Trim(s)) == Trim(s)
  {
    var i, j := TrimBounds(s);
    var r := Trim(s);
    if r != [] {
      assert r[0] == s[i] && r[|r| - 1] == s[j - 1];
      assert SkipWhitespace(r, 0) == 0;
      assert TrimStart(r) == r;
      assert SkipWhitespaceBack(r, |r|) == |r|;
    }
  }
}
