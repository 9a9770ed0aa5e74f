/** JavaScript value semantics the handlers and components rely on: a field that
    may be missing, the truthiness of strings, the `||` operator on strings, and
    `String.prototype.trim`. */
module JsValues {

  /** A field that is `undefined`/`null` (None) or holds a value (Some). */
  datatype Option<+T> = None | Some(value: T)

  /** A string-valued field is truthy when it is present and not the empty string. */
  predicate Truthy(v: Option<string>) {
    v.Some? && v.value != ""
  }

  /** `a || b` on string-valued fields: the left operand when it is truthy, the right one otherwise. */
  function Or(a: Option<string>, b: Option<string>): (r: Option<string>)
    ensures Truthy(r) <==> Truthy(a) || Truthy(b)
    ensures r == a || r == b
    ensures Truthy(a) ==> r == a
    ensures !Truthy(a) ==> r == b
  {
    if Truthy(a) then a else b
  }

  /** The code points `String.prototype.trim` removes: ECMAScript WhiteSpace
      (TAB, VT, FF, SP, NBSP, ZWNBSP and the Unicode Space_Separator category)
      and LineTerminator (LF, CR, LS, PS). */
  predicate IsWhitespace(c: char) {
    || c == '\t' || c == '\n' || c == '\U{000B}' || c == '\U{000C}' || c == '\r'
    || c == ' ' || c == '\U{00A0}' || c == '\U{1680}'
    || ('\U{2000}' <= c <= '\U{200A}')
    || c == '\U{2028}' || c == '\U{2029}' || c == '\U{202F}' || c == '\U{205F}'
    || c == '\U{3000}' || c == '\U{FEFF}'
  }

  /** Drops the leading whitespace: the result is the longest suffix that does not start with whitespace. */
  function TrimStart(s: string): (r: string)
    ensures |r| <= |s| && r == s[|s| - |r|..]
    ensures forall i | 0 <= i < |s| - |r| :: IsWhitespace(s[i])
    ensures r == [] || !IsWhitespace(r[0])
  {
    if |s| > 0 && IsWhitespace(s[0]) then TrimStart(s[1..]) else s
  }

  /** Drops the trailing whitespace: the result is the longest prefix that does not end with whitespace. */
  function TrimEnd(s: string): (r: string)
    ensures |r| <= |s| && r == s[..|r|]
    ensures forall i | |r| <= i < |s| :: IsWhitespace(s[i])
    ensures r == [] || !IsWhitespace(r[|r| - 1])
  {
    if |s| > 0 && IsWhitespace(s[|s| - 1]) then TrimEnd(s[..|s| - 1]) else s
  }

  /** `String.prototype.trim`. */
  function Trim(s: string): (r: string)
    ensures |r| <= |s|
    ensures r == [] || (!IsWhitespace(r[0]) && !IsWhitespace(r[|r| - 1]))
  {
    TrimEnd(TrimStart(s))
  }

  /** `s[a..b]` is what is left of `s` after cutting a whitespace-only prefix and
      a whitespace-only suffix such that nothing more could be cut. */
  ghost predicate IsTrimCut(s: string, a: int, b: int) {
    && 0 <= a <= b <= |s|
    && (forall i | 0 <= i < a :: IsWhitespace(s[i]))
    && (forall i | b <= i < |s| :: IsWhitespace(s[i]))
    && (a < b ==> !IsWhitespace(s[a]) && !IsWhitespace(s[b - 1]))
  }

  /** The left cut of `TrimStart` stops at the first non-whitespace character. */
  lemma TrimStartStopsAt(s: string, a: int)
    requires 0 <= a <= |s|
    requires forall i | 0 <= i < a :: IsWhitespace(s[i])
    requires a < |s| ==> !IsWhitespace(s[a])
    ensures TrimStart(s) == s[a..]
  {
  }

  /** The right cut of `TrimEnd` stops after the last non-whitespace character. */
  lemma TrimEndStopsAt(s: string, b: int)
    requires 0 <= b <= |s|
    requires forall i | b <= i < |s| :: IsWhitespace(s[i])
    requires 0 < b ==> !IsWhitespace(s[b - 1])
    ensures TrimEnd(s) == s[..b]
  {
  }

  /** Every such cut gives `Trim(s)`: the trimmed string is determined by the
      cut-whitespace-from-both-ends description alone. */
  lemma TrimIsTheCut(s: string, a: int, b: int)
    requires IsTrimCut(s, a, b)
    ensures Trim(s) == s[a..b]
  {
    if a == b {
      TrimOfBlank(s, a);
    } else {
      TrimStartStopsAt(s, a);
      TrimEndOfSuffix(s, a, b);
    }
  }

  /** A string made of whitespace only trims to the empty string. */
  lemma TrimOfBlank(s: string, a: int)
    requires 0 <= a <= |s|
    requires forall i | 0 <= i < a :: IsWhitespace(s[i])
    requires forall i | a <= i < |s| :: IsWhitespace(s[i])
    ensures Trim(s) == []
  {
    assert forall i | 0 <= i < |s| :: IsWhitespace(s[i]) by {
      forall i | 0 <= i < |s| ensures IsWhitespace(s[i]) {
        if i < a { } else { }
      }
    }
    TrimStartStopsAt(s, |s|);
  }

  lemma TrimEndOfSuffix(s: string, a: int, b: int)
    requires 0 <= a < b <= |s|
    requires forall i | b <= i < |s| :: IsWhitespace(s[i])
    requires !IsWhitespace(s[b - 1])
    ensures TrimEnd(s[a..]) == s[a..b]
  {
    var t := s[a..];
    assert forall i | b - a <= i < |t| :: IsWhitespace(t[i]) by {
      forall i | b - a <= i < |t| ensures IsWhitespace(t[i]) {
        assert t[i] == s[a + i];
      }
    }
    TrimEndStopsAt(t, b - a);
    assert t[..b - a] == s[a..b];
  }

  /** Trimming twice is trimming once. */
  lemma TrimIdempotent(s: string)
    ensures Trim(Trim(s)) == Trim(s)
  {
    var t := Trim(s);
    TrimIsTheCut(t, 0, |t|);
  }

  /** A string trims to the empty string exactly when every character of it is whitespace. */
  lemma TrimEmptyIffBlank(s: string)
    ensures Trim(s) == [] <==> forall i | 0 <= i < |s| :: IsWhitespace(s[i])
  {
    if forall i | 0 <= i < |s| :: IsWhitespace(s[i]) {
      TrimIsTheCut(s, 0, 0);
    } else {
      var i :| 0 <= i < |s| && !IsWhitespace(s[i]);
      var t := TrimStart(s);
      assert i >= |s| - |t|;
      var e := TrimEnd(t);
      assert i - (|s| - |t|) < |e|;
    }
  }

  /** `parts.join(sep)`. */
  function Join(parts: seq<string>, sep: string): string
  {
    if |parts| == 0 then ""
    else if |parts| == 1 then parts[0]
    else parts[0] + sep + Join(parts[1..], sep)
  }
}
