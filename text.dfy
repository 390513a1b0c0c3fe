/** String operations the site's JavaScript takes from the language runtime:
    `toLowerCase`, `trim`, `includes`, `startsWith`, `split` on one character
    and `join`.  Strings are sequences of characters; letter case is modelled
    for ASCII only. */
module Text {

  predicate IsAsciiUpper(c: char) { 'A' <= c <= 'Z' }

  predicate IsAsciiLower(c: char) { 'a' <= c <= 'z' }

  predicate IsDigit(c: char) { '0' <= c <= '9' }

  /** `String.prototype.toLowerCase` on one character (ASCII letters only). */
  function Lower(c: char): (r: char)
    ensures !IsAsciiUpper(r)
    ensures IsAsciiUpper(c) ==> IsAsciiLower(r) && r as int == c as int + 32
    ensures !IsAsciiUpper(c) ==> r == c
  {
    if IsAsciiUpper(c) then (c as int + 32) as char else c
  }

  function LowerString(s: string): (r: string)
    ensures |r| == |s|
    ensures forall i :: 0 <= i < |s| ==> r[i] == Lower(s[i])
  {
    seq(|s|, i requires 0 <= i < |s| => Lower(s[i]))
  }

  /** Lower-casing leaves no ASCII capital, so doing it twice changes
      nothing, and it leaves a string alone exactly when the string has no
      ASCII capital. */
  lemma {:induction false} LowerStringFixedPoints(s: string)
    ensures forall i :: 0 <= i < |s| ==> !IsAsciiUpper(LowerString(s)[i])
    ensures LowerString(LowerString(s)) == LowerString(s)
    ensures LowerString(s) == s <==> forall i :: 0 <= i < |s| ==> !IsAsciiUpper(s[i])
  {
    var l := LowerString(s);
    if l == s {
      forall i | 0 <= i < |s|
        ensures !IsAsciiUpper(s[i])
      {
        assert l[i] == s[i];
      }
    }
  }

  lemma {:induction false} LowerStringAppend(x: string, y: string)
    ensures LowerString(x + y) == LowerString(x) + LowerString(y)
  {
    var l, r := LowerString(x + y), LowerString(x) + LowerString(y);
    forall i | 0 <= i < |l|
      ensures l[i] == r[i]
    {
      if i < |x| {
        assert (x + y)[i] == x[i];
      } else {
        assert (x + y)[i] == y[i - |x|];
      }
    }
  }

  /** The white space and line terminators that `String.prototype.trim` removes. */
  predicate IsJsWhitespace(c: char)
  {
    c == ' ' || c == '\t' || c == '\n' || c == '\r' || c == '\U{B}' || c == '\U{C}'
    || c == '\U{A0}' || c == '\U{1680}' || ('\U{2000}' <= c <= '\U{200A}')
    || c == '\U{2028}' || c == '\U{2029}' || c == '\U{202F}' || c == '\U{205F}'
    || c == '\U{3000}' || c == '\U{FEFF}'
  }

  function TrimStart(s: string): (r: string)
    ensures |r| <= |s| && r == s[|s| - |r|..]
    ensures r == [] || !IsJsWhitespace(r[0])
    ensures forall i :: 0 <= i < |s| - |r| ==> IsJsWhitespace(s[i])
  {
    if s != [] && IsJsWhitespace(s[0]) then TrimStart(s[1..]) else s
  }

  function TrimEnd(s: string): (r: string)
    ensures |r| <= |s| && r == s[..|r|]
    ensures r == [] || !IsJsWhitespace(r[|r| - 1])
    ensures forall i :: |r| <= i < |s| ==> IsJsWhitespace(s[i])
  {
    if s != [] && IsJsWhitespace(s[|s| - 1]) then TrimEnd(s[..|s| - 1]) else s
  }

  /** `String.prototype.trim`. */
  function Trim(s: string): string
  {
    TrimEnd(TrimStart(s))
  }

  lemma {:induction false} TrimStartsWithBlank(s: string)
    ensures Trim([' '] + s) == Trim(s)
  {
    assert ([' '] + s)[1..] == s;
  }

  /** `s.includes(sub)`: `sub` occurs in `s` at some position. */
  predicate Contains(s: string, sub: string)
  {
    exists i :: 0 <= i <= |s| - |sub| && OccursAt(s, sub, i)
  }

  /** `sub` occurs in `s` starting at index `i`. */
  predicate OccursAt(s: string, sub: string, i: int)
  {
    0 <= i && i + |sub| <= |s| && s[i..i + |sub|] == sub
  }

  predicate StartsWith(s: string, prefix: string)
  {
    |prefix| <= |s| && s[..|prefix|] == prefix
  }

  /** `s.split(sep)` for a one-character separator: the pieces between the
      separators, always at least one. */
  function Split(s: string, sep: char): (r: seq<string>)
    ensures |r| >= 1
    ensures forall k :: 0 <= k < |r| ==> sep !in r[k]
  {
    if s == [] then [""]
    else
      var rest := Split(s[1..], sep);
      if s[0] == sep then [""] + rest
      else [[s[0]] + rest[0]] + rest[1..]
  }

  /** `xs.join(sep)`. */
  function Join(xs: seq<string>, sep: string): string
  {
    if xs == [] then ""
    else if |xs| == 1 then xs[0]
    else xs[0] + sep + Join(xs[1..], sep)
  }

  /** The text before the first separator, that is `s.split(sep)[0]`. */
  function FirstSegment(s: string, sep: char): (r: string)
    ensures StartsWith(s, r) && sep !in r
    ensures |r| < |s| ==> s[|r|] == sep
  {
    var r := Split(s, sep)[0];
    FirstSegmentIsPrefix(s, sep);
    r
  }

  lemma {:induction false} FirstSegmentIsPrefix(s: string, sep: char)
    ensures var r := Split(s, sep)[0];
      StartsWith(s, r) && (|r| < |s| ==> s[|r|] == sep)
  {
    if s != [] && s[0] != sep {
      FirstSegmentIsPrefix(s[1..], sep);
    }
  }

  /** Splitting after a separator-free head starts a new piece. */
  lemma {:induction false} SplitAfterHead(head: string, sep: char, tail: string)
    requires sep !in head
    ensures Split(head + [sep] + tail, sep) == [head] + Split(tail, sep)
  {
    if head == [] {
      assert head + [sep] + tail == [sep] + tail;
      assert ([sep] + tail)[1..] == tail;
    } else {
      var s := head + [sep] + tail;
      assert s[0] == head[0];
      assert s[1..] == head[1..] + [sep] + tail;
      SplitAfterHead(head[1..], sep, tail);
      assert [head[0]] + head[1..] == head;
    }
  }
}
