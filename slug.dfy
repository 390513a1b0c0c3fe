/** `generateSlug`, written out twice in the admin editors (property editor
    and blog editor) with the same body: lower-case the title, replace every
    run of characters outside `[a-z0-9]` with one hyphen, then drop a hyphen
    at the very start and one at the very end. */
module Slug {
  import opened Text

  /** The characters the slug keeps: the complement of the class `[^a-z0-9]`. */
  predicate IsSlugChar(c: char) { IsAsciiLower(c) || IsDigit(c) }

  /** Every character is a slug character or a hyphen. */
  predicate InSlugAlphabet(s: string)
  {
    forall i :: 0 <= i < |s| ==> IsSlugChar(s[i]) || s[i] == '-'
  }

  /** No two hyphens stand next to each other. */
  predicate NoDoubleHyphen(s: string)
  {
    forall i :: 0 <= i < |s| - 1 ==> !(s[i] == '-' && s[i + 1] == '-')
  }

  /** Neither the first nor the last character is a hyphen. */
  predicate NoEdgeHyphen(s: string)
  {
    s == [] || (s[0] != '-' && s[|s| - 1] != '-')
  }

  /** The slug characters of `s`, in order, with everything else dropped. */
  function SlugChars(s: string): string
  {
    if s == [] then ""
    else if IsSlugChar(s[0]) then [s[0]] + SlugChars(s[1..])
    else SlugChars(s[1..])
  }

  /** Drops the rest of a run of non-slug characters. */
  function SkipRun(s: string): (r: string)
    ensures |r| <= |s| && r == s[|s| - |r|..]
    ensures r == [] || IsSlugChar(r[0])
    ensures SlugChars(r) == SlugChars(s)
  {
    if s == [] || IsSlugChar(s[0]) then s else SkipRun(s[1..])
  }

  /** `.replace(/[^a-z0-9]+/g, "-")`: each maximal run of non-slug characters
      becomes a single hyphen. */
  function CollapseRuns(s: string): (r: string)
    decreases |s|
    ensures InSlugAlphabet(r)
    ensures NoDoubleHyphen(r)
    ensures SlugChars(r) == SlugChars(s)
    ensures (r == []) == (s == [])
    ensures r != [] ==> (r[0] == '-' <==> !IsSlugChar(s[0]))
  {
    if s == [] then ""
    else if IsSlugChar(s[0]) then
      var rest := CollapseRuns(s[1..]);
      assert SlugChars([s[0]] + rest) == [s[0]] + SlugChars(rest) by {
        assert ([s[0]] + rest)[1..] == rest;
      }
      [s[0]] + rest
    else
      var rest := CollapseRuns(SkipRun(s[1..]));
      assert SlugChars("-" + rest) == SlugChars(rest) by {
        assert ("-" + rest)[1..] == rest;
      }
      "-" + rest
  }

  /** A word of the slug: letters `a`-`z` and digits only. */
  predicate IsSlugWord(w: string)
  {
    forall i :: 0 <= i < |w| ==> IsSlugChar(w[i])
  }

  /** A separator: one or more characters outside `[a-z0-9]`. */
  predicate IsSeparator(sep: string)
  {
    sep != [] && forall i :: 0 <= i < |sep| ==> !IsSlugChar(sep[i])
  }

  lemma {:induction false} SkipRunPastSeparator(sep: string, rest: string)
    requires forall i :: 0 <= i < |sep| ==> !IsSlugChar(sep[i])
    requires rest == [] || IsSlugChar(rest[0])
    ensures SkipRun(sep + rest) == rest
  {
    if sep == [] {
      assert sep + rest == rest;
    } else {
      assert (sep + rest)[0] == sep[0];
      assert (sep + rest)[1..] == sep[1..] + rest;
      SkipRunPastSeparator(sep[1..], rest);
    }
  }

  lemma {:induction false} CollapseSlugCharFirst(c: char, t: string)
    requires IsSlugChar(c)
    ensures CollapseRuns([c] + t) == [c] + CollapseRuns(t)
  {
    assert ([c] + t)[1..] == t;
  }

  lemma {:induction false} CollapseSeparatorFirst(sep: string, rest: string)
    requires IsSeparator(sep)
    requires rest == [] || IsSlugChar(rest[0])
    ensures CollapseRuns(sep + rest) == "-" + CollapseRuns(rest)
  {
    var s := sep + rest;
    assert s[0] == sep[0];
    assert s[1..] == sep[1..] + rest;
    SkipRunPastSeparator(sep[1..], rest);
  }

  /** A word, then a run of separator characters, then text that starts a
      new word (or nothing): the word is kept and the whole run becomes one
      hyphen in its place. */
  lemma {:induction false} CollapseRunsAtSeparator(w: string, sep: string, rest: string)
    requires IsSlugWord(w) && IsSeparator(sep)
    requires rest == [] || IsSlugChar(rest[0])
    ensures CollapseRuns(w + sep + rest) == w + "-" + CollapseRuns(rest)
  {
    if w == [] {
      assert w + sep + rest == sep + rest;
      CollapseSeparatorFirst(sep, rest);
    } else {
      var t := w[1..] + sep + rest;
      SplitHead(w, sep, rest);
      CollapseSlugCharFirst(w[0], t);
      CollapseRunsAtSeparator(w[1..], sep, rest);
      SplitHead(w, "-", CollapseRuns(rest));
    }
  }

  lemma {:induction false} SplitHead(w: string, m: string, r: string)
    requires w != []
    ensures [w[0]] + (w[1..] + m + r) == w + m + r
  {
    assert [w[0]] + w[1..] == w;
  }

  /** `.replace(/(^-|-$)/g, "")`: one leading hyphen, then one trailing hyphen. */
  function StripEdgeHyphens(s: string): (r: string)
    requires NoDoubleHyphen(s)
    ensures NoEdgeHyphen(r)
    ensures exists i, j :: 0 <= i <= j <= |s| && r == s[i..j]
    ensures |s| - |r| <= 2
    ensures forall i :: 0 <= i < |s| && s[i] != '-' ==> s[i] in r
  {
    var a := if s != [] && s[0] == '-' then s[1..] else s;
    var i := |s| - |a|;
    var j := if a != [] && a[|a| - 1] == '-' then |s| - 1 else |s|;
    assert a == s[i..];
    var r := s[i..j];
    assert forall k :: 0 <= k < |s| && s[k] != '-' ==> s[k] == r[k - i];
    r
  }

  /** `generateSlug(title)` (app/admin/buy-sell/page.js and app/admin/blog/page.jsx). */
  function GenerateSlug(title: string): (r: string)
    ensures InSlugAlphabet(r)
    ensures NoDoubleHyphen(r)
    ensures NoEdgeHyphen(r)
  {
    var collapsed := CollapseRuns(LowerString(title));
    var r := StripEdgeHyphens(collapsed);
    SubstringKeepsShape(collapsed, r);
    r
  }

  lemma {:induction false} SubstringKeepsShape(s: string, r: string)
    requires InSlugAlphabet(s) && NoDoubleHyphen(s)
    requires exists i, j :: 0 <= i <= j <= |s| && r == s[i..j]
    ensures InSlugAlphabet(r) && NoDoubleHyphen(r)
  {
    var i, j :| 0 <= i <= j <= |s| && r == s[i..j];
    assert forall k :: 0 <= k < |r| ==> r[k] == s[i + k];
  }

  /** The slug keeps exactly the letters and digits of the lower-cased title,
      in their order; only separators change. */
  lemma {:induction false} SlugKeepsLettersAndDigits(title: string)
    ensures SlugChars(GenerateSlug(title)) == SlugChars(LowerString(title))
  {
    var c := CollapseRuns(LowerString(title));
    StripKeepsSlugChars(c);
  }

  lemma {:induction false} StripKeepsSlugChars(s: string)
    requires NoDoubleHyphen(s)
    ensures SlugChars(StripEdgeHyphens(s)) == SlugChars(s)
  {
    var a := if s != [] && s[0] == '-' then s[1..] else s;
    if s != [] && s[0] == '-' {
      assert SlugChars(s) == SlugChars(s[1..]);
    }
    if a != [] && a[|a| - 1] == '-' {
      SlugCharsDropLastHyphen(a);
      assert StripEdgeHyphens(s) == a[..|a| - 1];
    } else {
      assert StripEdgeHyphens(s) == a;
    }
  }

  lemma {:induction false} SlugCharsDropLastHyphen(s: string)
    requires s != [] && s[|s| - 1] == '-'
    ensures SlugChars(s[..|s| - 1]) == SlugChars(s)
  {
    if |s| == 1 {
      assert s[..0] == "";
    } else {
      assert s[1..][..|s| - 2] == s[..|s| - 1][1..];
      SlugCharsDropLastHyphen(s[1..]);
    }
  }

  /** The slug is empty exactly when the lower-cased title holds no letter
      `a`-`z` and no digit (empty or all-punctuation titles). */
  lemma {:induction false} SlugEmptyIff(title: string)
    ensures GenerateSlug(title) == "" <==> SlugChars(LowerString(title)) == ""
  {
    var r := GenerateSlug(title);
    SlugKeepsLettersAndDigits(title);
    if r != "" {
      assert r[0] != '-' && InSlugAlphabet(r);
      assert SlugChars(r) != "";
    }
  }

  /** A string already in slug form is left alone by collapsing. */
  lemma {:induction false} CollapseOfSlugForm(s: string)
    requires InSlugAlphabet(s) && NoDoubleHyphen(s)
    ensures CollapseRuns(s) == s
  {
    if s != [] {
      var t := s[1..];
      assert InSlugAlphabet(t) && NoDoubleHyphen(t);
      CollapseOfSlugForm(t);
      if !IsSlugChar(s[0]) {
        assert t == [] || IsSlugChar(t[0]);
        assert SkipRun(t) == t;
      }
    }
  }

  lemma {:induction false} LowerOfSlugForm(s: string)
    requires InSlugAlphabet(s)
    ensures LowerString(s) == s
  {
  }

  /** Generating a slug from a slug gives it back unchanged. */
  lemma {:induction false} SlugIdempotent(title: string)
    ensures GenerateSlug(GenerateSlug(title)) == GenerateSlug(title)
  {
    var s := GenerateSlug(title);
    calc {
      GenerateSlug(s);
      StripEdgeHyphens(CollapseRuns(LowerString(s)));
      { LowerOfSlugForm(s); }
      StripEdgeHyphens(CollapseRuns(s));
      { CollapseOfSlugForm(s); }
      StripEdgeHyphens(s);
      { StripOfEdgeless(s); }
      s;
    }
  }

  lemma {:induction false} StripOfEdgeless(s: string)
    requires NoDoubleHyphen(s) && NoEdgeHyphen(s)
    ensures StripEdgeHyphens(s) == s
  {
    assert s[0..|s|] == s;
  }

  /** A title whose lower-cased form is already made only of `a`-`z` and
      `0`-`9` comes back lower-cased and otherwise unchanged. */
  lemma {:induction false} SlugOfPlainTitle(title: string)
    requires forall i :: 0 <= i < |title| ==> IsSlugChar(Lower(title[i]))
    ensures GenerateSlug(title) == LowerString(title)
  {
    var l := LowerString(title);
    assert forall i :: 0 <= i < |l| ==> IsSlugChar(l[i]);
    assert InSlugAlphabet(l) && NoDoubleHyphen(l);
    CollapseOfSlugForm(l);
    assert l == [] || (l[0] != '-' && l[|l| - 1] != '-');
    assert StripEdgeHyphens(l) == l;
  }

  /** A word of the title, a run of characters that are not letters or
      digits (in any case), then the rest of the title starting with a new
      word: the slug is the lower-cased word, one hyphen, and the slug of
      the rest. With SlugDropsTrailingRun and SlugOfPlainTitle this makes
      the slug of a title its words, lower-cased and joined by single
      hyphens. */
  lemma {:induction false} SlugPrependsWord(a: string, sep: string, rest: string)
    requires a != [] && IsSlugWord(LowerString(a))
    requires IsSeparator(LowerString(sep))
    requires rest != [] && IsSlugChar(LowerString(rest)[0])
    ensures GenerateSlug(a + sep + rest) == LowerString(a) + "-" + GenerateSlug(rest)
  {
    var la, ls, lr := LowerString(a), LowerString(sep), LowerString(rest);
    LowerOfJoin(a, sep, rest);
    CollapseRunsAtSeparator(la, ls, lr);
    var c := CollapseRuns(lr);
    StripAfterWord(la, c);
  }

  /** A word followed by nothing but a run of characters that are not
      letters or digits: the run is dropped. */
  lemma {:induction false} SlugDropsTrailingRun(a: string, sep: string)
    requires a != [] && IsSlugWord(LowerString(a))
    requires IsSeparator(LowerString(sep))
    ensures GenerateSlug(a + sep) == LowerString(a)
  {
    var la, ls := LowerString(a), LowerString(sep);
    LowerStringAppend(a, sep);
    assert la + ls == la + ls + "";
    CollapseRunsAtSeparator(la, ls, "");
    assert la + "-" + "" == la + "-";
    StripTrailingHyphen(la);
  }

  /** A title that opens with a run of characters that are not letters or
      digits (a typed leading space, say): the run is dropped, and the slug
      is that of the rest. */
  lemma {:induction false} SlugDropsLeadingRun(sep: string, rest: string)
    requires IsSeparator(LowerString(sep))
    requires rest == [] || IsSlugChar(LowerString(rest)[0])
    ensures GenerateSlug(sep + rest) == GenerateSlug(rest)
  {
    var ls, lr := LowerString(sep), LowerString(rest);
    LowerStringAppend(sep, rest);
    CollapseSeparatorFirst(ls, lr);
    StripLeadingHyphen(CollapseRuns(lr));
  }

  /** A hyphen put before text that does not start with one is stripped. */
  lemma {:induction false} StripLeadingHyphen(c: string)
    requires NoDoubleHyphen(c) && (c == [] || c[0] != '-')
    ensures NoDoubleHyphen("-" + c)
    ensures StripEdgeHyphens("-" + c) == StripEdgeHyphens(c)
  {
    var s := "-" + c;
    assert s[1..] == c;
    assert forall i :: 0 <= i < |s| - 1 ==> !(s[i] == '-' && s[i + 1] == '-') by {
      forall i | 0 <= i < |s| - 1
        ensures !(s[i] == '-' && s[i + 1] == '-')
      {
        if i > 0 { assert s[i] == c[i - 1] && s[i + 1] == c[i]; }
      }
    }
    if c != [] && c[|c| - 1] == '-' {
      assert s[1..|s| - 1] == c[..|c| - 1];
    }
  }

  /** The title `"  --Leading--"`, given character by character. */
  predicate IsLeadingTitle(t: string)
  {
    |t| == 13 && t[0] == ' ' && t[1] == ' ' && t[2] == '-' && t[3] == '-'
    && t[4] == 'L' && t[5] == 'e' && t[6] == 'a' && t[7] == 'd' && t[8] == 'i' && t[9] == 'n' && t[10] == 'g'
    && t[11] == '-' && t[12] == '-'
  }

  /** The slug of the title `"  --Leading--"` is `"leading"`: both runs
      around the word are dropped. */
  lemma {:induction false} LeadingTitle(t: string)
    requires IsLeadingTitle(t)
    ensures GenerateSlug(t) == "leading"
  {
    LeadingTitleSplits(t);
    LeadingTitleWord(t);
    LeadingTitleSeparators(t);
    SlugOfPaddedWord(t[..4], t[4..11], t[11..]);
  }

  /** One word with a run of characters that are not letters or digits on
      each side: the slug is the lower-cased word alone. */
  lemma {:induction false} SlugOfPaddedWord(lead: string, w: string, tail: string)
    requires IsSeparator(LowerString(lead)) && IsSeparator(LowerString(tail))
    requires w != [] && IsSlugWord(LowerString(w))
    ensures GenerateSlug(lead + (w + tail)) == LowerString(w)
  {
    LowerStringAppend(w, tail);
    assert LowerString(w + tail)[0] == LowerString(w)[0];
    SlugDropsLeadingRun(lead, w + tail);
    SlugDropsTrailingRun(w, tail);
  }

  lemma {:induction false} LeadingTitleSplits(t: string)
    requires |t| == 13
    ensures t == t[..4] + (t[4..11] + t[11..])
  {
  }

  lemma {:induction false} LeadingTitleWord(t: string)
    requires IsLeadingTitle(t)
    ensures LowerString(t[4..11]) == "leading" && IsSlugWord(LowerString(t[4..11]))
  {
  }

  lemma {:induction false} LeadingTitleSeparators(t: string)
    requires IsLeadingTitle(t)
    ensures IsSeparator(LowerString(t[..4])) && IsSeparator(LowerString(t[11..]))
  {
  }

  lemma {:induction false} LowerOfJoin(a: string, sep: string, b: string)
    ensures LowerString(a + sep + b) == LowerString(a) + LowerString(sep) + LowerString(b)
  {
    LowerStringAppend(a + sep, b);
    LowerStringAppend(a, sep);
  }

  /** After a word and a hyphen, stripping acts on the rest alone. */
  lemma {:induction false} StripAfterWord(w: string, c: string)
    requires w != [] && IsSlugWord(w)
    requires c != [] && c[0] != '-' && NoDoubleHyphen(c)
    requires NoDoubleHyphen(w + "-" + c)
    ensures StripEdgeHyphens(w + "-" + c) == w + "-" + StripEdgeHyphens(c)
  {
    var s := w + "-" + c;
    assert s[0] == w[0];
    assert s[|s| - 1] == c[|c| - 1];
    if c[|c| - 1] == '-' {
      assert s[..|s| - 1] == w + "-" + c[..|c| - 1];
    }
  }

  lemma {:induction false} StripTrailingHyphen(w: string)
    requires w != [] && IsSlugWord(w)
    ensures NoDoubleHyphen(w + "-")
    ensures StripEdgeHyphens(w + "-") == w
  {
    var s := w + "-";
    assert s[0] == w[0];
    assert s[..|s| - 1] == w;
  }

  /** A title of three words, each followed by a run of characters that are
      not letters or digits, such as `"My Great Post!!"`: the slug is the
      three lower-cased words joined by single hyphens (`"my-great-post"`),
      the trailing run leaving nothing behind. */
  lemma {:induction false} SlugOfThreeWordTitle(a: string, s1: string, b: string, s2: string, c: string, s3: string)
    requires a != [] && IsSlugWord(LowerString(a))
    requires b != [] && IsSlugWord(LowerString(b))
    requires c != [] && IsSlugWord(LowerString(c))
    requires IsSeparator(LowerString(s1)) && IsSeparator(LowerString(s2)) && IsSeparator(LowerString(s3))
    ensures GenerateSlug(a + s1 + b + s2 + c + s3) == LowerString(a) + "-" + LowerString(b) + "-" + LowerString(c)
  {
    var mid := b + s2 + (c + s3);
    var la, lb, lc := LowerString(a), LowerString(b), LowerString(c);
    calc {
      GenerateSlug(a + s1 + b + s2 + c + s3);
      { Regroup(a + s1, b, s2, c, s3); }
      GenerateSlug(a + s1 + mid);
      { FirstLowerOfJoin(b, s2 + (c + s3));
        assert b + (s2 + (c + s3)) == mid;
        SlugPrependsWord(a, s1, mid); }
      la + "-" + GenerateSlug(mid);
      { SlugOfTwoWordTitle(b, s2, c, s3); }
      la + "-" + (lb + "-" + lc);
      { JoinRegroup(la, lb, lc, "-"); }
      la + "-" + lb + "-" + lc;
    }
  }

  lemma {:induction false} Regroup(p: string, b: string, s2: string, c: string, s3: string)
    ensures p + b + s2 + c + s3 == p + (b + s2 + (c + s3))
  {
    assert p + b + s2 + c + s3 == p + (b + s2 + c + s3);
    assert b + s2 + c + s3 == b + s2 + (c + s3);
  }

  lemma {:induction false} JoinRegroup(x: string, y: string, z: string, h: string)
    ensures x + h + (y + h + z) == x + h + y + h + z
  {
  }

  lemma {:induction false} SlugOfTwoWordTitle(b: string, s2: string, c: string, s3: string)
    requires b != [] && IsSlugWord(LowerString(b))
    requires c != [] && IsSlugWord(LowerString(c))
    requires IsSeparator(LowerString(s2)) && IsSeparator(LowerString(s3))
    ensures GenerateSlug(b + s2 + (c + s3)) == LowerString(b) + "-" + LowerString(c)
  {
    SlugDropsTrailingRun(c, s3);
    FirstLowerOfJoin(c, s3);
    SlugPrependsWord(b, s2, c + s3);
  }

  lemma {:induction false} FirstLowerOfJoin(x: string, y: string)
    requires x != []
    ensures LowerString(x + y) != [] && LowerString(x + y)[0] == LowerString(x)[0]
  {
    assert (x + y)[0] == x[0];
  }

  /** The title `"My Great Post!!"`, given character by character. */
  predicate IsMyGreatPost(t: string)
  {
    |t| == 15 && t[0] == 'M' && t[1] == 'y' && t[2] == ' '
    && t[3] == 'G' && t[4] == 'r' && t[5] == 'e' && t[6] == 'a' && t[7] == 't' && t[8] == ' '
    && t[9] == 'P' && t[10] == 'o' && t[11] == 's' && t[12] == 't' && t[13] == '!' && t[14] == '!'
  }

  /** The slug of the title `"My Great Post!!"` is `"my-great-post"`. The
      title is a parameter pinned down character by character: written as a
      string literal inside `GenerateSlug`, the recursive definitions would
      be unfolded character by character in every branch. */
  lemma {:induction false} MyGreatPost(t: string)
    requires IsMyGreatPost(t)
    ensures GenerateSlug(t) == "my-great-post"
  {
    MyGreatPostSplits(t);
    MyGreatPostWords(t);
    MyGreatPostSeparators(t);
    var a, s1, b, s2, c, s3 := t[..2], t[2..3], t[3..8], t[8..9], t[9..13], t[13..];
    assert IsSlugWord(LowerString(a));
    assert IsSlugWord(LowerString(b));
    assert IsSlugWord(LowerString(c));
    SlugOfThreeWordTitle(a, s1, b, s2, c, s3);
    assert GenerateSlug(t) == LowerString(a) + "-" + LowerString(b) + "-" + LowerString(c);
    JoinMyGreatPost(LowerString(a), LowerString(b), LowerString(c));
  }

  lemma {:induction false} JoinMyGreatPost(x: string, y: string, z: string)
    requires x == "my" && y == "great" && z == "post"
    ensures x + "-" + y + "-" + z == "my-great-post"
  {
  }

  lemma {:induction false} MyGreatPostSplits(t: string)
    requires |t| == 15
    ensures t == t[..2] + t[2..3] + t[3..8] + t[8..9] + t[9..13] + t[13..]
  {
  }

  lemma {:induction false} MyGreatPostWords(t: string)
    requires IsMyGreatPost(t)
    ensures LowerString(t[..2]) == "my" && LowerString(t[3..8]) == "great" && LowerString(t[9..13]) == "post"
  {
  }

  lemma {:induction false} MyGreatPostSeparators(t: string)
    requires IsMyGreatPost(t)
    ensures IsSeparator(LowerString(t[2..3])) && IsSeparator(LowerString(t[8..9])) && IsSeparator(LowerString(t[13..]))
  {
  }
}
