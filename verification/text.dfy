/**
 The three Python string operations the export script relies on:
 `str.split(sep)` with a one-character separator, `str.strip()` with no
 argument, and `str.lower()` (restricted to ASCII letters).
 */
module Text {

  /* ---------------------------------------------------------------------
     str.split(sep)
     --------------------------------------------------------------------- */

  /** Python's `s.split(sep)`: the pieces of `s` between occurrences of
      `sep`. There is always at least one piece, and pieces may be empty. */
  function Split(s: string, sep: char): (parts: seq<string>)
    ensures |parts| >= 1
    ensures forall i :: 0 <= i < |parts| ==> sep !in parts[i]
    decreases |s|
  {
    if s == [] then [""]
    else
      var rest := Split(s[1..], sep);
      if s[0] == sep then [""] + rest
      else [[s[0]] + rest[0]] + rest[1..]
  }

  /** Python's `sep.join(parts)`, the inverse of `Split`. */
  function Join(parts: seq<string>, sep: char): string
    requires |parts| >= 1
    decreases |parts|
  {
    if |parts| == 1 then parts[0] else parts[0] + [sep] + Join(parts[1..], sep)
  }

  /** Joining the pieces again gives back the string that was split. */
  lemma {:induction false} JoinSplit(s: string, sep: char)
    ensures Join(Split(s, sep), sep) == s
    decreases |s|
  {
    if s != [] {
      var rest := Split(s[1..], sep);
      JoinSplit(s[1..], sep);
      if s[0] == sep {
        assert Split(s, sep)[1..] == rest;
      } else {
        var parts := Split(s, sep);
        if |rest| == 1 {
          assert parts == [[s[0]] + rest[0]];
        } else {
          assert parts[1..] == rest[1..];
          assert Join(rest, sep) == rest[0] + [sep] + Join(rest[1..], sep);
        }
      }
    }
  }

  /** A piece free of the separator, followed by the separator, splits off
      as a piece of its own. */
  lemma {:induction false} SplitAfterPiece(p: string, t: string, sep: char)
    requires sep !in p
    ensures Split(p + [sep] + t, sep) == [p] + Split(t, sep)
    decreases |p|
  {
    if p == [] {
      assert p + [sep] + t == [sep] + t;
      assert ([sep] + t)[1..] == t;
    } else {
      SplitAfterPiece(p[1..], t, sep);
      assert (p + [sep] + t)[1..] == p[1..] + [sep] + t;
      assert [p[0]] + p[1..] == p;
    }
  }

  /** A string free of the separator splits into itself alone. */
  lemma {:induction false} SplitWithoutSeparator(p: string, sep: char)
    requires sep !in p
    ensures Split(p, sep) == [p]
    decreases |p|
  {
    if p != [] {
      SplitWithoutSeparator(p[1..], sep);
      assert [p[0]] + p[1..] == p;
    }
  }

  /** Splitting a joined list of separator-free pieces gives the pieces
      back: together with `JoinSplit`, `Split` and `Join` are inverse. */
  lemma {:induction false} SplitJoin(parts: seq<string>, sep: char)
    requires |parts| >= 1
    requires forall i :: 0 <= i < |parts| ==> sep !in parts[i]
    ensures Split(Join(parts, sep), sep) == parts
    decreases |parts|
  {
    if |parts| == 1 {
      SplitWithoutSeparator(parts[0], sep);
    } else {
      SplitJoin(parts[1..], sep);
      SplitAfterPiece(parts[0], Join(parts[1..], sep), sep);
      assert [parts[0]] + parts[1..] == parts;
    }
  }

  /** A string with more than one piece contains the separator. */
  lemma {:induction false} SplitSeveralHasSeparator(s: string, sep: char)
    requires |Split(s, sep)| > 1
    ensures sep in s
    decreases |s|
  {
    if s[0] != sep {
      SplitSeveralHasSeparator(s[1..], sep);
      assert s == [s[0]] + s[1..];
    }
  }

  /** A string that splits into one piece is that piece. */
  lemma {:induction false} SplitOnePiece(s: string, sep: char)
    requires |Split(s, sep)| == 1
    ensures Split(s, sep)[0] == s
    decreases |s|
  {
    if s != [] {
      SplitOnePiece(s[1..], sep);
      assert s == [s[0]] + s[1..];
    }
  }

  /** The last piece of a split is a separator-free suffix of the string,
      and it is either the whole string or directly preceded by `sep`; it
      is shorter than the string whenever there are several pieces. */
  lemma {:induction false} SplitLastIsSuffix(s: string, sep: char)
    ensures var last := Split(s, sep)[|Split(s, sep)| - 1];
      && |last| <= |s|
      && last == s[|s| - |last|..]
      && (|last| < |s| ==> s[|s| - |last| - 1] == sep)
      && (|Split(s, sep)| > 1 ==> |last| < |s|)
    decreases |s|
  {
    if s != [] {
      var tail := s[1..];
      SplitLastIsSuffix(tail, sep);
      var rest := Split(tail, sep);
      if s[0] != sep && |rest| == 1 {
        SplitOnePiece(tail, sep);
        assert [s[0]] + tail == s;
      } else {
        SplitLastOfTail(s, sep);
        var last := rest[|rest| - 1];
        assert tail[|tail| - |last|..] == s[|s| - |last|..];
        if |last| < |tail| {
          assert tail[|tail| - |last| - 1] == s[|s| - |last| - 1];
        }
      }
    }
  }

  /** Unless the first character joins a lone last piece, the last piece
      of `s` is the last piece of `s[1..]`. */
  lemma SplitLastOfTail(s: string, sep: char)
    requires s != []
    requires s[0] == sep || |Split(s[1..], sep)| > 1
    ensures var rest := Split(s[1..], sep);
      && |Split(s, sep)| == |rest| + 1 - (if s[0] == sep then 0 else 1)
      && Split(s, sep)[|Split(s, sep)| - 1] == rest[|rest| - 1]
  {
  }

  /* ---------------------------------------------------------------------
     str.strip()
     --------------------------------------------------------------------- */

  /** Python's `str.isspace()` on one character: the characters that
      `str.strip()` with no argument removes. */
  predicate IsSpace(c: char)
  {
    || ('\t' <= c <= '\r')
    || ('\U{1C}' <= c <= ' ')
    || c == '\U{85}' || c == '\U{A0}' || c == '\U{1680}'
    || ('\U{2000}' <= c <= '\U{200A}')
    || c == '\U{2028}' || c == '\U{2029}' || c == '\U{202F}' || c == '\U{205F}'
    || c == '\U{3000}'
  }

  predicate AllSpace(s: string)
  {
    forall i :: 0 <= i < |s| ==> IsSpace(s[i])
  }

  /** `s.lstrip()`: the suffix of `s` left after dropping the leading
      whitespace. */
  function StripLeading(s: string): (r: string)
    ensures |r| <= |s| && r == s[|s| - |r|..]
    ensures AllSpace(s[..|s| - |r|])
    ensures r == [] || !IsSpace(r[0])
    decreases |s|
  {
    if s != [] && IsSpace(s[0]) then StripLeading(s[1..]) else s
  }

  /** `s.rstrip()`: the prefix of `s` left after dropping the trailing
      whitespace. */
  function StripTrailing(s: string): (r: string)
    ensures |r| <= |s| && r == s[..|r|]
    ensures AllSpace(s[|r|..])
    ensures r == [] || !IsSpace(r[|r| - 1])
    decreases |s|
  {
    if s != [] && IsSpace(s[|s| - 1]) then
      var r := StripTrailing(s[..|s| - 1]);
      assert s[|r|..] == s[..|s| - 1][|r|..] + [s[|s| - 1]];
      r
    else s
  }

  /** `s.strip()`: `s` without its leading and trailing whitespace; the
      result neither starts nor ends with whitespace. */
  function Strip(s: string): (r: string)
    ensures |r| <= |s|
    ensures r == [] || (!IsSpace(r[0]) && !IsSpace(r[|r| - 1]))
  {
    var t := StripLeading(s);
    var r := StripTrailing(t);
    assert r != [] ==> r[0] == t[0];
    r
  }

  /** `Strip` removes only whitespace: the input is some whitespace, then
      the result, then some whitespace. */
  lemma StripParts(s: string) returns (pre: string, post: string)
    ensures AllSpace(pre) && AllSpace(post)
    ensures s == pre + Strip(s) + post
  {
    var t := StripLeading(s);
    pre := s[..|s| - |t|];
    assert pre + t == s;
    post := StripTrailingPart(t);
    ConcatAssociative(pre, StripTrailing(t), post);
  }

  /** What `StripTrailing` drops is whitespace at the end. */
  lemma StripTrailingPart(t: string) returns (post: string)
    ensures AllSpace(post)
    ensures t == StripTrailing(t) + post
  {
    var r := StripTrailing(t);
    post := t[|r|..];
    assert r + post == t;
  }

  /** Concatenation is associative (a step the solver is slow to find in
      a crowded context). */
  lemma ConcatAssociative<T>(a: seq<T>, b: seq<T>, c: seq<T>)
    ensures a + b + c == a + (b + c)
  {
  }

  /** Dropping a whitespace prefix in front of a string that does not start
      with whitespace leaves exactly that string. */
  lemma {:induction false} StripLeadingAfterSpace(pre: string, t: string)
    requires AllSpace(pre)
    requires t == [] || !IsSpace(t[0])
    ensures StripLeading(pre + t) == t
    decreases |pre|
  {
    if pre != [] {
      assert (pre + t)[1..] == pre[1..] + t;
      StripLeadingAfterSpace(pre[1..], t);
    }
  }

  /** Dropping a whitespace suffix behind a string that does not end with
      whitespace leaves exactly that string. */
  lemma {:induction false} StripTrailingBeforeSpace(t: string, post: string)
    requires AllSpace(post)
    requires t == [] || !IsSpace(t[|t| - 1])
    ensures StripTrailing(t + post) == t
    decreases |post|
  {
    if post != [] {
      assert (t + post)[..|t + post| - 1] == t + post[..|post| - 1];
      StripTrailingBeforeSpace(t, post[..|post| - 1]);
    } else {
      assert t + post == t;
    }
  }

  /** `Strip` is determined by its contract: whatever lies between a
      whitespace prefix and a whitespace suffix, and neither starts nor
      ends with whitespace, is what `Strip` returns. */
  lemma StripUnique(pre: string, w: string, post: string)
    requires AllSpace(pre) && AllSpace(post)
    requires w == [] || (!IsSpace(w[0]) && !IsSpace(w[|w| - 1]))
    ensures Strip(pre + w + post) == w
  {
    if w == [] {
      assert pre + w + post == (pre + post) + [];
      StripLeadingAfterSpace(pre + post, []);
    } else {
      assert pre + w + post == pre + (w + post);
      StripLeadingAfterSpace(pre, w + post);
      StripTrailingBeforeSpace(w, post);
    }
  }

  /* ---------------------------------------------------------------------
     str.lower()
     --------------------------------------------------------------------- */

  /** ASCII lower-casing of one character. */
  function LowerChar(c: char): char
  {
    if 'A' <= c <= 'Z' then (c as int - 'A' as int + 'a' as int) as char else c
  }

  /** `s.lower()` for ASCII letters: every character is lower-cased in
      place, and the length is kept. */
  function Lower(s: string): (r: string)
    ensures |r| == |s|
    ensures forall i :: 0 <= i < |s| ==> r[i] == LowerChar(s[i])
    decreases |s|
  {
    if s == [] then [] else [LowerChar(s[0])] + Lower(s[1..])
  }

  /** The characters that lower-case to an ASCII lower-case letter are that
      letter and its upper-case form. */
  lemma LowerCharIs(c: char, upper: char)
    requires 'A' <= upper <= 'Z'
    ensures LowerChar(c) == LowerChar(upper) <==> c == upper || c == LowerChar(upper)
  {
  }

  /** A string lower-cases to "yes" exactly when it is "yes" in any mix of
      upper and lower case. */
  lemma LowerIsYes(w: string)
    ensures Lower(w) == "yes" <==>
      && |w| == 3
      && (w[0] == 'y' || w[0] == 'Y')
      && (w[1] == 'e' || w[1] == 'E')
      && (w[2] == 's' || w[2] == 'S')
  {
    if |w| == 3 {
      var r := Lower(w);
      assert r == "yes" <==> r[0] == 'y' && r[1] == 'e' && r[2] == 's';
      LowerCharIs(w[0], 'Y');
      LowerCharIs(w[1], 'E');
      LowerCharIs(w[2], 'S');
    }
  }
}
