/**
  The few operations on Python `str` that the skill loader relies on:
  `strip()`, `split(sep)`, `split(sep, 1)`, `sep.join(parts)` and
  `splitlines()`, each over a fixed, simplified character set (see IsSpace
  and SplitLines).
 */
module Strings {

  /** The whitespace that `strip()` removes, restricted to ASCII: the
      characters for which `str.isspace` holds, that is space, tab, line
      feed, vertical tab, form feed, carriage return and the four
      separators `\x1c` to `\x1f`. */
  predicate IsSpace(c: char) {
    c == ' ' || ('\t' <= c <= '\r') || ('\U{001C}' <= c <= '\U{001F}')
  }

  predicate AllSpace(s: string) {
    forall i :: 0 <= i < |s| ==> IsSpace(s[i])
  }

  /** Neither end of `s` is whitespace: `s.strip() == s`. */
  predicate IsTrimmed(s: string) {
    s == [] || (!IsSpace(s[0]) && !IsSpace(s[|s| - 1]))
  }

  /** Concatenation is associative (stated for the solver's benefit). */
  lemma {:induction false} AppendAssoc<T>(a: seq<T>, b: seq<T>, c: seq<T>)
    ensures (a + b) + c == a + (b + c)
  {
  }

  /** What is absent from `a + b` is absent from both parts. */
  lemma {:induction false} NotInConcat<T>(a: seq<T>, b: seq<T>, x: T)
    requires x !in a + b
    ensures x !in a && x !in b
  {
  }

  /** `b` ends `a + b`. */
  lemma {:induction false} SuffixOfConcat<T>(a: seq<T>, b: seq<T>)
    ensures (a + b)[|a|..] == b && (a + b)[|a + b| - |b|..] == b
  {
  }

  /** A character absent from every line of `a` and of `b` is absent from
      every line of `a + b`. */
  lemma {:induction false} KeepsOutConcat(a: seq<string>, b: seq<string>, c: char)
    requires forall i :: 0 <= i < |a| ==> c !in a[i]
    requires forall i :: 0 <= i < |b| ==> c !in b[i]
    ensures forall i :: 0 <= i < |a + b| ==> c !in (a + b)[i]
  {
    forall i | 0 <= i < |a + b| ensures c !in (a + b)[i] {
      if i >= |a| {
        assert (a + b)[i] == b[i - |a|];
      }
    }
  }

  // ---------------------------------------------------------------- strip

  function TrimStart(s: string): (r: string)
    ensures |r| <= |s|
    ensures r == [] || !IsSpace(r[0])
  {
    if s != [] && IsSpace(s[0]) then TrimStart(s[1..]) else s
  }

  function TrimEnd(s: string): (r: string)
    ensures |r| <= |s|
    ensures r == [] || !IsSpace(r[|r| - 1])
  {
    if s != [] && IsSpace(s[|s| - 1]) then TrimEnd(s[..|s| - 1]) else s
  }

  /** TrimStart drops a blank prefix and keeps the rest. */
  lemma {:induction false} TrimStartSlice(s: string)
    ensures TrimStart(s) == s[|s| - |TrimStart(s)|..] && AllSpace(s[..|s| - |TrimStart(s)|])
  {
    if s != [] && IsSpace(s[0]) {
      TrimStartSlice(s[1..]);
    }
  }

  /** TrimEnd drops a blank suffix and keeps the rest. */
  lemma {:induction false} TrimEndSlice(s: string)
    ensures TrimEnd(s) == s[..|TrimEnd(s)|] && AllSpace(s[|TrimEnd(s)|..])
  {
    if s != [] && IsSpace(s[|s| - 1]) {
      TrimEndSlice(s[..|s| - 1]);
    }
  }

  /** Python's `s.strip()`. */
  function Trim(s: string): (r: string)
    ensures IsTrimmed(r)
  {
    TrimEndSlice(TrimStart(s));
    TrimEnd(TrimStart(s))
  }

  /** Trim removes exactly the whitespace at both ends: what it keeps is a
      contiguous slice of `s` and everything cut off is whitespace. */
  lemma {:induction false} TrimSlice(s: string)
    ensures exists i, j :: 0 <= i <= j <= |s| && Trim(s) == s[i..j] && AllSpace(s[..i]) && AllSpace(s[j..])
  {
    var t := TrimStart(s);
    TrimStartSlice(s);
    TrimEndSlice(t);
    var i := |s| - |t|;
    var j := i + |Trim(s)|;
    assert Trim(s) == t[..|Trim(s)|];
    assert t[|Trim(s)|..] == s[j..];
    assert Trim(s) == s[i..j];
  }

  /** A blank string strips to nothing, and only a blank one does. */
  lemma {:induction false} TrimEmptyIff(s: string)
    ensures Trim(s) == [] <==> AllSpace(s)
  {
    TrimSlice(s);
  }

  lemma {:induction false} TrimOfTrimmed(s: string)
    requires IsTrimmed(s)
    ensures Trim(s) == s
  {
  }

  /** `strip()` is idempotent. */
  lemma {:induction false} TrimIdempotent(s: string)
    ensures Trim(Trim(s)) == Trim(s)
  {
    TrimOfTrimmed(Trim(s));
  }

  /** Stripping never introduces a character. */
  lemma {:induction false} TrimKeepsOut(s: string, c: char)
    requires c !in s
    ensures c !in Trim(s)
  {
    TrimSlice(s);
  }

  lemma {:induction false} TrimStartPrefixSpaces(a: string, s: string)
    requires AllSpace(a)
    ensures TrimStart(a + s) == TrimStart(s)
  {
    if a != [] {
      assert (a + s)[1..] == a[1..] + s;
      TrimStartPrefixSpaces(a[1..], s);
    } else {
      assert a + s == s;
    }
  }

  lemma {:induction false} TrimEndSuffixSpaces(s: string, b: string)
    requires AllSpace(b)
    ensures TrimEnd(s + b) == TrimEnd(s)
  {
    if b != [] {
      assert (s + b)[..|s + b| - 1] == s + b[..|b| - 1];
      TrimEndSuffixSpaces(s, b[..|b| - 1]);
    } else {
      assert s + b == s;
    }
  }

  lemma {:induction false} TrimStartAppend(s: string, b: string)
    requires !AllSpace(s)
    ensures TrimStart(s + b) == TrimStart(s) + b
  {
    assert s != [];
    if IsSpace(s[0]) {
      assert (s + b)[1..] == s[1..] + b;
      TrimStartAppend(s[1..], b);
    }
  }

  /** Leading whitespace does not change what `strip()` keeps. */
  lemma {:induction false} TrimPrependSpaces(a: string, s: string)
    requires AllSpace(a)
    ensures Trim(a + s) == Trim(s)
  {
    TrimStartPrefixSpaces(a, s);
  }

  /** Trailing whitespace does not change what `strip()` keeps. */
  lemma {:induction false} TrimAppendSpaces(s: string, b: string)
    requires AllSpace(b)
    ensures Trim(s + b) == Trim(s)
  {
    if AllSpace(s) {
      TrimEmptyIff(s);
      TrimEmptyIff(s + b);
    } else {
      TrimStartAppend(s, b);
      TrimEndSuffixSpaces(TrimStart(s), b);
    }
  }

  // ---------------------------------------------------------------- find

  /** The position of the first `c` in `s`, as `s.index(c)`. */
  function IndexOf(s: string, c: char): (i: nat)
    requires c in s
    ensures i < |s| && s[i] == c && c !in s[..i]
  {
    if s[0] == c then 0 else 1 + IndexOf(s[1..], c)
  }

  /** The first occurrence is the only position with no `c` before it. */
  lemma {:induction false} IndexOfUnique(s: string, c: char, i: nat)
    requires i < |s| && s[i] == c && c !in s[..i]
    ensures IndexOf(s, c) == i
  {
    if i > 0 {
      assert s[0] == s[..i][0];
      assert s[1..][..i - 1] == s[..i][1..];
      IndexOfUnique(s[1..], c, i - 1);
    }
  }

  // ---------------------------------------------------------------- join

  /** Python's `sep.join(parts)`. */
  function Join(sep: string, parts: seq<string>): string
  {
    if |parts| == 0 then ""
    else if |parts| == 1 then parts[0]
    else parts[0] + sep + Join(sep, parts[1..])
  }

  /** The joined text begins with the first part. */
  lemma {:induction false} JoinStartsWith(sep: string, parts: seq<string>)
    requires parts != []
    ensures |parts[0]| <= |Join(sep, parts)| && Join(sep, parts)[..|parts[0]|] == parts[0]
  {
  }

  /** The joined text ends with the last part. */
  lemma {:induction false} JoinEndsWith(sep: string, parts: seq<string>)
    requires parts != []
    ensures var last := parts[|parts| - 1]; var j := Join(sep, parts);
      |last| <= |j| && j[|j| - |last|..] == last
  {
    if |parts| > 1 {
      JoinEndsWith(sep, parts[1..]);
      var j' := Join(sep, parts[1..]);
      assert Join(sep, parts) == parts[0] + sep + j';
      assert (parts[0] + sep + j')[|parts[0] + sep + j'| - |j'|..] == j';
    }
  }

  /** A character in none of the parts or the separator is not in the result. */
  lemma {:induction false} JoinKeepsOut(sep: string, parts: seq<string>, c: char)
    requires c !in sep
    requires forall i :: 0 <= i < |parts| ==> c !in parts[i]
    ensures c !in Join(sep, parts)
  {
    if |parts| > 1 {
      JoinKeepsOut(sep, parts[1..], c);
    }
  }

  /** Joining trimmed, non-empty parts gives a trimmed text. */
  lemma {:induction false} JoinTrimmed(sep: string, parts: seq<string>)
    requires forall i :: 0 <= i < |parts| ==> parts[i] != [] && IsTrimmed(parts[i])
    ensures IsTrimmed(Join(sep, parts))
  {
    if parts != [] {
      JoinStartsWith(sep, parts);
      JoinEndsWith(sep, parts);
      var j := Join(sep, parts);
      var last := parts[|parts| - 1];
      assert j[0] == parts[0][0];
      assert j[|j| - 1] == j[|j| - |last|..][|last| - 1];
    }
  }

  // ---------------------------------------------------------------- split

  /** Python's `s.split(c)` for a one-character separator: the pieces
      between the occurrences of `c`, at least one piece. */
  function Split(s: string, c: char): (r: seq<string>)
    ensures |r| >= 1
    ensures forall i :: 0 <= i < |r| ==> c !in r[i]
    ensures Join([c], r) == s
    decreases |s|
  {
    if c !in s then [s]
    else
      var i := IndexOf(s, c);
      assert s == s[..i] + [c] + s[i + 1..];
      [s[..i]] + Split(s[i + 1..], c)
  }

  lemma {:induction false} SplitNoSep(s: string, c: char)
    requires c !in s
    ensures Split(s, c) == [s]
  {
  }

  /** Splitting distributes over an occurrence of the separator. */
  lemma {:induction false} SplitConcat(a: string, b: string, c: char)
    ensures Split(a + [c] + b, c) == Split(a, c) + Split(b, c)
    decreases |a|
  {
    var s := a + [c] + b;
    if c !in a {
      assert s[..|a|] == a && s[|a|] == c;
      IndexOfUnique(s, c, |a|);
      assert s[|a| + 1..] == b;
    } else {
      var i := IndexOf(a, c);
      assert s[..i] == a[..i];
      IndexOfUnique(s, c, i);
      assert s[i + 1..] == a[i + 1..] + [c] + b;
      SplitConcat(a[i + 1..], b, c);
      assert Split(s, c) == [a[..i]] + Split(a[i + 1..] + [c] + b, c);
      assert Split(a, c) == [a[..i]] + Split(a[i + 1..], c);
      AppendAssoc([a[..i]], Split(a[i + 1..], c), Split(b, c));
    }
  }

  /** `split` undoes `join` with the same one-character separator. */
  lemma {:induction false} SplitJoin(parts: seq<string>, c: char)
    requires parts != []
    requires forall i :: 0 <= i < |parts| ==> c !in parts[i]
    ensures Split(Join([c], parts), c) == parts
  {
    if |parts| == 1 {
      SplitNoSep(parts[0], c);
    } else {
      SplitJoin(parts[1..], c);
      SplitConcat(parts[0], Join([c], parts[1..]), c);
      SplitNoSep(parts[0], c);
    }
  }

  /** A character missing from `s` is missing from every piece. */
  lemma {:induction false} SplitKeepsOut(s: string, c: char, d: char)
    requires d !in s
    ensures forall i :: 0 <= i < |Split(s, c)| ==> d !in Split(s, c)[i]
    decreases |s|
  {
    if c in s {
      var i := IndexOf(s, c);
      SplitKeepsOut(s[i + 1..], c, d);
    }
  }

  /** The pieces of a blank text are blank. */
  lemma {:induction false} SplitAllSpace(s: string, c: char)
    requires AllSpace(s)
    ensures forall i :: 0 <= i < |Split(s, c)| ==> AllSpace(Split(s, c)[i])
    decreases |s|
  {
    if c in s {
      var i := IndexOf(s, c);
      SplitAllSpace(s[i + 1..], c);
    }
  }

  /** A text that does not end in the separator has a non-empty last piece. */
  lemma {:induction false} SplitLastNonEmpty(s: string, c: char)
    requires s != [] && s[|s| - 1] != c
    ensures Split(s, c)[|Split(s, c)| - 1] != []
    decreases |s|
  {
    if c in s {
      var i := IndexOf(s, c);
      assert i + 1 < |s|;
      assert s[i + 1..][|s[i + 1..]| - 1] == s[|s| - 1];
      SplitLastNonEmpty(s[i + 1..], c);
    }
  }

  // ---------------------------------------------------------------- splitlines

  /** Python's `s.splitlines()` with `'\n'` as the only line boundary: an
      empty text has no lines, and a final newline does not open an empty
      last line. */
  function SplitLines(s: string): (r: seq<string>)
    ensures forall i :: 0 <= i < |r| ==> '\n' !in r[i]
    ensures r == [] <==> s == []
    ensures s != [] ==> Join("\n", r) + (if s[|s| - 1] == '\n' then "\n" else "") == s
  {
    if s == [] then []
    else
      var pieces := Split(s, '\n');
      if s[|s| - 1] == '\n' then
        SplitDropLast(s);
        pieces[..|pieces| - 1]
      else pieces
  }

  lemma {:induction false} SplitDropLast(s: string)
    requires s != [] && s[|s| - 1] == '\n'
    ensures var p := Split(s, '\n'); |p| >= 2 && p[|p| - 1] == [] && Join("\n", p[..|p| - 1]) + "\n" == s
  {
    var t := s[..|s| - 1];
    assert s == t + ['\n'] + [];
    SplitConcat(t, [], '\n');
    var p := Split(s, '\n');
    assert p == Split(t, '\n') + [[]];
    assert p[..|p| - 1] == Split(t, '\n');
  }

  /** The first line of a text is the text before its first newline. */
  lemma {:induction false} SplitLinesFirst(first: string, rest: string)
    requires '\n' !in first
    ensures SplitLines(first + "\n" + rest) != [] && SplitLines(first + "\n" + rest)[0] == first
  {
    var s := first + "\n" + rest;
    assert s == first + ['\n'] + rest;
    SplitConcat(first, rest, '\n');
    SplitNoSep(first, '\n');
  }

  /** Joining lines with `'\n'` and splitting them again gives the lines back,
      provided no line holds a newline and the last one is not empty. */
  lemma {:induction false} SplitLinesJoin(lines: seq<string>)
    requires forall i :: 0 <= i < |lines| ==> '\n' !in lines[i]
    requires lines == [] || lines[|lines| - 1] != []
    ensures SplitLines(Join("\n", lines)) == lines
  {
    if lines != [] {
      var s := Join("\n", lines);
      var last := lines[|lines| - 1];
      JoinEndsWith("\n", lines);
      assert s[|s| - 1] == s[|s| - |last|..][|last| - 1];
      assert s[|s| - 1] == last[|last| - 1];
      assert last[|last| - 1] in last;
      SplitJoin(lines, '\n');
    }
  }
}
