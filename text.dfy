/** The .NET string operations the content processors rely on, stated on
    `string` (= `seq<char>`): whitespace trimming, `Split(':', 2)`, ordinal
    `StartsWith`, `Replace` (all non-overlapping occurrences, left to right),
    the `&` → `&amp;` escaping used by the feed and sitemap writers, and
    `StringBuilder`, the mutable buffer the page and feed writers append to. */
module Text {
  import opened Wrappers

  /** Char.IsWhiteSpace: the characters String.Trim removes. */
  predicate IsWhiteSpace(c: char)
  {
    || ('\t' <= c <= '\r')
    || c == ' '
    || c == '\U{0085}'
    || c == '\U{00A0}'
    || c == '\U{1680}'
    || ('\U{2000}' <= c <= '\U{200A}')
    || c == '\U{2028}'
    || c == '\U{2029}'
    || c == '\U{202F}'
    || c == '\U{205F}'
    || c == '\U{3000}'
  }

  /** Ordinal String.StartsWith(prefix). */
  predicate StartsWith(s: string, prefix: string)
  {
    prefix <= s
  }

  /** How many white-space characters `s` starts with. */
  function LeadingWhiteSpace(s: string): (n: nat)
    ensures n <= |s|
    ensures forall k | 0 <= k < n :: IsWhiteSpace(s[k])
    ensures n < |s| ==> !IsWhiteSpace(s[n])
  {
    if s == [] || !IsWhiteSpace(s[0]) then 0 else 1 + LeadingWhiteSpace(s[1..])
  }

  /** Where the white space at the end of `s` begins. */
  function TrailingWhiteSpaceStart(s: string): (n: nat)
    ensures n <= |s|
    ensures forall k | n <= k < |s| :: IsWhiteSpace(s[k])
    ensures n > 0 ==> !IsWhiteSpace(s[n - 1])
  {
    if s == [] || !IsWhiteSpace(s[|s| - 1]) then |s| else TrailingWhiteSpaceStart(s[..|s| - 1])
  }

  /** String.Trim(): `s` without its leading and trailing white space. The
      result is a slice of `s`, starts and ends with a non-white-space
      character, and only white space was cut away on either side. */
  function Trim(s: string): (r: string)
    ensures var i := LeadingWhiteSpace(s);
      && i + |r| <= |s| && r == s[i..i + |r|]
      && (forall k :: 0 <= k < i ==> IsWhiteSpace(s[k]))
      && (forall k :: i + |r| <= k < |s| ==> IsWhiteSpace(s[k]))
    ensures r == [] || (!IsWhiteSpace(r[0]) && !IsWhiteSpace(r[|r| - 1]))
  {
    var i := LeadingWhiteSpace(s);
    var t := s[i..];
    var j := TrailingWhiteSpaceStart(t);
    PrefixOfSuffix(s, t, t[..j]);
    t[..j]
  }

  lemma PrefixOfSuffix(s: string, t: string, r: string)
    requires |t| <= |s| && t == s[|s| - |t|..] && |r| <= |t| && r == t[..|r|]
    ensures r == s[|s| - |t|..|s| - |t| + |r|]
    ensures forall k | |s| - |t| + |r| <= k < |s| :: s[k] == t[k - (|s| - |t|)]
  {
  }

  /** Trimming twice is the same as trimming once. */
  lemma TrimIdempotent(s: string)
    ensures Trim(Trim(s)) == Trim(s)
  {
    var r := Trim(s);
    if r != [] {
      assert LeadingWhiteSpace(r) == 0;
    }
  }

  predicate AllWhiteSpace(w: string)
  {
    forall k | 0 <= k < |w| :: IsWhiteSpace(w[k])
  }

  /** Trim removes exactly the surrounding whitespace: text with
      non-whitespace ends, padded by whitespace, comes back unpadded. */
  lemma TrimPadded(w1: string, core: string, w2: string)
    requires AllWhiteSpace(w1) && AllWhiteSpace(w2)
    requires core != [] && !IsWhiteSpace(core[0]) && !IsWhiteSpace(core[|core| - 1])
    ensures Trim(w1 + core + w2) == core
  {
    var s := w1 + core + w2;
    var r := Trim(s);
    var i := LeadingWhiteSpace(s);
    assert s[|w1|] == core[0];
    assert s[|w1| + |core| - 1] == core[|core| - 1];
    assert i == |w1|;
    assert i + |r| == |w1| + |core|;
    assert r == s[|w1|..|w1| + |core|];
  }

  /** Text without white space at either end is left as it is. */
  lemma TrimUnpadded(s: string)
    requires s != [] && !IsWhiteSpace(s[0]) && !IsWhiteSpace(s[|s| - 1])
    ensures Trim(s) == s
  {
    TrimPadded([], s, []);
    assert [] + s + [] == s;
  }

  /** A single leading space is removed. */
  lemma TrimLeadingSpace(s: string)
    requires s != [] && !IsWhiteSpace(s[0]) && !IsWhiteSpace(s[|s| - 1])
    ensures Trim(" " + s) == s
  {
    TrimPadded(" ", s, []);
    assert " " + s + [] == " " + s;
  }

  /** The index of the first `c` in `s`, if any (String.IndexOf(char)). */
  function IndexOfChar(s: string, c: char): (r: Option<nat>)
    ensures r.None? <==> c !in s
    ensures r.Some? ==> r.value < |s| && s[r.value] == c && c !in s[..r.value]
  {
    if s == [] then None
    else if s[0] == c then Some(0)
    else
      match IndexOfChar(s[1..], c)
      case None => None
      case Some(i) =>
        assert s[..i + 1] == [s[0]] + s[1..][..i];
        Some(i + 1)
  }

  /** The index of the last `c` in `s`, if any (String.LastIndexOf(char)). */
  function LastIndexOfChar(s: string, c: char): (r: Option<nat>)
    ensures r.None? <==> c !in s
    ensures r.Some? ==> r.value < |s| && s[r.value] == c && forall j | r.value < j < |s| :: s[j] != c
  {
    if s == [] then None
    else if s[|s| - 1] == c then Some(|s| - 1)
    else
      var r := LastIndexOfChar(s[..|s| - 1], c);
      assert c in s ==> c in s[..|s| - 1] by {
        if c in s {
          var j :| 0 <= j < |s| && s[j] == c;
          assert s[..|s| - 1][j] == c;
        }
      }
      r
  }

  /** String.Split(new[] { sep }, 2): one part when `sep` does not occur,
      otherwise the text before the first `sep` and everything after it
      (which may contain further separators). */
  function SplitFirst(s: string, sep: char): (parts: seq<string>)
    ensures |parts| == 1 || |parts| == 2
    ensures |parts| == 1 <==> sep !in s
    ensures |parts| == 1 ==> parts[0] == s
    ensures |parts| == 2 ==> sep !in parts[0] && parts[0] + [sep] + parts[1] == s
  {
    match IndexOfChar(s, sep)
    case None => [s]
    case Some(i) =>
      assert s[..i] + [sep] + s[i + 1..] == s;
      [s[..i], s[i + 1..]]
  }

  /** In `k + [sep] + v` with no `sep` in `k`, the first `sep` is the one after `k`. */
  lemma {:induction false} IndexOfCharAfter(k: string, sep: char, v: string)
    requires sep !in k
    ensures IndexOfChar(k + [sep] + v, sep) == Some(|k|)
  {
    if k != [] {
      IndexOfCharAfter(k[1..], sep, v);
      assert (k + [sep] + v)[1..] == k[1..] + [sep] + v;
    }
  }

  /** Splitting `k + ":" + v` at the first ':' gives back `k` and `v`
      whenever `k` itself has no ':'. */
  lemma SplitFirstOfJoin(k: string, sep: char, v: string)
    requires sep !in k
    ensures SplitFirst(k + [sep] + v, sep) == [k, v]
  {
    IndexOfCharAfter(k, sep, v);
    var s := k + [sep] + v;
    assert s[..|k|] == k && s[|k| + 1..] == v;
  }

  /** String.Replace(oldValue, newValue) and StringBuilder.Replace: every
      non-overlapping occurrence of `pat`, found scanning from the left, is
      replaced by `rep`; replaced text is not scanned again. */
  function ReplaceAll(s: string, pat: string, rep: string): string
    requires pat != []
    decreases |s|
  {
    if |s| < |pat| then s
    else if s[..|pat|] == pat then rep + ReplaceAll(s[|pat|..], pat, rep)
    else [s[0]] + ReplaceAll(s[1..], pat, rep)
  }

  /** `pat` occurs in `s` starting at index `i`. */
  predicate MatchAt(s: string, pat: string, i: int)
  {
    0 <= i && i + |pat| <= |s| && s[i..i + |pat|] == pat
  }

  /** `pat` occurs in `s` as a substring. */
  predicate Occurs(s: string, pat: string)
  {
    exists i :: 0 <= i <= |s| && MatchAt(s, pat, i)
  }

  /** Replacing a pattern that does not occur leaves the text as it was. */
  lemma {:induction false} ReplaceAllAbsent(s: string, pat: string, rep: string)
    requires pat != []
    requires !Occurs(s, pat)
    ensures ReplaceAll(s, pat, rep) == s
    decreases |s|
  {
    if |s| >= |pat| {
      assert !MatchAt(s, pat, 0);
      assert s[0..|pat|] == s[..|pat|];
      assert !Occurs(s[1..], pat) by {
        forall i | MatchAt(s[1..], pat, i)
          ensures false
        {
          assert s[1..][i..i + |pat|] == s[i + 1..i + 1 + |pat|];
          assert MatchAt(s, pat, i + 1);
        }
      }
      ReplaceAllAbsent(s[1..], pat, rep);
    }
  }

  /** Replacing by a text of the same length keeps the length; replacing by
      a longer text never shortens the string. */
  lemma {:induction false} ReplaceAllLength(s: string, pat: string, rep: string)
    requires pat != []
    ensures |pat| == |rep| ==> |ReplaceAll(s, pat, rep)| == |s|
    ensures |pat| <= |rep| ==> |s| <= |ReplaceAll(s, pat, rep)|
    decreases |s|
  {
    if |s| < |pat| {
    } else if s[..|pat|] == pat {
      ReplaceAllLength(s[|pat|..], pat, rep);
    } else {
      ReplaceAllLength(s[1..], pat, rep);
    }
  }

  /** Replacing a pattern by itself changes nothing. */
  lemma {:induction false} ReplaceAllIdentity(s: string, pat: string)
    requires pat != []
    ensures ReplaceAll(s, pat, pat) == s
    decreases |s|
  {
    if |s| >= |pat| {
      if s[..|pat|] == pat {
        ReplaceAllIdentity(s[|pat|..], pat);
        assert pat + s[|pat|..] == s;
      } else {
        ReplaceAllIdentity(s[1..], pat);
        assert [s[0]] + s[1..] == s;
      }
    }
  }

  /** Replacement is a single pass: text that begins with the pattern
      starts with the replacement, and the replacement is never rescanned,
      even when it contains the pattern itself. */
  lemma ReplaceAllLeading(pat: string, rest: string, rep: string)
    requires pat != []
    ensures ReplaceAll(pat + rest, pat, rep) == rep + ReplaceAll(rest, pat, rep)
  {
    assert (pat + rest)[..|pat|] == pat;
    assert (pat + rest)[|pat|..] == rest;
  }

  /** No occurrence of `pat` in `a + b` begins inside `a` and ends inside `b`. */
  predicate NoStraddle(a: string, b: string, pat: string)
  {
    forall i :: 0 <= i < |a| < i + |pat| ==> !MatchAt(a + b, pat, i)
  }

  /** Dropping a prefix of `a` keeps the seam free of straddling occurrences. */
  lemma NoStraddleShift(a: string, b: string, pat: string, d: nat)
    requires NoStraddle(a, b, pat) && d <= |a|
    ensures NoStraddle(a[d..], b, pat)
  {
    assert a[d..] + b == (a + b)[d..];
    forall i | 0 <= i < |a[d..]| < i + |pat|
      ensures !MatchAt(a[d..] + b, pat, i)
    {
      assert !MatchAt(a + b, pat, i + d);
      if i + |pat| <= |a[d..] + b| {
        assert (a[d..] + b)[i..i + |pat|] == (a + b)[i + d..i + d + |pat|];
      }
    }
  }

  /** The first step of `ReplaceAll(a + b)` when it starts with `pat`: the
      occurrence lies inside `a`. */
  lemma ReplaceAllMatchStep(a: string, b: string, pat: string, rep: string)
    requires pat != [] && NoStraddle(a, b, pat)
    requires a != [] && |pat| <= |a + b| && (a + b)[..|pat|] == pat
    ensures |pat| <= |a| && NoStraddle(a[|pat|..], b, pat)
    ensures ReplaceAll(a + b, pat, rep) == rep + ReplaceAll(a[|pat|..] + b, pat, rep)
    ensures ReplaceAll(a, pat, rep) == rep + ReplaceAll(a[|pat|..], pat, rep)
  {
    var s := a + b;
    assert MatchAt(s, pat, 0);
    assert |pat| <= |a|;
    assert a[..|pat|] == pat;
    assert s[|pat|..] == a[|pat|..] + b;
    NoStraddleShift(a, b, pat, |pat|);
  }

  /** The first step of `ReplaceAll(a + b)` when it does not start with
      `pat`: the first character of `a` is kept. */
  lemma ReplaceAllSkipStep(a: string, b: string, pat: string, rep: string)
    requires pat != [] && NoStraddle(a, b, pat)
    requires a != [] && !(|pat| <= |a + b| && (a + b)[..|pat|] == pat)
    ensures NoStraddle(a[1..], b, pat)
    ensures ReplaceAll(a + b, pat, rep) == [a[0]] + ReplaceAll(a[1..] + b, pat, rep)
    ensures ReplaceAll(a, pat, rep) == [a[0]] + ReplaceAll(a[1..], pat, rep)
  {
    var s := a + b;
    assert s[1..] == a[1..] + b;
    NoStraddleShift(a, b, pat, 1);
    if |a| < |pat| {
      assert ReplaceAll(a[1..], pat, rep) == a[1..];
      assert [a[0]] + a[1..] == a;
      if |s| < |pat| {
        assert ReplaceAll(s[1..], pat, rep) == s[1..];
      }
    } else {
      assert a[..|pat|] == s[..|pat|];
    }
  }

  /** Replacing over a concatenation replaces in each piece separately when
      no occurrence straddles the seam. */
  lemma {:induction false} ReplaceAllConcat(a: string, b: string, pat: string, rep: string)
    requires pat != []
    requires NoStraddle(a, b, pat)
    ensures ReplaceAll(a + b, pat, rep) == ReplaceAll(a, pat, rep) + ReplaceAll(b, pat, rep)
    decreases |a|, 1
  {
    if a == [] {
      assert a + b == b;
    } else if |pat| <= |a + b| && (a + b)[..|pat|] == pat {
      ReplaceAllConcatMatch(a, b, pat, rep);
    } else {
      ReplaceAllConcatSkip(a, b, pat, rep);
    }
  }

  /** `ReplaceAllConcat` when `a + b` starts with `pat`. */
  lemma {:induction false} ReplaceAllConcatMatch(a: string, b: string, pat: string, rep: string)
    requires pat != [] && NoStraddle(a, b, pat)
    requires a != [] && |pat| <= |a + b| && (a + b)[..|pat|] == pat
    ensures ReplaceAll(a + b, pat, rep) == ReplaceAll(a, pat, rep) + ReplaceAll(b, pat, rep)
    decreases |a|, 0
  {
    ReplaceAllMatchStep(a, b, pat, rep);
    ReplaceAllConcat(a[|pat|..], b, pat, rep);
  }

  /** `ReplaceAllConcat` when `a + b` does not start with `pat`. */
  lemma {:induction false} ReplaceAllConcatSkip(a: string, b: string, pat: string, rep: string)
    requires pat != [] && NoStraddle(a, b, pat)
    requires a != [] && !(|pat| <= |a + b| && (a + b)[..|pat|] == pat)
    ensures ReplaceAll(a + b, pat, rep) == ReplaceAll(a, pat, rep) + ReplaceAll(b, pat, rep)
    decreases |a|, 0
  {
    ReplaceAllSkipStep(a, b, pat, rep);
    ReplaceAllConcat(a[1..], b, pat, rep);
  }

  /** The minimal XML escaping both generators apply: every `&` becomes `&amp;`. */
  function EscapeAmp(s: string): string
  {
    ReplaceAll(s, "&", "&amp;")
  }

  /** The inverse reading of an escaped string: every `&amp;` becomes `&`. */
  function UnescapeAmp(s: string): string
  {
    ReplaceAll(s, "&amp;", "&")
  }

  /** Escaping one character at a time. */
  lemma EscapeAmpCons(c: char, s: string)
    ensures EscapeAmp([c] + s) == (if c == '&' then "&amp;" else [c]) + EscapeAmp(s)
  {
    var t := [c] + s;
    assert t[..1] == [c];
    assert t[1..] == s;
  }

  /** After escaping, every `&` is the start of an `&amp;` entity: no bare
      ampersand from the input survives. */
  lemma {:induction false} EscapeAmpWellFormed(s: string)
    ensures forall i :: 0 <= i < |EscapeAmp(s)| && EscapeAmp(s)[i] == '&' ==>
              i + 5 <= |EscapeAmp(s)| && EscapeAmp(s)[i..i + 5] == "&amp;"
    decreases |s|
  {
    if s != [] {
      EscapeAmpCons(s[0], s[1..]);
      EscapeAmpWellFormed(s[1..]);
      assert [s[0]] + s[1..] == s;
      var head := if s[0] == '&' then "&amp;" else [s[0]];
      var e := EscapeAmp(s);
      var e' := EscapeAmp(s[1..]);
      assert e == head + e';
      forall i | 0 <= i < |e| && e[i] == '&'
        ensures i + 5 <= |e| && e[i..i + 5] == "&amp;"
      {
        if i >= |head| {
          assert e[i] == e'[i - |head|];
          assert e[i..i + 5] == e'[i - |head|..i - |head| + 5];
        } else if s[0] == '&' {
          assert i == 0;
        }
      }
    }
  }

  /** Escaping loses nothing: unescaping gives the original text back. */
  lemma {:induction false} EscapeAmpRoundTrip(s: string)
    ensures UnescapeAmp(EscapeAmp(s)) == s
    decreases |s|
  {
    if s != [] {
      EscapeAmpCons(s[0], s[1..]);
      EscapeAmpRoundTrip(s[1..]);
      var e' := EscapeAmp(s[1..]);
      if s[0] == '&' {
        ReplaceAllLeading("&amp;", e', "&");
      } else {
        var t := [s[0]] + e';
        if |t| >= 5 {
          assert t[..5][0] == s[0];
          assert t[..5] != "&amp;";
          assert t[1..] == e';
        } else {
          assert UnescapeAmp(t) == t;
          assert UnescapeAmp(e') == e';
        }
      }
      assert [s[0]] + s[1..] == s;
    }
  }

  /** Escaping works piece by piece: a one-character pattern never straddles a seam. */
  lemma EscapeAmpConcat(a: string, b: string)
    ensures EscapeAmp(a + b) == EscapeAmp(a) + EscapeAmp(b)
  {
    ReplaceAllConcat(a, b, "&", "&amp;");
  }

  /** The texts `f` gives for each of `xs`, one after the other. */
  function ConcatMap<T>(f: T -> string, xs: seq<T>): string
  {
    if xs == [] then []
    else ConcatMap(f, xs[..|xs| - 1]) + f(xs[|xs| - 1])
  }

  /** Concatenating over two runs is concatenating over each in turn. */
  lemma {:induction false} ConcatMapAppend<T>(f: T -> string, a: seq<T>, b: seq<T>)
    ensures ConcatMap(f, a + b) == ConcatMap(f, a) + ConcatMap(f, b)
    decreases |b|
  {
    if b == [] {
      assert a + b == a;
    } else {
      assert (a + b)[..|a + b| - 1] == a + b[..|b| - 1];
      ConcatMapAppend(f, a, b[..|b| - 1]);
    }
  }

  /** One more element's text at the end. */
  lemma ConcatMapSnoc<T>(f: T -> string, xs: seq<T>, j: nat)
    requires j < |xs|
    ensures ConcatMap(f, xs[..j + 1]) == ConcatMap(f, xs[..j]) + f(xs[j])
  {
    assert xs[..j + 1][..j] == xs[..j];
  }

  /** A `ForEach` that appends the text `f` gives for each of `xs` in turn. */
  method AppendEach<T>(sb: StringBuilder, f: T -> string, xs: seq<T>)
    modifies sb
    ensures sb.content == old(sb.content) + ConcatMap(f, xs)
  {
    for j := 0 to |xs|
      invariant sb.content == old(sb.content) + ConcatMap(f, xs[..j])
    {
      sb.Append(f(xs[j]));
      ConcatMapSnoc(f, xs, j);
    }
    assert xs[..|xs|] == xs;
  }

  /** A growable text buffer (System.Text.StringBuilder). */
  class StringBuilder {
    var content: string

    constructor (init: string)
      ensures content == init
    {
      content := init;
    }

    /** StringBuilder.Append. */
    method Append(s: string)
      modifies this
      ensures content == old(content) + s
    {
      content := content + s;
    }

    /** StringBuilder.Replace(oldValue, newValue); .NET throws for an empty oldValue. */
    method Replace(oldValue: string, newValue: string)
      requires oldValue != []
      modifies this
      ensures content == ReplaceAll(old(content), oldValue, newValue)
    {
      content := ReplaceAll(content, oldValue, newValue);
    }

    function ToString(): string
      reads this
    {
      content
    }
  }
}
