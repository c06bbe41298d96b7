/** The metadata dictionary the front-matter parser fills and the template
    substitution reads. A .NET Dictionary<string, string> that is only ever
    added to enumerates its entries in insertion order, and overwriting a
    key keeps that key's place; the substitution visits entries in that
    order, so the dictionary is modelled as its entry sequence. */
module Metadata {
  import opened Wrappers
  import opened Text

  datatype Entry = Entry(key: string, value: string)

  /** A dictionary as the sequence of its entries, in enumeration order. */
  type Dict = seq<Entry>

  predicate DistinctKeys(d: Dict)
  {
    forall i, j | 0 <= i < j < |d| :: d[i].key != d[j].key
  }

  /** The dictionary's indexer read, as TryGetValue. */
  function Get(d: Dict, k: string): Option<string>
  {
    if d == [] then None
    else if d[0].key == k then Some(d[0].value)
    else Get(d[1..], k)
  }

  /** `d[k] = v`: overwrite the value in place when `k` is present, append
      a new entry otherwise. Afterwards `k` maps to `v` and every other key
      maps to what it did before. */
  function Put(d: Dict, k: string, v: string): (r: Dict)
    ensures Get(r, k) == Some(v)
    ensures forall k' | k' != k :: Get(r, k') == Get(d, k')
  {
    if d == [] then [Entry(k, v)]
    else if d[0].key == k then [Entry(k, v)] + d[1..]
    else [d[0]] + Put(d[1..], k, v)
  }

  /** Overwriting keeps every key in its place; a new key goes at the end.
      So the dictionary's enumeration order is the order in which keys were
      first added. */
  lemma {:induction false} PutOrder(d: Dict, k: string, v: string)
    ensures Get(d, k).Some? ==> |Put(d, k, v)| == |d| && forall i | 0 <= i < |d| :: Put(d, k, v)[i].key == d[i].key
    ensures Get(d, k).None? ==> Put(d, k, v) == d + [Entry(k, v)]
  {
    if d != [] && d[0].key != k {
      PutOrder(d[1..], k, v);
      assert Get(d, k).None? ==> d == [d[0]] + d[1..];
    }
  }

  /** Keys stay distinct. */
  lemma PutDistinct(d: Dict, k: string, v: string)
    requires DistinctKeys(d)
    ensures DistinctKeys(Put(d, k, v))
  {
    var r := Put(d, k, v);
    PutOrder(d, k, v);
    if Get(d, k).None? {
      forall i | 0 <= i < |d| ensures d[i].key != k {
        KeyOfEntryIsFound(d, i);
      }
    }
  }

  /** Every key stored in a dictionary can be looked up. */
  lemma {:induction false} KeyOfEntryIsFound(d: Dict, i: nat)
    requires i < |d|
    ensures Get(d, d[i].key).Some?
  {
    if i > 0 && d[0].key != d[i].key {
      KeyOfEntryIsFound(d[1..], i - 1);
    }
  }

  /** The indexer finds the first entry holding the key. */
  lemma {:induction false} GetFirstMatch(d: Dict, k: string, i: nat)
    requires i < |d| && d[i].key == k
    requires forall j | 0 <= j < i :: d[j].key != k
    ensures Get(d, k) == Some(d[i].value)
  {
    if i > 0 {
      GetFirstMatch(d[1..], k, i - 1);
    }
  }

  /** The marker a template uses for `key`: `{{key}}`. */
  function Marker(key: string): (m: string)
    ensures |m| == |key| + 4
  {
    "{{" + key + "}}"
  }

  /** The text after ReplaceTemplatesWithMetadata: for each entry in
      enumeration order, every `{{key}}` in the current text is replaced by
      the value. A later entry also sees the values put in by earlier ones. */
  function ReplaceTemplates(s: string, meta: Dict): string
    decreases |meta|
  {
    if meta == [] then s
    else ReplaceTemplates(ReplaceAll(s, Marker(meta[0].key), meta[0].value), meta[1..])
  }

  /** Substituting the entries of `m1 + m2` is substituting those of `m1`,
      then those of `m2`. */
  lemma {:induction false} ReplaceTemplatesAppend(s: string, m1: Dict, m2: Dict)
    ensures ReplaceTemplates(s, m1 + m2) == ReplaceTemplates(ReplaceTemplates(s, m1), m2)
    decreases |m1|
  {
    if m1 != [] {
      assert (m1 + m2)[1..] == m1[1..] + m2;
      ReplaceTemplatesAppend(ReplaceAll(s, Marker(m1[0].key), m1[0].value), m1[1..], m2);
    } else {
      assert m1 + m2 == m2;
    }
  }

  /** Text without a marker for any key of the dictionary comes back unchanged. */
  lemma {:induction false} ReplaceTemplatesWithoutMarkers(s: string, meta: Dict)
    requires forall i | 0 <= i < |meta| :: !Occurs(s, Marker(meta[i].key))
    ensures ReplaceTemplates(s, meta) == s
    decreases |meta|
  {
    if meta != [] {
      ReplaceAllAbsent(s, Marker(meta[0].key), meta[0].value);
      assert forall i | 0 <= i < |meta[1..]| :: meta[1..][i] == meta[i + 1];
      ReplaceTemplatesWithoutMarkers(s, meta[1..]);
    }
  }

  /** Text without curly braces: no marker can begin or end inside it. */
  predicate BraceFree(s: string)
  {
    '{' !in s && '}' !in s
  }

  /** Brace-free text holds no marker. */
  lemma NoMarkerInBraceFree(s: string, key: string)
    requires BraceFree(s)
    ensures !Occurs(s, Marker(key))
  {
    forall i | 0 <= i <= |s|
      ensures !MatchAt(s, Marker(key), i)
    {
      if i < |s| {
        assert s[i] != '{';
      }
    }
  }

  /** In brace-free text around one marker, an opening brace stands only at
      the marker's first two positions. */
  lemma OpeningBracesOfMarker(before: string, key: string, after: string, j: int)
    requires BraceFree(before) && BraceFree(key) && BraceFree(after)
    requires 0 <= j < |before + Marker(key) + after| && j != |before| && j != |before| + 1
    ensures (before + Marker(key) + after)[j] != '{'
  {
    var s := before + Marker(key) + after;
    var b := |before|;
    if j < b {
      assert s[j] == before[j];
    } else if j < b + 2 + |key| {
      assert s[j] == key[j - b - 2];
    } else if j < b + 4 + |key| {
      assert s[j] == '}';
    } else {
      assert s[j] == after[j - b - 4 - |key|];
    }
  }

  /** At the marker's own position, the marker of another key differs. */
  lemma OtherMarkerMismatch(before: string, key: string, after: string, other: string)
    requires BraceFree(key) && BraceFree(after) && other != key
    requires |before| + |Marker(other)| <= |before + Marker(key) + after|
    ensures !MatchAt(before + Marker(key) + after, Marker(other), |before|)
  {
    var s := before + Marker(key) + after;
    var m := Marker(other);
    var b := |before|;
    var w: nat;
    if |other| < |key| {
      w := 2 + |other|;
      assert s[b + w] == key[|other|] && m[w] == '}';
    } else if |other| > |key| {
      w := 3 + |other|;
      assert s[b + w] == after[w - 4 - |key|] && m[w] == '}';
    } else {
      var t :| 0 <= t < |key| && key[t] != other[t];
      w := 2 + t;
      assert s[b + w] == key[t] && m[w] == other[t];
    }
    assert s[b..b + |m|][w] == s[b + w] != m[w];
  }

  /** In brace-free text around one marker, the marker of any other key
      does not occur. */
  lemma OnlyMarker(before: string, key: string, after: string, other: string)
    requires BraceFree(before) && BraceFree(key) && BraceFree(after) && other != key
    ensures !Occurs(before + Marker(key) + after, Marker(other))
  {
    var s := before + Marker(key) + after;
    var m := Marker(other);
    var b := |before|;
    forall i | 0 <= i <= |s| && i + |m| <= |s|
      ensures !MatchAt(s, m, i)
    {
      if i == b {
        OtherMarkerMismatch(before, key, after, other);
      } else {
        var w := if i == b + 1 then 1 else 0;
        OpeningBracesOfMarker(before, key, after, i + w);
        assert s[i..i + |m|][w] == s[i + w];
      }
    }
  }

  /** A template read as literal text and markers. Rendering puts `{{key}}`
      in place of each hole. */
  datatype Segment = Lit(text: string) | Hole(key: string)

  function SegmentText(seg: Segment): string
  {
    match seg
    case Lit(t) => t
    case Hole(k) => Marker(k)
  }

  function Render(segs: seq<Segment>): string
  {
    if segs == [] then [] else SegmentText(segs[0]) + Render(segs[1..])
  }

  /** Literal text and keys without curly braces, so that the markers in a
      rendered template are exactly its holes. */
  predicate WellFormed(segs: seq<Segment>)
  {
    forall i | 0 <= i < |segs| :: match segs[i] case Lit(t) => BraceFree(t) case Hole(k) => BraceFree(k)
  }

  /** Keys and values without curly braces: no substituted value can
      complete a marker for a later entry. */
  predicate BraceFreeEntries(meta: Dict)
  {
    forall i | 0 <= i < |meta| :: BraceFree(meta[i].key) && BraceFree(meta[i].value)
  }

  /** The reference meaning of substitution: each hole whose key the
      dictionary holds becomes that key's value; other holes stay. */
  function Resolve(seg: Segment, meta: Dict): Segment
  {
    match seg
    case Lit(_) => seg
    case Hole(k) => match Get(meta, k) case Some(v) => Lit(v) case None => seg
  }

  function Fill(segs: seq<Segment>, meta: Dict): (r: seq<Segment>)
    ensures |r| == |segs|
    ensures forall i | 0 <= i < |segs| :: r[i] == Resolve(segs[i], meta)
  {
    seq(|segs|, i requires 0 <= i < |segs| => Resolve(segs[i], meta))
  }

  lemma {:induction false} RenderAppend(a: seq<Segment>, b: seq<Segment>)
    ensures Render(a + b) == Render(a) + Render(b)
    decreases |a|
  {
    if a != [] {
      assert (a + b)[1..] == a[1..] + b;
      RenderAppend(a[1..], b);
    } else {
      assert a + b == b;
    }
  }

  /** A marker of a brace-free key never starts inside a marker of another
      brace-free key and runs past its end. */
  lemma HoleNoStraddle(other: string, rest: string, key: string)
    requires BraceFree(other) && BraceFree(key)
    ensures NoStraddle(Marker(other), rest, Marker(key))
  {
    var a := Marker(other);
    var m := Marker(key);
    var s := a + rest;
    forall i | 0 <= i < |a| < i + |m| && i + |m| <= |s|
      ensures !MatchAt(s, m, i)
    {
      if i == 0 {
        var w := 2 + |other|;
        assert s[w] == '}';
        assert m[w] == key[|other|] && key[|other|] in key;
        assert s[i..i + |m|][w] == s[w];
      } else if i == 1 {
        assert s[2] != '{' by {
          if other != [] {
            assert s[2] == other[0] && other[0] in other;
          }
        }
        assert s[i..i + |m|][1] == s[2];
      } else {
        assert s[i] != '{' by {
          if i < 2 + |other| {
            assert s[i] == other[i - 2] && other[i - 2] in other;
          }
        }
        assert s[i..i + |m|][0] == s[i];
      }
    }
  }

  /** A literal without braces holds no start of a marker. */
  lemma LitNoStraddle(t: string, rest: string, key: string)
    requires BraceFree(t)
    ensures NoStraddle(t, rest, Marker(key))
  {
    forall i | 0 <= i < |t| < i + |Marker(key)| <= |t + rest|
      ensures !MatchAt(t + rest, Marker(key), i)
    {
      assert (t + rest)[i] == t[i];
      assert (t + rest)[i..i + |Marker(key)|][0] == (t + rest)[i];
    }
  }

  /** One pass of `Replace("{{key}}", value)` over a single segment. */
  lemma SegmentReplaced(seg: Segment, key: string, value: string)
    requires WellFormed([seg]) && BraceFree(key)
    ensures ReplaceAll(SegmentText(seg), Marker(key), value) == SegmentText(Resolve(seg, [Entry(key, value)]))
  {
    assert seg == [seg][0];
    match seg
    case Lit(t) =>
      NoMarkerInBraceFree(t, key);
      ReplaceAllAbsent(t, Marker(key), value);
    case Hole(k) =>
      if k == key {
        ReplaceAllLeading(Marker(key), [], value);
        assert Marker(key) + [] == Marker(key);
      } else {
        assert [Entry(key, value)][1..] == [];
        assert Get([Entry(key, value)], k) == None;
        assert [] + Marker(k) + [] == Marker(k);
        OnlyMarker([], k, [], key);
        assert !Occurs(Marker(k), Marker(key));
        ReplaceAllAbsent(Marker(k), Marker(key), value);
      }
  }

  /** One pass of `Replace("{{key}}", value)` over a well-formed template
      fills exactly the holes for `key`. */
  lemma {:induction false} ReplaceAllRender(segs: seq<Segment>, key: string, value: string)
    requires WellFormed(segs) && BraceFree(key)
    ensures ReplaceAll(Render(segs), Marker(key), value) == Render(Fill(segs, [Entry(key, value)]))
    decreases |segs|
  {
    var e := [Entry(key, value)];
    if segs == [] {
      assert Fill(segs, e) == [];
    } else {
      var head := SegmentText(segs[0]);
      var tail := segs[1..];
      match segs[0] {
        case Lit(t) => LitNoStraddle(t, Render(tail), key);
        case Hole(k) => HoleNoStraddle(k, Render(tail), key);
      }
      ReplaceAllConcat(head, Render(tail), Marker(key), value);
      assert WellFormed([segs[0]]) by {
        assert [segs[0]][0] == segs[0];
      }
      SegmentReplaced(segs[0], key, value);
      assert WellFormed(tail) by {
        assert forall i | 0 <= i < |tail| :: tail[i] == segs[i + 1];
      }
      ReplaceAllRender(tail, key, value);
      assert Fill(segs, e) == [Resolve(segs[0], e)] + Fill(tail, e);
      assert ([Resolve(segs[0], e)] + Fill(tail, e))[1..] == Fill(tail, e);
    }
  }

  /** Resolving against one entry, then against the rest, is resolving
      against the whole dictionary: the first entry for a key wins. */
  lemma FillStep(segs: seq<Segment>, meta: Dict)
    requires meta != []
    ensures Fill(Fill(segs, [meta[0]]), meta[1..]) == Fill(segs, meta)
  {
    forall i | 0 <= i < |segs|
      ensures Resolve(Resolve(segs[i], [meta[0]]), meta[1..]) == Resolve(segs[i], meta)
    {
      assert [meta[0]][1..] == [];
      match segs[i] {
        case Lit(_) =>
        case Hole(k) =>
          if meta[0].key != k {
            assert Get([meta[0]], k) == None;
            assert Get(meta, k) == Get(meta[1..], k);
          }
      }
    }
  }

  /** ReplaceTemplatesWithMetadata on a well-formed template with
      brace-free entries puts, for every marker, the value the dictionary
      holds for its key, and leaves markers of missing keys as they are,
      however many markers there are and in whatever order. */
  lemma {:induction false} ReplaceTemplatesRender(segs: seq<Segment>, meta: Dict)
    requires WellFormed(segs) && BraceFreeEntries(meta)
    ensures ReplaceTemplates(Render(segs), meta) == Render(Fill(segs, meta))
    decreases |meta|
  {
    if meta == [] {
      assert Fill(segs, meta) == segs;
    } else {
      var e := [Entry(meta[0].key, meta[0].value)];
      assert e == [meta[0]];
      ReplaceAllRender(segs, meta[0].key, meta[0].value);
      var filled := Fill(segs, e);
      assert WellFormed(filled) by {
        assert BraceFree(meta[0].value);
        forall i | 0 <= i < |filled|
          ensures match filled[i] case Lit(t) => BraceFree(t) case Hole(k) => BraceFree(k)
        {
          assert e[1..] == [];
          assert filled[i] == Resolve(segs[i], e);
          match segs[i] {
            case Lit(t) =>
            case Hole(k) =>
              if k == meta[0].key {
                assert filled[i] == Lit(meta[0].value);
              } else {
                assert Get(e, k) == None;
              }
          }
        }
      }
      assert BraceFreeEntries(meta[1..]) by {
        assert forall i | 0 <= i < |meta[1..]| :: meta[1..][i] == meta[i + 1];
      }
      ReplaceTemplatesRender(filled, meta[1..]);
      FillStep(segs, meta);
    }
  }

  /** A well-formed template followed by brace-free text: the markers of
      the template are filled and the text after it is left alone. */
  lemma ReplaceTemplatesBeforeLiteral(segs: seq<Segment>, rest: string, meta: Dict)
    requires WellFormed(segs) && BraceFree(rest) && BraceFreeEntries(meta)
    ensures ReplaceTemplates(Render(segs) + rest, meta) == Render(Fill(segs, meta)) + rest
  {
    var all := segs + [Lit(rest)];
    assert Render([Lit(rest)]) == rest by {
      assert [Lit(rest)][1..] == [];
    }
    RenderAppend(segs, [Lit(rest)]);
    assert WellFormed(all) by {
      assert forall i | 0 <= i < |segs| :: all[i] == segs[i];
      assert all[|segs|] == Lit(rest);
    }
    ReplaceTemplatesRender(all, meta);
    assert Fill(all, meta) == Fill(segs, meta) + [Lit(rest)];
    RenderAppend(Fill(segs, meta), [Lit(rest)]);
  }

  /** Two markers in brace-free text, with brace-free entries, are both
      filled with the values the dictionary holds for them. */
  lemma TwoMarkersFilled(l0: string, k1: string, l1: string, k2: string, l2: string, meta: Dict, v1: string, v2: string)
    requires BraceFree(l0) && BraceFree(k1) && BraceFree(l1) && BraceFree(k2) && BraceFree(l2)
    requires BraceFreeEntries(meta) && Get(meta, k1) == Some(v1) && Get(meta, k2) == Some(v2)
    ensures ReplaceTemplates(l0 + Marker(k1) + l1 + Marker(k2) + l2, meta) == l0 + v1 + l1 + v2 + l2
  {
    var segs := [Lit(l0), Hole(k1), Lit(l1), Hole(k2), Lit(l2)];
    assert WellFormed(segs) by {
      forall i | 0 <= i < |segs|
        ensures match segs[i] case Lit(t) => BraceFree(t) case Hole(k) => BraceFree(k)
      {
      }
    }
    RenderFive(segs);
    Associate(l0, Marker(k1), l1, Marker(k2), l2);
    ReplaceTemplatesRender(segs, meta);
    var filled := [Lit(l0), Lit(v1), Lit(l1), Lit(v2), Lit(l2)];
    assert Fill(segs, meta) == filled;
    RenderFive(filled);
    Associate(l0, v1, l1, v2, l2);
  }

  /** The text of five segments, one after the other. */
  lemma RenderFive(segs: seq<Segment>)
    requires |segs| == 5
    ensures Render(segs) == SegmentText(segs[0]) + (SegmentText(segs[1]) + (SegmentText(segs[2]) +
                            (SegmentText(segs[3]) + SegmentText(segs[4]))))
  {
    RenderSuffix(segs, 4);
    RenderSuffix(segs, 3);
    RenderSuffix(segs, 2);
    RenderSuffix(segs, 1);
    RenderSuffix(segs, 0);
    assert segs[5..] == [];
    assert segs[0..] == segs;
  }

  lemma Associate(a: string, b: string, c: string, d: string, e: string)
    ensures a + (b + (c + (d + e))) == a + b + c + d + e
  {
  }

  lemma RenderSuffix(segs: seq<Segment>, k: nat)
    requires k < |segs|
    ensures Render(segs[k..]) == SegmentText(segs[k]) + Render(segs[k + 1..])
  {
    assert segs[k..][1..] == segs[k + 1..];
  }

  /** The page of the unit test for ReplaceTemplatesWithMetadata, with any
      brace-free author and title: both markers are filled. (The last line
      of the page is written in three pieces.) */
  lemma TestPageFilled(author: string, title: string)
    requires BraceFree(author) && BraceFree(title)
    ensures ReplaceTemplates(
      "<body>\n<h1>" + Marker("title") + "</h1>\n<p>" + Marker("author") +
      ("</p>\nThe rest " + "of the page " + "goes here.\n</body>"),
      [Entry("author", author), Entry("title", title)]) ==
      "<body>\n<h1>" + title + "</h1>\n<p>" + author +
      ("</p>\nThe rest " + "of the page " + "goes here.\n</body>")
  {
    var meta := [Entry("author", author), Entry("title", title)];
    var l0, l1 := "<body>\n<h1>", "</h1>\n<p>";
    var l2 := "</p>\nThe rest " + "of the page " + "goes here.\n</body>";
    TestPageLiterals();
    assert BraceFreeEntries(meta);
    assert Get(meta, "title") == Some(title) by {
      assert meta[1..][0].key == "title";
    }
    TwoMarkersFilled(l0, "title", l1, "author", l2, meta, title, author);
  }

  lemma TestPageLiterals()
    ensures BraceFree("<body>\n<h1>") && BraceFree("</h1>\n<p>")
    ensures BraceFree("</p>\nThe rest " + "of the page " + "goes here.\n</body>")
    ensures BraceFree("title") && BraceFree("author")
  {
    TestPageHeadLiterals();
    TestPageTailLiterals();
    BraceFreeConcat("</p>\nThe rest ", "of the page ");
    BraceFreeConcat("</p>\nThe rest " + "of the page ", "goes here.\n</body>");
  }

  lemma TestPageHeadLiterals()
    ensures BraceFree("<body>\n<h1>") && BraceFree("</h1>\n<p>")
    ensures BraceFree("title") && BraceFree("author")
  {
  }

  lemma TestPageTailLiterals()
    ensures BraceFree("</p>\nThe rest ") && BraceFree("of the page ") && BraceFree("goes here.\n</body>")
  {
  }

  lemma BraceFreeConcat(a: string, b: string)
    requires BraceFree(a) && BraceFree(b)
    ensures BraceFree(a + b)
  {
  }

  /** Program.ReplaceTemplatesWithMetadata and its copy in BasicProcessors:
      rewrites the buffer in place, one dictionary entry at a time. */
  method ReplaceTemplatesWithMetadata(data: StringBuilder, meta: Dict)
    modifies data
    ensures data.content == ReplaceTemplates(old(data.content), meta)
  {
    for i := 0 to |meta|
      invariant ReplaceTemplates(data.content, meta[i..]) == ReplaceTemplates(old(data.content), meta)
    {
      assert meta[i..][1..] == meta[i + 1..];
      data.Replace(Marker(meta[i].key), meta[i].value);
    }
  }
}
