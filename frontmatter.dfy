/** The tolerant front-matter reader shared by the Markdown processors
    (Program.ParseYAML, which also returns the text after the block, and
    BasicProcessors.ParseYAML, which returns only the metadata), together
    with the StringReader cursor it runs on and the line splitting that
    File.ReadAllLines uses as well. */
module FrontMatter {
  import opened Wrappers
  import opened Text
  import opened Metadata

  // ---------------------------------------------------------------------------
  // Lines, as StringReader.ReadLine cuts them: a line ends at '\r', '\n' or
  // "\r\n", the break is not part of the line, and there is no empty line
  // after a final break.

  predicate IsLineBreak(c: char)
  {
    c == '\r' || c == '\n'
  }

  /** Where the first line of `s` ends. */
  function LineEnd(s: string): (k: nat)
    ensures k <= |s|
    ensures forall i | 0 <= i < k :: !IsLineBreak(s[i])
    ensures k < |s| ==> IsLineBreak(s[k])
  {
    if s == [] || IsLineBreak(s[0]) then 0 else 1 + LineEnd(s[1..])
  }

  /** How many characters the break after the first line takes (2 for "\r\n"). */
  function BreakLength(s: string): nat
  {
    var k := LineEnd(s);
    if k + 1 < |s| && s[k] == '\r' && s[k + 1] == '\n' then 2
    else if k < |s| then 1
    else 0
  }

  /** The first line of `s`, without its break. */
  function FirstLine(s: string): string
  {
    s[..LineEnd(s)]
  }

  /** What is left of `s` once its first line and that line's break are read. */
  function AfterFirstLine(s: string): (r: string)
    requires s != []
    ensures |r| < |s|
  {
    s[LineEnd(s) + BreakLength(s)..]
  }

  /** A single line without break characters. */
  predicate IsPlainLine(l: string)
  {
    forall i | 0 <= i < |l| :: !IsLineBreak(l[i])
  }

  /** Reading a line from `l + "\n" + rest` yields `l` and leaves `rest`. */
  lemma ReadLineOf(l: string, rest: string)
    requires IsPlainLine(l)
    ensures var s := l + "\n" + rest;
      FirstLine(s) == l && AfterFirstLine(s) == rest
  {
    var s := l + "\n" + rest;
    LineEndAt(s, |l|);
    assert s[..|l|] == l;
    assert s[|l| + 1..] == rest;
  }

  /** Reading a line from a text that is one line without a break leaves nothing. */
  lemma ReadLastLine(l: string)
    requires l != [] && IsPlainLine(l)
    ensures FirstLine(l) == l && AfterFirstLine(l) == []
  {
    LineEndAt(l, |l|);
  }

  /** The first line ends at the first break character. */
  lemma {:induction false} LineEndAt(s: string, k: nat)
    requires k <= |s|
    requires forall i | 0 <= i < k :: !IsLineBreak(s[i])
    requires k < |s| ==> IsLineBreak(s[k])
    ensures LineEnd(s) == k
  {
    if k > 0 {
      LineEndAt(s[1..], k - 1);
    }
  }

  /** The lines of `s`, in order: what successive ReadLine calls return
      before the first null, and what File.ReadAllLines returns. */
  function Lines(s: string): seq<string>
    decreases |s|
  {
    if s == [] then [] else [FirstLine(s)] + Lines(AfterFirstLine(s))
  }

  /** The text of `ls`, each line followed by "\n". */
  function JoinLines(ls: seq<string>): string
  {
    if ls == [] then [] else ls[0] + "\n" + JoinLines(ls[1..])
  }

  /** Splitting joined lines gives the lines back. */
  lemma {:induction false} LinesOfJoinLines(ls: seq<string>)
    requires forall i | 0 <= i < |ls| :: IsPlainLine(ls[i])
    ensures Lines(JoinLines(ls)) == ls
  {
    if ls != [] {
      ReadLineOf(ls[0], JoinLines(ls[1..]));
      assert ls[0] + "\n" + JoinLines(ls[1..]) == JoinLines(ls);
      LinesOfJoinLines(ls[1..]);
    }
  }

  /** System.IO.StringReader: a cursor over a fixed text. */
  class StringReader {
    const text: string
    var pos: nat

    ghost predicate Valid()
      reads this
    {
      pos <= |text|
    }

    /** The text not read yet. */
    function Remaining(): string
      reads this
      requires Valid()
    {
      text[pos..]
    }

    constructor (s: string)
      ensures text == s && pos == 0 && Valid()
    {
      text := s;
      pos := 0;
    }

    /** StringReader.ReadLine: the next line, or None (C#'s null) at the end. */
    method ReadLine() returns (line: Option<string>)
      requires Valid()
      modifies this
      ensures Valid()
      ensures old(Remaining()) == [] ==> line.None? && Remaining() == []
      ensures old(Remaining()) != [] ==>
                line == Some(FirstLine(old(Remaining()))) && Remaining() == AfterFirstLine(old(Remaining()))
    {
      if pos == |text| {
        line := None;
        return;
      }
      var end := pos;
      while end < |text| && !IsLineBreak(text[end])
        invariant pos <= end <= |text|
        invariant forall i | pos <= i < end :: !IsLineBreak(text[i])
      {
        end := end + 1;
      }
      ghost var rest := text[pos..];
      LineEndAt(rest, end - pos);
      assert rest[..end - pos] == text[pos..end];
      line := Some(text[pos..end]);
      if end < |text| && text[end] == '\r' && end + 1 < |text| && text[end + 1] == '\n' {
        pos := end + 2;
      } else if end < |text| {
        pos := end + 1;
      } else {
        pos := end;
      }
    }

    /** StringReader.ReadToEnd: everything not read yet. */
    method ReadToEnd() returns (rest: string)
      requires Valid()
      modifies this
      ensures Valid() && rest == old(Remaining()) && Remaining() == []
    {
      rest := text[pos..];
      pos := |text|;
    }
  }

  // ---------------------------------------------------------------------------
  // The block grammar.

  const Opener: string := "---"

  /** A line that closes the block. */
  predicate IsTerminator(line: string)
  {
    line == "---" || line == "..."
  }

  /** The key/value a block line sets: it is split at its first ':', both
      halves are trimmed, and a line without ':' or with a key starting with
      '#' sets nothing. */
  function LineSetting(line: string): Option<Entry>
  {
    var parts := SplitFirst(line, ':');
    if |parts| == 2 && !StartsWith(Trim(parts[0]), "#") then Some(Entry(Trim(parts[0]), Trim(parts[1])))
    else None
  }

  /** The dictionary after one block line. */
  function ApplyLine(meta: Dict, line: string): Dict
  {
    match LineSetting(line)
    case Some(e) => Put(meta, e.key, e.value)
    case None => meta
  }

  /** The dictionary after a sequence of block lines, first to last. */
  function ApplyLines(meta: Dict, ls: seq<string>): Dict
    decreases |ls|
  {
    if ls == [] then meta else ApplyLines(ApplyLine(meta, ls[0]), ls[1..])
  }

  /** The seeded dictionary: author, title, subtitle, date, copyright. */
  function Defaults(author: string, title: string, date: string, copyright: string): Dict
  {
    [Entry("author", author), Entry("title", title), Entry("subtitle", ""),
     Entry("date", date), Entry("copyright", copyright)]
  }

  /** Each well-known key starts with its default. */
  lemma DefaultsValues(author: string, title: string, date: string, copyright: string)
    ensures var d := Defaults(author, title, date, copyright);
      && Get(d, "author") == Some(author) && Get(d, "title") == Some(title) && Get(d, "subtitle") == Some("")
      && Get(d, "date") == Some(date) && Get(d, "copyright") == Some(copyright)
  {
    var d := Defaults(author, title, date, copyright);
    GetFirstMatch(d, "author", 0);
    GetFirstMatch(d, "title", 1);
    GetFirstMatch(d, "subtitle", 2);
    GetFirstMatch(d, "date", 3);
    GetFirstMatch(d, "copyright", 4);
  }

  /** The reader loop inside the block: `rest` is the unread text. It stops
      after a terminator line (leaving the text after it) or at the end of
      input (leaving nothing). */
  function ScanBlock(rest: string, meta: Dict): (string, Dict)
    decreases |rest|
  {
    if rest == [] then ([], meta)
    else if IsTerminator(FirstLine(rest)) then (AfterFirstLine(rest), meta)
    else ScanBlock(AfterFirstLine(rest), ApplyLine(meta, FirstLine(rest)))
  }

  /** The pair ParseYAML returns (text after the last consumed line,
      metadata). The first line is always consumed; the block exists only
      when that line is exactly "---". */
  function Parse(input: string, defaults: Dict): (string, Dict)
  {
    if input == [] then ([], defaults)
    else if FirstLine(input) == Opener then ScanBlock(AfterFirstLine(input), defaults)
    else (AfterFirstLine(input), defaults)
  }

  /** Program.ParseYAML. The C# loop condition
      `yamlExists && (yamlExists = (line = rdr.ReadLine()) != null && …)`
      is unfolded into the loop body. */
  method ParseYAML(input: string, defaultAuthor: string, defaultTitle: string, today: string, year: string)
    returns (output: string, meta: Dict)
    ensures (output, meta) == Parse(input, Defaults(defaultAuthor, defaultTitle, today, year))
  {
    ghost var target := Parse(input, Defaults(defaultAuthor, defaultTitle, today, year));
    meta := Defaults(defaultAuthor, defaultTitle, today, year);
    output := "";
    var rdr := new StringReader(input);
    var line := rdr.ReadLine();
    var yamlExists := line.Some? && line.value != "" && line.value == Opener;
    while yamlExists
      invariant rdr.Valid() && rdr.text == input
      invariant yamlExists ==> ScanBlock(rdr.Remaining(), meta) == target
      invariant !yamlExists ==> (rdr.Remaining(), meta) == target
      decreases |rdr.Remaining()|, yamlExists
    {
      line := rdr.ReadLine();
      yamlExists := line.Some? && line.value != "---" && line.value != "...";
      if yamlExists {
        var parts := SplitFirst(line.value, ':');
        if |parts| == 2 && !StartsWith(Trim(parts[0]), "#") {
          meta := Put(meta, Trim(parts[0]), Trim(parts[1]));
        }
      }
    }
    output := rdr.ReadToEnd();
  }

  // ---------------------------------------------------------------------------
  // What the parser promises.

  /** The lines a reader takes as the block: those after the opener up to,
      not including, the first terminator. */
  function TakeUntilTerminator(ls: seq<string>): seq<string>
  {
    if ls == [] || IsTerminator(ls[0]) then [] else [ls[0]] + TakeUntilTerminator(ls[1..])
  }

  /** The block lines of a text: none unless its first line is the opener. */
  function BlockLines(input: string): seq<string>
  {
    var ls := Lines(input);
    if ls != [] && ls[0] == Opener then TakeUntilTerminator(ls[1..]) else []
  }

  /** The value the last block line setting `k` gives it, if any line does. */
  function LastSetting(ls: seq<string>, k: string): Option<string>
  {
    if ls == [] then None
    else match LastSetting(ls[1..], k)
      case Some(v) => Some(v)
      case None =>
        match LineSetting(ls[0])
        case Some(e) => if e.key == k then Some(e.value) else None
        case None => None
  }

  lemma {:induction false} ScanBlockAppliesLines(rest: string, meta: Dict)
    ensures ScanBlock(rest, meta).1 == ApplyLines(meta, TakeUntilTerminator(Lines(rest)))
    decreases |rest|
  {
    if rest != [] && !IsTerminator(FirstLine(rest)) {
      ScanBlockAppliesLines(AfterFirstLine(rest), ApplyLine(meta, FirstLine(rest)));
    }
  }

  /** The cursor-driven parser reads exactly the block lines, in order. */
  lemma ParseAppliesBlockLines(input: string, defaults: Dict)
    ensures Parse(input, defaults).1 == ApplyLines(defaults, BlockLines(input))
  {
    if input != [] && FirstLine(input) == Opener {
      ScanBlockAppliesLines(AfterFirstLine(input), defaults);
    }
  }

  /** A key ends with the value of the last block line that sets it; a key
      no block line sets keeps what the dictionary had. */
  lemma {:induction false} LastSettingWins(meta: Dict, ls: seq<string>, k: string)
    ensures Get(ApplyLines(meta, ls), k) ==
              if LastSetting(ls, k).Some? then LastSetting(ls, k) else Get(meta, k)
    decreases |ls|
  {
    if ls != [] {
      LastSettingWins(ApplyLine(meta, ls[0]), ls[1..], k);
    }
  }

  /** Keys are never removed by block lines. */
  lemma {:induction false} ApplyLinesKeepsKeys(meta: Dict, ls: seq<string>, k: string)
    requires Get(meta, k).Some?
    ensures Get(ApplyLines(meta, ls), k).Some?
    decreases |ls|
  {
    if ls != [] {
      ApplyLinesKeepsKeys(ApplyLine(meta, ls[0]), ls[1..], k);
    }
  }

  /** The result always holds author, title, subtitle, date and copyright,
      whatever the input. */
  lemma DefaultsSurvive(input: string, author: string, title: string, date: string, copyright: string)
    ensures var meta := Parse(input, Defaults(author, title, date, copyright)).1;
      && Get(meta, "author").Some? && Get(meta, "title").Some? && Get(meta, "subtitle").Some?
      && Get(meta, "date").Some? && Get(meta, "copyright").Some?
  {
    var d := Defaults(author, title, date, copyright);
    ParseAppliesBlockLines(input, d);
    var ls := BlockLines(input);
    DefaultsValues(author, title, date, copyright);
    ApplyLinesKeepsKeys(d, ls, "author");
    ApplyLinesKeepsKeys(d, ls, "title");
    ApplyLinesKeepsKeys(d, ls, "subtitle");
    ApplyLinesKeepsKeys(d, ls, "date");
    ApplyLinesKeepsKeys(d, ls, "copyright");
  }

  /** A key the block sets takes the value of its last setting line; a key
      the block does not set keeps its default. */
  lemma BlockSettingsWin(input: string, defaults: Dict, k: string)
    ensures Get(Parse(input, defaults).1, k) ==
              if LastSetting(BlockLines(input), k).Some? then LastSetting(BlockLines(input), k)
              else Get(defaults, k)
  {
    ParseAppliesBlockLines(input, defaults);
    LastSettingWins(defaults, BlockLines(input), k);
  }

  /** A text whose first line is not the opener has no front matter: the
      dictionary is the defaults and the remainder is everything after the
      first line. */
  lemma WithoutOpener(first: string, rest: string, defaults: Dict)
    requires IsPlainLine(first) && first != Opener
    ensures Parse(first + "\n" + rest, defaults) == (rest, defaults)
  {
    ReadLineOf(first, rest);
  }

  lemma {:induction false} ScanBlockOfJoin(ls: seq<string>, tail: string, meta: Dict)
    requires forall i | 0 <= i < |ls| :: IsPlainLine(ls[i]) && !IsTerminator(ls[i])
    ensures tail != [] && IsTerminator(FirstLine(tail)) ==>
              ScanBlock(JoinLines(ls) + tail, meta) == (AfterFirstLine(tail), ApplyLines(meta, ls))
    ensures tail == [] ==> ScanBlock(JoinLines(ls) + tail, meta) == ([], ApplyLines(meta, ls))
  {
    if ls != [] {
      var rest := JoinLines(ls[1..]) + tail;
      assert JoinLines(ls) + tail == ls[0] + "\n" + rest;
      ReadLineOf(ls[0], rest);
      ScanBlockOfJoin(ls[1..], tail, ApplyLine(meta, ls[0]));
    } else {
      assert JoinLines(ls) + tail == tail;
    }
  }

  /** A closed block: after "---", block lines and a terminator ("---" or
      "..."), the metadata is the defaults updated by the block lines and the
      remainder is exactly the text after the terminator line, whatever it
      holds; so nothing after the terminator can change the metadata. */
  lemma ClosedBlock(ls: seq<string>, terminator: string, body: string, defaults: Dict)
    requires forall i | 0 <= i < |ls| :: IsPlainLine(ls[i]) && !IsTerminator(ls[i])
    requires IsTerminator(terminator)
    ensures Parse(Opener + "\n" + JoinLines(ls) + terminator + "\n" + body, defaults)
              == (body, ApplyLines(defaults, ls))
  {
    var tail := terminator + "\n" + body;
    ReadLineOf(terminator, body);
    ScanBlockOfJoin(ls, tail, defaults);
    OpenedBlock(JoinLines(ls) + tail, defaults);
    SameInput(JoinLines(ls), terminator, body);
  }

  /** The block scan only consumes: what it leaves is a suffix of its input. */
  lemma {:induction false} ScanBlockRemainder(rest: string, meta: Dict)
    ensures |ScanBlock(rest, meta).0| <= |rest|
    ensures ScanBlock(rest, meta).0 == rest[|rest| - |ScanBlock(rest, meta).0|..]
    decreases |rest|
  {
    if rest != [] && !IsTerminator(FirstLine(rest)) {
      var after := AfterFirstLine(rest);
      ScanBlockRemainder(after, ApplyLine(meta, FirstLine(rest)));
      assert after == rest[|rest| - |after|..];
    }
  }

  /** ParseYAML's output is the unread tail of its input. */
  lemma ParseRemainder(input: string, defaults: Dict)
    ensures |Parse(input, defaults).0| <= |input|
    ensures Parse(input, defaults).0 == input[|input| - |Parse(input, defaults).0|..]
  {
    if input != [] {
      var after := AfterFirstLine(input);
      assert after == input[|input| - |after|..];
      if FirstLine(input) == Opener {
        ScanBlockRemainder(after, defaults);
      }
    }
  }

  /** After an opener line the rest of the input is scanned as a block. */
  lemma OpenedBlock(rest: string, defaults: Dict)
    ensures Parse(Opener + "\n" + rest, defaults) == ScanBlock(rest, defaults)
  {
    assert IsPlainLine(Opener);
    ReadLineOf(Opener, rest);
  }

  lemma SameInput(joined: string, terminator: string, body: string)
    ensures Opener + "\n" + (joined + (terminator + "\n" + body))
         == Opener + "\n" + joined + terminator + "\n" + body
  {
  }

  /** An unterminated block runs to the end of the input: every line after
      the opener is a block line and the remainder is empty. */
  lemma UnterminatedBlock(ls: seq<string>, defaults: Dict)
    requires forall i | 0 <= i < |ls| :: IsPlainLine(ls[i]) && !IsTerminator(ls[i])
    ensures Parse(Opener + "\n" + JoinLines(ls), defaults) == ([], ApplyLines(defaults, ls))
  {
    ScanBlockOfJoin(ls, [], defaults);
    ReadLineOf(Opener, JoinLines(ls));
    assert JoinLines(ls) + [] == JoinLines(ls);
  }

  /** A block line `key: value` with a ':'-free key not starting with '#'
      sets the trimmed key to the trimmed value; the value keeps any further ':'. */
  lemma KeyValueLine(key: string, value: string)
    requires ':' !in key && !StartsWith(Trim(key), "#")
    ensures LineSetting(key + ":" + value) == Some(Entry(Trim(key), Trim(value)))
  {
    SplitFirstOfJoin(key, ':', value);
  }

  /** The block line `key: value`. */
  function SettingText(key: string, value: string): string
  {
    key + ": " + value
  }

  /** A key as block lines usually write it: one line, no ':', not a
      comment, no white space at either end. */
  predicate IsKey(k: string)
  {
    k != [] && IsPlainLine(k) && ':' !in k && k[0] != '#' && !IsWhiteSpace(k[0]) && !IsWhiteSpace(k[|k| - 1])
  }

  /** A value as block lines usually write it: one line, no white space at
      either end. */
  predicate IsValue(v: string)
  {
    v != [] && IsPlainLine(v) && !IsWhiteSpace(v[0]) && !IsWhiteSpace(v[|v| - 1])
  }

  /** A `key: value` line is a block line, not a terminator. */
  lemma SettingTextIsBlockLine(key: string, value: string)
    requires IsPlainLine(key) && IsPlainLine(value)
    ensures IsPlainLine(SettingText(key, value)) && !IsTerminator(SettingText(key, value))
  {
    var line := SettingText(key, value);
    assert line[|key|] == ':';
    assert forall i | 0 <= i < |line| :: line[i] in key || line[i] in ": " || line[i] in value by {
      forall i | 0 <= i < |line| ensures line[i] in key || line[i] in ": " || line[i] in value {
        if i < |key| { assert line[i] == key[i]; }
        else if i < |key| + 2 { assert line[i] == ": "[i - |key|]; }
        else { assert line[i] == value[i - |key| - 2]; }
      }
    }
    assert ':' !in "---" && ':' !in "...";
  }

  /** The usual form `key: value` sets `key` to `value`. */
  lemma SettingLine(key: string, value: string)
    requires IsKey(key) && IsValue(value)
    ensures LineSetting(SettingText(key, value)) == Some(Entry(key, value))
  {
    ColonSpace(key, value);
    TrimUnpadded(key);
    TrimLeadingSpace(value);
    assert !StartsWith(Trim(key), "#") by {
      assert key[0] != '#';
    }
    KeyValueLine(key, " " + value);
  }

  lemma ColonSpace(key: string, value: string)
    ensures key + ": " + value == key + ":" + (" " + value)
  {
  }

  /** The block lines `keys[i]: values[i]`, in order. */
  function SettingLines(keys: seq<string>, values: seq<string>): (ls: seq<string>)
    requires |keys| == |values|
    ensures |ls| == |keys|
    ensures forall i | 0 <= i < |ls| :: ls[i] == SettingText(keys[i], values[i])
  {
    if keys == [] then [] else [SettingText(keys[0], values[0])] + SettingLines(keys[1..], values[1..])
  }

  /** `d[keys[i]] = values[i]` for each i in order. */
  function PutAll(d: Dict, keys: seq<string>, values: seq<string>): Dict
    requires |keys| == |values|
    decreases |keys|
  {
    if keys == [] then d else PutAll(Put(d, keys[0], values[0]), keys[1..], values[1..])
  }

  /** After the assignments a key holds the value of its last assignment. */
  lemma {:induction false} PutAllSets(d: Dict, keys: seq<string>, values: seq<string>, i: nat)
    requires |keys| == |values| && i < |keys|
    requires forall j | i < j < |keys| :: keys[j] != keys[i]
    ensures Get(PutAll(d, keys, values), keys[i]) == Some(values[i])
    decreases |keys|
  {
    if i == 0 {
      PutAllKeeps(Put(d, keys[0], values[0]), keys[1..], values[1..], keys[0]);
    } else {
      PutAllSets(Put(d, keys[0], values[0]), keys[1..], values[1..], i - 1);
    }
  }

  /** With distinct keys every key ends with its own value. */
  lemma PutAllDistinct(d: Dict, keys: seq<string>, values: seq<string>)
    requires |keys| == |values|
    requires forall i, j | 0 <= i < j < |keys| :: keys[i] != keys[j]
    ensures forall i | 0 <= i < |keys| :: Get(PutAll(d, keys, values), keys[i]) == Some(values[i])
  {
    forall i | 0 <= i < |keys| ensures Get(PutAll(d, keys, values), keys[i]) == Some(values[i]) {
      PutAllSets(d, keys, values, i);
    }
  }

  /** A key that is never assigned keeps its value. */
  lemma {:induction false} PutAllKeeps(d: Dict, keys: seq<string>, values: seq<string>, k: string)
    requires |keys| == |values| && k !in keys
    ensures Get(PutAll(d, keys, values), k) == Get(d, k)
    decreases |keys|
  {
    if keys != [] {
      PutAllKeeps(Put(d, keys[0], values[0]), keys[1..], values[1..], k);
    }
  }

  /** Reading `key: value` lines does the assignments they spell. */
  lemma {:induction false} ApplySettingLines(d: Dict, keys: seq<string>, values: seq<string>)
    requires |keys| == |values|
    requires forall i | 0 <= i < |keys| :: IsKey(keys[i]) && IsValue(values[i])
    ensures ApplyLines(d, SettingLines(keys, values)) == PutAll(d, keys, values)
    decreases |keys|
  {
    if keys != [] {
      ApplySettingLinesStep(d, keys, values);
      ApplySettingLines(Put(d, keys[0], values[0]), keys[1..], values[1..]);
    }
  }

  /** The first line of `SettingLines` does the first assignment. */
  lemma ApplySettingLinesStep(d: Dict, keys: seq<string>, values: seq<string>)
    requires |keys| == |values| && keys != []
    requires forall i | 0 <= i < |keys| :: IsKey(keys[i]) && IsValue(values[i])
    ensures ApplyLines(d, SettingLines(keys, values)) ==
      ApplyLines(Put(d, keys[0], values[0]), SettingLines(keys[1..], values[1..]))
    ensures forall i | 0 <= i < |keys| - 1 :: IsKey(keys[1..][i]) && IsValue(values[1..][i])
  {
    var ls := SettingLines(keys, values);
    SettingLine(keys[0], values[0]);
    assert ApplyLine(d, ls[0]) == Put(d, keys[0], values[0]);
    assert ls[1..] == SettingLines(keys[1..], values[1..]);
    assert forall i | 0 <= i < |keys| - 1 :: keys[1..][i] == keys[i + 1] && values[1..][i] == values[i + 1];
  }

  /** A closed block followed by a body. */
  function Document(ls: seq<string>, body: string): string
  {
    Opener + "\n" + JoinLines(ls) + "..." + "\n" + body
  }

  /** A closed block of `key: value` lines assigns each value to its key,
      in order, over the defaults, and leaves exactly the body. */
  lemma SettingsBlock(keys: seq<string>, values: seq<string>, body: string, d: Dict)
    requires |keys| == |values|
    requires forall i | 0 <= i < |keys| :: IsKey(keys[i]) && IsValue(values[i])
    ensures Parse(Document(SettingLines(keys, values), body), d) == (body, PutAll(d, keys, values))
  {
    var ls := SettingLines(keys, values);
    forall i | 0 <= i < |ls| ensures IsPlainLine(ls[i]) && !IsTerminator(ls[i]) {
      SettingTextIsBlockLine(keys[i], values[i]);
    }
    ClosedBlock(ls, "...", body, d);
    ApplySettingLines(d, keys, values);
  }

  /** A block line without ':' and a line whose key starts with '#' set nothing. */
  lemma IgnoredLines(line: string)
    requires ':' !in line || StartsWith(Trim(SplitFirst(line, ':')[0]), "#")
    ensures LineSetting(line).None?
  {
  }

  /** The BasicProcessors variant returns the same metadata and drops the remainder. */
  method ParseYAMLMetadata(input: string, defaultAuthor: string, defaultTitle: string, today: string, year: string)
    returns (meta: Dict)
    ensures meta == Parse(input, Defaults(defaultAuthor, defaultTitle, today, year)).1
  {
    var _, m := ParseYAML(input, defaultAuthor, defaultTitle, today, year);
    meta := m;
  }
}
