/** RSS.ProcessRSSFeed: writes `rss.xml` into the output directory, an RSS
    2.0 channel with one item per selected input file. For each wildcard of
    the directory, the enumerated files whose bare name is not excluded are
    taken newest first, at most StopAfter of them, and each item's title and
    date come from simple line rules over the file's text. */
module Rss {
  import opened Wrappers
  import opened Text
  import opened Paths
  import opened Config
  import opened Pipeline
  import opened Ordering
  import opened FrontMatter

  /** What the feed takes from outside the file system: the two readings of
      the clock the header makes (each formatted as RFC 1123, "R"), the "R"
      formatting of a last-write time, and the GUID text that the MD5 hash of
      a file name gives. */
  datatype FeedEnvironment = FeedEnvironment(
    lastBuildDate: string,
    pubDate: string,
    formatR: int -> string,
    nameGuid: string -> string)

  /** A run either writes the feed, writes nothing because the output
      directory is missing, or stops with DirectoryNotFoundException when the
      input directory is enumerated but does not exist. */
  datatype FeedResult = NotWritten | DirectoryNotFound | Written(path: string, text: string)

  const FileName: string := "rss.xml"
  const MethodName: string := "ProcessRSSFeed"
  const Footer: string := "\t</channel>\n</rss>"

  /** The feed's own configuration entry, else `new Processor()`. */
  function RssConfig(dir: DirectoryToProcess): Processor
  {
    ConfigFor(dir.processors, RssClass, MethodName)
  }

  /** The channel header, as the verbatim literal in the source gives it:
      lines end in CR LF, and the `ttl` line carries a stray apostrophe. */
  function Header(dir: DirectoryToProcess, env: FeedEnvironment): string
  {
    "<?xml version='1.0' encoding='UTF-8'?>\r\n<rss version='2.0'>\r\n    <channel>\r\n" +
    "        <title>" + EscapeAmp(dir.siteTitle) + "</title>\r\n" +
    "        <description>" + EscapeAmp(dir.siteDescription) + "</description>\r\n" +
    "        <link>" + EscapeAmp(dir.targetURL) + "</link>\r\n" +
    "        <lastBuildDate>" + env.lastBuildDate + "</lastBuildDate>\r\n" +
    "        <pubDate>" + env.pubDate + "</pubDate>\r\n" +
    "        <ttl>1800</ttl>'\r\n"
  }

  // ---------------------------------------------------------------------
  // Selecting the files of one wildcard

  /** `where !exclusions.Contains(fi.Name)`: the exclusion list is matched
      against the bare file name, whatever directory the file is in. */
  function NotExcluded(files: seq<string>, exclusions: seq<string>): (r: seq<string>)
    ensures forall f :: f in r <==> f in files && GetFileName(f) !in exclusions
  {
    if files == [] then []
    else (if GetFileName(files[0]) in exclusions then [] else [files[0]]) + NotExcluded(files[1..], exclusions)
  }

  /** The count `Take` is given: StopAfter when it has a positive value,
      otherwise int.MaxValue, which no enumeration reaches (None). */
  function Cap(stopAfter: Option<int>): Option<nat>
  {
    if stopAfter.Some? && stopAfter.value > 0 then Some(stopAfter.value) else None
  }

  /** Enumerable.Take: the first `cap` elements, or all when there are fewer. */
  function Take<T>(s: seq<T>, cap: Option<nat>): seq<T>
  {
    if cap.Some? && cap.value < |s| then s[..cap.value] else s
  }

  /** One wildcard's items: the selected files, newest first, capped. */
  function FeedFiles(fs: FileSystem, inputPath: string, exclusions: seq<string>, stopAfter: Option<int>, wildcard: string): seq<string>
  {
    var selected := NotExcluded(fs.enumerateFiles(inputPath, wildcard), exclusions);
    Take(OrderByDescending(selected, fs.lastWriteTimeUtc), Cap(stopAfter))
  }

  /** The outer loop's selection, as a function of the wildcard. */
  function FeedGrouping(fs: FileSystem, inputPath: string, exclusions: seq<string>, stopAfter: Option<int>): string -> seq<string>
  {
    wildcard => FeedFiles(fs, inputPath, exclusions, stopAfter, wildcard)
  }

  // ---------------------------------------------------------------------
  // One item

  /** `lines.Where(l => l.StartsWith(prefix)).FirstOrDefault()`. */
  function FirstStartingWith(lines: seq<string>, prefix: string): (r: Option<string>)
    ensures r.None? <==> forall i | 0 <= i < |lines| :: !StartsWith(lines[i], prefix)
    ensures forall i | 0 <= i < |lines| && StartsWith(lines[i], prefix) &&
              (forall j | 0 <= j < i :: !StartsWith(lines[j], prefix)) :: r == Some(lines[i])
  {
    if lines == [] then None
    else if StartsWith(lines[0], prefix) then Some(lines[0])
    else
      assert forall j | 1 <= j < |lines| :: lines[j] == lines[1..][j - 1];
      FirstStartingWith(lines[1..], prefix)
  }

  /** The value of a `key:` line: the line with every `key:` removed, trimmed. */
  function SettingValue(line: string, key: string): string
    requires key != []
  {
    Trim(ReplaceAll(line, key, ""))
  }

  /** What the title is taken from: the first `title:` line's value, else
      the first line that starts with "# ", else nothing (""). */
  function TitleCandidate(lines: seq<string>): string
  {
    match FirstStartingWith(lines, "title:")
    case Some(line) => SettingValue(line, "title:")
    case None => FirstStartingWith(lines, "# ").GetOr("")
  }

  /** The item title: the candidate with every "# " removed, trimmed, or
      the base file name when there is no candidate or it is empty. */
  function Title(lines: seq<string>, name: string): string
  {
    var candidate := TitleCandidate(lines);
    if candidate != "" then Trim(ReplaceAll(candidate, "# ", "")) else GetFileNameWithoutExtension(name)
  }

  /** The item date: the first `date:` line's value, else the last-write time. */
  function PubDate(lines: seq<string>, lastWrite: string): string
  {
    match FirstStartingWith(lines, "date:")
    case Some(line) => SettingValue(line, "date:")
    case None => lastWrite
  }

  /** The link: the site URL, "/", and the base file name with ".html", both
      names `&`-escaped. */
  function Link(targetURL: string, name: string): string
  {
    EscapeAmp(targetURL) + "/" + EscapeAmp(GetFileNameWithoutExtension(name)) + ".html"
  }

  /** The parts of an item, before they are written out. */
  datatype FeedItem = FeedItem(title: string, link: string, guid: string, pubDate: string)

  function ItemOf(fs: FileSystem, env: FeedEnvironment, targetURL: string, file: string): FeedItem
  {
    var name := GetFileName(file);
    var lines := Lines(fs.readAllText(file));
    FeedItem(Title(lines, name), Link(targetURL, name), env.nameGuid(name),
             PubDate(lines, env.formatR(fs.lastWriteTimeUtc(file))))
  }

  /** The six appends of one item. */
  function ItemText(item: FeedItem): string
  {
    "\t\t<item>\n" +
    "\t\t\t<title>" + EscapeAmp(item.title) + "</title>\n" +
    "\t\t\t<link>" + item.link + "</link>\n" +
    "\t\t\t<guid isPermaLink='false'>" + item.guid + "</guid>\n" +
    "\t\t\t<pubDate>" + item.pubDate + "</pubDate>\n" +
    "\t\t</item>\n"
  }

  /** The inner loop's body, as a function of the file. */
  function ItemLine(fs: FileSystem, env: FeedEnvironment, targetURL: string): string -> string
  {
    file => ItemText(ItemOf(fs, env, targetURL, file))
  }

  // ---------------------------------------------------------------------
  // The feed

  /** The items of every wildcard, group after group. */
  function FeedItems(fs: FileSystem, dir: DirectoryToProcess): seq<string>
  {
    var config := RssConfig(dir);
    Grouped(FeedGrouping(fs, dir.inputPath, config.exclusions, config.stopAfter), dir.wildcard)
  }

  /** The document: header, items, footer. */
  function FeedText(fs: FileSystem, env: FeedEnvironment, dir: DirectoryToProcess): string
  {
    Header(dir, env) + ConcatMap(ItemLine(fs, env, dir.targetURL), FeedItems(fs, dir)) + Footer
  }

  /** A whole run. */
  function Feed(fs: FileSystem, env: FeedEnvironment, dir: DirectoryToProcess): FeedResult
  {
    if dir.outputPath !in fs.directories then NotWritten
    else if dir.wildcard != [] && dir.inputPath !in fs.directories then DirectoryNotFound
    else Written(Combine(dir.outputPath, FileName), FeedText(fs, env, dir))
  }

  /** RSS.ProcessRSSFeed. */
  method ProcessRSSFeed(fs: FileSystem, env: FeedEnvironment, dir: DirectoryToProcess) returns (result: FeedResult)
    ensures result == Feed(fs, env, dir)
  {
    var myConfig := RssConfig(dir);
    result := NotWritten;
    if dir.outputPath in fs.directories {
      var normalizedPath := dir.outputPath;
      var outputFileName := Combine(normalizedPath, FileName);
      if dir.wildcard != [] && dir.inputPath !in fs.directories {
        result := DirectoryNotFound;
        return;
      }
      var text := BuildFeed(Header(dir, env), ItemLine(fs, env, dir.targetURL),
        FeedGrouping(fs, dir.inputPath, myConfig.exclusions, myConfig.stopAfter), dir.wildcard);
      result := Written(outputFileName, text);
    }
  }

  /** The StringBuilder of RSS.ProcessRSSFeed: the header, the item loops,
      the footer. */
  method BuildFeed(header: string, line: string -> string, group: string -> seq<string>, wildcards: seq<string>)
    returns (text: string)
    ensures text == header + ConcatMap(line, Grouped(group, wildcards)) + Footer
  {
    var rss := new StringBuilder(header);
    AppendGroups(rss, line, group, wildcards);
    rss.Append(Footer);
    text := rss.ToString();
  }

  // ---------------------------------------------------------------------
  // Properties of the selection

  /** Take keeps a prefix, as long as the cap allows. */
  lemma TakePrefix<T>(s: seq<T>, cap: Option<nat>)
    ensures Take(s, cap) <= s
    ensures cap.Some? ==> |Take(s, cap)| == if cap.value < |s| then cap.value else |s|
    ensures cap.None? ==> Take(s, cap) == s
  {
  }

  /** One wildcard's items: newest first; exactly a positive StopAfter of
      them, or all when fewer are selected; drawn from the enumerated files whose name is not excluded,
      all of them when there is no cap; none left out is newer than one
      kept; and files with the same time keep their enumeration order. */
  lemma FeedFilesSpec(fs: FileSystem, inputPath: string, exclusions: seq<string>, stopAfter: Option<int>, wildcard: string)
    ensures var r := FeedFiles(fs, inputPath, exclusions, stopAfter, wildcard);
      var selected := NotExcluded(fs.enumerateFiles(inputPath, wildcard), exclusions);
      && SortedDescending(r, fs.lastWriteTimeUtc)
      && (stopAfter.Some? && stopAfter.value > 0 ==>
            |r| == if stopAfter.value < |selected| then stopAfter.value else |selected|)
      && (forall f | f in r :: f in fs.enumerateFiles(inputPath, wildcard) && GetFileName(f) !in exclusions)
      && (!(stopAfter.Some? && stopAfter.value > 0) ==> multiset(r) == multiset(selected))
      && (forall x, y | x in r && y in multiset(selected) - multiset(r) ::
            fs.lastWriteTimeUtc(y) <= fs.lastWriteTimeUtc(x))
      && (forall k :: WithKey(r, fs.lastWriteTimeUtc, k) <= WithKey(selected, fs.lastWriteTimeUtc, k))
  {
    var key := fs.lastWriteTimeUtc;
    var selected := NotExcluded(fs.enumerateFiles(inputPath, wildcard), exclusions);
    var r := FeedFiles(fs, inputPath, exclusions, stopAfter, wildcard);
    TakePrefix(OrderByDescending(selected, key), Cap(stopAfter));
    OrderByDescendingPrefix(selected, key, r);
    OrderByDescendingSpec(selected, key);
    forall f | f in r
      ensures f in selected
    {
      assert f in multiset(r);
    }
  }

  // ---------------------------------------------------------------------
  // Properties of an item

  /** A `title:` line wins over any heading, and its value is used as it
      stands when it has no "# " in it. */
  lemma TitleFromSetting(lines: seq<string>, name: string, i: nat, value: string)
    requires i < |lines| && lines[i] == "title:" + value
    requires forall j | 0 <= j < i :: !StartsWith(lines[j], "title:")
    requires !Occurs(value, "title:")
    requires Trim(value) != [] && !Occurs(Trim(value), "# ")
    ensures Title(lines, name) == Trim(value)
  {
    assert StartsWith(lines[i], "title:");
    assert FirstStartingWith(lines, "title:") == Some(lines[i]);
    ReplaceAllLeading("title:", value, "");
    ReplaceAllAbsent(value, "title:", "");
    assert ReplaceAll(lines[i], "title:", "") == value;
    assert TitleCandidate(lines) == Trim(value);
    ReplaceAllAbsent(Trim(value), "# ", "");
    TrimIdempotent(value);
  }

  /** A `title:` line with nothing after it gives the base file name; the
      headings are not consulted. */
  lemma EmptyTitleSettingUsesFileName(lines: seq<string>, name: string, i: nat)
    requires i < |lines| && StartsWith(lines[i], "title:")
    requires forall j | 0 <= j < i :: !StartsWith(lines[j], "title:")
    requires SettingValue(lines[i], "title:") == []
    ensures Title(lines, name) == GetFileNameWithoutExtension(name)
  {
  }

  /** Without a `title:` line the first "# " heading gives the title. */
  lemma TitleFromHeading(lines: seq<string>, name: string, i: nat, text: string)
    requires forall j | 0 <= j < |lines| :: !StartsWith(lines[j], "title:")
    requires i < |lines| && lines[i] == "# " + text
    requires forall j | 0 <= j < i :: !StartsWith(lines[j], "# ")
    requires !Occurs(text, "# ")
    ensures Title(lines, name) == Trim(text)
  {
    assert FirstStartingWith(lines, "title:") == None;
    assert StartsWith(lines[i], "# ");
    assert FirstStartingWith(lines, "# ") == Some(lines[i]);
    assert TitleCandidate(lines) == lines[i];
    ReplaceAllLeading("# ", text, "");
    ReplaceAllAbsent(text, "# ", "");
    assert ReplaceAll(lines[i], "# ", "") == text;
  }

  /** With neither a `title:` line nor a heading the base file name is used. */
  lemma UntitledUsesFileName(lines: seq<string>, name: string)
    requires forall j | 0 <= j < |lines| :: !StartsWith(lines[j], "title:") && !StartsWith(lines[j], "# ")
    ensures Title(lines, name) == GetFileNameWithoutExtension(name)
  {
    assert FirstStartingWith(lines, "title:") == None;
    assert FirstStartingWith(lines, "# ") == None;
    assert TitleCandidate(lines) == "";
  }

  /** "# " is removed from a `title:` value too, and the result trimmed. */
  lemma HashSpaceRemovedFromSetting(lines: seq<string>, name: string, i: nat, value: string)
    requires i < |lines| && lines[i] == "title:" + value
    requires forall j | 0 <= j < i :: !StartsWith(lines[j], "title:")
    requires !Occurs(value, "title:")
    requires Trim(value) != []
    ensures Title(lines, name) == Trim(ReplaceAll(Trim(value), "# ", ""))
  {
    assert StartsWith(lines[i], "title:");
    assert FirstStartingWith(lines, "title:") == Some(lines[i]);
    ReplaceAllLeading("title:", value, "");
    ReplaceAllAbsent(value, "title:", "");
    assert ReplaceAll(lines[i], "title:", "") == value;
  }

  /** The value of `title: C# x` reads "Cx". */
  lemma HashSpaceExample()
    ensures Trim(ReplaceAll(Trim(" C# x"), "# ", "")) == "Cx"
  {
    TrimLeadingSpace("C# x");
    HashSpaceExampleRemoval();
  }

  lemma HashSpaceExampleRemoval()
    ensures Trim(ReplaceAll("C# x", "# ", "")) == "Cx"
  {
    var s := "C# x";
    assert s[..2][0] == 'C';
    assert s[1..] == "# " + "x";
    assert ReplaceAll(s, "# ", "") == "C" + ReplaceAll("# " + "x", "# ", "");
    ReplaceAllLeading("# ", "x", "");
    TrimUnpadded("Cx");
  }

  /** The first `date:` line's value is the item date. */
  lemma DateFromSetting(lines: seq<string>, lastWrite: string, i: nat, value: string)
    requires i < |lines| && lines[i] == "date:" + value
    requires forall j | 0 <= j < i :: !StartsWith(lines[j], "date:")
    requires !Occurs(value, "date:")
    ensures PubDate(lines, lastWrite) == Trim(value)
  {
    assert StartsWith(lines[i], "date:");
    assert FirstStartingWith(lines, "date:") == Some(lines[i]);
    ReplaceAllLeading("date:", value, "");
    ReplaceAllAbsent(value, "date:", "");
    assert ReplaceAll(lines[i], "date:", "") == value;
  }

  /** Without a `date:` line the item carries the file's last-write time. */
  lemma DateFromLastWrite(lines: seq<string>, lastWrite: string)
    requires forall j | 0 <= j < |lines| :: !StartsWith(lines[j], "date:")
    ensures PubDate(lines, lastWrite) == lastWrite
  {
  }

  /** The link is the escaping of the joined text. */
  lemma LinkIsEscapedJoin(targetURL: string, name: string)
    ensures Link(targetURL, name) == EscapeAmp(targetURL + "/" + GetFileNameWithoutExtension(name) + ".html")
  {
    var base := GetFileNameWithoutExtension(name);
    assert EscapeAmp("/") == "/";
    assert EscapeAmp(".html") == ".html" by {
      ReplaceAllAbsent(".html", "&", "&amp;");
    }
    EscapeAmpConcat(targetURL, "/");
    EscapeAmpConcat(targetURL + "/", base);
    EscapeAmpConcat(targetURL + "/" + base, ".html");
  }

  /** The link is well-formed as far as `&` goes and reads back as the site
      URL, "/", the base name and ".html". */
  lemma LinkEscaped(targetURL: string, name: string)
    ensures var link := Link(targetURL, name);
      forall i | 0 <= i < |link| && link[i] == '&' :: i + 5 <= |link| && link[i..i + 5] == "&amp;"
    ensures UnescapeAmp(Link(targetURL, name)) == targetURL + "/" + GetFileNameWithoutExtension(name) + ".html"
  {
    var plain := targetURL + "/" + GetFileNameWithoutExtension(name) + ".html";
    LinkIsEscapedJoin(targetURL, name);
    EscapeAmpWellFormed(plain);
    EscapeAmpRoundTrip(plain);
  }

  /** The guid and the link depend on the file's name only: the same name in
      another directory, with other contents, gives the same two. */
  lemma ItemIdentityByName(fs: FileSystem, env: FeedEnvironment, targetURL: string, f: string, g: string)
    requires GetFileName(f) == GetFileName(g)
    ensures ItemOf(fs, env, targetURL, f).guid == ItemOf(fs, env, targetURL, g).guid
    ensures ItemOf(fs, env, targetURL, f).link == ItemOf(fs, env, targetURL, g).link
  {
  }

  // ---------------------------------------------------------------------
  // Properties of a run

  /** The three outcomes of a run. */
  lemma FeedOutcome(fs: FileSystem, env: FeedEnvironment, dir: DirectoryToProcess)
    ensures Feed(fs, env, dir).NotWritten? <==> dir.outputPath !in fs.directories
    ensures Feed(fs, env, dir).DirectoryNotFound? <==>
              dir.outputPath in fs.directories && dir.wildcard != [] && dir.inputPath !in fs.directories
    ensures Feed(fs, env, dir).Written? ==> Feed(fs, env, dir).path == Combine(dir.outputPath, FileName)
  {
  }

  /** The document opens with the channel header and closes the channel. */
  lemma FeedTextFramed(fs: FileSystem, env: FeedEnvironment, dir: DirectoryToProcess)
    ensures StartsWith(FeedText(fs, env, dir), Header(dir, env))
    ensures |Footer| <= |FeedText(fs, env, dir)|
    ensures FeedText(fs, env, dir)[|FeedText(fs, env, dir)| - |Footer|..] == Footer
  {
    Framed(Header(dir, env), ConcatMap(ItemLine(fs, env, dir.targetURL), FeedItems(fs, dir)), Footer);
  }

  lemma Framed(head: string, middle: string, tail: string)
    ensures StartsWith(head + middle + tail, head)
    ensures (head + middle + tail)[|head + middle + tail| - |tail|..] == tail
  {
    var text := head + middle + tail;
    assert text[..|head|] == head;
  }

  /** Nothing is written when the output directory does not exist. */
  lemma NoOutputDirectoryNoFeed(fs: FileSystem, env: FeedEnvironment, dir: DirectoryToProcess)
    requires dir.outputPath !in fs.directories
    ensures Feed(fs, env, dir) == NotWritten
  {
  }

  /** Without a configuration entry nothing is excluded and nothing capped:
      each wildcard contributes every file it enumerates, newest first. */
  lemma FeedWithoutConfig(fs: FileSystem, dir: DirectoryToProcess, wildcard: string)
    requires forall j | 0 <= j < |dir.processors| :: !IsEntryFor(dir.processors[j], RssClass, MethodName)
    ensures var config := RssConfig(dir);
      var r := FeedFiles(fs, dir.inputPath, config.exclusions, config.stopAfter, wildcard);
      multiset(r) == multiset(fs.enumerateFiles(dir.inputPath, wildcard)) &&
      SortedDescending(r, fs.lastWriteTimeUtc)
  {
    var files := fs.enumerateFiles(dir.inputPath, wildcard);
    NotExcludedNothing(files);
    OrderByDescendingSpec(files, fs.lastWriteTimeUtc);
  }

  /** An empty exclusion list keeps every file. */
  lemma {:induction false} NotExcludedNothing(files: seq<string>)
    ensures NotExcluded(files, []) == files
  {
    if files != [] {
      NotExcludedNothing(files[1..]);
      assert files == [files[0]] + files[1..];
    }
  }
}
