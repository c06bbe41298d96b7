/** Sitemap.ProcessSitemap: writes `sitemap.xml` into the output directory,
    one `<url>` line per generated file, following version 0.9 of the
    Sitemaps XML protocol. Files are found below the output directory (the
    sitemap runs after the pages are generated), a group per configured
    wildcard, each group in ascending order of full path. */
module Sitemap {
  import opened Text
  import opened Paths
  import opened Config
  import opened Pipeline
  import opened Ordering

  /** The document's opening, as the verbatim literal in the source gives it
      (the source file's lines end in CR LF). */
  const Header: string :=
    "<?xml version='1.0' encoding='UTF-8'?>\r\n<urlset xmlns='http://www.sitemaps.org/schemas/sitemap/0.9'>\r\n"
  const Footer: string := "</urlset>"
  const FileName: string := "sitemap.xml"
  const MethodName: string := "ProcessSitemap"

  /** The sitemap's own configuration entry, else `new Processor()`. */
  function SitemapConfig(dir: DirectoryToProcess): Processor
  {
    ConfigFor(dir.processors, SitemapClass, MethodName)
  }

  /** The page's address: the site URL and the bare file name, both with
      every `&` escaped. */
  function Loc(targetURL: string, file: string): string
  {
    EscapeAmp(targetURL) + "/" + EscapeAmp(GetFileName(file))
  }

  function UrlEntry(targetURL: string, file: string): string
  {
    "\t<url><loc>" + Loc(targetURL, file) + "</loc></url>\n"
  }

  /** One wildcard's group: the matching files below `root`, sorted. */
  function GroupFiles(fs: FileSystem, root: string, exclusions: seq<string>, wildcard: string): seq<string>
  {
    OrderByOrdinal(MatchingFiles(fs, root, wildcard, exclusions))
  }

  /** The outer loop's selection, as a function of the wildcard. */
  function Grouping(fs: FileSystem, root: string, exclusions: seq<string>): string -> seq<string>
  {
    wildcard => GroupFiles(fs, root, exclusions, wildcard)
  }

  /** The inner loop's body, as a function of the file. */
  function UrlLine(targetURL: string): string -> string
  {
    file => UrlEntry(targetURL, file)
  }

  /** One `<url>` line per file, in order. */
  function Entries(targetURL: string, files: seq<string>): string
  {
    ConcatMap(UrlLine(targetURL), files)
  }

  /** The whole document. */
  function SitemapText(fs: FileSystem, dir: DirectoryToProcess): (r: string)
    ensures StartsWith(r, Header)
    ensures |Footer| <= |r| && r[|r| - |Footer|..] == Footer
  {
    var config := SitemapConfig(dir);
    Header + Entries(dir.targetURL, Grouped(Grouping(fs, dir.outputPath, config.exclusions), config.wildcards)) + Footer
  }

  /** What a run does: write the document, when the output directory exists. */
  function SitemapEffects(fs: FileSystem, dir: DirectoryToProcess): (r: seq<Effect>)
    ensures |r| <= 1
    ensures r != [] <==> dir.outputPath in fs.directories
    ensures forall e | e in r :: e.WriteAllText? && e.path == Combine(dir.outputPath, FileName)
  {
    if dir.outputPath !in fs.directories then []
    else [WriteAllText(Combine(dir.outputPath, FileName), SitemapText(fs, dir))]
  }

  /** Sitemap.ProcessSitemap. */
  method ProcessSitemap(fs: FileSystem, dir: DirectoryToProcess) returns (effects: seq<Effect>)
    ensures effects == SitemapEffects(fs, dir)
  {
    var myConfig := SitemapConfig(dir);
    effects := [];
    if dir.outputPath in fs.directories {
      var normalizedPath := dir.outputPath;
      var outputFileName := Combine(normalizedPath, FileName);
      var sitemap := new StringBuilder(Header);
      AppendGroups(sitemap, UrlLine(dir.targetURL), Grouping(fs, normalizedPath, myConfig.exclusions), myConfig.wildcards);
      sitemap.Append(Footer);
      effects := [WriteAllText(outputFileName, sitemap.ToString())];
    }
  }

  // ---------------------------------------------------------------------
  // Properties

  /** A group lists, in ascending ordinal order and once each, exactly the
      files the wildcard enumerates that are not an exclusion joined to the
      root. */
  lemma GroupFilesSpec(fs: FileSystem, root: string, exclusions: seq<string>, wildcard: string, f: string)
    ensures Sorted(GroupFiles(fs, root, exclusions, wildcard))
    ensures Distinct(GroupFiles(fs, root, exclusions, wildcard))
    ensures f in GroupFiles(fs, root, exclusions, wildcard) <==>
      f in fs.enumerateFiles(root, wildcard) && forall e | e in exclusions :: f != Combine(root, e)
  {
    var matching := MatchingFiles(fs, root, wildcard, exclusions);
    MatchingFilesMembership(fs, root, wildcard, exclusions, f);
    OrderByOrdinalSorted(matching);
    DistinctPermutation(matching, OrderByOrdinal(matching));
    assert f in OrderByOrdinal(matching) <==> f in multiset(OrderByOrdinal(matching));
  }

  /** A file is listed exactly when some configured wildcard matches it
      and it is not excluded. */
  lemma UrlsMembership(fs: FileSystem, root: string, exclusions: seq<string>, wildcards: seq<string>, f: string)
    ensures f in Grouped(Grouping(fs, root, exclusions), wildcards) <==>
      (exists i | 0 <= i < |wildcards| :: f in fs.enumerateFiles(root, wildcards[i])) &&
      forall e | e in exclusions :: f != Combine(root, e)
  {
    var group := Grouping(fs, root, exclusions);
    GroupedCovers(group, wildcards, f);
    forall i | 0 <= i < |wildcards|
      ensures f in group(wildcards[i]) <==>
        f in fs.enumerateFiles(root, wildcards[i]) && forall e | e in exclusions :: f != Combine(root, e)
    {
      GroupFilesSpec(fs, root, exclusions, wildcards[i], f);
    }
  }

  /** Without a configuration entry of its own the sitemap lists nothing. */
  lemma SitemapWithoutConfig(fs: FileSystem, dir: DirectoryToProcess)
    requires forall j | 0 <= j < |dir.processors| :: !IsEntryFor(dir.processors[j], SitemapClass, MethodName)
    ensures SitemapText(fs, dir) == Header + Footer
  {
  }

  /** Nothing is written when the output directory does not exist. */
  lemma NoOutputDirectoryNoSitemap(fs: FileSystem, dir: DirectoryToProcess)
    requires dir.outputPath !in fs.directories
    ensures SitemapEffects(fs, dir) == []
  {
  }

  /** The address is the escaping of the joined text. */
  lemma LocIsEscapedJoin(targetURL: string, file: string)
    ensures Loc(targetURL, file) == EscapeAmp(targetURL + "/" + GetFileName(file))
  {
    var name := GetFileName(file);
    assert EscapeAmp("/") == "/";
    EscapeAmpConcat(targetURL, "/");
    EscapeAmpConcat(targetURL + "/", name);
  }

  /** The address is well-formed XML text as far as `&` goes, and reads back
      as the site URL, "/", and the file name without its directory. */
  lemma LocEscaped(targetURL: string, file: string)
    ensures var loc := Loc(targetURL, file);
      forall i | 0 <= i < |loc| && loc[i] == '&' :: i + 5 <= |loc| && loc[i..i + 5] == "&amp;"
    ensures UnescapeAmp(Loc(targetURL, file)) == targetURL + "/" + GetFileName(file)
  {
    var text := targetURL + "/" + GetFileName(file);
    LocIsEscapedJoin(targetURL, file);
    EscapeAmpWellFormed(text);
    EscapeAmpRoundTrip(text);
  }
}
