# swingor content processors, modelled in Dafny

swingor is a small static-site generator. It reads directories of Markdown and static files and writes a site. Each processor is a static C# method that turns one `DirectoryToProcess` into effects on the file system:

- `BasicProcessors.ProcessMarkdownFiles` renders Markdown pages between prepend and postpend layout files.
- `BasicProcessors.ProcessStaticFiles` copies static files.
- `Sitemap.ProcessSitemap` writes `sitemap.xml`.
- `RSS.ProcessRSSFeed` writes `rss.xml`.
- `Program` keeps older, single-wildcard copies of the two basic processors.

The shared text logic is modelled as well:

- the tolerant YAML front-matter scanner `ParseYAML`, in both its variants;
- moustache substitution `ReplaceTemplatesWithMetadata`;
- `GetSubdirectory` and the output-path construction;
- the staleness test;
- the per-processor configuration lookup;
- `Except` / `OrderBy` / `OrderByDescending` / `Take` selection;
- `&` escaping.

Modules, in dependency order:

| module | file | models |
|---|---|---|
| `Wrappers` | wrappers.dfy | `Option` |
| `Text` | text.dfy | `String.Trim`, `Split(':', 2)`, `Replace`, `&` escaping, a `StringBuilder` class |
| `Paths` | paths.dfy | `Path.Combine`, `GetFileName`, `GetDirectoryName`, `GetFileNameWithoutExtension`, `GetSubdirectory` |
| `Config` | config.dfy | `Processor`, `DirectoryToProcess`, `AppConfiguration` and the first-matching-entry lookup |
| `Metadata` | metadata.dfy | the ordered `Dictionary<string,string>` and `ReplaceTemplatesWithMetadata` |
| `FrontMatter` | frontmatter.dfy | a `StringReader` class and both `ParseYAML` methods |
| `FrontMatterExamples` | frontmatter_examples.dfy | the repository's ParseYAML tests, generalised over their values |
| `Pipeline` | pipeline.dfy | the file-system snapshot, effects, staleness, LINQ `Except`, the nested wildcard/file loops |
| `Ordering` | ordering.dfy | ordinal `OrderBy` and stable `OrderByDescending` |
| `BasicProcessors` | basic_processors.dfy | swingor-processors/BasicProcessors.cs |
| `ProgramProcessors` | program.dfy | the processors in swingor/Program.cs |
| `Sitemap` | sitemap.dfy | swingor-sitemap/Sitemap.cs |
| `Rss` | rss.dfy | swingor-rss/RSS.cs |

## How the model works

**The file system is a value.** It is a `FileSystem` record holding:
- the set of existing directories and files;
- last-write times as integers;
- file contents;
- what `Directory.EnumerateFiles(root, wildcard, AllDirectories)` returns.

**A processor run is a sequence of effects.** The effects are `CreateDirectory`, `WriteAllText` and `CopyFile`, listed in the order the source's nested loops issue them. Every decision in a run reads the file system as it was before the run: whether an output is stale, and what a file contains. Effects are not applied between files. So a file matched by two wildcards is rebuilt in both groups (Pipeline.ForEachWildcardTwice). A run that applied each write before the next decision would find that output fresh the second time (Pipeline.WrittenOutputIsFresh).

**Outside inputs are parameters.** They are passed in as functions and strings, in `Environment` and `FeedEnvironment`:
- Markdig's two renderings. `markdownToHtml` is the default pipeline, which Program calls on the text after the front matter. `yamlPipelineToHtml` is the pipeline built with `UseYamlFrontMatter().UseAdvancedExtensions()`, which BasicProcessors calls on the whole file.
- The clock readings.
- The MD5-derived GUID.

**Output layout.** The output directory of a file is `Path.Combine(OutputPath, subdirectory)`, where the subdirectory keeps its leading separator. `Path.Combine` then discards OutputPath (see "## Findings"). `Effects` takes a `Layout`:
- `AsWritten` is what the source does, and the processor methods use it.
- `Mirrored` is the evidently intended layout, with the subdirectory taken relative below OutputPath. The `Mirrored…` lemmas state what it achieves.

**Mutable objects are classes.** `StringBuilder` and `StringReader` are classes, and the methods that mutate them are imperative methods. Each method is proved against a specification function:
- `ParseYAML` is proved against `Parse`;
- `ReplaceTemplatesWithMetadata` against `ReplaceTemplates`;
- `AppendGroups` against `ConcatMap` over `Grouped`;
- the processors against `Effects`, `ProgramEffects`, `SitemapEffects` and `Feed`.

The properties are proved about those functions.

**Line splitting follows `StringReader`.** Lines break at `\r\n`, `\r` or `\n`, as `StringReader.ReadLine` does, rather than at `\n` only.

**Field names follow what the processors read.** swingor/Processor.cs:16 and the processors disagree on field names. The model uses one `Processor` record with DLL, Class, Method, Wildcards, Exclusions and StopAfter, because those are the fields the processors actually read. swingor/Processor.cs:16 declares only `Exceptions`.

**`Wildcard` is a list.** `DirectoryToProcess.Wildcard` is a list, as swingor/DirectoryToProcess.cs:31 declares. The `Program` processors treat it as one string, so they take that string as a parameter.

## Model

| member | source | states |
|---|---|---|
| Text.Trim | swingor/Program.cs:232 | The result is the input with its leading and trailing white space removed. It neither starts nor ends with white space. |
| Text.TrimIdempotent | swingor/Program.cs:232 | Trimming twice is the same as trimming once. |
| Text.TrimPadded | swingor/Program.cs:232 | Trim of white space + core + white space is the core, when the core has no white space at either end. |
| Text.TrimUnpadded | swingor/Program.cs:232 | A string with no white space at either end is left as it is. |
| Text.TrimLeadingSpace | swingor-rss/RSS.cs:71 | The single space after `title:` is removed by Trim. |
| Text.IndexOfChar | swingor/Program.cs:228 | Returns None exactly when the character is absent. Otherwise returns the first position holding it. |
| Text.LastIndexOfChar | swingor-processors/BasicProcessors.cs:39 | Returns None exactly when the character is absent. Otherwise returns the last position holding it. |
| Text.SplitFirst | swingor/Program.cs:228 | `Split(':', 2)`: one part exactly when there is no separator. Otherwise the first part has no separator and part + separator + rest gives back the line. |
| Text.SplitFirstOfJoin | swingor/Program.cs:228 | Splitting `key:value` with a colon-free key gives back exactly `[key, value]`, so values may contain ':'. |
| Text.ReplaceAllAbsent | swingor/Program.cs:258 | Replacing a pattern that does not occur leaves the text unchanged. |
| Text.ReplaceAllIdentity | swingor/Program.cs:258 | Replacing a pattern by itself leaves the text unchanged. |
| Text.ReplaceAllLeading | swingor-rss/RSS.cs:71 | A leading occurrence is replaced and the scan resumes after it. |
| Text.ReplaceAllLength | swingor/Program.cs:258 | `String.Replace` (ReplaceAll) keeps the length when the replacement is as long as the pattern, and never shortens the text when it is longer, as for `&` to `&amp;`. |
| Text.ReplaceAllConcat | swingor/Program.cs:258 | When no occurrence straddles the seam, replacing in a concatenation is the concatenation of the replacements. |
| Text.EscapeAmpWellFormed | swingor-sitemap/Sitemap.cs:41 | After `Replace("&", "&amp;")`, every `&` starts `&amp;`. |
| Text.EscapeAmpRoundTrip | swingor-sitemap/Sitemap.cs:41 | Unescaping the escaped text gives back the original. |
| Text.EscapeAmpConcat | swingor-rss/RSS.cs:101 | Escaping distributes over concatenation. |
| Text.AppendEach | swingor-sitemap/Sitemap.cs:37-42 | Appending one string per element in a loop adds the concatenation of those strings to the buffer. |
| Text.StringBuilder.Append | swingor-processors/BasicProcessors.cs:53 | The content becomes the old content followed by the argument. |
| Text.StringBuilder.Replace | swingor-processors/BasicProcessors.cs:160 | The content becomes the old content with every non-overlapping occurrence replaced, scanning left to right. |
| Paths.CombineRelative | swingor-processors/BasicProcessors.cs:40 | Path.Combine with a relative second path starts with the first path and ends with the second. |
| Paths.CombineRooted | swingor-processors/BasicProcessors.cs:40 | Path.Combine with a rooted second path returns the second path and discards the first. |
| Paths.GetFileName | swingor-processors/BasicProcessors.cs:88 | The result is the separator-free suffix that follows the last separator. |
| Paths.GetFileNameOfCombine | swingor-processors/BasicProcessors.cs:88 | The file name of directory + name is the name. |
| Paths.GetDirectoryName | swingor-processors/BasicProcessors.cs:39 | The result is a prefix of the path, or the root "/". |
| Paths.GetDirectoryNameOfJoin | swingor-processors/BasicProcessors.cs:39 | The directory of d + "/" + name is d. |
| Paths.GetFileNameWithoutExtension | swingor-processors/BasicProcessors.cs:42 | The result is separator-free and a prefix of the file name. |
| Paths.GetSubdirectory | swingor/BaseProcessor.cs:35-40 | When newPath starts with originalPath, originalPath + result == newPath. Otherwise the result is "". Only the raw arguments matter. |
| Paths.GetSubdirectoryOfItself | swingor/BaseProcessor.cs:39 | Equal arguments give "". |
| Paths.GetSubdirectoryIsCharacterLevel | swingor/BaseProcessor.cs:39 | The prefix test is on characters, not path segments: ("/a/Temp", "/a/Temp2/x") gives "2/x". |
| Paths.GetSubdirectoryExample | test-swingor/Swingor_GetSubdirectory.cs:20 | ("/home/foo/Temp", "/home/foo/Temp/foo") gives "/foo". |
| Config.FindProcessor | swingor-sitemap/Sitemap.cs:19-22 | Returns None exactly when no entry has this Class and Method. Otherwise returns the first such entry. |
| Config.ExclusionsFor | swingor-processors/BasicProcessors.cs:24-27 | Returns the Exclusions of the first entry matching Class and Method, or the empty list when there is none. |
| Config.ConfigFor | swingor-rss/RSS.cs:23-26 | Returns the first entry matching Class and Method, or `new Processor()` when there is none. |
| Metadata.Put | swingor/Program.cs:232 | `meta[k] = v`: k now maps to v and every other key is unchanged. |
| Metadata.PutOrder | swingor/Program.cs:232 | Overwriting keeps every entry's position. A new key goes at the end. |
| Metadata.PutDistinct | swingor/Program.cs:232 | Keys stay distinct. |
| Metadata.KeyOfEntryIsFound | swingor/Program.cs:258 | Every entry's key is found by lookup. |
| Metadata.GetFirstMatch | swingor/Program.cs:211-218 | Lookup returns the first entry with the key. |
| Metadata.ReplaceTemplatesAppend | swingor/Program.cs:258 | Substituting with m1 + m2 is substituting with m1, then with m2, one entry at a time in order. |
| Metadata.ReplaceTemplatesWithoutMarkers | swingor/Program.cs:258 | A buffer that contains no `{{key}}` for any key is left unchanged. |
| Metadata.OnlyMarker | swingor/Program.cs:258 | In brace-free text with one `{{key}}`, no other key's marker occurs. |
| Metadata.RenderAppend | swingor/Program.cs:258 | A template of literal text and `{{key}}` holes renders piecewise: the rendering of a + b is the rendering of a followed by that of b. |
| Metadata.ReplaceAllRender | swingor/Program.cs:258 | One `Replace("{{key}}", value)` over a well-formed template fills exactly the holes for that key, wherever they are, and changes nothing else. |
| Metadata.FillStep | swingor/Program.cs:256-259 | Filling holes from the first entry, then from the rest, is filling them from the whole dictionary. |
| Metadata.ReplaceTemplatesRender | swingor/Program.cs:256-259 | ReplaceTemplates (the loop over the dictionary) on a template with any number of markers, in any order: each marker gets its key's value, and markers of missing keys stay. Holds when keys, values and literal text are brace-free. |
| Metadata.ReplaceTemplatesBeforeLiteral | swingor/Program.cs:256-259 | The template's markers are filled and brace-free text after it is left alone. |
| Metadata.TwoMarkersFilled | swingor/Program.cs:256-259 | Text with two markers between brace-free literals gets both values in place. |
| Metadata.TestPageFilled | test-swingor/Swingor_ReplaceTemplatesWithMetadata.cs:15-36 | The test's page with `{{title}}` and `{{author}}`, for any brace-free author and title, becomes the page with both values in place. |
| Metadata.ReplaceTemplatesWithMetadata | swingor/Program.cs:256-259 | The buffer becomes ReplaceTemplates of its old content, with each entry replaced in turn. |
| FrontMatter.LinesOfJoinLines | swingor/Program.cs:223-226 | Reading lines back from lines joined with "\n" gives the lines. |
| FrontMatter.StringReader.ReadLine | swingor/Program.cs:226 | At the end it returns None (null). Otherwise it returns the text up to the next line break and moves past the break. |
| FrontMatter.StringReader.ReadToEnd | swingor/Program.cs:236 | Returns everything unread and leaves nothing. |
| FrontMatter.DefaultsValues | swingor/Program.cs:211-218 | The seed map has author, title, subtitle "", date and copyright. |
| FrontMatter.ParseYAML | swingor/Program.cs:209-240 | The reader loop returns exactly (remainder, map) of `Parse` over the seeded defaults. |
| FrontMatter.ScanBlockAppliesLines | swingor/Program.cs:226-234 | The block scan applies exactly the lines before the first `---`/`...` line, in order. |
| FrontMatter.ParseAppliesBlockLines | swingor/Program.cs:223-234 | The map is the defaults updated by the block lines, and by nothing after the terminator. |
| FrontMatter.LastSettingWins | swingor/Program.cs:232 | A key ends with the value of its last setting line. Otherwise it keeps its earlier value. |
| FrontMatter.ApplyLinesKeepsKeys | swingor/Program.cs:232 | No line removes a key. |
| FrontMatter.DefaultsSurvive | swingor/Program.cs:211-218 | Whatever the input, the map holds author, title, subtitle, date and copyright. |
| FrontMatter.BlockSettingsWin | test-swingor/Swingor_ParseYAML.cs:25-28 | A key the block sets takes its last value. A key it does not set keeps its default. |
| FrontMatter.WithoutOpener | swingor/Program.cs:223-224 | If the first line is not exactly `---`, the map is the defaults and the remainder is everything after line 1. |
| FrontMatter.ClosedBlock | swingor/Program.cs:226-236 | With a `---`/`...` terminator, the block lines are applied and the remainder is the text after the terminator. |
| FrontMatter.UnterminatedBlock | swingor/Program.cs:226-236 | Without a terminator, all lines are applied and the remainder is "". |
| FrontMatter.KeyValueLine | swingor/Program.cs:228-232 | A line `key:value` with a colon-free, non-`#` key sets Trim(key) to Trim(value). |
| FrontMatter.SettingLine | test-swingor/Swingor_ParseYAML.cs:34-41 | A `key: value` line sets exactly key to value. |
| FrontMatter.PutAllDistinct | swingor/Program.cs:232 | With distinct keys, every key maps to its value. |
| FrontMatter.PutAllKeeps | swingor/Program.cs:232 | A key not among those written keeps its value. |
| FrontMatter.ApplySettingLines | swingor/Program.cs:226-234 | A run of `key: value` lines has the effect of writing those pairs in order. |
| FrontMatter.SettingsBlock | swingor/Program.cs:209-240 | A document `---`, setting lines, `...`, body parses to (body, defaults with those pairs). |
| FrontMatter.IgnoredLines | swingor/Program.cs:230 | A line without ':' sets nothing. Neither does a line whose trimmed key starts with '#'. |
| FrontMatter.ScanBlockRemainder | swingor/Program.cs:226-236 | The block scan (ScanBlock) only consumes: what it returns as remainder is a suffix of its input. |
| FrontMatter.ParseRemainder | swingor/Program.cs:220-238 | The text ParseYAML returns (Parse) is the unread tail of its input. |
| FrontMatter.ParseYAMLMetadata | swingor-processors/BasicProcessors.cs:124-152 | The map-only variant returns the same map as the tuple variant. |
| FrontMatterExamples.ParseYAMLExpectedValues | test-swingor/Swingor_ParseYAML.cs:31-48 | A block setting all five well-known keys overrides every default. The remainder is the body. |
| FrontMatterExamples.ParseYAMLExpectedDefaults | test-swingor/Swingor_ParseYAML.cs:17-29 | A block setting only title and date leaves author, subtitle "" and copyright at their defaults. |
| Pipeline.NeedsRebuild | swingor-processors/BasicProcessors.cs:45-47 | Returns false exactly when the output exists and is not older than the input. Equal times mean no rebuild. |
| Pipeline.WrittenOutputIsFresh | swingor/Program.cs:84-86 | Once written or copied at a time not before the input's, the output no longer needs a rebuild. |
| Pipeline.DistinctPermutation | swingor-sitemap/Sitemap.cs:35 | Reordering a duplicate-free list keeps it duplicate-free. |
| Pipeline.Except | swingor-processors/BasicProcessors.cs:36-37 | LINQ `Except` keeps exactly the elements of the first list that are not in the second, each once. |
| Pipeline.ExceptOrder | swingor-processors/BasicProcessors.cs:36-37 | `Except` yields elements in order of first occurrence. |
| Pipeline.ExceptFromDistinct | swingor-processors/BasicProcessors.cs:36-37 | A duplicate-free list with nothing excluded passes through unchanged. |
| Pipeline.MatchingFilesMembership | swingor-processors/BasicProcessors.cs:36-37 | A file is processed exactly when it is enumerated and is not Combine(root, e) for any exclusion e. Each file appears once. |
| Pipeline.ForEachFileCovers | swingor-processors/BasicProcessors.cs:36-58 | The run holds every file's effects and no others. |
| Pipeline.ForEachFileAgree | swingor-processors/BasicProcessors.cs:36-58 | Two per-file handlers that agree on every file of the list give the same run. |
| Pipeline.ForEachWildcardAppend | swingor-processors/BasicProcessors.cs:34-59 | Wildcard groups are independent: the run over w1 + w2 is the run over w1 followed by the run over w2. |
| Pipeline.ForEachWildcardSingle | swingor-processors/BasicProcessors.cs:34-37 | One wildcard is one group over its matching files. |
| Pipeline.ForEachWildcardTwice | swingor-processors/BasicProcessors.cs:34-37 | A file matched by two wildcards is handled in both groups, with no de-duplication across groups. |
| Pipeline.MatchingFilesWithoutExclusions | swingor/Program.cs:77 | With no exclusions, the matching files are the enumeration itself. |
| Pipeline.GroupedCovers | swingor-sitemap/Sitemap.cs:31-43 | A file is in the grouped listing exactly when some wildcard's group holds it. |
| Pipeline.AppendGroups | swingor-sitemap/Sitemap.cs:31-43 | The nested loops append one line per file of each group, group after group. |
| Ordering.LessEqTotal | swingor-sitemap/Sitemap.cs:35 | Ordinal comparison is total. |
| Ordering.LessEqTransitive | swingor-sitemap/Sitemap.cs:35 | Ordinal comparison is transitive. |
| Ordering.LessEqAntisymmetric | swingor-sitemap/Sitemap.cs:35 | Ordinal comparison is antisymmetric. |
| Ordering.OrderByOrdinal | swingor-sitemap/Sitemap.cs:35 | `OrderBy(p => p)` returns a permutation of its input. |
| Ordering.OrderByDescending | swingor-rss/RSS.cs:50 | `OrderByDescending` returns a permutation of its input. |
| Ordering.OrderByOrdinalSorted | swingor-sitemap/Sitemap.cs:35 | `OrderBy(p => p)` is sorted ascending and a permutation of its input. |
| Ordering.OrderByDescendingSpec | swingor-rss/RSS.cs:50 | The result is sorted newest first and is a permutation. It is stable: the items with any one key keep their input order. |
| Ordering.OrderByDescendingPrefix | swingor-rss/RSS.cs:50-51 | A prefix of the descending order is sorted and drawn from the input. Nothing left out has a larger key than one kept. Equal keys keep their order. |
| BasicProcessors.OutputDirectoryAsWrittenLeavesOutputPath | swingor-processors/BasicProcessors.cs:39-40 | As written, a file root/sub/name is given the output directory "/sub", which is outside OutputPath. |
| BasicProcessors.OutputDirectoryMirrorsInput | swingor-processors/BasicProcessors.cs:39-40 | Corrected: root/sub/name goes to OutputPath/sub, and root/name to OutputPath. |
| BasicProcessors.OutputFileNaming | swingor-processors/BasicProcessors.cs:42 | In either layout, a Markdown output is named base name + ".html". A static output keeps the full file name. |
| BasicProcessors.MirroredOutputUnderOutputPath | swingor-processors/BasicProcessors.cs:39-42 | Corrected, every output directory and output file starts with OutputPath. |
| BasicProcessors.OutputNameIsAName | swingor-processors/BasicProcessors.cs:42 | An output name is a bare, unrooted file name. It is empty only for a static file with an empty name. |
| BasicProcessors.PageWithoutMarkers | swingor-processors/BasicProcessors.cs:49-55 | Without markers, the page is prepends + rendered body + postpends. |
| BasicProcessors.PageFillsLayout | swingor-processors/BasicProcessors.cs:49-55 | Substitution runs over the whole concatenation, so every marker in the prepended layout is filled with its key's value, and brace-free body and postpends are kept. |
| BasicProcessors.AppendAll | swingor-processors/BasicProcessors.cs:50 | Appending each layout file adds their contents in list order. |
| BasicProcessors.AssemblePage | swingor-processors/BasicProcessors.cs:49-55 | The builder's final text is Page: the assembled text with the templates filled. |
| BasicProcessors.ProcessFile | swingor-processors/BasicProcessors.cs:39-57 | Handling one file is FileEffects: create the output directory, then write the page or copy the file only when the output needs a rebuild. As a processor calls it, the directory is the as-written one. |
| BasicProcessors.ProcessGroup | swingor-processors/BasicProcessors.cs:36-58 | Handles the files of one group in order. |
| BasicProcessors.ProcessWildcards | swingor-processors/BasicProcessors.cs:34-59 | Handles group after group, in wildcard order. |
| BasicProcessors.ProcessMarkdownFiles | swingor-processors/BasicProcessors.cs:21-61 | The run's effects are Effects(Markdown, AsWritten): the configured exclusions, outputs at the as-written paths, the whole file given to the front-matter-aware pipeline, and nothing at all without the input directory. |
| BasicProcessors.ProcessStaticFiles | swingor-processors/BasicProcessors.cs:68-100 | The run's effects are Effects(Static, AsWritten). |
| BasicProcessors.NoInputDirectoryNoEffects | swingor-processors/BasicProcessors.cs:29 | Nothing is done when InputPath does not exist. |
| BasicProcessors.FileEffectsShape | swingor-processors/BasicProcessors.cs:41-56 | The output directory is always created. A stale output is rebuilt. |
| BasicProcessors.FileRebuildsOnlyIfStale | swingor-processors/BasicProcessors.cs:45-47 | Any write or copy happens only when the output needs a rebuild. |
| BasicProcessors.GroupRebuilds | swingor-processors/BasicProcessors.cs:91-95 | Over a whole group, every stale file is rebuilt and every write or copy is for a stale file. |
| BasicProcessors.RebuildTarget | swingor-processors/BasicProcessors.cs:56 | A rebuild writes or copies to the file's output file. |
| BasicProcessors.FileCreatesOnlyItsDirectory | swingor-processors/BasicProcessors.cs:41 | The only directory handling a file creates is its output directory. |
| BasicProcessors.FileTargets | swingor-processors/BasicProcessors.cs:41-56 | Handling a file touches only its output directory and its output file. |
| BasicProcessors.AsWrittenSubfolderEscapes | swingor-processors/BasicProcessors.cs:39-41 | As written, handling root/sub/name creates the directory "/sub", whatever OutputPath is. |
| BasicProcessors.MirroredFileStaysUnder | swingor-processors/BasicProcessors.cs:39-56 | Corrected, everything handling one file creates, writes or copies lies under OutputPath. |
| BasicProcessors.MirroredGroupStaysUnder | swingor-processors/BasicProcessors.cs:36-58 | Corrected, everything a whole group creates, writes or copies lies under OutputPath. |
| ProgramProcessors.ProcessMarkdownFiles | swingor/Program.cs:67-99 | The run's effects are ProgramEffects(Markdown): one wildcard, no exclusions, as-written output paths, and only the text after the front matter given to the default pipeline. |
| ProgramProcessors.ProcessStaticFiles | swingor/Program.cs:105-128 | The run's effects are ProgramEffects(Static): one wildcard, no exclusions, as-written output paths. |
| ProgramProcessors.ProgramIsBasicWithoutExclusions | swingor/Program.cs:77-86 | With one wildcard, no configured exclusions and no file enumerated twice, a Program run is the shared wildcard/file loop with the same per-file handler. For static files that is exactly BasicProcessors.ProcessStaticFiles' run. |
| ProgramProcessors.SameRenderingSameEffects | swingor/Program.cs:88-95 | A Markdown file is handled alike by the two variants when the two pipelines render it alike. |
| ProgramProcessors.ProgramMarkdownIsBasic | swingor/Program.cs:67-99 | With one wildcard, no configured exclusions and no file enumerated twice, Program.ProcessMarkdownFiles does what BasicProcessors.ProcessMarkdownFiles does once the default pipeline on each file's text after the front matter gives what the front-matter-aware pipeline gives on the whole file. |
| ProgramProcessors.PageOfFrontMatterDocument | swingor/Program.cs:88-95 | For a file that opens with a closed block of settings, both variants fill the page from the same metadata. Program renders the text after the block with the default pipeline. BasicProcessors renders the whole file with the front-matter-aware pipeline. |
| Sitemap.ProcessSitemap | swingor-sitemap/Sitemap.cs:16-47 | The run writes header + one `<url>` line per file of each group + footer to OutputPath/sitemap.xml, or nothing when OutputPath is missing. |
| Sitemap.SitemapText | swingor-sitemap/Sitemap.cs:28-44 | The sitemap starts with the `<urlset>` header and ends with `</urlset>`. |
| Sitemap.SitemapEffects | swingor-sitemap/Sitemap.cs:24-46 | A run writes at most one file, exactly when OutputPath exists, and that file is OutputPath/sitemap.xml. |
| Sitemap.GroupFilesSpec | swingor-sitemap/Sitemap.cs:33-35 | A group is sorted ascending and duplicate-free. It holds exactly the enumerated files that are not root-joined exclusions. |
| Sitemap.UrlsMembership | swingor-sitemap/Sitemap.cs:31-37 | A file is listed exactly when some wildcard enumerates it and it is not excluded. |
| Sitemap.SitemapWithoutConfig | swingor-sitemap/Sitemap.cs:19-22 | Without its own configuration entry, the sitemap is header + footer. |
| Sitemap.NoOutputDirectoryNoSitemap | swingor-sitemap/Sitemap.cs:24 | Nothing is written when OutputPath does not exist. |
| Sitemap.LocEscaped | swingor-sitemap/Sitemap.cs:41 | Every `&` in a `<loc>` starts `&amp;`. The loc unescapes to TargetURL + "/" + bare file name. |
| Rss.ProcessRSSFeed | swingor-rss/RSS.cs:20-112 | The run is Feed. It writes nothing without OutputPath and stops when a wildcard is enumerated in a missing input directory. Otherwise it writes header + items + footer to OutputPath/rss.xml. |
| Rss.BuildFeed | swingor-rss/RSS.cs:34-109 | The builder's text is header, one item per selected file of each group, then `\t</channel>\n</rss>`. |
| Rss.NotExcluded | swingor-rss/RSS.cs:47-48 | A file is kept exactly when its bare name is not in the exclusion list. |
| Rss.FirstStartingWith | swingor-rss/RSS.cs:65 | Returns None exactly when no line has the prefix. Otherwise returns the first such line. |
| Rss.FeedFilesSpec | swingor-rss/RSS.cs:47-51 | Items are newest first and drawn from the non-excluded files. With a positive StopAfter there are exactly StopAfter of them, or all when fewer are selected. Uncapped, all of them are kept. None left out is newer than one kept. Ties keep their order. |
| Rss.TitleFromSetting | swingor-rss/RSS.cs:65-72 | The first `title:` line's trimmed value is the title, whatever headings follow. |
| Rss.EmptyTitleSettingUsesFileName | swingor-rss/RSS.cs:69-86 | An empty `title:` value gives the base file name, without consulting headings. |
| Rss.TitleFromHeading | swingor-rss/RSS.cs:73-81 | Without a `title:` line, the first "# " heading gives the title. |
| Rss.UntitledUsesFileName | swingor-rss/RSS.cs:82-86 | With neither a `title:` line nor a heading, the title is the base file name. |
| Rss.HashSpaceRemovedFromSetting | swingor-rss/RSS.cs:78-80 | "# " is removed from a `title:` value as well, and the result is trimmed. |
| Rss.HashSpaceExample | swingor-rss/RSS.cs:78-80 | `title: C# x` yields "Cx". |
| Rss.DateFromSetting | swingor-rss/RSS.cs:88-93 | The first `date:` line's trimmed value is the date. |
| Rss.DateFromLastWrite | swingor-rss/RSS.cs:94-97 | Without a `date:` line, the date is the file's formatted last-write time. |
| Rss.LinkEscaped | swingor-rss/RSS.cs:101 | Every `&` in the link starts `&amp;`. The link unescapes to TargetURL + "/" + base name + ".html". |
| Rss.ItemIdentityByName | swingor-rss/RSS.cs:55-61 | The guid and the link depend only on the file's name. |
| Rss.FeedOutcome | swingor-rss/RSS.cs:30-47 | Nothing is written exactly when OutputPath is missing. The run stops on a missing input directory exactly when OutputPath exists and a wildcard is enumerated. Otherwise the feed goes to OutputPath/rss.xml. |
| Rss.FeedTextFramed | swingor-rss/RSS.cs:34-109 | The document starts with the channel header and ends with `\t</channel>\n</rss>`. |
| Rss.NoOutputDirectoryNoFeed | swingor-rss/RSS.cs:30 | Nothing is written when OutputPath does not exist. |
| Rss.FeedWithoutConfig | swingor-rss/RSS.cs:23-28 | Without its own entry, nothing is excluded or capped: each group is all enumerated files, newest first. |

## Left out

- Reflection dispatch (`Assembly.LoadFrom`, `GetMethod`, `Invoke`) and `Main`'s `Task.Run`/`Task.WaitAll` are dynamic loading and concurrency, so they are not modelled.
- `Parallel.ForEach` is modelled as a sequential loop. The effects are listed in loop order, and races between parallel writes are not modelled.
- File-system calls are assumed to succeed. `readAllText` is total, so a missing prepend or postpend reads as some text. In the source, `File.ReadAllText` then throws FileNotFoundException (swingor-processors/BasicProcessors.cs:50, 54; swingor/Program.cs:89, 93). `Directory.CreateDirectory`, `File.WriteAllText` and `File.Copy` (BasicProcessors.cs:41, 56, 87, 95; Program.cs:81, 95, 117, 124) can also throw. Any of these exceptions aborts the remaining `Parallel.ForEach` iterations. The model does not capture the abort. So BasicProcessors.GroupRebuilds, BasicProcessors.FileEffectsShape, BasicProcessors.ProcessMarkdownFiles and ProgramProcessors.ProcessMarkdownFiles promise writes that the source does not perform when a layout file is absent or an I/O call fails.
- Effects are not applied while a run proceeds. Every staleness test and every file read in a run uses the file system as it was before the run. So when two wildcards match one file, the model rebuilds it twice (Pipeline.ForEachWildcardTwice), while the source's second test may already see the first write. The model does not capture what one file's write does to a later decision in the same run.
- Kestrel serving (`Configure`, `Serve`) is web-server plumbing and is not modelled.
- `GetConfiguration` is a Microsoft.Extensions.Configuration binder, so it is not modelled. `DeleteDirectory` and `PrepareOutputDirectories` are plain file-system I/O and are not modelled either.
- swingor-image/ImageProcessor.cs is not part of this model. It consists of image-library calls and floating-point watermark scaling.
- Markdig's `Markdown.ToHtml` is two parameters. `Environment.markdownToHtml` is the default pipeline (swingor/Program.cs:92). `Environment.yamlPipelineToHtml` is the `UseYamlFrontMatter().UseAdvancedExtensions()` pipeline (swingor-processors/BasicProcessors.cs:32, 53). That the second pipeline leaves the front-matter block out of its HTML is Markdig's behaviour, and the model does not capture it.
- ProgramIsBasicWithoutExclusions: for Markdown it relates the Program run to the shared loop with Program's own handler, not to BasicProcessors' run. ProgramMarkdownIsBasic makes that comparison, and it needs as a premise that the two pipelines render each file alike, because Markdig is a parameter.
- PageOfFrontMatterDocument: states what each variant renders and which metadata fills the page. Whether the two pages are equal depends on Markdig's two renderings, which are parameters.
- The MD5-based GUID is a parameter: `FeedEnvironment.nameGuid`, a function of the file name.
- `DateTime.Now` and its formatting are parameters, given as strings.
- `Path.GetFullPath` is the identity, so paths are taken as already normalised.
- `Path.Combine`, `GetFileName`, `GetDirectoryName` and `GetFileNameWithoutExtension` are modelled on '/' separators only. Drive letters and '\\' are not modelled.
- `StartsWith` and `OrderBy` on strings are culture-sensitive in .NET. They are modelled as ordinal comparison.
- `DirectoryInfo.EnumerateFileSystemInfos` also returns directories. The RSS model enumerates files only.
- Rss.FeedFiles: `Take(int.MaxValue)` is modelled as taking everything, because no enumeration reaches int.MaxValue items.
- `new Processor()` in swingor/Processor.cs initialises only `Exceptions`, so its `Wildcards` and `Exclusions` are null. Only BasicProcessors falls back to an empty exclusion list, with `?? new List<string>()` (swingor-processors/BasicProcessors.cs:27, 74). Sitemap.cs:31 and 34 dereference `myConfig.Wildcards` and `myConfig.Exclusions`, and RSS.cs:48 dereferences `myConfig.Exclusions`, with no fallback. The model's `NewProcessor` has empty lists instead of nulls.
- Sitemap.SitemapWithoutConfig: without its own configuration entry the source throws NullReferenceException at Sitemap.cs:31 once OutputPath exists. The model writes header + footer instead.
- Rss.FeedWithoutConfig: without its own configuration entry the source throws NullReferenceException at RSS.cs:48 as soon as a wildcard enumerates a file. The model excludes nothing instead.
- The constructor of `DirectoryToProcess` (swingor/DirectoryToProcess.cs:8-18) leaves `TargetURL`, `SiteTitle` and `SiteDescription` null. `Replace` on them then throws NullReferenceException: at RSS.cs:37-39 whenever the feed is written, and at Sitemap.cs:41 once a file is listed. The model's `NewDirectoryToProcess` uses "" for the three, so it writes the document instead of failing.
- Rss.ProcessRSSFeed creates its StringBuilder after the input-directory check rather than before it. Nothing observable depends on that order.
- `ArgumentNullException` on a null `directory` is not modelled, because Dafny values are never null.
- Text.StringBuilder.Append, Text.StringBuilder.Replace, FrontMatter.StringReader.ReadLine and FrontMatter.StringReader.ReadToEnd describe in-place changes with `old`. Their partners are the specification functions that the callers' contracts use.

## Findings

| source | as written | input that shows it | evidently intended | confidence | as-written member | corrected member |
|---|---|---|---|---|---|---|
| swingor-processors/BasicProcessors.cs:39-42 (the same pattern is in swingor/Program.cs:79-82 and 115-118) | `GetSubdirectory` keeps the leading separator of the subdirectory ("/blog"). `Path.Combine(OutputPath, "/blog")` then discards OutputPath because its second argument is rooted. The processors model this as written (`AsWritten`); OutputDirectoryAsWrittenLeavesOutputPath states it for the directory alone. | InputPath "/in", OutputPath "/out", file "/in/blog/post.md": the run creates "/blog" and writes "/blog/post.html", not "/out/blog/post.html" | mirror the input tree below OutputPath: "/out/blog". The corrected run is Effects(kind, Mirrored); OutputDirectoryMirrorsInput gives its directory | not executed | BasicProcessors.AsWrittenSubfolderEscapes | BasicProcessors.MirroredGroupStaysUnder |
