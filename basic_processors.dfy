/** BasicProcessors: turns the Markdown files of an input directory into
    HTML pages, and copies static files across. Each file is handled only
    when its output is missing or older than the file itself. A run is
    modelled as the sequence of effects it performs, in the order of a
    sequential run of its two nested parallel loops; every staleness test
    reads the file system as it was before the run. */
module BasicProcessors {
  import opened Wrappers
  import opened Text
  import opened Paths
  import opened Config
  import opened Metadata
  import opened FrontMatter
  import opened Pipeline

  /** What a processor takes from outside the file system: Markdig's two
      renderings (Markdown.ToHtml with the default pipeline, as Program
      calls it, and with the pipeline built by UseYamlFrontMatter and
      UseAdvancedExtensions, as BasicProcessors calls it) and the two date
      strings ParseYAML puts in as defaults (today as "dddd, MMMM dd, yyyy"
      and the year as "yyyy"). */
  datatype Environment = Environment(
    markdownToHtml: string -> string,
    yamlPipelineToHtml: string -> string,
    today: string,
    year: string)

  /** The kinds of file handled: Markdown rendered to a page, or a static
      file copied as it is. The Program variant of the Markdown processor
      renders only the text after the front matter with the default
      pipeline; the BasicProcessors variant renders the whole file with the
      front-matter-aware pipeline. */
  datatype Kind = Markdown(inProgram: bool) | Static

  /** Where outputs go. AsWritten is what the source does: Path.Combine of
      OutputPath and the subdirectory, which keeps its leading separator
      and so replaces OutputPath. Mirrored is the evidently intended layout:
      the subdirectory taken relative, below OutputPath. */
  datatype Layout = AsWritten | Mirrored

  /** The method name each kind's configuration entry is looked up under. */
  function MethodName(kind: Kind): string
  {
    match kind
    case Markdown(_) => "ProcessMarkdownFiles"
    case Static => "ProcessStaticFiles"
  }

  // ---------------------------------------------------------------------
  // Output naming

  /** The output directory of `file`: its directory with the input root
      removed, combined with OutputPath, as written or as intended. */
  function OutputDirectory(layout: Layout, outputPath: string, root: string, file: string): string
  {
    var subdirectory := GetSubdirectory(root, GetDirectoryName(file));
    match layout
    case AsWritten => Combine(outputPath, subdirectory)
    case Mirrored => Combine(outputPath, TrimLeadingSeparators(subdirectory))
  }

  /** As written, a file in a subfolder below the root gets the
      subdirectory with its leading separator, a rooted path, and
      Path.Combine discards OutputPath: the output lands outside the
      output tree. */
  lemma OutputDirectoryAsWrittenLeavesOutputPath(outputPath: string, root: string, sub: string, name: string)
    requires root != [] && root[|root| - 1] != Separator
    requires sub != [] && Separator !in sub
    requires Separator !in name
    ensures OutputDirectory(AsWritten, outputPath, root, root + "/" + sub + "/" + name) == "/" + sub
  {
    SubfolderSubdirectory(root, sub, name);
  }

  /** The subdirectory of a file `root/sub/name` is "/sub". */
  lemma SubfolderSubdirectory(root: string, sub: string, name: string)
    requires root != [] && root[|root| - 1] != Separator
    requires sub != [] && Separator !in sub
    requires Separator !in name
    ensures GetSubdirectory(root, GetDirectoryName(root + "/" + sub + "/" + name)) == "/" + sub
  {
    var d := root + "/" + sub;
    assert root + "/" + sub + "/" + name == d + [Separator] + name;
    GetDirectoryNameOfJoin(d, name);
    assert StartsWith(d, root);
    assert d[|root|..] == "/" + sub;
  }

  /** Corrected, a file in a subfolder goes to the same subfolder of
      OutputPath, a file directly under the root to OutputPath itself. */
  lemma OutputDirectoryMirrorsInput(outputPath: string, root: string, sub: string, name: string)
    requires root != [] && root[|root| - 1] != Separator
    requires sub != [] && Separator !in sub
    requires Separator !in name
    ensures OutputDirectory(Mirrored, outputPath, root, root + "/" + sub + "/" + name) == Combine(outputPath, sub)
    ensures OutputDirectory(Mirrored, outputPath, root, root + "/" + name) == outputPath
  {
    SubfolderSubdirectory(root, sub, name);
    assert ("/" + sub)[1..] == sub;
    assert sub[0] != Separator by {
      assert sub[0] in sub;
    }
    assert TrimLeadingSeparators("/" + sub) == sub;
    TopLevelSubdirectory(root, name);
  }

  /** The subdirectory of a file directly under the root is empty. */
  lemma TopLevelSubdirectory(root: string, name: string)
    requires root != [] && root[|root| - 1] != Separator
    requires Separator !in name
    ensures GetSubdirectory(root, GetDirectoryName(root + "/" + name)) == []
  {
    assert root + "/" + name == root + [Separator] + name;
    GetDirectoryNameOfJoin(root, name);
    GetSubdirectoryOfItself(root);
  }

  /** The output file name: the base name with ".html" for a Markdown file,
      the full file name for a static one. */
  function OutputName(kind: Kind, file: string): string
  {
    match kind
    case Markdown(_) => GetFileNameWithoutExtension(file) + ".html"
    case Static => GetFileName(file)
  }

  function OutputFile(kind: Kind, layout: Layout, outputPath: string, root: string, file: string): string
  {
    Combine(OutputDirectory(layout, outputPath, root, file), OutputName(kind, file))
  }

  /** Whatever the layout, an output is named after its input: the base
      name with ".html" for Markdown, the full file name for a static file. */
  lemma OutputFileNaming(kind: Kind, layout: Layout, outputPath: string, root: string, file: string)
    ensures kind.Markdown? ==>
      GetFileName(OutputFile(kind, layout, outputPath, root, file)) == GetFileNameWithoutExtension(file) + ".html"
    ensures kind == Static && GetFileName(file) != [] ==>
      GetFileName(OutputFile(kind, layout, outputPath, root, file)) == GetFileName(file)
  {
    var name := OutputName(kind, file);
    OutputNameIsAName(kind, file);
    if name != [] {
      GetFileNameOfCombine(OutputDirectory(layout, outputPath, root, file), name);
    }
  }

  /** Corrected, every output directory and output file lies under
      OutputPath, whatever the input file. */
  lemma MirroredOutputUnderOutputPath(kind: Kind, outputPath: string, root: string, file: string)
    ensures StartsWith(OutputDirectory(Mirrored, outputPath, root, file), outputPath)
    ensures StartsWith(OutputFile(kind, Mirrored, outputPath, root, file), outputPath)
  {
    var dir := OutputDirectory(Mirrored, outputPath, root, file);
    CombineRelative(outputPath, TrimLeadingSeparators(GetSubdirectory(root, GetDirectoryName(file))));
    OutputNameIsAName(kind, file);
    CombineRelative(dir, OutputName(kind, file));
  }

  /** An output name is a bare file name, and it is empty only for a static
      file with an empty name. */
  lemma OutputNameIsAName(kind: Kind, file: string)
    ensures Separator !in OutputName(kind, file)
    ensures !IsPathRooted(OutputName(kind, file))
    ensures OutputName(kind, file) == [] <==> kind == Static && GetFileName(file) == []
  {
    var name := OutputName(kind, file);
    if kind.Markdown? {
      var base := GetFileNameWithoutExtension(file);
      assert name == base + ".html";
      assert Separator !in ".html";
      assert forall i | 0 <= i < |name| :: name[i] == if i < |base| then base[i] else ".html"[i - |base|];
    }
    if name != [] {
      assert name[0] in name;
    }
  }

  // ---------------------------------------------------------------------
  // Page assembly

  /** The contents of `files`, each read from Path.Combine(inputPath, file), one after the other. */
  function ReadAll(fs: FileSystem, inputPath: string, files: seq<string>): string
  {
    if files == [] then []
    else ReadAll(fs, inputPath, files[..|files| - 1]) + fs.readAllText(Combine(inputPath, files[|files| - 1]))
  }

  /** The prepends, the rendered body, then the postpends. */
  function Assembled(fs: FileSystem, dir: DirectoryToProcess, body: string): string
  {
    ReadAll(fs, dir.inputPath, dir.prepends) + body + ReadAll(fs, dir.inputPath, dir.postpends)
  }

  /** The page: the metadata substituted over the whole assembled text. */
  function Page(fs: FileSystem, dir: DirectoryToProcess, body: string, meta: Dict): string
  {
    ReplaceTemplates(Assembled(fs, dir, body), meta)
  }

  /** The text after the front matter and the metadata, with this run's defaults. */
  function FrontMatterOf(env: Environment, dir: DirectoryToProcess, text: string): (string, Dict)
  {
    Parse(text, Defaults(dir.defaultAuthor, dir.defaultTitle, env.today, env.year))
  }

  /** The body Markdig renders for `file`. BasicProcessors gives the whole
      file text, front matter included, to its front-matter-aware pipeline;
      Program gives the text after the front matter to the default one. */
  function RenderedBody(env: Environment, dir: DirectoryToProcess, text: string, inProgram: bool): string
  {
    if inProgram then env.markdownToHtml(FrontMatterOf(env, dir, text).0)
    else env.yamlPipelineToHtml(text)
  }

  /** The page written for `file`. */
  function MarkdownPage(fs: FileSystem, env: Environment, dir: DirectoryToProcess, file: string, inProgram: bool): string
  {
    var text := fs.readAllText(file);
    Page(fs, dir, RenderedBody(env, dir, text, inProgram), FrontMatterOf(env, dir, text).1)
  }

  /** Without a marker for any metadata key, the page is the plain
      concatenation of prepends, rendered body and postpends. */
  lemma PageWithoutMarkers(fs: FileSystem, dir: DirectoryToProcess, body: string, meta: Dict)
    requires forall i | 0 <= i < |meta| :: !Occurs(Assembled(fs, dir, body), Marker(meta[i].key))
    ensures Page(fs, dir, body, meta) ==
      ReadAll(fs, dir.inputPath, dir.prepends) + body + ReadAll(fs, dir.inputPath, dir.postpends)
  {
    ReplaceTemplatesWithoutMarkers(Assembled(fs, dir, body), meta);
  }

  /** Markers in the prepended layout files are filled like ones in the
      body: substitution runs over the whole assembled text, and each
      marker gets the value of its key. */
  lemma PageFillsLayout(fs: FileSystem, dir: DirectoryToProcess, body: string, meta: Dict, layout: seq<Segment>)
    requires ReadAll(fs, dir.inputPath, dir.prepends) == Render(layout)
    requires WellFormed(layout) && BraceFreeEntries(meta)
    requires BraceFree(body + ReadAll(fs, dir.inputPath, dir.postpends))
    ensures Page(fs, dir, body, meta) ==
      Render(Fill(layout, meta)) + body + ReadAll(fs, dir.inputPath, dir.postpends)
  {
    var rest := body + ReadAll(fs, dir.inputPath, dir.postpends);
    assert Assembled(fs, dir, body) == Render(layout) + rest;
    ReplaceTemplatesBeforeLiteral(layout, rest, meta);
  }

  /** Appends the contents of `files`, one after the other (the
      `ForEach` over Prepends or Postpends). */
  method AppendAll(outputText: StringBuilder, fs: FileSystem, inputPath: string, files: seq<string>)
    modifies outputText
    ensures outputText.content == old(outputText.content) + ReadAll(fs, inputPath, files)
  {
    for i := 0 to |files|
      invariant outputText.content == old(outputText.content) + ReadAll(fs, inputPath, files[..i])
    {
      outputText.Append(fs.readAllText(Combine(inputPath, files[i])));
      assert files[..i + 1][..i] == files[..i];
    }
    assert files[..|files|] == files;
  }

  /** Builds the page as the processor does: a StringBuilder gets the
      prepends, the rendered Markdown and the postpends appended in turn,
      then the metadata substituted in place. */
  method AssemblePage(fs: FileSystem, dir: DirectoryToProcess, body: string, meta: Dict)
    returns (page: string)
    ensures page == Page(fs, dir, body, meta)
  {
    var outputText := new StringBuilder([]);
    AppendAll(outputText, fs, dir.inputPath, dir.prepends);
    outputText.Append(body);
    AppendAll(outputText, fs, dir.inputPath, dir.postpends);
    assert outputText.content == Assembled(fs, dir, body);
    ReplaceTemplatesWithMetadata(outputText, meta);
    page := outputText.ToString();
  }

  // ---------------------------------------------------------------------
  // The effects of a run

  /** The path an effect creates or writes. */
  function Target(e: Effect): string
  {
    match e
    case CreateDirectory(p) => p
    case WriteAllText(p, _) => p
    case CopyFile(_, dst) => dst
  }

  /** What rebuilding `file` does: write the page, or copy the file. */
  function RebuildEffect(kind: Kind, layout: Layout, fs: FileSystem, env: Environment, dir: DirectoryToProcess,
                         root: string, file: string): Effect
  {
    var output := OutputFile(kind, layout, dir.outputPath, root, file);
    match kind
    case Markdown(inProgram) => WriteAllText(output, MarkdownPage(fs, env, dir, file, inProgram))
    case Static => CopyFile(file, output)
  }

  /** Handling one file: its output directory is always created; the file
      is rebuilt only when its output is stale. */
  function FileEffects(kind: Kind, layout: Layout, fs: FileSystem, env: Environment, dir: DirectoryToProcess,
                       root: string, file: string): seq<Effect>
  {
    [CreateDirectory(OutputDirectory(layout, dir.outputPath, root, file))] +
    (if NeedsRebuild(fs, file, OutputFile(kind, layout, dir.outputPath, root, file))
     then [RebuildEffect(kind, layout, fs, env, dir, root, file)] else [])
  }

  /** The inner loop's body, as a function of the file. */
  function Handler(kind: Kind, layout: Layout, fs: FileSystem, env: Environment, dir: DirectoryToProcess,
                   root: string): string -> seq<Effect>
  {
    file => FileEffects(kind, layout, fs, env, dir, root, file)
  }

  /** A whole run of ProcessMarkdownFiles or ProcessStaticFiles, with the
      given layout of outputs. */
  function Effects(kind: Kind, layout: Layout, fs: FileSystem, env: Environment, dir: DirectoryToProcess): seq<Effect>
  {
    if dir.inputPath !in fs.directories then []
    else
      var exclusions := ExclusionsFor(dir.processors, BasicProcessorsClass, MethodName(kind));
      ForEachWildcard(Handler(kind, layout, fs, env, dir, dir.inputPath), fs, dir.inputPath, exclusions, dir.wildcard)
  }

  /** Handles one file of a group. */
  method ProcessFile(kind: Kind, layout: Layout, fs: FileSystem, env: Environment, dir: DirectoryToProcess,
                     root: string, file: string)
    returns (fileEffects: seq<Effect>)
    ensures fileEffects == FileEffects(kind, layout, fs, env, dir, root, file)
  {
    var outputDirectory := OutputDirectory(layout, dir.outputPath, root, file);
    fileEffects := [CreateDirectory(outputDirectory)];
    var outputFileName := Combine(outputDirectory, OutputName(kind, file));
    if NeedsRebuild(fs, file, outputFileName) {
      match kind
      case Markdown(inProgram) =>
        var fileText := fs.readAllText(file);
        var page;
        if inProgram {
          var strippedText, meta := ParseYAML(fileText, dir.defaultAuthor, dir.defaultTitle, env.today, env.year);
          page := AssemblePage(fs, dir, env.markdownToHtml(strippedText), meta);
        } else {
          var meta := ParseYAMLMetadata(fileText, dir.defaultAuthor, dir.defaultTitle, env.today, env.year);
          page := AssemblePage(fs, dir, env.yamlPipelineToHtml(fileText), meta);
        }
        fileEffects := fileEffects + [WriteAllText(outputFileName, page)];
      case Static =>
        fileEffects := fileEffects + [CopyFile(file, outputFileName)];
    }
  }

  /** The inner loop: the matching files of one wildcard, in order. */
  method ProcessGroup(kind: Kind, layout: Layout, fs: FileSystem, env: Environment, dir: DirectoryToProcess,
                      root: string, files: seq<string>)
    returns (effects: seq<Effect>)
    ensures effects == ForEachFile(Handler(kind, layout, fs, env, dir, root), files)
  {
    effects := [];
    for j := 0 to |files|
      invariant effects == ForEachFile(Handler(kind, layout, fs, env, dir, root), files[..j])
    {
      var fileEffects := ProcessFile(kind, layout, fs, env, dir, root, files[j]);
      ForEachFileSnoc(Handler(kind, layout, fs, env, dir, root), files, j);
      effects := effects + fileEffects;
    }
    assert files[..|files|] == files;
  }

  /** The outer loop: over the wildcards, in order. */
  method ProcessWildcards(kind: Kind, layout: Layout, fs: FileSystem, env: Environment, dir: DirectoryToProcess,
                          root: string, exclusions: seq<string>)
    returns (effects: seq<Effect>)
    ensures effects == ForEachWildcard(Handler(kind, layout, fs, env, dir, root), fs, root, exclusions, dir.wildcard)
  {
    effects := [];
    for i := 0 to |dir.wildcard|
      invariant effects == ForEachWildcard(Handler(kind, layout, fs, env, dir, root), fs, root, exclusions, dir.wildcard[..i])
    {
      var files := MatchingFiles(fs, root, dir.wildcard[i], exclusions);
      var groupEffects := ProcessGroup(kind, layout, fs, env, dir, root, files);
      ForEachWildcardSnoc(Handler(kind, layout, fs, env, dir, root), fs, root, exclusions, dir.wildcard, i);
      effects := effects + groupEffects;
    }
    assert dir.wildcard[..|dir.wildcard|] == dir.wildcard;
  }

  /** BasicProcessors.ProcessMarkdownFiles, outputs laid out as written. */
  method ProcessMarkdownFiles(fs: FileSystem, env: Environment, dir: DirectoryToProcess)
    returns (effects: seq<Effect>)
    ensures effects == Effects(Markdown(false), AsWritten, fs, env, dir)
  {
    var exclusions := ExclusionsFor(dir.processors, BasicProcessorsClass, MethodName(Markdown(false)));
    effects := [];
    if dir.inputPath in fs.directories {
      effects := ProcessWildcards(Markdown(false), AsWritten, fs, env, dir, dir.inputPath, exclusions);
    }
  }

  /** BasicProcessors.ProcessStaticFiles, outputs laid out as written. */
  method ProcessStaticFiles(fs: FileSystem, env: Environment, dir: DirectoryToProcess)
    returns (effects: seq<Effect>)
    ensures effects == Effects(Static, AsWritten, fs, env, dir)
  {
    var exclusions := ExclusionsFor(dir.processors, BasicProcessorsClass, MethodName(Static));
    effects := [];
    if dir.inputPath in fs.directories {
      effects := ProcessWildcards(Static, AsWritten, fs, env, dir, dir.inputPath, exclusions);
    }
  }

  // ---------------------------------------------------------------------
  // Properties of a run

  /** Nothing happens when the input directory does not exist. */
  lemma NoInputDirectoryNoEffects(kind: Kind, layout: Layout, fs: FileSystem, env: Environment, dir: DirectoryToProcess)
    requires dir.inputPath !in fs.directories
    ensures Effects(kind, layout, fs, env, dir) == []
  {
  }

  /** Handling one file creates its output directory, and rebuilds it
      when its output is stale. */
  lemma FileEffectsShape(kind: Kind, layout: Layout, fs: FileSystem, env: Environment, dir: DirectoryToProcess,
                         root: string, f: string)
    ensures CreateDirectory(OutputDirectory(layout, dir.outputPath, root, f)) in FileEffects(kind, layout, fs, env, dir, root, f)
    ensures NeedsRebuild(fs, f, OutputFile(kind, layout, dir.outputPath, root, f)) ==>
      RebuildEffect(kind, layout, fs, env, dir, root, f) in FileEffects(kind, layout, fs, env, dir, root, f)
  {
  }

  /** Anything else handling one file does is the rebuild of a stale file. */
  lemma FileRebuildsOnlyIfStale(kind: Kind, layout: Layout, fs: FileSystem, env: Environment, dir: DirectoryToProcess,
                                root: string, f: string)
    ensures forall e | e in FileEffects(kind, layout, fs, env, dir, root, f) && !e.CreateDirectory? ::
      NeedsRebuild(fs, f, OutputFile(kind, layout, dir.outputPath, root, f)) &&
      e == RebuildEffect(kind, layout, fs, env, dir, root, f)
  {
  }

  /** Each matching file gets its output directory created, and a rebuild
      when its output is stale; every rebuild in a group is that of one of
      its stale files. */
  lemma GroupRebuilds(kind: Kind, layout: Layout, fs: FileSystem, env: Environment, dir: DirectoryToProcess,
                      root: string, files: seq<string>)
    ensures var effects := ForEachFile(Handler(kind, layout, fs, env, dir, root), files);
      (forall f | f in files :: CreateDirectory(OutputDirectory(layout, dir.outputPath, root, f)) in effects) &&
      (forall f | f in files && NeedsRebuild(fs, f, OutputFile(kind, layout, dir.outputPath, root, f)) ::
        RebuildEffect(kind, layout, fs, env, dir, root, f) in effects) &&
      (forall e | e in effects && !e.CreateDirectory? ::
        exists f | f in files :: NeedsRebuild(fs, f, OutputFile(kind, layout, dir.outputPath, root, f)) &&
                                 e == RebuildEffect(kind, layout, fs, env, dir, root, f))
  {
    var handle := Handler(kind, layout, fs, env, dir, root);
    ForEachFileCovers(handle, files);
    forall f | f in files
      ensures CreateDirectory(OutputDirectory(layout, dir.outputPath, root, f)) in handle(f)
      ensures NeedsRebuild(fs, f, OutputFile(kind, layout, dir.outputPath, root, f)) ==>
        RebuildEffect(kind, layout, fs, env, dir, root, f) in handle(f)
      ensures forall e | e in handle(f) && !e.CreateDirectory? ::
        NeedsRebuild(fs, f, OutputFile(kind, layout, dir.outputPath, root, f)) &&
        e == RebuildEffect(kind, layout, fs, env, dir, root, f)
    {
      FileEffectsShape(kind, layout, fs, env, dir, root, f);
      FileRebuildsOnlyIfStale(kind, layout, fs, env, dir, root, f);
      assert handle(f) == FileEffects(kind, layout, fs, env, dir, root, f);
    }
  }

  /** A rebuild writes or copies to the output file. */
  lemma RebuildTarget(kind: Kind, layout: Layout, fs: FileSystem, env: Environment, dir: DirectoryToProcess,
                      root: string, f: string)
    ensures Target(RebuildEffect(kind, layout, fs, env, dir, root, f)) == OutputFile(kind, layout, dir.outputPath, root, f)
  {
  }

  /** Handling one file touches only its output directory and its output
      file. */
  lemma FileTargets(kind: Kind, layout: Layout, fs: FileSystem, env: Environment, dir: DirectoryToProcess,
                    root: string, f: string)
    ensures forall e | e in FileEffects(kind, layout, fs, env, dir, root, f) ::
      Target(e) == OutputDirectory(layout, dir.outputPath, root, f) ||
      Target(e) == OutputFile(kind, layout, dir.outputPath, root, f)
  {
    FileRebuildsOnlyIfStale(kind, layout, fs, env, dir, root, f);
    FileCreatesOnlyItsDirectory(kind, layout, fs, env, dir, root, f);
    RebuildTarget(kind, layout, fs, env, dir, root, f);
  }

  /** The only directory handling one file creates is its output directory. */
  lemma FileCreatesOnlyItsDirectory(kind: Kind, layout: Layout, fs: FileSystem, env: Environment, dir: DirectoryToProcess,
                                    root: string, f: string)
    ensures forall e | e in FileEffects(kind, layout, fs, env, dir, root, f) && e.CreateDirectory? ::
      e == CreateDirectory(OutputDirectory(layout, dir.outputPath, root, f))
  {
    var created := CreateDirectory(OutputDirectory(layout, dir.outputPath, root, f));
    var rebuild := RebuildEffect(kind, layout, fs, env, dir, root, f);
    var rest := if NeedsRebuild(fs, f, OutputFile(kind, layout, dir.outputPath, root, f)) then [rebuild] else [];
    RebuildCreatesNoDirectory(kind, layout, fs, env, dir, root, f);
    assert FileEffects(kind, layout, fs, env, dir, root, f) == [created] + rest;
    OnlyFirstCreates(created, rest);
  }

  /** A rebuild writes or copies; it never creates a directory. */
  lemma RebuildCreatesNoDirectory(kind: Kind, layout: Layout, fs: FileSystem, env: Environment, dir: DirectoryToProcess,
                                  root: string, f: string)
    ensures !RebuildEffect(kind, layout, fs, env, dir, root, f).CreateDirectory?
  {
  }

  lemma OnlyFirstCreates(first: Effect, rest: seq<Effect>)
    requires forall e | e in rest :: !e.CreateDirectory?
    ensures forall e | e in [first] + rest && e.CreateDirectory? :: e == first
  {
  }

  /** As written, handling a file in a subfolder of the input root creates
      the rooted directory "/sub", outside OutputPath. */
  lemma AsWrittenSubfolderEscapes(kind: Kind, fs: FileSystem, env: Environment, dir: DirectoryToProcess,
                                  root: string, sub: string, name: string)
    requires root != [] && root[|root| - 1] != Separator
    requires sub != [] && Separator !in sub
    requires Separator !in name
    ensures CreateDirectory("/" + sub) in FileEffects(kind, AsWritten, fs, env, dir, root, root + "/" + sub + "/" + name)
  {
    OutputDirectoryAsWrittenLeavesOutputPath(dir.outputPath, root, sub, name);
    FileEffectsShape(kind, AsWritten, fs, env, dir, root, root + "/" + sub + "/" + name);
  }

  /** Corrected, everything handling one file creates, writes or copies
      lies under OutputPath. */
  lemma MirroredFileStaysUnder(kind: Kind, fs: FileSystem, env: Environment, dir: DirectoryToProcess,
                               root: string, f: string)
    ensures forall e | e in FileEffects(kind, Mirrored, fs, env, dir, root, f) :: StartsWith(Target(e), dir.outputPath)
  {
    FileTargets(kind, Mirrored, fs, env, dir, root, f);
    MirroredOutputUnderOutputPath(kind, dir.outputPath, root, f);
  }

  /** Corrected, everything a group creates, writes or copies lies under
      OutputPath. */
  lemma MirroredGroupStaysUnder(kind: Kind, fs: FileSystem, env: Environment, dir: DirectoryToProcess,
                                root: string, files: seq<string>)
    ensures forall e | e in ForEachFile(Handler(kind, Mirrored, fs, env, dir, root), files) ::
      StartsWith(Target(e), dir.outputPath)
  {
    var handle := Handler(kind, Mirrored, fs, env, dir, root);
    ForEachFileCovers(handle, files);
    forall f | f in files
      ensures forall e | e in handle(f) :: StartsWith(Target(e), dir.outputPath)
    {
      MirroredFileStaysUnder(kind, fs, env, dir, root, f);
      assert handle(f) == FileEffects(kind, Mirrored, fs, env, dir, root, f);
    }
  }
}
