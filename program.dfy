/** The processors built into Program.cs, which BasicProcessors grew out
    of: a directory has a single wildcard pattern, nothing is excluded, and
    Markdig's default pipeline is given only the text after the front
    matter. The staleness test, the output naming (as written) and the page
    assembly are the same as in BasicProcessors. */
module ProgramProcessors {
  import opened Config
  import opened Metadata
  import opened FrontMatter
  import opened Pipeline
  import opened BasicProcessors

  /** A run of Program.ProcessMarkdownFiles or Program.ProcessStaticFiles
      over the files `wildcard` enumerates. */
  function ProgramEffects(kind: Kind, fs: FileSystem, env: Environment, dir: DirectoryToProcess, wildcard: string): seq<Effect>
  {
    if dir.inputPath !in fs.directories then []
    else ForEachFile(Handler(kind, AsWritten, fs, env, dir, dir.inputPath), fs.enumerateFiles(dir.inputPath, wildcard))
  }

  /** Program.ProcessMarkdownFiles. */
  method ProcessMarkdownFiles(fs: FileSystem, env: Environment, dir: DirectoryToProcess, wildcard: string)
    returns (effects: seq<Effect>)
    ensures effects == ProgramEffects(Markdown(true), fs, env, dir, wildcard)
  {
    effects := [];
    if dir.inputPath in fs.directories {
      effects := ProcessGroup(Markdown(true), AsWritten, fs, env, dir, dir.inputPath, fs.enumerateFiles(dir.inputPath, wildcard));
    }
  }

  /** Program.ProcessStaticFiles. */
  method ProcessStaticFiles(fs: FileSystem, env: Environment, dir: DirectoryToProcess, wildcard: string)
    returns (effects: seq<Effect>)
    ensures effects == ProgramEffects(Static, fs, env, dir, wildcard)
  {
    effects := [];
    if dir.inputPath in fs.directories {
      effects := ProcessGroup(Static, AsWritten, fs, env, dir, dir.inputPath, fs.enumerateFiles(dir.inputPath, wildcard));
    }
  }

  /** When the enumeration repeats no file, a Program run is the
      BasicProcessors loop over a directory whose only wildcard is the same
      pattern and which configures no exclusions. For static files that is
      exactly BasicProcessors.ProcessStaticFiles; for Markdown the two
      differ only in the rendered body (RenderedBody), as
      ProgramMarkdownIsBasic below states. */
  lemma ProgramIsBasicWithoutExclusions(kind: Kind, fs: FileSystem, env: Environment, dir: DirectoryToProcess, wildcard: string)
    requires dir.wildcard == [wildcard]
    requires ExclusionsFor(dir.processors, BasicProcessorsClass, MethodName(kind)) == []
    requires Distinct(fs.enumerateFiles(dir.inputPath, wildcard))
    ensures ProgramEffects(kind, fs, env, dir, wildcard) == Effects(kind, AsWritten, fs, env, dir)
  {
    MatchingFilesWithoutExclusions(fs, dir.inputPath, wildcard);
    ForEachWildcardSingle(Handler(kind, AsWritten, fs, env, dir, dir.inputPath), fs, dir.inputPath, [], wildcard);
  }

  /** For a file that opens with a closed block of `key: value` lines, both
      variants fill the page from the same metadata. Program renders only
      the text after the block, with the default pipeline; BasicProcessors
      renders the whole file with its front-matter-aware pipeline. */
  lemma PageOfFrontMatterDocument(fs: FileSystem, env: Environment, dir: DirectoryToProcess, file: string,
                                  keys: seq<string>, values: seq<string>, body: string)
    requires |keys| == |values|
    requires forall i | 0 <= i < |keys| :: IsKey(keys[i]) && IsValue(values[i])
    requires fs.readAllText(file) == Document(SettingLines(keys, values), body)
    ensures var meta := PutAll(Defaults(dir.defaultAuthor, dir.defaultTitle, env.today, env.year), keys, values);
      MarkdownPage(fs, env, dir, file, true) == Page(fs, dir, env.markdownToHtml(body), meta) &&
      MarkdownPage(fs, env, dir, file, false) == Page(fs, dir, env.yamlPipelineToHtml(fs.readAllText(file)), meta)
  {
    SettingsBlock(keys, values, body, Defaults(dir.defaultAuthor, dir.defaultTitle, env.today, env.year));
  }

  /** A Markdown file is handled alike by both variants when the two
      pipelines render it alike. */
  lemma SameRenderingSameEffects(fs: FileSystem, env: Environment, dir: DirectoryToProcess, file: string)
    requires RenderedBody(env, dir, fs.readAllText(file), true) == RenderedBody(env, dir, fs.readAllText(file), false)
    ensures FileEffects(Markdown(true), AsWritten, fs, env, dir, dir.inputPath, file) ==
            FileEffects(Markdown(false), AsWritten, fs, env, dir, dir.inputPath, file)
  {
    assert MarkdownPage(fs, env, dir, file, true) == MarkdownPage(fs, env, dir, file, false);
  }

  /** With one wildcard, no configured exclusions and no file enumerated
      twice, Program.ProcessMarkdownFiles does what
      BasicProcessors.ProcessMarkdownFiles does as soon as the default
      pipeline on the text after the front matter renders every file as the
      front-matter-aware pipeline renders the whole file. */
  lemma ProgramMarkdownIsBasic(fs: FileSystem, env: Environment, dir: DirectoryToProcess, wildcard: string)
    requires dir.wildcard == [wildcard]
    requires ExclusionsFor(dir.processors, BasicProcessorsClass, MethodName(Markdown(false))) == []
    requires Distinct(fs.enumerateFiles(dir.inputPath, wildcard))
    requires forall f | f in fs.enumerateFiles(dir.inputPath, wildcard) ::
               RenderedBody(env, dir, fs.readAllText(f), true) == RenderedBody(env, dir, fs.readAllText(f), false)
    ensures ProgramEffects(Markdown(true), fs, env, dir, wildcard) == Effects(Markdown(false), AsWritten, fs, env, dir)
  {
    ProgramIsBasicWithoutExclusions(Markdown(false), fs, env, dir, wildcard);
    var files := fs.enumerateFiles(dir.inputPath, wildcard);
    forall f | f in files
      ensures Handler(Markdown(true), AsWritten, fs, env, dir, dir.inputPath)(f) ==
              Handler(Markdown(false), AsWritten, fs, env, dir, dir.inputPath)(f)
    {
      SameRenderingSameEffects(fs, env, dir, f);
    }
    ForEachFileAgree(Handler(Markdown(true), AsWritten, fs, env, dir, dir.inputPath),
                     Handler(Markdown(false), AsWritten, fs, env, dir, dir.inputPath), files);
  }
}
