/** The configuration records (AppConfiguration, DirectoryToProcess,
    Processor) and the lookup each processor performs to find its own entry
    in a directory's processor list. One canonical Processor record is used:
    the one whose fields the processors actually read (Wildcards,
    Exclusions, StopAfter). Strings the C# constructors leave null are
    modelled as "". */
module Config {
  import opened Wrappers

  /** One configured transformation: the assembly, type and static method
      the dispatcher loads, plus the options that processor reads. */
  datatype Processor = Processor(
    dll: string,
    className: string,
    methodName: string,
    wildcards: seq<string>,
    exclusions: seq<string>,
    stopAfter: Option<int>)

  /** `new Processor()`: no identity, empty lists, no item cap. */
  function NewProcessor(): Processor
  {
    Processor("", "", "", [], [], None)
  }

  /** Everything needed to process one input directory into one output directory. */
  datatype DirectoryToProcess = DirectoryToProcess(
    defaultAuthor: string,
    defaultTitle: string,
    inputPath: string,
    outputPath: string,
    processors: seq<Processor>,
    wildcard: seq<string>,
    prepends: seq<string>,
    postpends: seq<string>,
    targetURL: string,
    siteTitle: string,
    siteDescription: string)

  /** `new DirectoryToProcess()`: both paths ".", every list empty. */
  function NewDirectoryToProcess(): DirectoryToProcess
  {
    DirectoryToProcess("", "", ".", ".", [], [], [], [], "", "", "")
  }

  datatype AppConfiguration = AppConfiguration(
    clean: bool,
    serve: bool,
    directoriesToProcess: seq<DirectoryToProcess>)

  function NewAppConfiguration(): AppConfiguration
  {
    AppConfiguration(false, false, [])
  }

  /** `$"{typeof(T)}"` for the processor classes: their full type names. */
  const BasicProcessorsClass: string := "swingor_processors.BasicProcessors"
  const SitemapClass: string := "swingor_sitemap.Sitemap"
  const RssClass: string := "swingor_rss.RSS"

  predicate IsEntryFor(p: Processor, className: string, methodName: string)
  {
    p.className == className && p.methodName == methodName
  }

  /** `(from p in processors where p.Class == c && p.Method == m select p).FirstOrDefault()`:
      the first entry for that class and method, if there is one. */
  function FindProcessor(processors: seq<Processor>, className: string, methodName: string): (r: Option<Processor>)
    ensures r.None? <==> forall j | 0 <= j < |processors| :: !IsEntryFor(processors[j], className, methodName)
    ensures forall i | 0 <= i < |processors| && IsEntryFor(processors[i], className, methodName) &&
              (forall j | 0 <= j < i :: !IsEntryFor(processors[j], className, methodName)) ::
              r == Some(processors[i])
  {
    if processors == [] then None
    else if IsEntryFor(processors[0], className, methodName) then Some(processors[0])
    else
      var r := FindProcessor(processors[1..], className, methodName);
      assert forall j | 1 <= j < |processors| :: processors[j] == processors[1..][j - 1];
      r
  }

  /** BasicProcessors' exclusion list: that of its first entry, else empty. */
  function ExclusionsFor(processors: seq<Processor>, className: string, methodName: string): (r: seq<string>)
    ensures (forall j | 0 <= j < |processors| :: !IsEntryFor(processors[j], className, methodName)) ==> r == []
    ensures forall i | 0 <= i < |processors| && IsEntryFor(processors[i], className, methodName) &&
              (forall j | 0 <= j < i :: !IsEntryFor(processors[j], className, methodName)) ::
              r == processors[i].exclusions
  {
    match FindProcessor(processors, className, methodName)
    case Some(p) => p.exclusions
    case None => []
  }

  /** Sitemap's and RSS's configuration: the first entry, else `new Processor()`. */
  function ConfigFor(processors: seq<Processor>, className: string, methodName: string): (r: Processor)
    ensures (forall j | 0 <= j < |processors| :: !IsEntryFor(processors[j], className, methodName)) ==> r == NewProcessor()
    ensures forall i | 0 <= i < |processors| && IsEntryFor(processors[i], className, methodName) &&
              (forall j | 0 <= j < i :: !IsEntryFor(processors[j], className, methodName)) ::
              r == processors[i]
  {
    FindProcessor(processors, className, methodName).GetOr(NewProcessor())
  }
}
