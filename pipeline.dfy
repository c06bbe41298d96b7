/** What the processors read from the file system and what they do to it.
    A processor sees the file system as a snapshot (which directories and
    files exist, their last-write times and contents, and what a wildcard
    enumeration returns) and its run is the sequence of effects it performs,
    in the order a sequential run of its parallel loops performs them. */
module Pipeline {
  import opened Wrappers
  import opened Text
  import opened Paths

  /** The file system as a processor sees it. `enumerateFiles(root, wildcard)`
      is Directory.EnumerateFiles(root, wildcard, SearchOption.AllDirectories):
      full paths, in the file system's own order. */
  datatype FileSystem = FileSystem(
    directories: set<string>,
    files: set<string>,
    lastWriteTimeUtc: string -> int,
    readAllText: string -> string,
    enumerateFiles: (string, string) -> seq<string>)

  /** One change a processor makes to the file system. */
  datatype Effect =
    | CreateDirectory(path: string)
    | WriteAllText(path: string, text: string)
    | CopyFile(source: string, dest: string)

  /** The staleness test the processors share: rebuild when the output file
      does not exist, or exists and was last written before the input. */
  function NeedsRebuild(fs: FileSystem, input: string, output: string): (r: bool)
    ensures !r <==> output in fs.files && fs.lastWriteTimeUtc(input) <= fs.lastWriteTimeUtc(output)
  {
    (output in fs.files && fs.lastWriteTimeUtc(output) < fs.lastWriteTimeUtc(input)) || output !in fs.files
  }

  /** The file system after one effect, with `now` the time the effect
      stamps on what it writes. */
  function Apply(fs: FileSystem, e: Effect, now: int): FileSystem
  {
    match e
    case CreateDirectory(p) => fs.(directories := fs.directories + {p})
    case WriteAllText(p, t) =>
      fs.(files := fs.files + {p},
          lastWriteTimeUtc := x => if x == p then now else fs.lastWriteTimeUtc(x),
          readAllText := x => if x == p then t else fs.readAllText(x))
    case CopyFile(src, dst) =>
      fs.(files := fs.files + {dst},
          lastWriteTimeUtc := x => if x == dst then now else fs.lastWriteTimeUtc(x),
          readAllText := x => if x == dst then fs.readAllText(src) else fs.readAllText(x))
  }

  /** An output written at a time no earlier than its input's is up to date:
      running the same step again does not rebuild it. */
  lemma WrittenOutputIsFresh(fs: FileSystem, input: string, output: string, text: string, now: int)
    requires input != output
    requires fs.lastWriteTimeUtc(input) <= now
    ensures !NeedsRebuild(Apply(fs, WriteAllText(output, text), now), input, output)
    ensures !NeedsRebuild(Apply(fs, CopyFile(input, output), now), input, output)
  {
  }

  predicate Distinct<T(==)>(s: seq<T>)
  {
    forall i, j | 0 <= i < j < |s| :: s[i] != s[j]
  }

  /** In a sequence without repeats every element occurs once. */
  lemma {:induction false} DistinctCounts<T>(s: seq<T>, x: T)
    requires Distinct(s)
    ensures multiset(s)[x] <= 1
  {
    if s != [] {
      assert s == [s[0]] + s[1..];
      DistinctCounts(s[1..], x);
      if s[0] == x {
        assert x !in s[1..];
      }
    }
  }

  /** An element found at two positions occurs at least twice. */
  lemma RepeatCounts<T>(b: seq<T>, i: nat, j: nat)
    requires i < j < |b|
    ensures b[i] == b[j] ==> multiset(b)[b[j]] >= 2
  {
    assert b == b[..j] + b[j..];
    assert b[..j][i] == b[i] && b[j..][0] == b[j];
    assert multiset(b)[b[j]] == multiset(b[..j])[b[j]] + multiset(b[j..])[b[j]];
  }

  /** Reordering a sequence without repeats introduces none. */
  lemma DistinctPermutation<T>(a: seq<T>, b: seq<T>)
    requires Distinct(a) && multiset(a) == multiset(b)
    ensures Distinct(b)
  {
    forall i, j | 0 <= i < j < |b|
      ensures b[i] != b[j]
    {
      DistinctCounts(a, b[j]);
      RepeatCounts(b, i, j);
    }
  }

  /** The position of the first occurrence of `x` in `s`. */
  function FirstIndex<T(==)>(s: seq<T>, x: T): (k: nat)
    requires x in s
    ensures k < |s| && s[k] == x && x !in s[..k]
  {
    if s[0] == x then 0
    else
      var k := 1 + FirstIndex(s[1..], x);
      assert s[..k] == [s[0]] + s[1..][..k - 1];
      k
  }

  /** The loop inside Enumerable.Except: an element is yielded when it can
      still be added to the set `seen`, which starts as the second sequence. */
  function ExceptFrom<T(==,!new)>(first: seq<T>, seen: set<T>): (r: seq<T>)
    ensures forall x :: x in r <==> x in first && x !in seen
    ensures Distinct(r)
  {
    if first == [] then []
    else if first[0] in seen then ExceptFrom(first[1..], seen)
    else [first[0]] + ExceptFrom(first[1..], seen + {first[0]})
  }

  /** The elements of `s`, as a set. */
  function Elements<T(!new)>(s: seq<T>): (r: set<T>)
    ensures forall x :: x in r <==> x in s
  {
    set x | x in s
  }

  /** Enumerable.Except(first, second): the elements of `first` that are not
      in `second`, each once. */
  function Except<T(==,!new)>(first: seq<T>, second: seq<T>): (r: seq<T>)
    ensures forall x :: x in r <==> x in first && x !in second
    ensures Distinct(r)
  {
    ExceptFrom(first, Elements(second))
  }

  /** The elements of `r` all occur in `s`, and in the order of their
      first occurrences there. */
  predicate InFirstOccurrenceOrder<T(==)>(s: seq<T>, r: seq<T>)
  {
    (forall i | 0 <= i < |r| :: r[i] in s) &&
    forall i, j | 0 <= i < j < |r| :: FirstIndex(s, r[i]) < FirstIndex(s, r[j])
  }

  /** Looking past a first element that `r` does not contain. */
  lemma InFirstOccurrenceOrderCons<T>(s: seq<T>, r: seq<T>)
    requires s != [] && s[0] !in r
    requires InFirstOccurrenceOrder(s[1..], r)
    ensures InFirstOccurrenceOrder(s, r)
    ensures InFirstOccurrenceOrder(s, [s[0]] + r)
  {
    forall k | 0 <= k < |r|
      ensures r[k] in s && FirstIndex(s, r[k]) == 1 + FirstIndex(s[1..], r[k])
    {
      assert r[k] in s[1..];
    }
    var r' := [s[0]] + r;
    forall i, j | 0 <= i < j < |r'|
      ensures FirstIndex(s, r'[i]) < FirstIndex(s, r'[j])
    {
      assert r'[j] == r[j - 1];
      if i > 0 {
        assert r'[i] == r[i - 1];
      }
    }
  }

  /** Except keeps the order of first occurrences in `first`. */
  lemma {:induction false} ExceptFromOrder<T(!new)>(first: seq<T>, seen: set<T>)
    ensures InFirstOccurrenceOrder(first, ExceptFrom(first, seen))
  {
    if first != [] {
      var seen' := if first[0] in seen then seen else seen + {first[0]};
      ExceptFromOrder(first[1..], seen');
      InFirstOccurrenceOrderCons(first, ExceptFrom(first[1..], seen'));
    }
  }

  lemma ExceptOrder<T(!new)>(first: seq<T>, second: seq<T>)
    ensures InFirstOccurrenceOrder(first, Except(first, second))
  {
    ExceptFromOrder(first, Elements(second));
  }

  /** Without anything to remove and without repeats, Except returns its
      input unchanged. */
  lemma {:induction false} ExceptFromDistinct<T(!new)>(first: seq<T>, seen: set<T>)
    requires Distinct(first)
    requires forall i | 0 <= i < |first| :: first[i] !in seen
    ensures ExceptFrom(first, seen) == first
  {
    if first != [] {
      assert forall i | 0 <= i < |first[1..]| :: first[1..][i] == first[i + 1];
      ExceptFromDistinct(first[1..], seen + {first[0]});
    }
  }

  /** `exclusions.Select(e => Path.Combine(root, e))`. */
  function ExcludedPaths(root: string, exclusions: seq<string>): (r: seq<string>)
    ensures |r| == |exclusions|
    ensures forall i | 0 <= i < |r| :: r[i] == Combine(root, exclusions[i])
  {
    if exclusions == [] then []
    else [Combine(root, exclusions[0])] + ExcludedPaths(root, exclusions[1..])
  }

  /** The files a processor handles for one wildcard: the recursive
      enumeration under `root`, minus the exclusions (each taken relative to
      `root` and compared as a whole path). */
  function MatchingFiles(fs: FileSystem, root: string, wildcard: string, exclusions: seq<string>): seq<string>
  {
    Except(fs.enumerateFiles(root, wildcard), ExcludedPaths(root, exclusions))
  }

  /** A file is handled exactly when the enumeration yields it and it is not
      one of the excluded paths; none is handled twice. */
  lemma MatchingFilesMembership(fs: FileSystem, root: string, wildcard: string, exclusions: seq<string>, f: string)
    ensures f in MatchingFiles(fs, root, wildcard, exclusions) <==>
      f in fs.enumerateFiles(root, wildcard) && forall e | e in exclusions :: f != Combine(root, e)
    ensures Distinct(MatchingFiles(fs, root, wildcard, exclusions))
  {
    var ex := ExcludedPaths(root, exclusions);
    if f in ex {
      var i :| 0 <= i < |ex| && ex[i] == f;
      assert exclusions[i] in exclusions;
    }
  }

  /** The effects of handling each of `files` in turn with `handle`: the
      body of the inner loop, run over a match set. */
  function ForEachFile(handle: string -> seq<Effect>, files: seq<string>): seq<Effect>
  {
    if files == [] then []
    else ForEachFile(handle, files[..|files| - 1]) + handle(files[|files| - 1])
  }

  /** Two handlers that agree on every file of the list give the same run. */
  lemma {:induction false} ForEachFileAgree(h1: string -> seq<Effect>, h2: string -> seq<Effect>, files: seq<string>)
    requires forall f | f in files :: h1(f) == h2(f)
    ensures ForEachFile(h1, files) == ForEachFile(h2, files)
    decreases |files|
  {
    if files != [] {
      ForEachFileAgree(h1, h2, files[..|files| - 1]);
      assert files[|files| - 1] in files;
    }
  }

  /** The outer loop: each wildcard's matching files, wildcard by wildcard. */
  function ForEachWildcard(handle: string -> seq<Effect>, fs: FileSystem, root: string,
                           exclusions: seq<string>, wildcards: seq<string>): seq<Effect>
  {
    if wildcards == [] then []
    else ForEachWildcard(handle, fs, root, exclusions, wildcards[..|wildcards| - 1]) +
         ForEachFile(handle, MatchingFiles(fs, root, wildcards[|wildcards| - 1], exclusions))
  }

  /** Every effect of handling a file is in the group's effects, and every
      effect in the group comes from handling one of its files. */
  lemma {:induction false} ForEachFileCovers(handle: string -> seq<Effect>, files: seq<string>)
    ensures forall f, e | f in files && e in handle(f) :: e in ForEachFile(handle, files)
    ensures forall e | e in ForEachFile(handle, files) :: exists f | f in files :: e in handle(f)
  {
    if files != [] {
      var init := files[..|files| - 1];
      ForEachFileCovers(handle, init);
      assert files == init + [files[|files| - 1]];
    }
  }

  /** Wildcard groups are independent: the run over two lists of wildcards
      is the run over the first followed by the run over the second, with
      no de-duplication between them. */
  lemma {:induction false} ForEachWildcardAppend(handle: string -> seq<Effect>, fs: FileSystem, root: string,
                                                 exclusions: seq<string>, w1: seq<string>, w2: seq<string>)
    ensures ForEachWildcard(handle, fs, root, exclusions, w1 + w2) ==
      ForEachWildcard(handle, fs, root, exclusions, w1) + ForEachWildcard(handle, fs, root, exclusions, w2)
    decreases |w2|
  {
    if w2 == [] {
      assert w1 + w2 == w1;
    } else {
      assert (w1 + w2)[..|w1 + w2| - 1] == w1 + w2[..|w2| - 1];
      ForEachWildcardAppend(handle, fs, root, exclusions, w1, w2[..|w2| - 1]);
    }
  }

  /** One more file handled at the end of a group. */
  lemma ForEachFileSnoc(handle: string -> seq<Effect>, files: seq<string>, j: nat)
    requires j < |files|
    ensures ForEachFile(handle, files[..j + 1]) == ForEachFile(handle, files[..j]) + handle(files[j])
  {
    assert files[..j + 1][..j] == files[..j];
  }

  /** One more wildcard handled at the end of a run. */
  lemma ForEachWildcardSnoc(handle: string -> seq<Effect>, fs: FileSystem, root: string,
                            exclusions: seq<string>, wildcards: seq<string>, i: nat)
    requires i < |wildcards|
    ensures ForEachWildcard(handle, fs, root, exclusions, wildcards[..i + 1]) ==
      ForEachWildcard(handle, fs, root, exclusions, wildcards[..i]) +
      ForEachFile(handle, MatchingFiles(fs, root, wildcards[i], exclusions))
  {
    assert wildcards[..i + 1][..i] == wildcards[..i];
  }

  /** A run over one wildcard is that wildcard's group. */
  lemma ForEachWildcardSingle(handle: string -> seq<Effect>, fs: FileSystem, root: string,
                              exclusions: seq<string>, wildcard: string)
    ensures ForEachWildcard(handle, fs, root, exclusions, [wildcard]) ==
      ForEachFile(handle, MatchingFiles(fs, root, wildcard, exclusions))
  {
    assert [wildcard][..0] == [];
  }

  /** A file two wildcards both match is handled in both groups. */
  lemma ForEachWildcardTwice(handle: string -> seq<Effect>, fs: FileSystem, root: string,
                             exclusions: seq<string>, w1: string, w2: string)
    ensures ForEachWildcard(handle, fs, root, exclusions, [w1, w2]) ==
      ForEachFile(handle, MatchingFiles(fs, root, w1, exclusions)) + ForEachFile(handle, MatchingFiles(fs, root, w2, exclusions))
  {
    ForEachWildcardAppend(handle, fs, root, exclusions, [w1], [w2]);
    ForEachWildcardSingle(handle, fs, root, exclusions, w1);
    ForEachWildcardSingle(handle, fs, root, exclusions, w2);
    assert [w1] + [w2] == [w1, w2];
  }

  /** With nothing excluded and no file enumerated twice, the match set is
      the enumeration itself. */
  lemma MatchingFilesWithoutExclusions(fs: FileSystem, root: string, wildcard: string)
    requires Distinct(fs.enumerateFiles(root, wildcard))
    ensures MatchingFiles(fs, root, wildcard, []) == fs.enumerateFiles(root, wildcard)
  {
    assert ExcludedPaths(root, []) == [];
    ExceptFromDistinct(fs.enumerateFiles(root, wildcard), Elements([]));
  }

  /** The outer loop over wildcards: each wildcard's group of files, group
      after group in wildcard order. */
  function Grouped(group: string -> seq<string>, wildcards: seq<string>): seq<string>
  {
    if wildcards == [] then []
    else Grouped(group, wildcards[..|wildcards| - 1]) + group(wildcards[|wildcards| - 1])
  }

  /** A file is in the groups' concatenation exactly when it is in one of them. */
  lemma {:induction false} GroupedCovers(group: string -> seq<string>, wildcards: seq<string>, f: string)
    ensures f in Grouped(group, wildcards) <==> exists i | 0 <= i < |wildcards| :: f in group(wildcards[i])
  {
    if wildcards != [] {
      var n := |wildcards| - 1;
      GroupedCovers(group, wildcards[..n], f);
      assert forall i | 0 <= i < n :: wildcards[..n][i] == wildcards[i];
    }
  }

  /** Nested `ForEach` loops over the wildcards and each one's group of
      files, appending a text per file. */
  method AppendGroups(sb: StringBuilder, line: string -> string, group: string -> seq<string>, wildcards: seq<string>)
    modifies sb
    ensures sb.content == old(sb.content) + ConcatMap(line, Grouped(group, wildcards))
  {
    for i := 0 to |wildcards|
      invariant sb.content == old(sb.content) + ConcatMap(line, Grouped(group, wildcards[..i]))
    {
      var files := group(wildcards[i]);
      AppendEach(sb, line, files);
      ConcatMapGroupedSnoc(line, group, wildcards, i);
    }
    assert wildcards[..|wildcards|] == wildcards;
  }

  /** One more wildcard appends the texts of its group. */
  lemma ConcatMapGroupedSnoc(line: string -> string, group: string -> seq<string>, wildcards: seq<string>, i: nat)
    requires i < |wildcards|
    ensures ConcatMap(line, Grouped(group, wildcards[..i + 1])) ==
      ConcatMap(line, Grouped(group, wildcards[..i])) + ConcatMap(line, group(wildcards[i]))
  {
    assert wildcards[..i + 1][..i] == wildcards[..i];
    ConcatMapAppend(line, Grouped(group, wildcards[..i]), group(wildcards[i]));
  }
}
