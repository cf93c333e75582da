/**
  Locating an RPM to install below a base directory: the top RPM named
  "<project>_*_<platform>.rpm", then the dependencies staged beside it.
 */
module Discovery {
  import opened Wrappers
  import opened FilePaths
  import opened Packages

  /** The object that locates RPMs below a base directory. */
  datatype Finder = Finder(basedir: string)

  /** NewFinder. */
  function NewFinder(path: string): (f: Finder)
    ensures f.basedir == path
  {
    Finder(path)
  }

  /** The file name pattern of the top RPM: "<project>_*_<platform>.rpm". */
  function TopFileName(project: string, platform: string): string
  {
    project + "_*_" + platform + ".rpm"
  }

  /** The glob pattern of the top RPM: its file name pattern under the base directory. */
  function TopPattern(f: Finder, project: string, platform: string): (pattern: string)
    ensures var name := TopFileName(project, platform);
      |name| <= |pattern| && pattern[|pattern| - |name|..] == name
  {
    Join(f.basedir, TopFileName(project, platform))
  }

  /** When project and platform hold no '/', the pattern's last element is
      exactly the top RPM's file name pattern. */
  lemma TopPatternBase(f: Finder, project: string, platform: string)
    requires '/' !in project && '/' !in platform
    ensures Base(TopPattern(f, project, platform)) == TopFileName(project, platform)
  {
    var name := TopFileName(project, platform);
    assert '/' !in name;
    BaseOfJoin(f.basedir, name);
  }

  /** findTopRPM: the first match of the top RPM pattern under the glob, or
      the glob's own error, or a not-found error naming the pattern. */
  function FindTopRpm(f: Finder, glob: string -> Result<seq<string>, string>, project: string, platform: string)
    : (r: Result<string, Error>)
    ensures var pattern := TopPattern(f, project, platform);
      && (r.Success? <==> glob(pattern).Success? && |glob(pattern).value| > 0)
      && (r.Success? ==> r.value == glob(pattern).value[0] && r.value in glob(pattern).value)
      && (glob(pattern).Failure? ==> r == Failure(GlobError(glob(pattern).error)))
      && (glob(pattern).Success? && glob(pattern).value == [] ==> r == Failure(NotFound(pattern)))
  {
    var pattern := TopPattern(f, project, platform);
    match glob(pattern)
    case Failure(cause) => Failure(GlobError(cause))
    case Success(matches) =>
      if |matches| == 0 then Failure(NotFound(pattern)) else Success(matches[0])
  }

  /** What Find returns: the RPMs to install, an error, or the nil dereference
      Find runs into when the top RPM cannot be stat-ed. */
  datatype FindOutcome =
    | Found(rpms: seq<Rpm>)
    | Failed(error: Error)
    | NilDereference(path: string)

  /** What Find computes, as written. The error of New is dropped, so a top
      RPM that cannot be stat-ed leaves a nil handle whose Size is then read. */
  function FindSpec(f: Finder, fs: FileSystem, project: string, platform: string): FindOutcome
  {
    match FindTopRpm(f, fs.glob, project, platform)
    case Failure(e) => Failed(e)
    case Success(path) =>
      match New(fs, path)
      case Failure(_) => NilDereference(path)
      case Success(top) =>
        if top.size == 0 then Failed(ZeroSizeRpm(path))
        else match LocalDeps(fs, path)
          case Failure(e) => Failed(e)
          case Success(deps) =>
            var empty := ZeroSizeNames(deps);
            if |empty| > 0 then Failed(ZeroSizeDependencies(|empty|, path, empty))
            else Found([top] + deps)
  }

  /** Finder.Find: the top RPM first, then its local dependencies, none of
      them empty. */
  method Find(f: Finder, fs: FileSystem, project: string, platform: string) returns (res: FindOutcome)
    ensures res == FindSpec(f, fs, project, platform)
    ensures res.Found? ==> |res.rpms| >= 1 && forall i :: 0 <= i < |res.rpms| ==> res.rpms[i].size > 0
  {
    var top := FindTopRpm(f, fs.glob, project, platform);
    if top.Failure? {
      return Failed(top.error);
    }
    var path := top.value;
    var topRpm := New(fs, path);
    if topRpm.Failure? {
      return NilDereference(path);
    }
    if topRpm.value.size == 0 {
      return Failed(ZeroSizeRpm(path));
    }
    var deps := LocalDependencies(fs, topRpm.value);
    if deps.Failure? {
      return Failed(deps.error);
    }
    var emptyDeps := ZeroSize(deps.value);
    if |emptyDeps| > 0 {
      return Failed(ZeroSizeDependencies(|emptyDeps|, path, emptyDeps));
    }
    res := Found([topRpm.value] + deps.value);
    FoundShape(f, fs, project, platform);
  }

  /** On success the first RPM is the glob's first match, with its stat size,
      and the rest are its local dependencies in order; no RPM is empty. */
  lemma FoundShape(f: Finder, fs: FileSystem, project: string, platform: string)
    requires FindSpec(f, fs, project, platform).Found?
    ensures var matches := fs.glob(TopPattern(f, project, platform)).value;
      var rpms := FindSpec(f, fs, project, platform).rpms;
      && |rpms| >= 1
      && rpms[0] == Rpm(matches[0], fs.sizes[matches[0]])
      && rpms[1..] == LocalDeps(fs, matches[0]).value
      && forall i :: 0 <= i < |rpms| ==> rpms[i].size > 0
  {
    var path := FindTopRpm(f, fs.glob, project, platform).value;
    var deps := LocalDeps(fs, path).value;
    ZeroSizeNamesEmpty(deps);
    var rpms := FindSpec(f, fs, project, platform).rpms;
    assert rpms == [Rpm(path, fs.sizes[path])] + deps;
    assert forall i :: 0 < i < |rpms| ==> rpms[i] == deps[i - 1];
  }

  /** Find succeeds exactly when the glob finds a top RPM that is non-empty,
      its dependencies resolve, and none of them is empty. */
  lemma FoundExactly(f: Finder, fs: FileSystem, project: string, platform: string)
    ensures FindSpec(f, fs, project, platform).Found? <==>
      var found := fs.glob(TopPattern(f, project, platform));
      && found.Success? && |found.value| > 0
      && var path := found.value[0];
      && path in fs.sizes && fs.sizes[path] > 0
      && LocalDeps(fs, path).Success?
      && forall i :: 0 <= i < |LocalDeps(fs, path).value| ==> LocalDeps(fs, path).value[i].size > 0
  {
    var found := fs.glob(TopPattern(f, project, platform));
    if found.Success? && |found.value| > 0 && LocalDeps(fs, found.value[0]).Success? {
      ZeroSizeNamesEmpty(LocalDeps(fs, found.value[0]).value);
    }
  }

  /** With no match, Find fails with an error naming the pattern. */
  lemma NoMatchIsNotFound(f: Finder, fs: FileSystem, project: string, platform: string)
    requires fs.glob(TopPattern(f, project, platform)) == Success([])
    ensures FindSpec(f, fs, project, platform) == Failed(NotFound(TopPattern(f, project, platform)))
  {
  }

  /** An empty top RPM fails Find before any dependency is looked at: the
      result does not depend on requirements or directory listings. */
  lemma EmptyTopFails(f: Finder, fs: FileSystem, project: string, platform: string,
                      listing: map<string, seq<DirEntry>>, requirements: map<string, seq<string>>)
    requires var found := fs.glob(TopPattern(f, project, platform));
      && found.Success? && |found.value| > 0
      && found.value[0] in fs.sizes && fs.sizes[found.value[0]] == 0
    ensures var path := fs.glob(TopPattern(f, project, platform)).value[0];
      && FindSpec(f, fs, project, platform) == Failed(ZeroSizeRpm(path))
      && FindSpec(f, fs.(listing := listing, requirements := requirements), project, platform)
         == Failed(ZeroSizeRpm(path))
  {
  }

  /** Empty dependencies fail Find with one error that counts them and names
      every one of them by file name, whatever the other RPMs are. */
  lemma EmptyDependenciesFail(f: Finder, fs: FileSystem, project: string, platform: string)
    requires var found := fs.glob(TopPattern(f, project, platform));
      && found.Success? && |found.value| > 0
      && found.value[0] in fs.sizes && fs.sizes[found.value[0]] > 0
      && LocalDeps(fs, found.value[0]).Success?
      && exists i :: 0 <= i < |LocalDeps(fs, found.value[0]).value|
           && LocalDeps(fs, found.value[0]).value[i].size == 0
    ensures var path := fs.glob(TopPattern(f, project, platform)).value[0];
      var deps := LocalDeps(fs, path).value;
      var outcome := FindSpec(f, fs, project, platform);
      && outcome.Failed? && outcome.error.ZeroSizeDependencies?
      && outcome.error.path == path
      && outcome.error.count == |outcome.error.names| > 0
      && forall name :: name in outcome.error.names
           <==> exists i :: 0 <= i < |deps| && deps[i].size == 0 && Name(deps[i]) == name
  {
    var path := fs.glob(TopPattern(f, project, platform)).value[0];
    var deps := LocalDeps(fs, path).value;
    ZeroSizeNamesEmpty(deps);
    forall name
      ensures name in ZeroSizeNames(deps)
        <==> exists i :: 0 <= i < |deps| && deps[i].size == 0 && Name(deps[i]) == name
    {
      ZeroSizeNamesMembership(deps, name);
    }
  }

  /** A single non-empty match with no dependency beside it is installed alone. */
  lemma LoneTopRpm(f: Finder, fs: FileSystem, project: string, platform: string, path: string)
    requires fs.glob(TopPattern(f, project, platform)) == Success([path])
    requires path in fs.sizes && fs.sizes[path] > 0
    requires LocalDeps(fs, path) == Success([])
    ensures FindSpec(f, fs, project, platform) == Found([Rpm(path, fs.sizes[path])])
  {
  }

  /** Find aborts on a nil handle exactly when the top RPM cannot be stat-ed. */
  lemma NilDereferenceExactly(f: Finder, fs: FileSystem, project: string, platform: string)
    ensures FindSpec(f, fs, project, platform).NilDereference? <==>
      var found := fs.glob(TopPattern(f, project, platform));
      found.Success? && |found.value| > 0 && found.value[0] !in fs.sizes
  {
  }

  /** A top RPM that glob reports but stat cannot find: Find as written
      dereferences the nil handle instead of returning an error. */
  lemma VanishedTopRpmAborts()
    ensures var fs := FileSystem(_ => Success(["/rpms/atlas_1_x86_64.rpm"]), map[], map[], map[]);
      FindSpec(Finder("/rpms"), fs, "atlas", "x86_64") == NilDereference("/rpms/atlas_1_x86_64.rpm")
  {
  }

  /** Find with the error of New checked: a top RPM that cannot be stat-ed is
      reported as a stat error. */
  function FindChecked(f: Finder, fs: FileSystem, project: string, platform: string): (r: FindOutcome)
    ensures !r.NilDereference?
    ensures var asWritten := FindSpec(f, fs, project, platform);
      && (asWritten.NilDereference? ==> r == Failed(StatError(asWritten.path)))
      && (!asWritten.NilDereference? ==> r == asWritten)
  {
    match FindTopRpm(f, fs.glob, project, platform)
    case Failure(e) => Failed(e)
    case Success(path) =>
      match New(fs, path)
      case Failure(e) => Failed(e)
      case Success(top) =>
        if top.size == 0 then Failed(ZeroSizeRpm(path))
        else match LocalDeps(fs, path)
          case Failure(e) => Failed(e)
          case Success(deps) =>
            var empty := ZeroSizeNames(deps);
            if |empty| > 0 then Failed(ZeroSizeDependencies(|empty|, path, empty))
            else Found([top] + deps)
  }
}
