/**
  RPM files and their local dependencies. The filesystem and the RPM
  header reader are replaced by a FileSystem value whose maps answer
  os.Stat, os.ReadDir and "open the package and list its requirements";
  a path missing from a map is a failing call.
 */
module Packages {
  import opened Wrappers
  import opened FilePaths

  /** An RPM file: its path and the size os.Stat gave when the handle was made. */
  datatype Rpm = Rpm(path: string, size: nat)

  /** One entry of a directory listing. */
  datatype DirEntry = DirEntry(name: string, isDir: bool)

  /** The ways discovery can fail, each with what it reports. */
  datatype Error =
    | GlobError(cause: string)
    | NotFound(pattern: string)
    | StatError(path: string)
    | MetadataError(path: string)
    | ReadDirError(dir: string)
    | DependencyStatError(path: string)
    | ZeroSizeRpm(path: string)
    | ZeroSizeDependencies(count: nat, path: string, names: seq<string>)

  /** What the code asks of the operating system and of the RPM reader. */
  datatype FileSystem = FileSystem(
    glob: string -> Result<seq<string>, string>,
    listing: map<string, seq<DirEntry>>,
    sizes: map<string, nat>,
    requirements: map<string, seq<string>>)

  /** fileSize: the size os.Stat reports, or its failure. */
  function FileSize(fs: FileSystem, path: string): (r: Result<nat, Error>)
    ensures r.Success? <==> path in fs.sizes
    ensures r.Success? ==> r.value == fs.sizes[path]
    ensures r.Failure? ==> r.error == StatError(path)
  {
    if path in fs.sizes then Success(fs.sizes[path]) else Failure(StatError(path))
  }

  /** New: an RPM handle for path, sized once, or the stat failure. */
  function New(fs: FileSystem, path: string): (r: Result<Rpm, Error>)
    ensures r.Success? <==> path in fs.sizes
    ensures r.Success? ==> r.value == Rpm(path, fs.sizes[path])
    ensures r.Failure? ==> r.error == StatError(path)
  {
    match FileSize(fs, path)
    case Success(size) => Success(Rpm(path, size))
    case Failure(e) => Failure(e)
  }

  /** RPM.Name: the file name of the RPM, without its directory. */
  function Name(r: Rpm): (name: string)
    ensures IsLastElement(r.path, name)
  {
    Base(r.path)
  }

  /** RPM.NameStartsWith. */
  function NameStartsWith(r: Rpm, prefix: string): (b: bool)
    ensures b <==> |prefix| <= |Name(r)| && Name(r)[..|prefix|] == prefix
  {
    prefix <= Name(r)
  }

  // ---------------------------------------------------------------------
  // RPMs: an ordered collection of RPM handles

  /** The file names of the empty RPMs, in collection order. */
  function ZeroSizeNames(rs: seq<Rpm>): (names: seq<string>)
    ensures |names| <= |rs|
    decreases |rs|
  {
    if |rs| == 0 then []
    else
      var last := rs[|rs| - 1];
      ZeroSizeNames(rs[..|rs| - 1]) + (if last.size == 0 then [Name(last)] else [])
  }

  /** RPMs.ZeroSize. */
  method ZeroSize(rs: seq<Rpm>) returns (zero: seq<string>)
    ensures zero == ZeroSizeNames(rs)
  {
    zero := [];
    for i := 0 to |rs|
      invariant zero == ZeroSizeNames(rs[..i])
    {
      assert rs[..i + 1][..i] == rs[..i];
      if rs[i].size == 0 {
        zero := zero + [Name(rs[i])];
      }
    }
    assert rs[..|rs|] == rs;
  }

  /** One step of the report: the last RPM adds its name when it is empty. */
  lemma ZeroSizeNamesLast(rs: seq<Rpm>, name: string)
    requires |rs| > 0
    ensures name in ZeroSizeNames(rs)
      <==> name in ZeroSizeNames(rs[..|rs| - 1]) || (rs[|rs| - 1].size == 0 && Name(rs[|rs| - 1]) == name)
  {
    var last := rs[|rs| - 1];
    var tail := if last.size == 0 then [Name(last)] else [];
    assert ZeroSizeNames(rs) == ZeroSizeNames(rs[..|rs| - 1]) + tail;
  }

  /** A name is reported exactly when some RPM of that name is empty. */
  lemma {:induction false} ZeroSizeNamesMembership(rs: seq<Rpm>, name: string)
    ensures name in ZeroSizeNames(rs)
      <==> exists i :: 0 <= i < |rs| && rs[i].size == 0 && Name(rs[i]) == name
    decreases |rs|
  {
    if |rs| > 0 {
      var init := rs[..|rs| - 1];
      ZeroSizeNamesLast(rs, name);
      ZeroSizeNamesMembership(init, name);
      assert forall i :: 0 <= i < |init| ==> init[i] == rs[i];
    }
  }

  /** Nothing is reported exactly when every RPM has a non-zero size. */
  lemma {:induction false} ZeroSizeNamesEmpty(rs: seq<Rpm>)
    ensures ZeroSizeNames(rs) == [] <==> forall i :: 0 <= i < |rs| ==> rs[i].size > 0
    decreases |rs|
  {
    if |rs| > 0 {
      var init := rs[..|rs| - 1];
      ZeroSizeNamesEmpty(init);
      assert forall i :: 0 <= i < |init| ==> init[i] == rs[i];
    }
  }

  /** The report keeps collection order: it distributes over concatenation. */
  lemma {:induction false} ZeroSizeNamesAppend(a: seq<Rpm>, b: seq<Rpm>)
    ensures ZeroSizeNames(a + b) == ZeroSizeNames(a) + ZeroSizeNames(b)
    decreases |b|
  {
    if |b| == 0 {
      assert a + b == a;
    } else {
      var init, last := b[..|b| - 1], b[|b| - 1];
      SplitLast(a, b);
      ZeroSizeNamesAppend(a, init);
      Regroup(ZeroSizeNames(a), ZeroSizeNames(init), if last.size == 0 then [Name(last)] else []);
    }
  }

  /** The last element of a + b, when b is not empty, and what precedes it. */
  lemma SplitLast<T>(a: seq<T>, b: seq<T>)
    requires |b| > 0
    ensures (a + b)[..|a + b| - 1] == a + b[..|b| - 1]
    ensures (a + b)[|a + b| - 1] == b[|b| - 1]
  {
  }

  /** Concatenation is associative. */
  lemma Regroup<T>(x: seq<T>, y: seq<T>, z: seq<T>)
    ensures (x + y) + z == x + (y + z)
  {
  }

  /** RPMs.Paths. */
  method Paths(rs: seq<Rpm>) returns (paths: seq<string>)
    ensures |paths| == |rs|
    ensures forall i :: 0 <= i < |rs| ==> paths[i] == rs[i].path
  {
    paths := [];
    for i := 0 to |rs|
      invariant |paths| == i
      invariant forall j :: 0 <= j < i ==> paths[j] == rs[j].path
    {
      paths := paths + [rs[i].path];
    }
  }

  /** RPMs.Names. */
  method Names(rs: seq<Rpm>) returns (names: seq<string>)
    ensures |names| == |rs|
    ensures forall i :: 0 <= i < |rs| ==> names[i] == Name(rs[i])
  {
    names := [];
    for i := 0 to |rs|
      invariant |names| == i
      invariant forall j :: 0 <= j < i ==> names[j] == Name(rs[j])
    {
      var name := Name(rs[i]);
      names := names + [name];
    }
  }

  // ---------------------------------------------------------------------
  // Local dependencies

  /** The names listDeps returns for requirements reqs: the slice is made
      with length |reqs| and then appended to, so |reqs| empty strings come
      before the requirement names. */
  function PaddedNames(reqs: seq<string>): (names: seq<string>)
    ensures |names| == 2 * |reqs|
    ensures forall i :: 0 <= i < |reqs| ==> names[i] == "" && names[|reqs| + i] == reqs[i]
  {
    seq(|reqs|, _ => "") + reqs
  }

  /** listDeps: the requirement names of the package at path, as listed. */
  method ListDeps(fs: FileSystem, path: string) returns (r: Result<seq<string>, Error>)
    ensures r.Success? <==> path in fs.requirements
    ensures r.Success? ==> r.value == PaddedNames(fs.requirements[path])
    ensures r.Failure? ==> r.error == MetadataError(path)
  {
    if path !in fs.requirements {
      return Failure(MetadataError(path));
    }
    var deps := fs.requirements[path];
    var names := seq(|deps|, _ => "");
    for i := 0 to |deps|
      invariant names == seq(|deps|, _ => "") + deps[..i]
    {
      assert deps[..i + 1] == deps[..i] + [deps[i]];
      names := names + [deps[i]];
    }
    assert deps[..|deps|] == deps;
    return Success(names);
  }

  /** toLUT: a lookup table whose keys are the items. */
  method ToLut(items: seq<string>) returns (lut: map<string, ()>)
    ensures forall x :: x in lut <==> x in items
  {
    lut := map[];
    for i := 0 to |items|
      invariant forall x :: x in lut <==> x in items[..i]
    {
      assert items[..i + 1] == items[..i] + [items[i]];
      lut := lut[items[i] := ()];
    }
    assert items[..|items|] == items;
  }

  /** The directory entries listDir keeps: those that are not directories and
      whose name is one of names, in listing order. */
  function Accepted(entries: seq<DirEntry>, names: seq<string>): (found: seq<string>)
    ensures |found| <= |entries|
    decreases |entries|
  {
    if |entries| == 0 then []
    else
      var last := entries[|entries| - 1];
      Accepted(entries[..|entries| - 1], names) + (if last.name in names && !last.isDir then [last.name] else [])
  }

  /** listDir: the entries of dir that Accepted keeps, or the listing failure. */
  method ListDir(fs: FileSystem, dir: string, filenames: seq<string>) returns (r: Result<seq<string>, Error>)
    ensures r.Success? <==> dir in fs.listing
    ensures r.Success? ==> r.value == Accepted(fs.listing[dir], filenames)
    ensures r.Failure? ==> r.error == ReadDirError(dir)
  {
    if dir !in fs.listing {
      return Failure(ReadDirError(dir));
    }
    var entries := fs.listing[dir];
    var lut := ToLut(filenames);
    var found := [];
    for i := 0 to |entries|
      invariant found == Accepted(entries[..i], filenames)
    {
      assert entries[..i + 1][..i] == entries[..i];
      var name := entries[i].name;
      if name in lut && !entries[i].isDir {
        found := found + [name];
      }
    }
    assert entries[..|entries|] == entries;
    return Success(found);
  }

  /** A name is kept exactly when it is wanted and a non-directory entry has it. */
  lemma {:induction false} AcceptedMembership(entries: seq<DirEntry>, names: seq<string>, x: string)
    ensures x in Accepted(entries, names)
      <==> x in names && exists i :: 0 <= i < |entries| && entries[i] == DirEntry(x, false)
    decreases |entries|
  {
    if |entries| > 0 {
      var init := entries[..|entries| - 1];
      AcceptedMembership(init, names, x);
      assert forall i :: 0 <= i < |init| ==> init[i] == entries[i];
      if x in Accepted(entries, names) && x !in Accepted(init, names) {
        assert entries[|entries| - 1] == DirEntry(x, false);
      }
    }
  }

  /** The kept names follow listing order: Accepted distributes over concatenation. */
  lemma {:induction false} AcceptedAppend(a: seq<DirEntry>, b: seq<DirEntry>, names: seq<string>)
    ensures Accepted(a + b, names) == Accepted(a, names) + Accepted(b, names)
    decreases |b|
  {
    if |b| == 0 {
      assert a + b == a;
    } else {
      var init, last := b[..|b| - 1], b[|b| - 1];
      SplitLast(a, b);
      AcceptedAppend(a, init, names);
      Regroup(Accepted(a, names), Accepted(init, names),
        if last.name in names && !last.isDir then [last.name] else []);
    }
  }

  /** Only which entry names are wanted matters: not the order of names, not
      their repetitions, not names no entry has. */
  lemma {:induction false} AcceptedSameWanted(entries: seq<DirEntry>, a: seq<string>, b: seq<string>)
    requires forall i :: 0 <= i < |entries| ==> (entries[i].name in a <==> entries[i].name in b)
    ensures Accepted(entries, a) == Accepted(entries, b)
    decreases |entries|
  {
    if |entries| > 0 {
      var init := entries[..|entries| - 1];
      assert forall i :: 0 <= i < |init| ==> init[i] == entries[i];
      AcceptedSameWanted(init, a, b);
    }
  }

  /** The empty strings listDeps puts in front of the names change nothing,
      since no directory entry has an empty name. */
  lemma {:induction false} PaddingIsHarmless(entries: seq<DirEntry>, reqs: seq<string>)
    requires forall i :: 0 <= i < |entries| ==> entries[i].name != ""
    ensures Accepted(entries, PaddedNames(reqs)) == Accepted(entries, reqs)
  {
    var padded := PaddedNames(reqs);
    forall i | 0 <= i < |entries|
      ensures entries[i].name in padded <==> entries[i].name in reqs
    {
      var n := entries[i].name;
      if n in padded {
        var k :| 0 <= k < |padded| && padded[k] == n;
        assert padded[k] == reqs[k - |reqs|];
      }
      if n in reqs {
        var k :| 0 <= k < |reqs| && reqs[k] == n;
        assert padded[|reqs| + k] == n;
      }
    }
    AcceptedSameWanted(entries, padded, reqs);
  }

  /** Stat every name joined onto dir, in order, stopping at the first failure. */
  function StatAll(fs: FileSystem, dir: string, names: seq<string>): (r: Result<seq<Rpm>, Error>)
    ensures r.Success? ==> |r.value| == |names|
    ensures r.Failure? ==> r.error.DependencyStatError?
    decreases |names|
  {
    if |names| == 0 then Success([])
    else
      var path := Join(dir, names[0]);
      if path !in fs.sizes then Failure(DependencyStatError(path))
      else match StatAll(fs, dir, names[1..])
        case Success(rest) => Success([Rpm(path, fs.sizes[path])] + rest)
        case Failure(e) => Failure(e)
  }

  /** StatAll succeeds exactly when every joined path can be stat-ed, and then
      holds one RPM per name, in order, with the size stat reports. */
  lemma {:induction false} StatAllSuccess(fs: FileSystem, dir: string, names: seq<string>)
    ensures StatAll(fs, dir, names).Success?
      <==> forall i :: 0 <= i < |names| ==> Join(dir, names[i]) in fs.sizes
    ensures StatAll(fs, dir, names).Success? ==>
      var rpms := StatAll(fs, dir, names).value;
      && |rpms| == |names|
      && forall i :: 0 <= i < |names| ==>
           rpms[i] == Rpm(Join(dir, names[i]), fs.sizes[Join(dir, names[i])])
    decreases |names|
  {
    if |names| > 0 {
      var rest := names[1..];
      StatAllSuccess(fs, dir, rest);
      assert forall i :: 0 < i < |names| ==> names[i] == rest[i - 1];
    }
  }

  /** The index of the first name whose joined path cannot be stat-ed, or |names|. */
  function FirstUnstatable(fs: FileSystem, dir: string, names: seq<string>): (k: nat)
    ensures k <= |names|
    ensures forall j :: 0 <= j < k ==> Join(dir, names[j]) in fs.sizes
    ensures k < |names| ==> Join(dir, names[k]) !in fs.sizes
    decreases |names|
  {
    if |names| == 0 || Join(dir, names[0]) !in fs.sizes then 0
    else
      var rest := names[1..];
      assert forall j :: 0 < j < |names| ==> names[j] == rest[j - 1];
      1 + FirstUnstatable(fs, dir, rest)
  }

  /** StatAll fails exactly when some joined path cannot be stat-ed, and then
      names the first such path. */
  lemma {:induction false} StatAllFailure(fs: FileSystem, dir: string, names: seq<string>)
    ensures var k := FirstUnstatable(fs, dir, names);
      && (StatAll(fs, dir, names).Failure? <==> k < |names|)
      && (k < |names| ==> StatAll(fs, dir, names).error == DependencyStatError(Join(dir, names[k])))
    decreases |names|
  {
    if |names| > 0 && Join(dir, names[0]) in fs.sizes {
      var rest := names[1..];
      StatAllFailure(fs, dir, rest);
      var k := FirstUnstatable(fs, dir, rest);
      if k < |rest| {
        assert names[k + 1] == rest[k];
      }
    }
  }

  /** The names of the package's requirements that sit beside it in its directory. */
  function LocalNames(fs: FileSystem, path: string): (found: seq<string>)
    requires path in fs.requirements && Dir(path) in fs.listing
    ensures |found| <= |fs.listing[Dir(path)]|
  {
    Accepted(fs.listing[Dir(path)], PaddedNames(fs.requirements[path]))
  }

  /** What LocalDependencies computes for the package at path. */
  function LocalDeps(fs: FileSystem, path: string): (r: Result<seq<Rpm>, Error>)
  {
    if path !in fs.requirements then Failure(MetadataError(path))
    else if Dir(path) !in fs.listing then Failure(ReadDirError(Dir(path)))
    else StatAll(fs, Dir(path), LocalNames(fs, path))
  }

  /** xs in front of a successful result; a failure stays as it is. */
  function Prepend(xs: seq<Rpm>, r: Result<seq<Rpm>, Error>): Result<seq<Rpm>, Error>
  {
    match r
    case Success(ys) => Success(xs + ys)
    case Failure(e) => Failure(e)
  }

  /** Prepending nothing changes nothing. */
  lemma PrependEmpty(r: Result<seq<Rpm>, Error>)
    ensures Prepend([], r) == r
  {
    if r.Success? {
      assert [] + r.value == r.value;
    }
  }

  /** Prepending twice is prepending the concatenation. */
  lemma PrependTwice(xs: seq<Rpm>, ys: seq<Rpm>, r: Result<seq<Rpm>, Error>)
    ensures Prepend(xs, Prepend(ys, r)) == Prepend(xs + ys, r)
  {
    if r.Success? {
      assert xs + (ys + r.value) == (xs + ys) + r.value;
    }
  }

  /** RPM.LocalDependencies: every listed requirement found beside r, as an
      RPM handle, or the first failure, with no partial result. */
  method LocalDependencies(fs: FileSystem, r: Rpm) returns (res: Result<seq<Rpm>, Error>)
    ensures res == LocalDeps(fs, r.path)
  {
    var deps := ListDeps(fs, r.path);
    if deps.Failure? {
      return Failure(deps.error);
    }
    var dir := Dir(r.path);
    var found := ListDir(fs, dir, deps.value);
    if found.Failure? {
      return Failure(found.error);
    }
    var names := found.value;
    var localdeps: seq<Rpm> := [];
    assert names[0..] == names;
    PrependEmpty(StatAll(fs, dir, names));
    for i := 0 to |names|
      invariant StatAll(fs, dir, names) == Prepend(localdeps, StatAll(fs, dir, names[i..]))
    {
      var depPath := Join(dir, names[i]);
      assert names[i..][1..] == names[i + 1..];
      if depPath !in fs.sizes {
        return Failure(DependencyStatError(depPath));
      }
      var dep := Rpm(depPath, fs.sizes[depPath]);
      assert StatAll(fs, dir, names[i..]) == Prepend([dep], StatAll(fs, dir, names[i + 1..]));
      PrependTwice(localdeps, [dep], StatAll(fs, dir, names[i + 1..]));
      localdeps := localdeps + [dep];
    }
    assert names[|names|..] == [];
    assert localdeps + [] == localdeps;
    return Success(localdeps);
  }

  /** LocalDependencies fails exactly when the requirements cannot be read, the
      directory cannot be listed, or a kept entry cannot be stat-ed; on success
      it holds one RPM per kept entry, in listing order, joined onto the
      package's directory and sized by stat. */
  lemma LocalDepsOutcome(fs: FileSystem, path: string)
    ensures LocalDeps(fs, path).Success? <==>
      && path in fs.requirements
      && Dir(path) in fs.listing
      && forall i :: 0 <= i < |LocalNames(fs, path)| ==> Join(Dir(path), LocalNames(fs, path)[i]) in fs.sizes
    ensures path !in fs.requirements ==> LocalDeps(fs, path) == Failure(MetadataError(path))
    ensures path in fs.requirements && Dir(path) !in fs.listing ==>
      LocalDeps(fs, path) == Failure(ReadDirError(Dir(path)))
    ensures LocalDeps(fs, path).Success? ==>
      var names, deps := LocalNames(fs, path), LocalDeps(fs, path).value;
      && |deps| == |names|
      && forall i :: 0 <= i < |names| ==>
           deps[i] == Rpm(Join(Dir(path), names[i]), fs.sizes[Join(Dir(path), names[i])])
  {
    if path in fs.requirements && Dir(path) in fs.listing {
      StatAllSuccess(fs, Dir(path), LocalNames(fs, path));
    }
  }

  /** With a well-formed listing (entry names non-empty and free of '/'), the
      dependencies found are exactly the requirements present as files beside
      the package, each under its own file name. */
  lemma LocalDepsNames(fs: FileSystem, path: string)
    requires path in fs.requirements && Dir(path) in fs.listing
    requires forall e :: e in fs.listing[Dir(path)] ==> e.name != "" && '/' !in e.name
    requires LocalDeps(fs, path).Success?
    ensures var deps, entries := LocalDeps(fs, path).value, fs.listing[Dir(path)];
      && |deps| == |Accepted(entries, fs.requirements[path])|
      && forall i :: 0 <= i < |deps| ==> Name(deps[i]) == Accepted(entries, fs.requirements[path])[i]
  {
    var entries := fs.listing[Dir(path)];
    PaddingIsHarmless(entries, fs.requirements[path]);
    LocalDepsOutcome(fs, path);
    var names := LocalNames(fs, path);
    forall i | 0 <= i < |names|
      ensures '/' !in names[i]
    {
      AcceptedMembership(entries, PaddedNames(fs.requirements[path]), names[i]);
    }
    forall i | 0 <= i < |names|
      ensures Base(Join(Dir(path), names[i])) == names[i]
    {
      BaseOfJoin(Dir(path), names[i]);
    }
  }
}
