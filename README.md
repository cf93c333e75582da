# atlas-rpm: RPM discovery and repository descriptors, modelled in Dafny

This project models the `rpm` package of atlas-rpm (`repo.go`). The package does two things.

- **Repository descriptors.** A `Repo` record (name, label, base URL, optional prefix, enabled flag) is written to a file named `<label>.repo`. The file holds a key/value block: `[<label>]`, `name=`, `baseurl=`, `enabled=true|false`, an optional `prefix=` line, and a trailing newline.
- **Package discovery.** A `Finder` holds a base directory. It globs that directory for the top RPM, `<project>_*_<platform>.rpm`, and takes the first match. It stats that file and rejects it if it is empty. It then reads the package's declared requirements and keeps those that are files (not directories) in the same directory as the package. It stats each kept file, rejects the whole result if any of them is empty, and returns the top RPM followed by its dependencies.

The operating system and the RPM header reader are inputs. A `FileSystem` value (`packages.dfy`) holds four of them:
- `glob`: a function from a pattern to matches or an error;
- `listing`: a map from a directory to its entries, standing in for `os.ReadDir`;
- `sizes`: a map from a path to its size, standing in for `os.Stat`;
- `requirements`: a map from a package path to its requirement names, standing in for `rpm.OpenPackageFile(...).Requires()`.

A path missing from a map is a call that fails.

Files:
- `wrappers.dfy`: `Option` and `Result`.
- `paths.dfy`: a simplified `path/filepath` (`Base`, `Dir`, `Join`).
- `text.dfy`: `strings.Join`, and splitting at newlines as its inverse.
- `repository.dfy`: `Repo`, `Filename`, `String` (here `Render`), and a parser that reads a descriptor back.
- `packages.dfy`: the RPM handle, the `RPMs` helpers, `listDeps`, `toLUT`, `listDir`, `fileSize`, `New` and `LocalDependencies`.
- `discovery.dfy`: `Finder`, `findTopRPM` and `Find`.

The loops of the source are methods with loop invariants. Most are proved equal to a specification function, and the lemmas state the source's promises about those functions:
- `Render` equals `Descriptor`;
- `ZeroSize` equals `ZeroSizeNames`;
- `ListDeps` equals `PaddedNames`;
- `ListDir` equals `Accepted`;
- `LocalDependencies` equals `LocalDeps`, which is built on `StatAll`;
- `Find` equals `FindSpec`.

`Paths` and `Names` state their results element by element, and `ToLut` states its key set, without a separate function. `Find` and `LocalDependencies` are methods because they call those loops.

`listDeps` is modelled as written. It creates its slice with `make([]string, len(deps))` and then appends to it. So it returns one empty string per requirement, followed by the requirement names (`PaddedNames`). `PaddingIsHarmless` proves the extra empty strings never change which entries `listDir` keeps, because no directory entry has an empty name.

## Model

| member | source | states |
|---|---|---|
| `Repositories.Filename` | repo.go:25-27 | the file name is the label followed by exactly ".repo" |
| `Repositories.FilenameOfUpdates` | repo.go:25-27 | the repo labelled "updates" is written to "updates.repo" |
| `Repositories.EnabledText` | repo.go:33 | the flag renders as "true" or "false", and "true" exactly when it is set |
| `Repositories.DescriptorLines` | repo.go:29-36 | there are four lines, or five exactly when the prefix is non-empty |
| `Repositories.Descriptor` | repo.go:28-38 | the descriptor text is never empty and always ends in a newline |
| `Repositories.Render` | repo.go:28-38 | joining the tokens with "\n" and adding a final "\n" gives the descriptor: every line newline-terminated |
| `Repositories.DescriptorSplits` | repo.go:28-38 | with single-line fields, splitting the text gives back the header, name=, baseurl=, enabled= and (only with a prefix) prefix= lines in that order, then an empty last piece |
| `Repositories.ParseDescriptorLines` | repo.go:29-36 | the parser reads the descriptor's lines, followed by the empty last piece, back as the repo |
| `Repositories.DescriptorRoundTrip` | repo.go:28-38 | parsing a rendered descriptor gives back the repo it came from |
| `Repositories.DescriptorInjective` | repo.go:28-38 | distinct repos with single-line fields have distinct descriptors |
| `Repositories.DescriptorWithoutPrefix` | repo.go:30-37 | the "base" repo without a prefix renders as four lines and no prefix= line |
| `Repositories.DescriptorWithPrefix` | repo.go:34-36 | with prefix "/opt" a fifth line "prefix=/opt" follows "enabled=true" |
| `Text.JoinWith` | repo.go:37 | joining no parts gives "", and joining one part gives that part |
| `Text.JoinThenNewline` | repo.go:37 | strings.Join with "\n" plus a final "\n" equals terminating every line with "\n" |
| `Text.SplitJoin` | repo.go:37 | splitting a "\n"-join of single-line parts gives the parts back |
| `Text.JoinSplit` | repo.go:37 | joining the pieces of any text split at "\n" gives the text back |
| `Text.SplitTerminated` | repo.go:37 | newline-terminated single-line lines split into those lines plus one empty piece |
| `FilePaths.Base` | repo.go:169 | the base name is the last element (IsLastElement): a '/'-free suffix of the path that is either the whole path or directly follows a '/'; it is the whole path when the path has no '/' |
| `FilePaths.LastElementUnique` | repo.go:169 | a path has only one last element, so Base's contract determines its result |
| `FilePaths.Dir` | repo.go:185 | the directory is "." for a bare name, "/" for a root entry, and otherwise what precedes the last "/" before the base name |
| `FilePaths.Join` | repo.go:192 | joining onto "" or "." gives the name; otherwise the result starts with the directory, a '/' directly precedes the name, and at most one '/' is added; it always ends with the name |
| `FilePaths.BaseOfJoin` | repo.go:192 | a name without '/' is the base name of any path it is joined onto |
| `Packages.FileSize` | repo.go:252-259 | the size is returned exactly when stat succeeds; otherwise a stat error for that path |
| `Packages.New` | repo.go:113-120 | a handle with that path and its stat size exactly when stat succeeds; otherwise a stat error |
| `Packages.Name` | repo.go:168-170 | the name is the last element of the path (IsLastElement): no '/', and either the whole path or the text directly after a '/' |
| `Packages.NameStartsWith` | repo.go:173-175 | true exactly when the prefix is a prefix of the RPM's name |
| `Packages.ZeroSizeNames` | repo.go:128-137 | there are never more names than RPMs |
| `Packages.ZeroSize` | repo.go:128-137 | the loop returns the names of the empty RPMs in collection order (ZeroSizeNames) |
| `Packages.ZeroSizeNamesMembership` | repo.go:130-133 | a name is reported if and only if some empty RPM has that name |
| `Packages.ZeroSizeNamesEmpty` | repo.go:130-133 | nothing is reported if and only if every RPM has a non-zero size |
| `Packages.ZeroSizeNamesAppend` | repo.go:130-133 | the report keeps collection order: it distributes over concatenation |
| `Packages.Paths` | repo.go:140-147 | the result is as long as the collection, and element i is the path of RPM i |
| `Packages.Names` | repo.go:150-157 | the result is as long as the collection, and element i is the name of RPM i |
| `Packages.PaddedNames` | repo.go:216-219 | the result has length 2n: n empty strings, then the n requirement names in order |
| `Packages.ListDeps` | repo.go:209-222 | it returns those padded names exactly when the package's requirements can be read; otherwise the reader's error |
| `Packages.ToLut` | repo.go:243-250 | the table's keys are exactly the items |
| `Packages.Accepted` | repo.go:232-238 | at most one name is kept per directory entry |
| `Packages.ListDir` | repo.go:224-241 | after a successful listing, it returns the wanted non-directory entries in listing order; otherwise a listing error for that directory |
| `Packages.AcceptedMembership` | repo.go:233-237 | a name is kept if and only if it is wanted and some entry is a non-directory of that name |
| `Packages.AcceptedAppend` | repo.go:233-237 | kept names follow listing order: the filter distributes over concatenation |
| `Packages.AcceptedSameWanted` | repo.go:230-235 | only which entry names are wanted matters; order and duplicates in the wanted list do not |
| `Packages.PaddingIsHarmless` | repo.go:216-218 | the empty strings listDeps adds change nothing when entry names are non-empty |
| `Packages.StatAll` | repo.go:191-199 | on success there is one RPM per name; a failure is always a dependency stat error |
| `Packages.StatAllSuccess` | repo.go:191-199 | it succeeds if and only if every joined path can be stat-ed, giving RPM i = path i with its stat size |
| `Packages.FirstUnstatable` | repo.go:191-196 | every path joined before that index can be stat-ed, and the one at the index cannot |
| `Packages.StatAllFailure` | repo.go:193-196 | it fails if and only if some joined path cannot be stat-ed, and the error names the first such path |
| `Packages.LocalNames` | repo.go:185 | the kept names are never more than the directory's entries |
| `Packages.LocalDependencies` | repo.go:179-203 | the loop with its early return computes LocalDeps: the first failure, or every handle |
| `Packages.LocalDepsOutcome` | repo.go:179-203 | it fails with no partial result if and only if the requirements cannot be read, the directory cannot be listed, or a kept file cannot be stat-ed; on success it returns one handle per kept name, in listing order, with path Join(Dir(path), name) and the stat size |
| `Packages.LocalDepsNames` | repo.go:185-198 | with a well-formed listing, the dependencies' names are exactly the requirements present beside the package, in listing order |
| `Discovery.NewFinder` | repo.go:43-47 | the finder holds the given base directory |
| `Discovery.TopPattern` | repo.go:63-64 | the pattern ends with the file name pattern "<project>_*_<platform>.rpm" |
| `Discovery.TopPatternBase` | repo.go:63-64 | when project and platform have no '/', the pattern's base name is exactly "<project>_*_<platform>.rpm" |
| `Discovery.FindTopRpm` | repo.go:62-75 | a glob error is passed on unchanged; zero matches give a not-found error carrying the pattern; otherwise the first match, which is a glob match |
| `Discovery.Find` | repo.go:78-108 | Find computes FindSpec; a found list is non-empty and none of its RPMs is empty |
| `Discovery.FoundShape` | repo.go:105-107 | on success the head is the first glob match with its stat size, and the tail is exactly its local dependencies in order |
| `Discovery.FoundExactly` | repo.go:78-108 | Find succeeds if and only if there is a match, it is non-empty, its dependencies resolve, and none of them is empty |
| `Discovery.NoMatchIsNotFound` | repo.go:70-72 | with no match, Find fails with a not-found error carrying the pattern |
| `Discovery.EmptyTopFails` | repo.go:84-86 | an empty top RPM fails with a zero-size error, whatever the requirements and listings are |
| `Discovery.EmptyDependenciesFail` | repo.go:94-103 | empty dependencies give one error carrying the top path and the count, and naming exactly the empty dependencies |
| `Discovery.LoneTopRpm` | repo.go:78-108 | a single non-empty match with no local dependencies is returned alone |
| `Discovery.NilDereferenceExactly` | repo.go:83-84 | Find aborts on a nil handle exactly when the top match cannot be stat-ed |
| `Discovery.VanishedTopRpmAborts` | repo.go:83-84 | a glob match that stat cannot find makes the code as written abort |
| `Discovery.FindChecked` | repo.go:83-86 | with New's error checked, Find never aborts: it returns a stat error there, and otherwise agrees with Find |

## Left out

- The operating system: `filepath.Glob`, `os.ReadDir` and `os.Stat` are the oracle fields of `FileSystem`. Their results are taken as given, including order. The real `os.ReadDir` sorts entries by name; the model keeps whatever order the listing has.
- Glob pattern matching: `glob` is an uninterpreted function from the pattern string to matches or an error.
- The RPM header format: `rpm.OpenPackageFile` and `Requires()` are the `requirements` map, which holds plain requirement names.
- Path cleaning: `Base`, `Dir` and `Join` split and glue at the last '/'. Go's handling of "//", "." and ".." elements, trailing slashes, and its `Base("") == "."` are not modelled.
- Error wording: errors are constructors that carry the path, pattern, count or names that the messages mention. `%w` wrapping and message text are not modelled.
- File sizes are `nat`. Go's `int64` is never used in arithmetic here, so its width plays no part.
- The unused `Repos` type and the `SrcDir` accessor carry no behaviour and are not modelled.
- `DescriptorWithoutPrefix`: states the rendered lines of the example record rather than its full text. The text is those lines each followed by "\n", by the definition of `Descriptor`.

## Findings

| source | as written | input that shows it | evidently intended | confidence | as-written member | corrected member |
|---|---|---|---|---|---|---|
| repo.go:83-84 | `topRPM, err := New(path)` drops the error and reads `topRPM.Size` on the nil handle | glob returns `/rpms/atlas_1_x86_64.rpm` and stat of that path fails | return New's error when the top RPM cannot be stat-ed | high, not executed | `Discovery.VanishedTopRpmAborts` | `Discovery.FindChecked` |
