# Verified model of the build system's algorithmic cores

This project models the pure and stateful algorithms of the build system's
Python libraries in Dafny and proves what they are there for. Every loop that
updates variables is a method with its invariants, every object whose fields
change is a class, and each of them is proved equal to a specification
function; the properties below are then proved about those functions, for all
inputs, all runs or all interleavings.

- **Rooted path resolution** (`PosixPath`, `RootedPath`, `FileSystem`,
  `Resolver`, `ResolverLaws`, `NormLaws`, `FlatWalk`, `RealPathTheorems`,
  `LoopOnce`, `NamedFiles`): `realpath` below a toplevel directory. The
  operating system is an object whose answers may change from call to call; the
  asserts in the code and the confinement below root hold even then. On a file
  system that stands still the answer is free of symlinks and equal to that of
  a flat worklist resolver, exactly if no link that can be met has a target
  that normalises to ".". With use_physdir the `while` of `__realpath` could be
  an `if`; without it, it is needed.
- **The cached resolver** (`PathCache`, `CacheTheorems`, `CacheModes`): the
  same over the stat, lstat and normpath caches, which never give a stale
  answer and never miss. With use_physdir it agrees with the uncached one
  exactly if root, named without its slash, is no symlink. Without use_physdir
  it agrees exactly if no link to "." lies in a directory that is a link
  itself, root included, and no link below a symlinked root is absolute: there
  the cached version sees a link through the "." that the uncached one keeps,
  or through the slash of root, and fails. The repository's tests of `realpath`
  set up a symlinked root (meta/lib/oe/tests/test_path.py:50-53); with
  use_physdir the cached version fails there on every file, as
  `RootLinkDiffers` shows.
- **License expressions** (`License`, `LicenseGrammar`, `LicenseReading`,
  `Flatten`, `Manifest`, `ManifestLaws`, `ManifestFilter`, `FilterFaults`,
  `FilterExact`, `FilterSurvives`): tokeniser, the fragment of the Python
  expression grammar (section 6.9 of the Python Language Reference) that the
  tokens can reach, flattening, and the filtering printer. Printing is inverse
  to parsing exactly for expressions without empty brackets and without an
  operand directly in front of a bracket. A filter that keeps something leaves
  a readable string exactly if, besides, every bracket keeps a license, and its
  first one unless nothing in front of the bracket is kept; every filter does
  exactly for expressions without brackets.
- **Dependency graphs** (`Postinsts`, `RDepends`): delayed postinst ordering by
  depth-first search, and the runtime dependency closure with its two names for
  one growing list.
- **Locked signatures** (`TaskHash`, `TaskRecords`, `LockedSigs`, `MergeSigs`,
  `MergeLaws`, `MergeLines`, `MergeRoundTrip`, `TextFile`): unlocking over a
  whole run of `get_taskhash`, and exactly when it is what is documented,
  reading the locked hashes, and merging, writing and reading locked-sigs
  files.
- **devtool deploy and undeploy** (`Deploy`, `DeployLaws`): the generated
  target script over files, manifests and preserve directories, for sessions of
  any depth. Out of order it restores the target exactly if the recipes' common
  files were there before with the content the first one brings.
- **Thread pool** (`ThreadPool`, `PoolOrder`): every interleaving of the
  workers with the owner of the pool, and the order in which they take the
  tasks.
- **Patch stack** (`Patching`, `PatchLaws`): `PatchTree` over an arbitrary
  patch command, with the series file and the tree as state.
- **Variable splitting** (`SplitVar`, `SplitSpelled`): `split_var_value` as a
  character scanner, and where exactly it splits a value.
- **ELF relocation** (`Elf`, `ElfLayout`, `ElfLaws`, `ElfMarkers`, `ElfDirs`):
  in-place patching of the interpreter and of the loader's path sections
  (System V ABI, chapter 4 "Sections" and chapter 5 "Program Header"), on a
  file that can grow.

Where the code does not do what its documentation says, the model follows the
code: `is_included` returns the whitelisted licenses, not None, when nothing is
excluded; without use_physdir a missing directory raises no ENOENT
(`PhysdirNeedsDirs`); a type that a locked-sigs file opens twice forgets its
earlier lines; a recipe is unlocked already when the name of an unlocked recipe
is contained in the name of a dependency (`SubstringUnlocks`, and
`AsDocumentedIff` for when this matters); a forced `Push` patches the tree
without listing the patch; `split_var_value` ends with the closing quote only
if the braces of the body are balanced; and `change_dl_sysdirs` initialises a
variable it does not use, so that a file with `.sysdirs` but without
`.sysdirslen` makes it fail (`DlSysDirsErrors`).

`dafny verify dfyconfig.toml` checks the whole project.

## Model

| member | source | states |
|---|---|---|
| Resolver.RealPathRelLoop | meta/lib/oe/path.py:129-151 | For any operating system, even one that changes its answers, the assert in the loop holds and an answer lies inside root; on a fixed one the loop computes the specification of the component walk. Terminates by budget and remaining components. |
| Resolver.RealPathLoop | meta/lib/oe/path.py:153-174 | The same for the symlink loop and its assert; a path that starts inside root ends inside it. |
| Resolver.RealPathOf | meta/lib/oe/path.py:176-210 | With or without use_physdir, every answer is below the root; a file that is not below it gives EINVAL; on a fixed system the answer is that of the specification. |
| Resolver.LargerBudget | meta/lib/oe/path.py:153-168 | A link resolution that does not end in ELOOP has the same outcome with every larger budget. |
| Resolver.BudgetMonotone | meta/lib/oe/path.py:176-210 | So has the whole of realpath, in both modes. |
| ResolverLaws.OutsideIff | meta/lib/oe/path.py:129-210 | Unless readlink fails with EINVAL on a link, realpath does so exactly for files that are not below root. |
| RootedPath.RootOfHasShape | meta/lib/oe/path.py:184-189 | The prepared root ends in exactly one slash unless it is made of slashes only, for every input string. |
| RootedPath.DirnameInside | meta/lib/oe/path.py:138-142 | Going up from a path at least as long as root never leaves root, for arbitrary strings. |
| RootedPath.DirnameOf | meta/lib/oe/path.py:138-142 | The directory of a path is what stands in front of the slashes before its last component, or, for a path in "/", the slashes. |
| RootedPath.JoinPathInside | meta/lib/oe/path.py:145-149 | Appending a component to a path inside root stays inside root. |
| PosixPath.NormPathIdempotent | meta/lib/oe/cachedpath.py:25-50 | Normalising twice is normalising once, so that a key normalised on the way in is found again. |
| NormLaws.NormPathLeads | meta/lib/oe/path.py:184-185 | From every directory a path and its normalised form lead to the same place, component by component, with ".." going up one; absolute paths stay absolute. |
| NormLaws.NormPathLead | meta/lib/oe/path.py:184-185 | Of leading slashes exactly two stay two, any other number becomes one. |
| NormLaws.UpCancels | meta/lib/oe/path.py:184-185 | A name and the ".." behind it cancel, wherever they stand in the path. |
| NormLaws.RootUp | meta/lib/oe/path.py:184-185 | A ".." in front of an absolute path is dropped. |
| NormLaws.DetourBelow | meta/lib/oe/cachedpath.py:25-30 | A path below root that is spelled with a detour through a name and ".." normalises to the path without it, so the caches have one key for both. |
| NormLaws.RootNamed | meta/lib/oe/path.py:184-189 | A root of plain components is prepared as itself with one slash behind it, whether it had one or not. |
| NormLaws.FileDetour | meta/lib/oe/path.py:184-199 | realpath gives the same answer for a file with and without such a detour, in both modes and whatever links there are. |
| NormLaws.TargetLeads | meta/lib/oe/path.py:158-167 | The text of a link is followed component by component, from root if it is absolute and else from the directory of the link. |
| NormLaws.TargetDetour | meta/lib/oe/path.py:158-167 | A detour in the text of a link, absolute or relative, makes no difference to what it resolves to. |
| RealPathTheorems.ResolveLinkFree | meta/lib/oe/path.py:129-151 | With use_physdir no prefix of the answer below root is a symlink. |
| RealPathTheorems.ResolveIsWalk | meta/lib/oe/path.py:129-210 | If realpath answers, a flat worklist walk clamped at root gives that answer from some number of expansions on, and ELOOP means that the walk does not end within the budget. |
| RealPathTheorems.WalkIsResolve | meta/lib/oe/path.py:129-210 | If the flat walk ends within m expansions, realpath gives its answer with every budget from m on. |
| RealPathTheorems.AgreesIffNoDotLinks | meta/lib/oe/path.py:138-147 | realpath and the flat walk agree on all files exactly if no link that can be met normalises to ".", which the code would keep as a component. |
| RealPathTheorems.DotLinkDisagrees | meta/lib/oe/path.py:138-147 | On the path of any such link the two answers are spelled differently: the walk ends in the directory of the link, and realpath keeps a "." behind it. |
| RealPathTheorems.DotLinkAbsorbs | meta/lib/oe/path.py:138-147 | With a sibling link to ".." they name different files, also after normalisation: the ".." only removes the kept ".", where the walk goes up one directory. |
| RealPathTheorems.PhysdirMakesNoDifference | meta/lib/oe/path.py:176-199 | For a file below root: if no directory on the way is a symlink, and none is missing or assume_dir is set, use_physdir makes no difference; its documentation names the first condition only. |
| RealPathTheorems.PhysdirNeedsDirs | meta/lib/oe/path.py:129-199 | The exception: with assume_dir off and a directory missing, use_physdir gives ENOENT and its absence the file, without any symlink, for every budget. |
| RealPathTheorems.PhysdirAgreesIff | meta/lib/oe/path.py:129-199 | So, where no directory is a symlink and nothing below a missing one is, the two agree exactly if assume_dir is set or no directory is missing. |
| RealPathTheorems.PhysdirOnRoot | meta/lib/oe/path.py:184-199 | The other exception is root itself: with use_physdir the answer has the slash that root is given, without it the file comes back as it is normalised. |
| LoopOnce.WhileIsIf | meta/lib/oe/path.py:129-174 | With use_physdir the `while` of `__realpath` may be read as an `if`, throughout every run: the same answer or error for every file, budget and assume_dir setting. |
| LoopOnce.LoopRunsOnce | meta/lib/oe/path.py:153-168 | The step of it: where the directory of a link is link-free, what the while body computes ends the loop. |
| LoopOnce.WhileIsNeeded | meta/lib/oe/path.py:153-199 | Without use_physdir the two differ: on a link to ".." two levels below a symlinked directory the `if` would answer with that symlink, with every budget but zero. |
| PathCache.CachedPath.UpdateCache | meta/lib/oe/cachedpath.py:18-23 | Forgets exactly the normalised path in both caches. If the file system has become another one since they were filled, they are right about it afterwards exactly if its answers differ for no other cached path. |
| PathCache.CachedPath.DoStat | meta/lib/oe/cachedpath.py:32-45 | Memoised stat: the result is cached and no cached path is lost. |
| PathCache.CachedPath.CallLStat | meta/lib/oe/cachedpath.py:52-70 | Every lstat-cached path is stat-cached too; on a steady system the answer is the lstat of the normalised path. |
| PathCache.CachedPath.CallStat | meta/lib/oe/cachedpath.py:47-50 | The final dictionary lookup never misses; on a steady system the answer is the stat of the normalised path. |
| PathCache.CachedPath.IsFile | meta/lib/oe/cachedpath.py:72-80 | On a steady system, whatever was asked or forgotten before, the answer for the normalised path. |
| PathCache.CachedPath.IsDir | meta/lib/oe/cachedpath.py:82-87 | The same for directories. |
| PathCache.CachedPath.IsLink | meta/lib/oe/cachedpath.py:89-96 | The same for symlinks, without following them. |
| PathCache.CachedPath.Exists | meta/lib/oe/cachedpath.py:98-102 | The same for existence. |
| PathCache.CachedPath.LExists | meta/lib/oe/cachedpath.py:104-108 | The same for existence without following links. |
| PathCache.CachedPath.RealPathRelLoop | meta/lib/oe/cachedpath.py:152-174 | The cached component walk keeps the cache invariant, its assert and confinement for any operating system, and on a steady one computes the specification over the normalising queries. |
| PathCache.CachedPath.RealPathLoop | meta/lib/oe/cachedpath.py:176-197 | The same for the cached symlink loop. |
| PathCache.CachedPath.RealPathOf | meta/lib/oe/cachedpath.py:199-233 | The cached realpath stays below root, and on a steady system is the specification over the normalising queries. |
| CacheTheorems.CachedAgreesIffRootIsNoLink | meta/lib/oe/cachedpath.py:149-233 | With use_physdir the cached and the uncached realpath give the same answer or error for every file, budget and assume_dir setting exactly if root without its slash is no symlink. |
| CacheTheorems.RootLinkDiffers | meta/lib/oe/cachedpath.py:199-233 | With a symlinked root and use_physdir the cached version fails on every file below root, with every budget and assume_dir setting; the uncached one answers for the root itself. |
| CacheTheorems.CachedAgreesWithoutPhysdir | meta/lib/oe/cachedpath.py:199-219 | Without use_physdir they agree on every file whose directories below root are no symlinks, whatever the links say. |
| CacheModes.CachedAgreesWithoutPhysdirIff | meta/lib/oe/cachedpath.py:149-233 | Without use_physdir, for any root, they agree on every file named below root, also behind symlinks, exactly if root is ".", or no link to "." lies in a directory that is a link, root included, and no link below a symlinked root is absolute. |
| CacheModes.CachedAgreesBehindLinks | meta/lib/oe/cachedpath.py:149-233 | The agreement for one such file, budget and assume_dir setting. |
| CacheModes.DotBehindLinkDiffers | meta/lib/oe/cachedpath.py:176-197 | On a link to "." behind a link the uncached version answers with the kept "." and the cached one fails, with every budget but zero. |
| CacheModes.AbsLinkDiffers | meta/lib/oe/cachedpath.py:176-197 | On an absolute link below a symlinked root the cached version fails with every budget, and not as the uncached one does, if that fails at all, with assume_dir and a budget of two or more. |
| NamedFiles.FilesAreNamed | meta/lib/oe/path.py:126-192 | Below an absolute root every file is named by plain components, except that two leading slashes stay apart. |
| License.GetElements | meta/lib/oe/license.py:48-60 | The loop yields the tokens of the specification, with an "&" between adjacent licenses, or names the first invalid element. |
| LicenseReading.ReadsWritten | meta/lib/oe/license.py:48-60 | Tokens written with any blanks around them, and with any of the "&" between two licenses left out, are read as those tokens. |
| LicenseReading.FirstInvalid | meta/lib/oe/license.py:51-57 | Reading fails exactly if an element is neither a license nor an operator, and names the first such element. |
| LicenseReading.BreakRead | meta/lib/oe/license.py:44-65 | A license that a line break follows passes the pattern, but no expression that holds it can be parsed. |
| LicenseGrammar.ParseIffTokens | meta/lib/oe/license.py:62-69 | Parsing succeeds with a tree exactly on the tokens of that tree, for every tree of the grammar: "and" binds tighter than "or", both to the left. |
| LicenseGrammar.ParseOutcomes | meta/lib/oe/license.py:62-69 | No tokens give the empty module, and everything that is no expression of the grammar a syntax error. |
| Flatten.FlattenVisitor.Visit | meta/lib/oe/license.py:71-93 | The visitor appends exactly the flattened licenses of the tree. |
| Flatten.FlattenedResolves | meta/lib/oe/license.py:82-102 | For every chooser that returns one of its arguments, flattening lists the leaves of one resolution of all ORs. |
| Flatten.SatisfiedIffResolution | meta/lib/oe/license.py:82-93 | A set of licenses satisfies the expression as a boolean formula exactly if it covers some resolution. |
| Flatten.GreedyIsOptimal | meta/lib/oe/license.py:118-126 | Choosing the better side of each OR by itself is best overall: no resolution of the whole tree has more whitelisted licenses. |
| Flatten.LastWanted | meta/lib/oe/license.py:123-126 | Of alternatives in a row the last whitelisted one is taken, or the last one if none is. |
| Flatten.VerdictByPatterns | meta/lib/oe/license.py:127-140 | The verdict is negative exactly if a license matches a pattern of the blacklist; it lists the licenses that match one of the blacklist if negative, of the whitelist if not. |
| Flatten.IsIncluded | meta/lib/oe/license.py:104-140 | The answer is the verdict on a best resolution, the one that takes the right side of every OR unless the left one is strictly better: its blacklisted licenses if it has any, else its whitelisted ones; with the errors of the tokeniser and the parser. |
| Manifest.ManifestVisitor.Visit | meta/lib/oe/license.py:156-196 | The visitor with its pending operators computes the specification, node by node. |
| Manifest.ManifestVisitor.PrintLicense | meta/lib/oe/license.py:157-186 | The two operator loops condense runs of operators to the last one, print them, and leave none pending. |
| Manifest.ManifestLicenses | meta/lib/oe/license.py:198-217 | Tokenising, parsing with square brackets, printing and restoring round ones; or the error. |
| Manifest.KeptLicenses | meta/lib/oe/license.py:156-186 | For every filter and every expression the list is the in-order subsequence of the leaves that pass. |
| Manifest.ReadSpelled | meta/lib/oe/license.py:48-60 | The tokeniser reads back every token list that the printer can write. |
| Manifest.VisitedSpells | meta/lib/oe/license.py:156-196 | With nothing filtered a regular expression is printed token by token. |
| Manifest.RoundTrip | meta/lib/oe/license.py:198-217 | With nothing filtered the printed string parses to the same tree, for arbitrary nesting and implicit "&". |
| ManifestLaws.RoundTripIffRegular | meta/lib/oe/license.py:187-217 | It does so exactly if the expression has no empty brackets and no operand directly in front of a bracket. |
| ManifestLaws.NeverReadsBack | meta/lib/oe/license.py:187-217 | Any other expression never reads back as itself, whatever is filtered. |
| ManifestFilter.FilteredReadsBack | meta/lib/oe/license.py:156-217 | Without brackets, for every filter, each kept license follows the operator read last in front of it, and the string parses to an expression over exactly the kept licenses. |
| ManifestFilter.EveryFilterIffBracketFree | meta/lib/oe/license.py:156-217 | Every filter leaves a string that reads back over the kept licenses exactly if the expression has no brackets. |
| FilterSurvives.ReadsBackIff | meta/lib/oe/license.py:156-217 | For one filter and one expression: if something is kept, the string reads back as an expression over the kept licenses exactly if the expression is regular and every bracket keeps a license, and its first one unless nothing in front is kept; if nothing is kept, exactly if there are no brackets. |
| FilterExact.NeverReads | meta/lib/oe/license.py:156-217 | Otherwise the string is no license expression at all. |
| FilterSurvives.SurvivorShown | meta/lib/oe/license.py:156-196 | What the visitor prints of an expression that survives: its kept parts, each behind the operator read last, brackets opened late but in time. |
| ManifestFilter.FilterBreaksBrackets | meta/lib/oe/license.py:191-196 | An "and" of a with a bracketed "or" of b and c, filtered without b, prints a bracket that starts with the "or", which does not parse; for all licenses a, b, c. |
| Postinsts.FilterList | meta/lib/oe/rootfs.py:575-582 | Removing first occurrences while walking a copy leaves exactly the wanted dependencies, duplicates included. |
| Postinsts.FilterDeps | meta/lib/oe/rootfs.py:575-584 | Every dependency list keeps exactly the packages of the dictionary. |
| Postinsts.FilterKeepsCycles | meta/lib/oe/rootfs.py:575-584 | Filtering neither makes nor breaks a dependency cycle. |
| Postinsts.DepResolver.DepResolve | meta/lib/oe/rootfs.py:587-599 | The search keeps resolved a dependency-first list of the finished packages, ends because seen grows within the graph, and raises only if there is a cycle. |
| Postinsts.TopologicalNoCycle | meta/lib/oe/rootfs.py:587-599 | An order of all packages with every dependency first excludes cycles. |
| Postinsts.RootedCycles | meta/lib/oe/rootfs.py:607-611 | The artificial root adds no cycle, unless a package has its name. |
| Postinsts.DelayedPostinsts | meta/lib/oe/rootfs.py:586-616 | Raises exactly if the dependencies are circular (self-loops included) or a package is named like the root; otherwise each package once, behind all its dependencies, or None if there is nothing to do. |
| Postinsts.GetDelayedPostinsts | meta/lib/oe/rootfs.py:575-616 | The same from the dependencies as they were read, filter included: it raises exactly if those are circular, and puts every delayed dependency first. |
| RDepends.Visit | meta/lib/oe/package_manager.py:1127-1139 | One package adds exactly its unhandled known dependencies, to done and to new, also while done is the list being walked. |
| RDepends.Pass | meta/lib/oe/package_manager.py:1126-1140 | A pass ends although next may be done and grow, and closes done under known dependencies; if next is not done it adds nothing. |
| RDepends.Closure | meta/lib/oe/package_manager.py:1122-1140 | At most two passes of the while loop, whatever the graph. |
| RDepends.ClosureIsReachable | meta/lib/oe/package_manager.py:1115-1142 | A closed list of reachable packages that has the inputs is exactly what can be reached by dependency chains. |
| RDepends.GetRDependsRecursively | meta/lib/oe/package_manager.py:1115-1142 | The list grows in place to exactly the packages reachable from the inputs, with at most two passes for each input. |
| Deploy.Target.ClearOld | scripts/lib/devtool/deploy.py:50-75 | Removes the files of the old manifest, last first, and the manifest; a missing file stops the script. |
| Deploy.Target.PreserveExisting | scripts/lib/devtool/deploy.py:95-109 | Moves every listed file that exists into the preserve directory. |
| Deploy.Target.ExtractAll | scripts/lib/devtool/deploy.py:110-117 | Writes the payload over whatever is there. |
| Deploy.Target.DeployTarget | scripts/lib/devtool/deploy.py:77-117 | The deploy script with its space check and preserve option, as a state transition. |
| Deploy.Target.UndeployTarget | scripts/lib/devtool/deploy.py:118-125 | The undeploy script, which puts preserved files back. |
| DeployLaws.DeployedAre | scripts/lib/devtool/deploy.py:50-117 | After a deploy that goes through every file of the payload has its content, the manifest lists them, and every other file that was not deployed before is as it was. |
| DeployLaws.DeployFailsIff | scripts/lib/devtool/deploy.py:50-94 | A deploy goes through exactly if no file of the old manifest is missing and there is space or none is asked for. |
| DeployLaws.StopsAtMissing | scripts/lib/devtool/deploy.py:50-75 | At a missing file both scripts stop: the files listed behind it are gone, those in front of it are there, and manifest and preserved files are as before. |
| DeployLaws.DeployKeepsOriginals | scripts/lib/devtool/deploy.py:50-117 | Every preserving deploy, also one stopped by the space check, keeps the original files equal to the undeployed ones in place plus the preserved ones, disjointly; it fails only for lack of space. |
| DeployLaws.UndeployRestores | scripts/lib/devtool/deploy.py:50-125 | A final undeploy gives exactly the original files and leaves no trace of the recipe. |
| DeployLaws.NoPreserveIffNoClash | scripts/lib/devtool/deploy.py:95-117 | Without preservation the originals survive exactly if the payload overwrites none of those in place. |
| DeployLaws.SessionRestores | scripts/lib/devtool/deploy.py:50-125 | Recipes deployed any number of times and undeployed last in first out, to any depth, give the whole target back. |
| DeployLaws.FirstInFirstOutIff | scripts/lib/devtool/deploy.py:50-125 | Undeploying in the order of deploying works exactly if every path both recipes bring was there before with the first one's content. |
| ThreadPool.StepInv | meta/lib/oe/utils.py:245-299 | Every step of every thread keeps every added task in exactly one place and the unfinished count equal to queued plus in-flight tasks. |
| ThreadPool.NeverTwice | meta/lib/oe/utils.py:257-276 | In every reachable state no task has been executed more often than it was added, and the unfinished count is right. |
| ThreadPool.ReturnsWhenDone | meta/lib/oe/utils.py:295-299 | When wait_completion has returned, every task has run exactly once and every worker has stopped. |
| ThreadPool.EveryRunEnds | meta/lib/oe/utils.py:262-276 | No interleaving goes on for ever: a bound on its length. |
| PoolOrder.TakenInOrder | meta/lib/oe/utils.py:261-293 | For every interleaving of any number of workers: the tasks taken so far, followed by those in the queue, are those added so far, in that order. |
| PoolOrder.OneWorkerInOrder | meta/lib/oe/utils.py:261-299 | A single worker has at any time executed the first tasks in their order, and all of them when wait_completion has returned. |
| ThreadPool.NeverStuckIffFeasible | meta/lib/oe/utils.py:278-299 | Some thread can always move until wait_completion returns exactly if the tasks fit into the queue and there is a worker if there is a task. |
| ThreadPool.InfeasibleSticks | meta/lib/oe/utils.py:278-299 | Otherwise some run blocks for ever. |
| TaskHash.SignatureGenerator.constructor | meta/lib/oe/sstatesig.py:88-100 | The initial state: the configured recipes unlocked, nothing hashed. |
| TaskHash.SignatureGenerator.GetTaskHash | meta/lib/oe/sstatesig.py:138-178 | One call as a transition of unlocked recipes, locked hashes, task hashes and mismatch messages. |
| TaskHash.UnlockedGrows | meta/lib/oe/sstatesig.py:145-159 | Over a run the set of unlocked recipes only grows. |
| TaskHash.ChainUnlocks | meta/lib/oe/sstatesig.py:145-178 | A task with a dependency chain to an initially unlocked recipe returns and records its computed hash, and its recipe is unlocked from then on. |
| TaskHash.UnlockedHasReason | meta/lib/oe/sstatesig.py:149-159 | Conversely, every recipe that comes unlocked has a chain of recipe names, each contained in a dependency of the one before, down to an initially unlocked one. |
| TaskHash.UnlockedIffCauses | meta/lib/oe/sstatesig.py:145-159 | Exactly: a recipe is unlocked before the i-th call if and only if it has such a chain through calls that go back in time from there. |
| TaskHash.LockHoldsIff | meta/lib/oe/sstatesig.py:145-178 | So a locked task gets its locked hash if its recipe has no such chain up to and with its own call, and the computed one if it has. |
| TaskHash.NoReasonStaysLocked | meta/lib/oe/sstatesig.py:161-175 | A locked task whose recipe has no such chain gets its locked hash. |
| TaskHash.HashAsDocumentedIff | meta/lib/oe/sstatesig.py:145-159 | One call unlocks what its comment says exactly if the task is not one that should stay locked but has a dependency whose name contains an unlocked one. |
| TaskHash.AsDocumentedIff | meta/lib/oe/sstatesig.py:145-159 | A whole run unlocks at every step exactly the documented recipes if and only if no task that the documented run leaves locked has such a dependency. |
| TaskHash.DocumentedIsUnlocked | meta/lib/oe/sstatesig.py:145-159 | Every run unlocks at least the documented recipes. |
| TaskHash.HashesAsDocumented | meta/lib/oe/sstatesig.py:138-178 | If a run unlocks exactly those, every hash is the locked one exactly for the locked tasks that are to stay locked. |
| TaskHash.SubstringUnlocks | meta/lib/oe/sstatesig.py:154-159 | Where the two part: "gcc" is unlocked, "zlib" depends on "gcc-runtime", and the lock of zlib is ignored. |
| TaskHash.HashKeepsLocksIff | meta/lib/oe/sstatesig.py:161-178 | One call keeps recorded hashes equal to their locks exactly unless it rehashes a task, locked before and unlocked now, to something else. |
| TaskHash.RunKeepsLocks | meta/lib/oe/sstatesig.py:161-178 | In a run that hashes each task once, every key with a locked hash has that hash recorded. |
| TaskRecords.MismatchesAre | meta/lib/oe/sstatesig.py:138-175 | The messages of a run are exactly those of the calls that used a lock other than the computed hash, in order, each with recipe, task, computed and locked hash, and the variable. |
| TaskRecords.RecordIs | meta/lib/oe/sstatesig.py:138-178 | In a run that hashes each task once, the hash that a call returns stays recorded in taskhash, and in lockedhashes exactly if its lock was used. |
| LockedSigs.SstateLockedSigs | meta/lib/oe/sstatesig.py:64-75 | The nested loops store the words of all variables in order, or fail. |
| LockedSigs.LastEntryWins | meta/lib/oe/sstatesig.py:64-75 | Fails exactly if some word lacks a part; otherwise the table has exactly the recipes and tasks of the entries, and the last entry for each wins. |
| LockedSigs.EntriesPlus | meta/lib/oe/sstatesig.py:66-69 | The entries of a list of types are those of its parts, in order. |
| LockedSigs.EntriesOne | meta/lib/oe/sstatesig.py:66-69 | The entries of one type are the words of its variable SIGGEN_LOCKEDSIGS_<type>, each with the name of that variable. |
| LockedSigs.LastWordWins | meta/lib/oe/sstatesig.py:64-75 | The last word recipe:task:hash of all variables gives the recipe and the task this hash, with the variable it stands in. |
| MergeSigs.ReadMain | meta/lib/oe/copy_buildsystem.py:149-162 | The line loop over the first file computes the line-by-line specification. |
| MergeSigs.ReadExtra | meta/lib/oe/copy_buildsystem.py:164-182 | The same for the second file, with the failure on a line without a task. |
| MergeSigs.WriteSigsFile | meta/lib/oe/copy_buildsystem.py:184-196 | The written text: a block for every type that has lines, and the list of those types. |
| MergeSigs.MergeLockedSigs | meta/lib/oe/copy_buildsystem.py:148-201 | Both written files, for whatever order the copied types come in. |
| MergeLaws.MainIsBlocks | meta/lib/oe/copy_buildsystem.py:151-162 | Reading line by line is reading block by block, the last block of a type replacing earlier ones. |
| MergeLaws.MainKeepsAllIff | meta/lib/oe/copy_buildsystem.py:151-162 | The first file keeps all lines of a type in order exactly if all its blocks but the last are empty. |
| MergeLaws.MissingMeans | meta/lib/oe/copy_buildsystem.py:170-174 | The missing lines are exactly those of the second file that the first has not, each once. |
| MergeLaws.MergeKeepsAndAdds | meta/lib/oe/copy_buildsystem.py:148-182 | Succeeds exactly if every line to be added names a task; then every type keeps its lines in order and is followed by exactly its missing lines without duplicates, and the order of types is extended likewise. |
| MergeLaws.CopyHoldsAddedIff | meta/lib/oe/copy_buildsystem.py:168-182 | The copy holds exactly the added lines whose task passes the filter, exactly if earlier blocks of the same type in the second file contributed none. |
| MergeLines.TaskIs | meta/lib/oe/copy_buildsystem.py:171 | The task of a line target:task:rest between blanks is its second part. |
| MergeLines.EntryLineRead | meta/lib/oe/copy_buildsystem.py:169-171 | An indented and continued line of a locked-sigs file is such a line. |
| MergeLines.CopiedByTask | meta/lib/oe/copy_buildsystem.py:164-174 | Such a line of the last block of its type, if neither the first file nor an earlier block has it, is copied exactly if copy_tasks is empty or has its task; nothing else is copied. |
| MergeLines.NamesWritten | meta/lib/oe/copy_buildsystem.py:184-196 | The variable that opens the lines of a type is the one that is read for it, and the last line lists the types, parted by blanks, if their names have none. |
| MergeRoundTrip.ReadsBack | meta/lib/oe/copy_buildsystem.py:151-196 | A written file is read as exactly its non-empty types, in order, with their lines. |
| MergeRoundTrip.MergeReadsBack | meta/lib/oe/copy_buildsystem.py:148-201 | Both files of every successful merge read back, from any two input files. |
| MergeRoundTrip.MergeAgain | meta/lib/oe/copy_buildsystem.py:148-201 | Merging the second file into the merged output again succeeds, writes the same text, and copies nothing. |
| Patching.PatchTree.ApplyPatch | meta/lib/oe/patch.py:213-239 | Dry run, run, and the record of a successful unforced push; what is left behind on each failure. |
| Patching.PatchTree.AppendPatchFile | meta/lib/oe/patch.py:175-179 | One line more in the series file, and the patch text stored. |
| Patching.PatchTree.RemovePatchFile | meta/lib/oe/patch.py:187-201 | Reverses one or all recorded patches from the last on and rewrites the series file, or stops at the first failure without rewriting it. |
| Patching.PatchTree.Import | meta/lib/oe/patch.py:72-86 | The patch goes right behind the applied ones; a patch without a file is an error. |
| Patching.PatchTree.Push | meta/lib/oe/patch.py:241-259 | Applies the next patch and moves current only on success. |
| Patching.PatchTree.Pop | meta/lib/oe/patch.py:261-272 | Takes off the last or all patches and moves current down, or to None. |
| Patching.PatchTree.Clean | meta/lib/oe/patch.py:274-276 | Takes off all patches. |
| PatchLaws.RecordReadIff | meta/lib/oe/patch.py:175-185 | A series line is read as the file and strip level it was written for exactly if the patch directory has no comma. |
| PatchLaws.CleanRestores | meta/lib/oe/patch.py:187-201 | Clean gives back the tree from before the first recorded patch, also for an object that did not apply them. |
| PatchLaws.PushHolds | meta/lib/oe/patch.py:213-239 | A successful push adds one applied and recorded patch; a failed one changes nothing. |
| PatchLaws.PopHolds | meta/lib/oe/patch.py:187-201 | A pop takes off exactly the last applied patch and its record. |
| PatchLaws.ImportKeeps | meta/lib/oe/patch.py:203-211 | An import never disturbs the applied prefix. |
| PatchLaws.ImportAdds | meta/lib/oe/patch.py:203-211 | An import fails exactly without a file and a remote; otherwise the list has one patch more, right behind the applied ones, with the fetched file if there is a remote. |
| PatchLaws.ImportedIsPushed | meta/lib/oe/patch.py:203-259 | The patch imported last is the one pushed next: the patch command on its text decides whether the push succeeds, and its tree is left. |
| PatchLaws.BasenameIs | meta/lib/oe/patch.py:175-179 | A patch is recorded and stored under the last component of its path. |
| PatchLaws.StepKeeps | meta/lib/oe/patch.py:203-276 | Every operation but a forced push, whether it succeeds or fails, a pop of nothing included, keeps: the series file lists exactly the applied prefix, and the tree is the base with it applied. |
| PatchLaws.EveryRunCleans | meta/lib/oe/patch.py:203-276 | So does every run of such operations, and Clean after any of them gives the base. |
| PatchLaws.FreshRunCleans | meta/lib/oe/patch.py:168-276 | In particular every run of a new object on an unpatched tree. |
| PatchLaws.PopKeeps | meta/lib/oe/patch.py:261-272 | A pop of something applied succeeds, and one of nothing changes nothing. |
| PatchLaws.PushKeepsIffNotForced | meta/lib/oe/patch.py:229-237 | A successful push keeps this exactly if it is not forced. |
| SplitVar.SplitVarValue | meta/lib/oe/recipeutils.py:106-160 | Both loops compute the specification. |
| SplitVar.ItemsAreVisible | meta/lib/oe/recipeutils.py:122-146 | In both modes the items concatenate to the input without the whitespace read at expression depth zero, for unbalanced braces too. |
| SplitSpelled.PiecesSplit | meta/lib/oe/recipeutils.py:122-146 | In both modes, a value spelled as items with whitespace between them, of which only a quote of an assignment may stand without, is split into exactly those items. |
| SplitSpelled.SplitIsPieces | meta/lib/oe/recipeutils.py:122-146 | And every value is spelled this way, so that this says where each value is split. |
| SplitVar.SplitIsWell | meta/lib/oe/recipeutils.py:122-146 | Without assignment every item is non-empty, has no separator at depth zero, and all but the last end at depth zero. |
| SplitVar.JoinSplits | meta/lib/oe/recipeutils.py:122-146 | Every list of that shape is what splitting its space-joined form returns. |
| SplitVar.SplitJoinSplit | meta/lib/oe/recipeutils.py:106-160 | Joining the items with single spaces and splitting again gives the same items. |
| SplitVar.AssignmentSplits | meta/lib/oe/recipeutils.py:114-160 | For an assignment the first item is the head with its opening quote, then the items of the body; the last item is the closing quote exactly if the body ends at depth zero. |
| Elf.ChangeInterpreter | scripts/relocate_sdk.py:76-113 | The loop with its seeks and reads computes the specification; a truncated header is a struct error. |
| Elf.SetInterpreter | scripts/relocate_sdk.py:96-112 | Writes the padded path unless the old one is left alone or the segment is too small. |
| Elf.ChangeSlots | scripts/relocate_sdk.py:169-185 | The slot loop of .gccrelocprefix, reading and writing behind a moving position. |
| Elf.ChangeSection | scripts/relocate_sdk.py:145-185 | One round of the section loop, by kind of section. |
| Elf.NewSysDirs | scripts/relocate_sdk.py:187-201 | The loop over the old paths up to the first empty one: strings and packed lengths. |
| Elf.ChangeDlSysDirs | scripts/relocate_sdk.py:115-210 | The whole function, with its errors and what has been written before them. |
| Elf.Relocate | scripts/relocate_sdk.py:247-255 | Header, interpreter and sections of one file. |
| ElfLayout.WordPlus | scripts/relocate_sdk.py:56-74 | Numbers are little-endian, for any number of bytes. |
| ElfLayout.HeaderRead | scripts/relocate_sdk.py:56-74 | From the bytes of an ELF header, laid out field by field, exactly its fields are read, for both word sizes. |
| ElfLayout.SegmentRead | scripts/relocate_sdk.py:77-93 | The same for a program header, whose flags stand elsewhere in the two layouts. |
| ElfLayout.SectionRead | scripts/relocate_sdk.py:116-142 | The same for a section header, with the name that the string table has at its offset. |
| ElfLayout.NameUnended | scripts/relocate_sdk.py:142 | A name that the string table does not end loses its last byte. |
| ElfLayout.TablesRead | scripts/relocate_sdk.py:83-85 | In the two tables the entries stand one behind the other, from the offset and with the size that the header gives. |
| ElfLayout.StrTabRead | scripts/relocate_sdk.py:121-130 | The string table is the section with the header number e_shstrndx. |
| ElfLayout.KindNamed | scripts/relocate_sdk.py:144-169 | The four section names that count, and only for SHT_PROGBITS. |
| ElfLayout.LeftAlone | scripts/relocate_sdk.py:97-112 | An interpreter of at least 11 bytes that has room for the new path keeps its path exactly if that lies in one of the library directories, and gets the new one if not. |
| ElfMarkers.SubParts | scripts/relocate_sdk.py:41 | Bytes that markers cut into parts become the parts with the new prefix between them. |
| ElfMarkers.Parted | scripts/relocate_sdk.py:41 | Any bytes are cut into such parts. |
| ElfMarkers.DefaultMoves | scripts/relocate_sdk.py:195 | A path below ##DEFAULT_INSTALL_DIR## moves below the new prefix. |
| ElfLaws.FirstInterp | scripts/relocate_sdk.py:82-96 | The segment that is changed is the first PT_INTERP. |
| ElfLaws.InterpIs | scripts/relocate_sdk.py:96-113 | Changing it keeps the size and every byte outside it; it then holds the new path, NUL-terminated and zero-padded, unless it is left alone. |
| ElfLaws.SlotsAre | scripts/relocate_sdk.py:169-185 | The slot loop is one in-place rewrite of the section, and exits exactly if some slot's path does not fit. |
| ElfLaws.SlotIs | scripts/relocate_sdk.py:169-185 | Every 4096-byte slot becomes its rewritten path, NUL-terminated and padded. |
| ElfLaws.SizeKeptIff | scripts/relocate_sdk.py:203-210 | A padded write keeps the file size exactly if the text fits its section, or at least the file; the code does not check this. |
| ElfLaws.RoundsAre | scripts/relocate_sdk.py:134-185 | The section loop exits exactly if some path does not fit; otherwise every section is rewritten from its original contents and every other byte is kept. |
| ElfDirs.DlSysDirsAre | scripts/relocate_sdk.py:115-210 | When change_dl_sysdirs fails, and the contents of all named sections when it does not and the directories fit. |
| ElfDirs.DlSysDirsErrors | scripts/relocate_sdk.py:115-210 | Whichever sections there are, each of the three failures exactly if: some path does not fit its slot; all fit, and there is a .sysdirs but no .sysdirslen; or all fit, both are there and a length cannot be packed. |
| ElfDirs.DlSysDirsKeepSizeIff | scripts/relocate_sdk.py:186-210 | The function as a whole keeps the file size exactly if paths and lengths fit: the condition on both final writes that the code does not check. |
| ElfDirs.DlSysDirsPartial | scripts/relocate_sdk.py:186-210 | Without .sysdirs nothing more is written; with it but without .sysdirslen the function fails after rewriting the other sections. |
| ElfDirs.LengthsMatchStrings | scripts/relocate_sdk.py:186-210 | The i-th word of .sysdirslen is the length of the i-th NUL-separated string of .sysdirs, which is the i-th rewritten path. |
| ElfDirs.RelocationIs | scripts/relocate_sdk.py:76-255 | For any file whose parts lie inside it and apart, with or without an interpreter and each of the sections: when it fails; and if the directories fit, interpreter and sections afterwards in terms of the original file, with its size and all other bytes kept. |
| ElfMarkers.RelocatedPaths | scripts/relocate_sdk.py:156-185 | After a relocation a .ldsocache, and each slot of a .gccrelocprefix, holds the parts of its original with the new prefix for each marker, padded with NUL. |
| ElfMarkers.RelocatedDirs | scripts/relocate_sdk.py:186-210 | So do the strings of .sysdirs, one by one, and .sysdirslen holds their lengths. |
| ElfDirs.RelocationKeeps | scripts/relocate_sdk.py:76-255 | Whichever sections there are, a successful relocation keeps the file size and every byte outside the first PT_INTERP and the four named sections. |

## Left out

- Errors of the resolver carry their errno only, not their message; a negative loop count is not modelled, and neither is the bare `except` around isdir, which never raises.
- The flat resolver normalises link targets before it walks them, as the code does, so that "a/.." is dropped without looking at a.
- `CachedPath.walk`, and the stat and lstat wrappers, which only pass on what is modelled.
- CacheTheorems.CachedAgreesIffRootIsNoLink: assumes of the file system that "." and doubled slashes change nothing but the treatment of a last link, and that readlink fails on what is no link, as POSIX pathname resolution says; the results without use_physdir assume likewise that the text of a link does not depend on how its directories are spelled and, below a symlinked root, that links can be read and that readlink fails with ELOOP on root only if nothing below it can be looked up.
- CacheModes.CachedAgreesWithoutPhysdirIff: leaves out files that no plain components name, such as "//a" below the root "/", to which POSIX gives a meaning of its own.
- fnmatch, canonical license names and `license_ok` are arbitrary predicates; Python's limits on nesting are not modelled.
- How the delayed postinst scripts are read from the status file; RDEPENDS lookup and dependency parsing are a function.
- `lockedhashfn`, `lockedpnmap` and the other hooks of the signature generators; the base class's task hash is an arbitrary function; task keys are pairs instead of strings joined with a dot.
- Newline translation when text files are read, and creating directories before they are written.
- The deploy script for directories and symlinks, `--dry-run` and `undeployall`, and files below its own /.devtool directory.
- Exceptions from a worker's initialiser; the tasks of the pool are opaque.
- `PatchTree.Push(all=True)`, which stores a patch where an index belongs; `GitApplyTree` and `QuiltTree`, which drive external tools; Refresh.
- The patch command is an arbitrary function; the invariant over runs assumes that a successful dry run is followed by a successful run, that a pushed patch can be reversed on the tree it was applied to, that names are distinct and survive the series file, and that patch files lie outside the patch directory and do not change. Shell quoting of file names is not modelled, and the default strip level, a number that the code cannot join to a string, is not either.
- Recognising an ELF file by its first bytes, file permissions, and the size check at the end of the script; backslashes in the new prefix, which `re.sub` would interpret.
- ElfDirs.RelocationIs: is stated for files whose header table, name table, interpreter and named sections lie inside the file and apart from one another; the contents only if the new directories and lengths fit their sections. ElfDirs.RelocationKeeps likewise.
- `make_relative_symlink`, `extend_name`, the other functions of these files, and everything that only calls external commands.
