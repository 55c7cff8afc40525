# Verified model of the fdh core

fdh distributes skills, rules, agents and hooks from a hub to coding assistants: it fetches published bundles through a
cache, installs them into per-agent directories, keeps those up to date without losing local edits, records what a
repository wants in a manifest and a lock, and collects small pieces of knowledge ("instincts") from the bottom up.
This project models the parts of it that decide something - protocols, text editors, resolution, hashing - in Dafny,
and proves what they promise. `dafny verify dfyconfig.toml` checks all of it.

## How the model is laid out

- `Clustering`, `ClusterLaws`, `TitleKeywords`, `ClusterThreshold`: union-find clustering of instincts and what the clusters are.
- `Positional`, `Base32`, `Ulid`: identifiers as base-32 numbers. `InstinctFormat`, `InstinctImport`: the instinct file, its body hash, and bundle import.
- `HttpCache` is the cache as a state machine over origin changes, fetch steps, failures and crashes; `HttpCacheFiles`,
  `HttpCacheSafety`, `HttpCacheOrder` and `HttpCacheLimits` prove what every run keeps and where the limits are; `HttpRegistry` is the
  program's own control flow, tied step by step to the machine; `MetaPath` is the naming of metadata files.
- `ContentHash`, `Installs`, `Updates`, `UpdateSafety`, `UpdateRuns`: markers, installation, the update planner and the runs of both.
- `FirstMatch`, `Frontmatter`, `Breadcrumb`, `SkillMd`: the frontmatter editor as a lens and the parser that reads the same files.
- `Substring`, `Gitignore`, `GitignoreCrlf`: the managed block of `.gitignore`, and the bytes around it.
- `Semver`, `Manifest`, `Lock`, `Switch`: resolution of a manifest, the lock, the frozen check, the switch.
- `Paths`, `Bundles`, `Archive`: the canonical bundle hash, the archiver and the extractor.
- `RateLimiter`, `ObsRing`: counters of the portal.
- `Order`, `Sorting`, `Text`, `Digests`, `Wrappers`: shared ground.

Where the program changes state in place the model has a class or an array and a method with the program's loops, tied
to a specification function; the laws are lemmas about those functions. Several laws are proved for any predicate or
function in the place of a concrete one (any sentinel pair, any hash that survives a re-read, any constraint rule);
the concrete instance is then a constant or a lemma beside it.

## What is assumed

Bytes are characters with the same code. SHA-256 has no collisions: a digest remembers what it was made of, and where the
hexadecimal text matters it is an injective function without blanks and newlines. File systems are finite maps. YAML,
JSON, regular expressions, lower-casing and what counts as a letter are parameters or opaque text. Similarities, confidences
and latencies are real numbers. Clocks, random bytes, network answers and write outcomes are inputs. `sort.Slice` gives
some arrangement in order and promises nothing about ties.

## Where the code and its comments part

- A similarity option of zero or below stands for 0.5, so raising it from there to less lowers the threshold and can
  merge clusters (`ClusterThreshold.ProgramRaisingOptionSplitsIff`).
- A URL's metadata path ignores the scheme, maps several characters to `_` and is cleaned, so two URLs can share one file;
  then a body can be returned for the wrong URL (`MetaPath.Collisions`, `MetaPath.SegmentCollisions`,
  `MetaPath.ClimbingCollides`, `HttpCacheLimits.AuthenticIffPathsDistinct`). The lifecycle check of `doctor` asks for such
  a URL: it leaves the namespace empty, which puts an empty segment into the path.
- `max-age` beyond 292 years overflows the 64-bit product, and then some entry that is young enough counts as stale
  (`HttpCache.FreshIsYoungIff`), and where the product wraps to a negative number, as soon as it is written
  (`HttpCache.StaleWhenWrittenIff`).
- Metadata writes fail silently, and fetches of one URL may overtake each other: either can make a later read older than
  an earlier one (`HttpCacheLimits.InOrderIffOrderly`).
- `InjectBreadcrumb` promises exactly one key line; it rewrites the first and keeps any others
  (`Breadcrumb.KeyCountAfter`). Given a BOM, no frontmatter and spare capacity, its `append` writes over its own input
  (`Breadcrumb.InPlaceKeepsTextIff`). `StripBreadcrumb` does not look behind a BOM (`Breadcrumb.StripInjectIff`).
- The parser accepts a closing fence at the end of the file without a newline; the injector does not, and leaves such a
  file alone. The two still agree on the result (`SkillMd.ParseInject`).
- Rewriting `.gitignore` is called idempotent; a first write into a non-empty file without a section never is
  (`Gitignore.IdempotentIff`). Foreign text is promised to stay byte for byte; it does exactly when it holds no CRLF
  (`GitignoreCrlf.ApplyKeepsBytesIff`, `GitignoreCrlf.CrlfLineChanges`).
- A fresh install can be out of sync with its own marker when the source holds files under `.git`
  (`Installs.FreshInstallInSyncIff`) or when the directory already had files (`Installs.InstallInSyncIff`); a refresh leaves
  files that the new source dropped (`Installs.RefreshInSyncIff`); a dry run still migrates a legacy marker (`Installs.DryRunWritesNothingIff`).
- Updates resolve their target by the marker's name and always at project scope, so a stale copy makes an update overwrite
  an edited original (`UpdateSafety.CopiedDirectoryLosesEdits`). Installing at user scope is enough for that, with no copy
  made by hand: the update itself puts one into the project (`UpdateRuns.RunsSpareEditsIff`, `UpdateRuns.SomeLosingRun`).
- A version constraint without operator drops the suffix of the version it spells, and then rejects that very version
  (`Semver.ExactAcceptsItselfIff`). Versions on `extends.add_*` entries are checked for form and then ignored
  (`Manifest.VersionsFit`).
- A lock silently drops components of an unknown kind, which then fail the frozen check (`Lock.FrozenPassesIff`).
- The rate limiter admits twice its limit across a window boundary, and anything at all with a window of zero
  (`RateLimiter.BoundIsReached`, `RateLimiter.AlwaysBoundedIff`).
- ULIDs keep milliseconds modulo 2^48 (`Ulid.SortsFirstIff`).
- An import counts two items under one id as two imports and keeps the last; importing the same bundle again then stops
  at a conflict exactly when their bodies differ (`InstinctImport.RepeatedIdStops`, `InstinctImport.ReimportEndsWellIff`).

## Model

| member | source | states |
|---|---|---|
| Clustering.JaccardLaws | pkg/instincts/cluster.go:189-212 | the overlap of two word lists is symmetric, in [0,1], and 1 exactly for equal non-empty lower-cased sets |
| Clustering.SimilarityLaws | pkg/instincts/cluster.go:182-187 | the weighted similarity is symmetric and in [0,1] |
| Clustering.JaccardStrings | pkg/instincts/cluster.go:189-212 | the two set-filling loops compute that overlap |
| Clustering.Find | pkg/instincts/cluster.go:145-151 | path-compressing find terminates, returns the root of its element and changes no element's representative |
| Clustering.Union | pkg/instincts/cluster.go:152-157 | union merges exactly two representatives and keeps the parent array a forest |
| Clustering.UnionSimilar | pkg/instincts/cluster.go:159-165 | after the pair loops two slots have one representative exactly when a chain of similar pairs connects them |
| Clustering.TransitiveClusters | pkg/instincts/cluster.go:137-180 | the groups are non-empty, disjoint, cover every slot once and in order, ordered by first id, and two slots share a group exactly when connected |
| Clustering.BuildCluster | pkg/instincts/cluster.go:111-135 | a cluster carries the average confidence, the sorted unique tags and keywords of its members, and its verdict against both thresholds |
| Clustering.ClusterAll | pkg/instincts/cluster.go:57-109 | every item with a non-blank domain lands in exactly one cluster of its domain; candidates and skipped are that list split by verdict |
| ClusterLaws.TogetherIffLinked | pkg/instincts/cluster.go:57-180 | two instincts share a cluster exactly when their one non-blank domain links them by a chain of similar instincts |
| ClusterLaws.SplitByThresholds | pkg/instincts/cluster.go:95-108 | candidates are exactly the clusters meeting both thresholds, skipped exactly the rest, none lost or doubled |
| ClusterLaws.RaisingThresholdSplits | pkg/instincts/cluster.go:57-180 | a higher similarity threshold in force only splits: each new cluster lies inside an old one |
| ClusterThreshold.RaisingOptionSplitsIff | pkg/instincts/cluster.go:57-180 | for every way of splitting titles that can give any number of keywords, raising the option that callers pass never links instincts that were apart, exactly unless it goes from zero or less to less than 0.5 |
| TitleKeywords.ProgramIsRich | pkg/instincts/cluster.go:218-233 | the program's titles can: runs of letters, lower-cased, of four or more, without stopwords |
| ClusterThreshold.ProgramRaisingOptionSplitsIff | pkg/instincts/cluster.go:57-233 | so the condition is exact for the program |
| ClusterLaws.PermutingKeepsClusters | pkg/instincts/cluster.go:57-180 | permuting the input changes no cluster's members, aggregates or verdict |
| HttpCache.FreshMeansYoung | pkg/registry/http.go:96-108 | whatever max-age says, a mutable entry counted as fresh is at most max-age old |
| HttpCache.FreshIsYoungIff | pkg/registry/http.go:96-108 | freshness is exactly the comparison of age with max-age (RFC 9111 section 4.2) at every time, if and only if max-age in nanoseconds fits in 63 bits |
| HttpCache.StaleWhenWrittenIff | pkg/registry/http.go:96-108 | an entry is stale the moment it is written exactly when that product wraps to a negative number |
| HttpCacheSafety.StepKeeps | pkg/registry/http.go:483-562 | every step of the origin, of any fetch, of a failure or of a crash keeps the cache invariant |
| HttpCacheSafety.RunKeeps | pkg/registry/http.go:483-562 | the invariant holds after every run from an empty cache |
| HttpCacheFiles.MetadataNeverDangles | pkg/registry/http.go:582-633 | after any run, crashes between the two writes and URLs that share a file included, readable metadata points at a present object with that digest and sits in the file of its own URL |
| HttpCacheLimits.ReadsAreFresh | pkg/registry/http.go:483-562 | a 200 or 304 returns a body that was current during the fetch, a fresh hit one that was current at most max-age ago, a fallback one that had been current |
| HttpCacheLimits.AuthenticIffPathsDistinct | pkg/registry/http.go:571-580 | in every run every body was served for the URL asked for, exactly when no two URLs in use share a metadata path |
| HttpCacheLimits.CollisionIsRead | pkg/registry/http.go:571-580 | for any two URLs that do share one, a run that returns a body for the wrong URL |
| HttpCacheOrder.ReadsNeverGoBack | pkg/registry/http.go:483-562 | in a run whose metadata writes succeed and whose fetches of a URL do not overtake each other, later reads never return an older version |
| HttpCacheLimits.InOrderIffOrderly | pkg/registry/http.go:483-562 | over all runs that may or may not overlap fetches of a URL and lose metadata writes silently, reads stay in order exactly when they may do neither |
| HttpCacheLimits.LostWriteGoesBack | pkg/registry/http.go:610-620 | one silently lost metadata write is enough for a read to go back |
| HttpCacheLimits.OvertakenGoesBack | pkg/registry/http.go:483-562 | one overtaken fetch is enough too, with every write succeeding |
| HttpRegistry.HttpRegistry.ReadMeta | pkg/registry/http.go:622-633 | metadata is found exactly when the read works and the file is whole |
| HttpRegistry.HttpRegistry.WriteObject | pkg/registry/http.go:582-608 | an object is stored once under its digest and never overwritten |
| HttpRegistry.HttpRegistry.WriteMeta | pkg/registry/http.go:610-620 | a metadata write replaces, tears or leaves the one file of its URL |
| HttpRegistry.HttpRegistry.FetchCached | pkg/registry/http.go:479-562 | one fetch, on any disk, clock and answers, does to disk and caller exactly what the state machine's run of its steps does |
| HttpRegistry.HttpRegistry.Revalidate | pkg/registry/http.go:516-532 | so does the 304 branch: the cached body, with refreshed metadata |
| HttpRegistry.HttpRegistry.Download | pkg/registry/http.go:540-561 | so does the 200 branch: object first, then metadata |
| HttpRegistry.HttpRegistry.FallBack | pkg/registry/http.go:501-513 | so does the answer from the cache when the network fails |
| MetaPath.SharedIff | pkg/registry/http.go:571-580 | two URLs that do not climb above their host share a metadata file exactly when sanitising makes their hosts equal and cleaning their folded paths |
| MetaPath.PlainSharedIff | pkg/registry/http.go:571-580 | URLs whose segments are all names share one exactly when the folded paths themselves are equal |
| MetaPath.KeptAsSpelledIff | pkg/registry/http.go:571-580 | the file's path is the URL's as it is spelled exactly when every segment but the last is a name |
| MetaPath.Collisions | pkg/registry/http.go:700-721 | http with https, a colon with an underscore anywhere in a host, and every query with the path spelled like it |
| MetaPath.SegmentCollisions | pkg/registry/http.go:571-580 | an empty segment, a dot, or a name with two dots behind it, anywhere in a path, with the path without it |
| MetaPath.ClimbingCollides | pkg/registry/http.go:571-580 | a path that climbs above its host with a path of another host |
| MetaPath.UnplainCollides | pkg/registry/http.go:571-580 | every URL of a registry with a segment that is no name shares its file with a plain URL of that registry |
| MetaPath.OneRegistryIsDistinctIff | pkg/registry/http.go:571-580 | a cache that serves one registry keeps metadata apart exactly when no two of its URLs have one cleaned path |
| MetaPath.OneRegistryIsDistinct | pkg/registry/http.go:571-580 | it does when all its URLs are plain, so the guarantees above apply to it |
| ContentHash.Normalise | pkg/adapters/skill_adapter.go:210-231 | the loop turns CRLF and lone CR into LF |
| ContentHash.HashFileLF | internal/cli/update_plan.go:210-231 | the planner's own copy of the loop computes the same |
| ContentHash.NormaliseIdempotent | pkg/adapters/skill_adapter.go:210-231 | normalising twice is normalising once |
| ContentHash.CheckoutNormalisesAlike | pkg/adapters/skill_adapter.go:210-231 | a checkout that writes CRLF does not change the normal form |
| ContentHash.CheckinNormalisesAlikeIff | pkg/adapters/skill_adapter.go:210-231 | turning CRLF into LF keeps the normal form exactly when the text has no CR CR LF |
| ContentHash.PreImageInjective | pkg/adapters/skill_adapter.go:155-201 | the framing of sorted NUL-free paths, lengths and bodies is uniquely decodable, whatever the bodies hold |
| ContentHash.HashEqualIffTreesEqual | pkg/adapters/skill_adapter.go:146-208 | content hashes agree exactly when the trees do, up to marker files and line endings |
| ContentHash.RewritingKeepsHash | pkg/adapters/skill_adapter.go:146-231 | rewriting line endings never shows in the hash |
| ContentHash.ComputeContentHash | pkg/adapters/skill_adapter.go:146-201 | the walk, in whatever order it meets the files, computes that hash |
| Installs.CopyTree | pkg/adapters/skill_adapter.go:233-294 | exactly the copied files change, `.git` stays out, nothing is deleted, and a dry run reports the same list |
| Installs.Workspace.DirectoryInstall | pkg/adapters/dir_adapter.go:84-140 | one install touches one directory, with the outcome and the disk of the specification in every branch |
| Installs.InstallInSyncIff | pkg/adapters/dir_adapter.go:84-140 | after any install, into whatever directory and with or without overwrite, tree hash and marker hash agree exactly when old tree and source agree outside the files taken over |
| Installs.FreshInstallInSyncIff | pkg/adapters/dir_adapter.go:84-140 | so after a first install they agree exactly when the source keeps no counted file under `.git` |
| Installs.RefreshInSyncIff | pkg/adapters/dir_adapter.go:84-140 | and after a refresh exactly when old tree and source agree outside what is copied |
| Installs.ReinstallIsSkipped | pkg/adapters/dir_adapter.go:84-140 | installing the same source again is skipped and leaves the disk as it is |
| Installs.InstallKeepsExistingFiles | pkg/adapters/skill_adapter.go:233-294 | without overwrite no existing file changes or goes |
| Installs.DryRunWritesNothingIff | pkg/adapters/dir_adapter.go:84-140 | a dry run keeps every file, and the whole directory exactly when there is no legacy marker to migrate |
| Updates.FindInstalled | internal/cli/update_scan.go:36-136 | the scan finds exactly the marked directories, each with its verdict |
| Updates.PlanUpdates | internal/cli/update_plan.go:53-138 | the plan is the sorted classification of everything found: up to date, refresh, drifted, orphaned or filtered |
| Updates.ComputeFileDiff | internal/cli/update_plan.go:140-204 | the diff lists exactly the added, changed and removed counted files, each sorted |
| Updates.DiffEmptyIffHashesEqual | internal/cli/update_plan.go:140-231 | it is empty exactly when the content hashes agree |
| Updates.ApplyPlan | internal/cli/update_run.go:156-252 | every planned item ends in exactly one list, only refreshes are applied, and every directory is what the specification says |
| Updates.RunUpdate | internal/cli/update_run.go:103-198 | scan, plan and apply together; without a refresh in the plan, or without confirmation, nothing is applied and nothing is reported |
| UpdateSafety.UpdateTouchesOnlyTargets | internal/cli/update_run.go:156-252 | an update leaves a directory alone or puts the hub's content over it, exactly as some refreshed marker resolves to it |
| UpdateSafety.UnforcedUpdateSparesEdits | internal/cli/update_plan.go:71-130 | with markers at home an unforced update changes no directory whose normalised content differs from its marker |
| UpdateSafety.CopiedDirectoryLosesEdits | internal/cli/update_run.go:213-252 | a clean stale copy that names an edited original makes an unforced update overwrite the original |
| UpdateRuns.RunsSpareEditsIff | internal/cli/update_run.go:156-252 | over all runs of installs, edits, line-ending rewrites, hub moves and unforced updates, no update changes a directory with local edits exactly when no install goes to user scope |
| UpdateRuns.EditsSurviveIff | internal/cli/update_run.go:156-252 | and exactly then every edited directory that nobody edits or installs over keeps its content, up to line endings, through any number of steps |
| UpdateRuns.SomeLosingRun | internal/cli/update_run.go:236 | the tool's own steps that lose an edit: install a skill for the user, update, edit the project copy the update made, update again |
| Frontmatter.RenderCut | pkg/provenance/provenance.go:274-312 | cutting a document at its fences and gluing it together gives the bytes back |
| Frontmatter.CutRender | pkg/provenance/provenance.go:274-312 | and a well-formed cut is found again |
| Frontmatter.FindFrontmatterCloseRange | pkg/provenance/provenance.go:287-312 | the search ends at the first complete fence line after the opening one, or says there is none |
| Frontmatter.SplitLinesPreserve | pkg/provenance/provenance.go:228-243 | the index loop splits after every LF and loses no byte |
| Breadcrumb.ReplaceOrAppendKey | pkg/provenance/provenance.go:189-219 | the first key line is rewritten with its own line ending, or one is appended with the dominant ending |
| Breadcrumb.CutInject | pkg/provenance/provenance.go:94-155 | an injected text is cut where the original was; only the lines between the fences can differ |
| Breadcrumb.InjectInject | pkg/provenance/provenance.go:94-155 | the last injection wins, for every document; with equal references that is idempotence |
| Breadcrumb.InjectIsLocal | pkg/provenance/provenance.go:117-155 | on a closed document one line is written and every byte before and after it stays |
| Breadcrumb.KeyCountAfter | pkg/provenance/provenance.go:189-219 | afterwards there is one key line, unless there were several, which all stay |
| Breadcrumb.StripInjectIff | pkg/provenance/provenance.go:94-187 | stripping undoes injecting exactly when the text opens a frontmatter, and behind a BOM exactly when injecting had nothing to write |
| Breadcrumb.StripNothingIff | pkg/provenance/provenance.go:157-187 | stripping changes nothing exactly when there is no key line |
| Breadcrumb.StripBreadcrumb | pkg/provenance/provenance.go:157-187 | the program's byte edit is that stripping |
| Breadcrumb.InjectBreadcrumb | pkg/provenance/provenance.go:94-155 | the program on a slice with spare capacity: the injected text, but for the one case in which append writes into the source |
| Breadcrumb.InPlaceKeepsTextIff | pkg/provenance/provenance.go:110-125 | in that case the document survives exactly when what follows the BOM is a prefix of the fence |
| SkillMd.ParseSkillMD | pkg/bundle/skillmd.go:45-105 | the scanner's state machine and its last step give the specified frontmatter lines and body |
| SkillMd.ParseInject | pkg/bundle/skillmd.go:45-105 | what the parser sees of an injected document, for every document: same body and lines but the key line when closed, no change when unclosed, one new key line when there was none |
| SkillMd.BodyKeptIff | pkg/bundle/skillmd.go:92-105 | injecting changes the parsed body exactly when it adds the first frontmatter to a text with a line that ends in CR |
| Gitignore.CleanedMeans | pkg/gitignore/gitignore.go:216-235 | the cleaned list has each trimmed non-blank path once, in strict order |
| Gitignore.UniqueSorted | pkg/gitignore/gitignore.go:216-235 | the loop computes it |
| Gitignore.Rewrite | pkg/gitignore/gitignore.go:113-162 | the rewriting in every branch, errors included |
| Gitignore.Sections | pkg/gitignore/gitignore.go:173-213 | the split into entries, text before and text after, or malformed when one sentinel is missing or they are out of order |
| Gitignore.SplitBlock | pkg/gitignore/gitignore.go:173-213 | a block of plain entries is found again exactly where it was put |
| Gitignore.OutsideKept | pkg/gitignore/gitignore.go:173-213 | the text after a section stays byte for byte, and at most one newline goes in front of it |
| Gitignore.ReadBack | pkg/gitignore/gitignore.go:200-212 | a written section reads back as its entries in order |
| Gitignore.PlainPathsAreUsable | pkg/gitignore/gitignore.go:137-150 | paths without newline and closing sentinel make such entries, negations included |
| Gitignore.IteratedIs | pkg/gitignore/gitignore.go:113-162 | every further rewrite takes one blank line before the block and touches nothing else |
| Gitignore.FixedIff | pkg/gitignore/gitignore.go:113-162 | rewriting again changes nothing exactly when at most one newline is left there, which the trailing newlines bound |
| Gitignore.IdempotentIff | pkg/gitignore/gitignore.go:113-162 | the first write into a text without a section is idempotent exactly when the text is empty |
| Gitignore.LastWins | pkg/gitignore/gitignore.go:113-162 | an earlier list of paths leaves no trace but the blank line |
| Gitignore.ApplyThenClearIff | pkg/gitignore/gitignore.go:113-162 | writing a section and clearing it restores the text exactly when it is empty or ends its last line |
| Gitignore.IgnoreFile.Apply | pkg/gitignore/gitignore.go:50-89 | the file is replaced only by a text that differs from its own, line endings aside, and never on an error |
| GitignoreCrlf.SplitReplaced | pkg/gitignore/gitignore.go:50-89 | the program finds the section where it is on disk, with CRLF turned into LF in each part of the file |
| GitignoreCrlf.ApplyKeepsBytesIff | pkg/gitignore/gitignore.go:40-89 | an apply that writes puts back the text outside the section byte for byte, up to one newline before it, exactly when that text holds no CRLF |
| GitignoreCrlf.CrlfLineChanges | pkg/gitignore/gitignore.go:40-89 | a file of one CRLF line whose line the first write changes |
| Gitignore.IgnoreFile.Read | pkg/gitignore/gitignore.go:94-109 | reading gives the entries and the foreign text |
| Ulid.IndexesAreDigits | pkg/instincts/format.go:237-271 | the masks and shifts compute the 26 base-32 digits of the 128-bit number |
| Ulid.EncodeCrockford | pkg/instincts/format.go:237-271 | the in-place writes spell those digits |
| Ulid.EncodedMatches | pkg/instincts/format.go:92 | every id matches the pattern that validation asks for |
| Ulid.EncodedInjective | pkg/instincts/format.go:237-271 | different bytes give different ids |
| Ulid.EncodedOrder | pkg/instincts/format.go:237-271 | byte-wise string order is numeric order |
| Ulid.TimeDecides | pkg/instincts/format.go:217-233 | whatever the random bytes, the id with the earlier time field sorts first |
| Ulid.SortsFirstIff | pkg/instincts/format.go:217-233 | an id is sure to sort first exactly when its milliseconds come first modulo 2^48 |
| Ulid.NewULID | pkg/instincts/format.go:217-233 | an id of those bytes, or an error exactly before the epoch or without randomness |
| InstinctFormat.NormalizeBody | pkg/instincts/format.go:291-299 | the line loop, in place, computes the normal body |
| InstinctFormat.NormaliseBodyIs | pkg/instincts/format.go:291-299 | that body is the text with LF endings and without blanks at line ends or around it, described character by character |
| InstinctFormat.NormaliseBodyIdempotent | pkg/instincts/format.go:291-299 | it is its own normal form |
| InstinctFormat.DecodeParts | pkg/instincts/format.go:175-202 | decoding cuts at the first closing line, or failing that at the first line that starts like one |
| InstinctFormat.DecodeEncodeIff | pkg/instincts/format.go:141-202 | decoding a written file gives the block back exactly when it has no closing line in it, and then the body between its outer newlines, with one newline behind it if anything is left |
| InstinctFormat.RereadIs | pkg/instincts/format.go:141-202 | that is what writing and reading make of any body |
| InstinctFormat.HashSurvives | pkg/instincts/format.go:280-299 | the body hash is the same after writing and reading |
| InstinctImport.Store.Import | internal/cli/instinct.go:715-754 | the import loop, from a snapshot of the store: counts, or a conflict after which earlier writes stay |
| InstinctImport.EndsWellIff | internal/cli/instinct.go:727-754 | an import ends well exactly when no item conflicts, and then the three counts add up to the bundle |
| InstinctImport.DryRunPredicts | internal/cli/instinct.go:746-749 | a dry run reports what the real one would and writes nothing |
| InstinctImport.ReimportAddsNothing | internal/cli/instinct.go:715-754 | importing the same bundle again never writes anything, and while it meets no conflict counts every item the first import took as a duplicate |
| InstinctImport.ReimportEndsWellIff | internal/cli/instinct.go:715-754 | it meets no conflict exactly when no id that was new to the store came with two different bodies |
| InstinctImport.BundleReimportIff | internal/cli/instinct.go:715-754 | both together for the import command, with its own validity and body hashes |
| InstinctImport.RepeatedIdStops | internal/cli/instinct.go:715-754 | a bundle where it meets one: two new bodies under one id, both counted as imported, and then a conflict |
| Semver.RangeIsInterval | pkg/consumermanifest/semver.go:83-117 | a caret or tilde accepts exactly a half-open interval of the numeric triple in the order of SemVer 2.0.0 section 11, the 0.x caret pinned to its minor |
| Semver.ParsedShape | pkg/consumermanifest/semver.go:39-70 | a parsed range has natural numbers, and a patch only with a minor |
| Semver.TildeInCaret | pkg/consumermanifest/semver.go:96-115 | whatever a tilde accepts the caret on the same numbers accepts |
| Semver.ExactAcceptsItselfIff | pkg/consumermanifest/semver.go:39-117 | a constraint without operator, however it is spelled, accepts its own text exactly when that reads as a version without suffix |
| Semver.HighestSatisfying | pkg/consumermanifest/semver.go:184-201 | the first of the accepted versions whose triple is highest, or nothing when none is accepted |
| Manifest.Expand | pkg/consumermanifest/consumermanifest.go:245-350 | it succeeds exactly when the harness is known and every wanted component is in the catalog with a constraint that parses and fits; otherwise it names one that is not |
| Manifest.Collect | pkg/consumermanifest/consumermanifest.go:254-312 | the sequence of map updates leaves exactly the wanted keys: explicit over added over harness without removals |
| Manifest.ExpansionIsUnique | pkg/consumermanifest/consumermanifest.go:314-350 | there is one expansion, whatever order the map is walked in |
| Manifest.KeysOfExpansion | pkg/consumermanifest/consumermanifest.go:228-243 | its keys are harness minus removals plus additions plus explicit entries, and FromHarness marks exactly the untouched harness keys |
| Manifest.VersionsFit | pkg/consumermanifest/consumermanifest.go:314-341 | a resolved version is the catalog's and satisfies the constraint, which only explicit entries can set |
| Lock.Build | pkg/consumerlock/consumerlock.go:71-115 | a lock has the entries of each known kind, sorted by name |
| Lock.BuildIgnoresOrder | pkg/consumerlock/consumerlock.go:71-115 | the order of the components does not show in it |
| Lock.Diff | pkg/consumerlock/consumerlock.go:234-285 | the strictly sorted list of exactly the keys missing, extra or of differing integrity |
| Lock.DiffEmptyIff | pkg/consumerlock/consumerlock.go:234-285 | it is empty exactly when lock and components have the same keys and no two known integrities differ |
| Lock.FrozenPassesIff | pkg/consumerlock/consumerlock.go:71-285 | a lock passes the check against what it was built from exactly when all kinds are known, with any integrity provider |
| Lock.ExpansionKinds | internal/cli/switch.go:293-322 | the kinds of an expansion are known when the harness members' are |
| Lock.ExpandedLockPassesIff | pkg/consumerlock/consumerlock.go:71-285 | the lock built from an expansion passes the frozen check against it exactly when the harness members' kinds are known, with any integrity provider |
| Switch.DiffComponentSets | internal/cli/switch.go:329-351 | the three lists, in order |
| Switch.SwitchReaches | internal/cli/switch.go:324-351 | old minus uninstalls plus installs is new, the unchanged are in both, and the lists do not overlap |
| Switch.ThereAndBackIff | internal/cli/switch.go:324-351 | switching there and back restores the installed set exactly when it holds all that only the first manifest names and nothing that only the second does; what neither names is left alone |
| Switch.SwitchFollowsManifests | internal/cli/switch.go:274-351 | between two expansions a key is installed, removed or kept exactly as the two manifests want it |
| Paths.SlashedInjective | pkg/bundle/bundle.go:132-138 | slashed paths are unambiguous |
| Bundles.WalkFiles | pkg/bundle/bundle.go:115-167 | the entries of exactly the files whose own name has no leading dot, in strict path order, whatever order the walk has |
| Bundles.CanonicalBundleHash | pkg/registry/git.go:562-579 | the hash of those entries, or an error without files or, for a skill, without a SKILL.md that parses |
| Bundles.LinesInjective | pkg/bundle/hash.go:61-69 | the line encoding of newline-free paths is uniquely decodable |
| Bundles.HashEqualIff | pkg/bundle/hash.go:26-71 | two directories hash alike exactly when their counted files agree in path, executable bit and bytes |
| Archive.WriteTarGz | scripts/build-registry/main.go:246-288 | one header per node of the walk, under the prefix |
| Archive.Disk.ExtractTarGz | pkg/registry/git.go:610-663 | extraction entry by entry, stopping at one that would land outside |
| Archive.NothingOutside | pkg/registry/git.go:628-636 | whatever the archive, extraction changes no file outside the destination and makes no directory there but its ancestors |
| Archive.Disk.LocateBundleDir | pkg/registry/git.go:593-608 | the only top-level directory, or nothing |
| Archive.ExtractedSame | pkg/registry/git.go:610-663 | afterwards the place holds the source's files with the same bytes and the same executable bit |
| Archive.RoundTrip | scripts/build-registry/main.go:246-288 | any tree of plain files, archived in any walk order, extracted and located, has the source's canonical hash, for skills and every other kind |
| RateLimiter.IngestLimiter.Allow | internal/portalapi/telemetry_handlers.go:42-55 | one request on the limiter's fields |
| RateLimiter.CounterMeans | internal/portalapi/telemetry_handlers.go:42-55 | in every run the counter of a key is its number of acceptances in the window in force, and at most the limit |
| RateLimiter.SlidingBound | internal/portalapi/telemetry_handlers.go:42-55 | any closed interval as long as the window has at most twice the limit of acceptances per key |
| RateLimiter.RefusedIff | internal/portalapi/telemetry_handlers.go:42-55 | a request is refused exactly when its key has used up the limit in the window in force, which contains it |
| RateLimiter.BoundIsReached | internal/portalapi/telemetry_handlers.go:42-55 | for every limit and window a run accepts twice the limit within one tick |
| RateLimiter.AlwaysBoundedIff | internal/portalapi/telemetry_handlers.go:24-55 | the bound holds over all runs exactly when the window is not zero or nothing is ever accepted |
| ObsRing.ObsStats.Record | internal/portalapi/observability.go:44-64 | after any number of samples the ring holds the most recent ones, each slot the newest of its residue class |
| ObsRing.ObsStats.Snapshot | internal/portalapi/observability.go:76-98 | the error share is in [0,1], the percentiles are those of the most recent samples, and p50 is at most p95 |
| ObsRing.OrderDoesNotShow | internal/portalapi/observability.go:102-117 | a percentile depends on which samples there are, not on where the ring keeps them |
| ObsRing.Monotone | internal/portalapi/observability.go:102-117 | a higher rank never gives a lower value |

## Left out

- HTTP transport, retries, authentication, Cache-Control parsing and content types: the answer to a request is an input.
- Git transport, cosign, OIDC, the portal's database, command wiring, the wizard, tables and JSON output.
- Deletion of cache objects by others, which the source answers with an error after a 304.
- YAML and JSON: blocks are opaque text, and a marshalled block is taken to end in a newline.
- Flat, rule, agent and hook adapters, and the disk side of uninstalling by name.
- Updates.PlanUpdates: does not model the file diff attached to a refresh, which ComputeFileDiff gives, nor the error of a source that cannot be fetched.
- A `.skill-version` file kept in a hub source.
- URLs that do not parse, a cache directory that is not absolute, and failures of MkdirAll when a file is in the way.
- The 64 MB line limit of the scanner that parses SKILL.md.
- Failing file writes in the instinct import, and the counter it adds to the machine's state file.
- Lock.Build: does not model hub_commit, resolved_at and the harness name, which are copied.
- Manifest.Expand: does not model a nil manifest or registry; a manifest without extends has empty lists.
- SkillMd.ParseInject: states the text that injection means, not the slice case in which append writes into its source; Breadcrumb.InjectBreadcrumb has that case.
- ObsRing.ObsStats.Record: does not model the wrap-around of its 64-bit totals, nor floating-point rounding.
- RateLimiter.IngestLimiter.Allow: does not model the mutex (one request is one step) and the saturation of time differences at 292 years.
- UpdateRuns.RunsSpareEditsIff: is about one project beside the user's directories; what one project installs can be another's user scope when their roots meet.
- InstinctImport.Store.Import: takes every local file to hold the id it is named after, which is how the store writes them.
- Sorting by content for clusters that tie on their first id, and for lock entries that tie on their name: the source leaves both orders open, and so do the contracts.
