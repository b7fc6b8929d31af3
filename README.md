# rustup-mirror, modelled in Dafny

rustup-mirror keeps a local mirror of the Rust toolchain distribution server.
For each release channel (stable, beta, nightly, …) it downloads the channel
manifest `dist/channel-rust-<channel>.toml` and its `.sha256` signature into an
"original" directory, checks the signature (its first 64 characters must be the
manifest's SHA-256) and the manifest version ("2"), then walks every package
and every target of the manifest:

- a target outside the configured target list (and not `*`) is kept in the
  manifest but marked `available = false`, and nothing is downloaded for it;
- an available in-scope target has its plain and `xz_` artifacts mirrored: the
  artifact's URL path (with `%20` decoded to a space) names the file under the
  mirror directory; the file is (re)downloaded when no checksum is known for it
  or the known one differs from the manifest's hash, a download whose digest
  does not match is repeated, at most three downloads in all (a mismatch
  after the third aborts the run), and a `.sha256` sidecar is written when
  the artifact was downloaded or the sidecar was missing; the manifest's URL is
  rewritten to point at the mirror and the hash is kept.

The rewritten manifest is published under its canonical name and under
`dist/<date>/`, each with a signature line `<digest>  channel-rust-<channel>.toml`
(two spaces between the digest and the file name).
Then `rustup-init` is fetched for every target that was mirrored (best
effort, `.exe` for Windows targets), the rustup self-update manifest
`rustup/release-stable.toml` is fetched (schema version "1") and the
versioned `rustup-init` binaries are fetched for the same targets. Finally a
garbage collector walks `dist/`: in each date directory it deletes every
artifact that no manifest referenced — always when its file name does not
contain `nightly`, and when it does, only if a cutoff is configured and the
directory's date is before it — together with its `.sha256` sidecar, and removes a directory when nothing in
it was preserved.

Every download goes through one retry loop: up to three attempts, where a
failed connection or a failed body read is retried, a response without a
content length fails at once ("Not found"), and a retry rewinds the output
file without truncating it, so bytes of a longer earlier attempt can remain
after a shorter later one.

How the model represents the system:

- The network is a function `net: nat -> Attempt` from a global request number
  to what that request returns (connection failure, response without length,
  or a response of a given length whose body reads as a list of chunks ending
  in success or a read error). Every operation takes the first request number
  `start` and returns the next one `next`, so retries are counted exactly.
- A directory of files is a `map<string, string>` from the path relative to
  the directory to the contents; contents are strings standing for bytes.
- SHA-256 is a parameter `digest: string -> string`; TOML parsing and
  rendering, URL path extraction and date parsing are likewise parameters of
  the configuration (`Manifest.Config`, `GarbageCollect.Sweep`).
- A TOML document is the `Manifest.Value` datatype (strings, booleans and
  tables). Each per-artifact, per-target and per-package loop is a method
  proved against a pure rewrite function of the manifest, against the set of
  referenced paths it must add, and against the mirror files it may change.
- Paths are sequences of `Paths.Component`, mirroring Rust's `Path`
  components, and `normalize_path` is a loop proved equal to a fold.
- The `dist/` tree seen by the garbage collector is a map from entry name to
  either a directory (its set of file names) or a metadata file.
- Iteration over hash sets, TOML tables and directory listings is in an
  unspecified order in the source; the model picks an arbitrary remaining
  element on each step, so every proof holds for every order.
- A `panic!`, `unwrap` or `assert_eq!` failure aborts the whole run in the
  source; in the model it is a `Fail`/`Err` result carrying an
  `Errors.SyncError` and the caller returns at once.

## Model

| member | source | states |
|---|---|---|
| Paths.NormalizePath | src/main.rs:725-750 | the loop computes the specification fold `Normalize` (root pushed, `.` dropped, `..` pops, names pushed), and its result is clean (no `.`, no `..`, no prefix after the start) and well formed |
| Paths.Pop | src/main.rs:741-743 | popping removes exactly the last component when it is a name, and changes nothing otherwise |
| Paths.NormalizeSnoc | src/main.rs:734-748 | normalizing a path with one more component: `.` changes nothing, `..` pops the normalized prefix, a name or the root is appended |
| Paths.NormalizeIsClean | src/main.rs:725-750 | every normalized path is clean |
| Paths.NormalizeIdempotent | src/main.rs:725-750 | normalizing a normalized path changes nothing |
| Paths.WalkClean | src/main.rs:734-748 | walking a clean suffix appends it unchanged |
| Paths.Parse | src/main.rs:498 | a slash-separated relative file name becomes a well-formed component sequence |
| Paths.Join | src/main.rs:498 | joining an absolute name replaces the base; joining a relative one keeps the base as a prefix |
| Paths.ParseThree | src/main.rs:576 | `top/dir/file` of three plain names parses to exactly those three names |
| Strings.DecodeSpaces | src/main.rs:497 | decoding never lengthens the path and introduces no character other than a space |
| Strings.DecodeSpacesLeavesNoEscape | src/main.rs:497 | after replacing every `%20` by a space, no `%20` is left |
| Strings.DecodeSpacesIdentity | src/main.rs:497 | a path without `%20` is left unchanged |
| Strings.DecodeSpacesHead | src/main.rs:497-498 | decoding keeps the input non-empty iff it was, and keeps the first character unless it starts an escape |
| Strings.DecodeSpacesKeepsSlash | src/main.rs:497-498 | a URL path starting with `/` still starts with `/` after decoding, so `[1..]` drops exactly that slash |
| Names.ManifestName | src/main.rs:445 | a channel's manifest path lies under `dist/` and ends in `.toml` |
| Names.SignatureLine | src/main.rs:571 | the signature line is the digest, then two spaces, then `channel-rust-<channel>.toml`, and nothing else |
| Names.SignatureName | src/main.rs:446-448 | a channel's signature file is its manifest file name with `.sha256` appended |
| Names.DatedManifestName | src/main.rs:576 | the dated manifest copy is `dist/<date>/channel-rust-<channel>.toml` |
| Names.DatedSignatureName | src/main.rs:582-583 | the dated signature copy is the dated manifest name with `.sha256` appended |
| Names.SignatureMatches | src/main.rs:457-460 | the gate passes iff the digest has 64 characters and the signature starts with it; a signature shorter than 64 characters fails (the slice would panic) |
| Names.SignatureRoundTrip | src/main.rs:458-571 | the signature line the mirror writes passes the mirror's own first-64-characters gate for a 64-character digest |
| Names.DatedManifestInDateDir | src/main.rs:576 | the dated manifest lies directly in the date directory that the garbage collector walks |
| Names.ChannelNamesDistinct | src/main.rs:446-583 | the four files a channel publishes have pairwise distinct names |
| Names.ExeSuffix | src/main.rs:596-598 | the suffix is `.exe` iff the target name contains `windows`, and empty otherwise |
| Names.RustupInitPath | src/main.rs:596-603 | the latest rustup-init path lies under `rustup/dist/<target>/` and ends in `.exe` iff the target contains `windows` |
| Names.RustupArchivePath | src/main.rs:635-644 | the versioned rustup-init path lies under `rustup/archive/<version>/<target>/` and ends in `.exe` iff the target contains `windows` |
| Names.ExeExactlyForWindows | src/main.rs:596-598 | a rustup-init path ends in `.exe` iff the target name contains `windows` |
| Names.InitPathsAvoidRelease | src/main.rs:603-656 | no rustup-init path coincides with the self-update manifest's path |
| Fetch.ReceiveShape | src/main.rs:348-372 | the read loop succeeds iff it received at least the content length, it only ever appends to what was received, and once the length is reached it stops with what it has |
| Fetch.OverlayShape | src/main.rs:351-367 | writing from a rewound file position replaces the first bytes and keeps any longer tail: the result is as long as the longer of the two and starts with the new data |
| Fetch.WriteAfterOverlay | src/main.rs:351 | writing a chunk at the current position after earlier chunks equals writing all of them at once |
| Fetch.ReadBody | src/main.rs:345-372 | the inner read loop succeeds iff the response completes, and the file holds the rewound previous contents overlaid with what this attempt wrote |
| Fetch.Request | src/main.rs:318-372 | one attempt passes iff its response completes, fails "not found" iff there is no content length, fails as a network error iff the connection or a read failed; the file is overlaid with what was written |
| Fetch.Download | src/main.rs:307-380 | the loop makes one to three requests and its outcome, file and next request number are exactly those of the specification `Downloaded` (the last request decides, earlier ones failed in transit, the file is the replay of all writes) |
| Fetch.DownloadEnd | src/main.rs:316-331 | a download makes at least as many requests as attempts so far and at most three, and one that stops early stops on a request that did not fail in transit |
| Fetch.TransientBeforeEnd | src/main.rs:316-369 | every request of a download before the one that ends it failed in transit (connection or read failure) |
| Fetch.DownloadedEnds | src/main.rs:318-380 | a download passes iff its last request completed, fails "not found" iff that request had no content length, fails as a network error iff it failed in transit, and then only after three requests |
| Fetch.ReplayCoversAttempts | src/main.rs:367 | the file a sequence of attempts leaves is at least as long as what any one of them wrote |
| Fetch.StableLengthGivesExactFile | src/main.rs:367 | when every attempt announced the same length, the downloaded file is exactly the successful attempt's body |
| Fetch.ReplayShorterThan | src/main.rs:367 | failed attempts of one announced length never leave a file longer than that length |
| Fetch.TrailingBytesAfterRetry | src/main.rs:367 | a shorter successful retry after a longer failed attempt leaves stale trailing bytes (`"xycd"` for body `"xy"`) |
| Fetch.Verify | src/main.rs:521-537 | the checksum loop makes at most three downloads of at most three requests each; a pass means the file's digest is the declared hash; a checksum mismatch happens only at the third download with a wrong digest; every other failure is a failed download |
| Fetch.FetchVerified | src/main.rs:521-537 | the loop's outcome, file, download count and next request are exactly `Verify`'s; it records where each download started, every download but the last completed with the wrong digest, and the last one decides: a failed download aborts with its cause, a right digest passes, a wrong one after the third download is a checksum mismatch |
| Manifest.SidecarNameInjective | src/main.rs:502 | different artifacts have different `.sha256` sidecars |
| Manifest.Variant | src/main.rs:491-514 | an entry contributes an artifact for a variant iff that variant resolves |
| Manifest.Resolve | src/main.rs:493-514 | a resolved artifact has a non-empty decoded file name whose tail after the leading character is the mirror-relative path, and its hash is the manifest's hash string |
| Manifest.ResolveXzAfterPlain | src/main.rs:491-554 | rewriting the plain URL does not change how the `xz_` artifact resolves |
| Manifest.RewriteTarget | src/main.rs:477-555 | a rewrite fails only as a malformed entry; success keeps the entry's keys; an out-of-scope target gets `available = false`; an unavailable in-scope target is left unchanged |
| Manifest.OutOfScopeOnlyDisabled | src/main.rs:483-486 | an out-of-scope target keeps all its keys, gets `available = false`, keeps every other value, and references no file |
| Manifest.WantedRewritten | src/main.rs:488-555 | an available in-scope target keeps its keys, both URLs become the mirror URL plus the decoded path, and both hashes are untouched |
| Manifest.PublishedUrlDecoded | src/main.rs:497-554 | every published URL starts with the mirror URL and its path carries no `%20` |
| Manifest.OnlyInScopeRecorded | src/main.rs:483-489 | every target recorded for rustup-init is in scope, and a package whose targets are all out of scope references no file |
| Manifest.ChannelGate | src/main.rs:463-471 | a parsed manifest is accepted iff its version is "2" and it has a string date and a `pkg` table; a wrong version gives a version mismatch |
| Manifest.RewriteManifest | src/main.rs:471-560 | rewriting keeps every top-level key and value except `pkg`, and the rewritten document still passes the gate with the same date and the rewritten packages |
| Manifest.TargetsStep | src/main.rs:476-489 | adding one target adds exactly its references and, iff it is wanted, its name |
| Manifest.PackagesStep | src/main.rs:473-489 | adding one package adds exactly its references and its wanted targets |
| Manifest.TargetTotalRemove | src/main.rs:473-476 | the number of targets of a set of packages is that of any one of them plus that of the rest, whichever is taken first |
| Manifest.TargetTotalStep | src/main.rs:473-476 | adding one package adds exactly its number of targets |
| Manifest.TargetTotalMono | src/main.rs:473-476 | a subset of the packages has no more targets than the whole set |
| ManifestSync.NeedDownload | src/main.rs:516-519 | a download is needed iff no digest is known or the known one differs from the declared hash |
| ManifestSync.NeedDownloadExactly | src/main.rs:503-519 | a download is needed iff neither the sidecar nor the file exists, or the sidecar differs from the upstream hash, or there is no sidecar and the file's digest differs |
| ManifestSync.Refresh | src/main.rs:501-549 | when a download is needed the outcome, the artifact's file and the request count are exactly those of the checksum loop `Verify`, at most nine requests; otherwise it passes without a request; on success the sidecar is written iff a download was needed or it was missing and then holds the declared hash, and no other file changes; a failure changes only the artifact and is a checksum or download failure; a sidecar it writes holds the declared hash of a file with that digest, even on the path that writes a missing sidecar without downloading (`Vouched`) |
| ManifestSync.ProcessVariant | src/main.rs:492-554 | one URL/hash pair, at most nine requests: an unresolvable entry fails before touching anything; an already settled artifact passes without a request; only the artifact and its sidecar change; on success the entry is the specified rewrite, the artifact's key is referenced and the artifact is settled; a failure is that artifact's checksum loop's outcome, run from the variant's first request and ending at its last; a sidecar it changes vouches for a file with the declared digest, and on success a file it changed has that digest (`Vouched`) |
| ManifestSync.StaleSidecarAfterMismatch | src/main.rs:503-537 | with a sidecar holding another hash and a re-download whose three attempts all have the wrong digest, the run fails with a checksum mismatch, the artifact's file holds the last download's bytes, whose digest is not the declared hash, the stale sidecar stays, and the next run downloads again |
| ManifestSync.SettledUntouched | src/main.rs:516-549 | an artifact whose sidecar already matches is neither downloaded nor rewritten on disk |
| ManifestSync.KeepsSettled | src/main.rs:492-554 | an artifact settled before a step stays settled when the step changes only the files of artifacts compatible with it and settles them all |
| ManifestSync.ProcessArtifacts | src/main.rs:491-555 | both variants, plain then `xz_`, at most eighteen requests: on success the entry is the composed rewrite and exactly the two artifact keys are referenced; an unresolvable variant fails; only the two artifacts and their sidecars change; when both are settled nothing is requested; on success both are settled unless they collide; for a readable entry its failure is the outcome of the checksum loop of one of its two artifacts that started at or after its first request and ended exactly at its last one (`FailedOn`); when the two artifacts do not collide, every sidecar it changes holds the declared hash of a file with that digest, a settled artifact keeps its file and sidecar, and on success every artifact file it changed has its declared digest (`Vouched`) |
| ManifestSync.FailedOnCause | src/main.rs:521-537 | a failure traced to some artifact's checksum loop is a checksum mismatch or a failed download, and that loop made at least one request |
| ManifestSync.FailedOnWider | src/main.rs:471-558 | a failure traced to a checksum loop of a smaller set of artifacts, started later, is traced to the larger set from the earlier request on, with the same last request |
| ManifestSync.VouchedStep | src/main.rs:473-558 | what a pass vouches for over all the artifacts is kept by a further step that changes only the files of some of them and vouches for those, when the artifacts do not collide |
| ManifestSync.VouchedFrame | src/main.rs:558-587 | what a pass vouches for about its artifacts survives a later step that writes none of their files |
| ManifestSync.FetchFailed | src/main.rs:471-558 | a failing step that changes only some artifacts' files and vouches for them leaves the pass changing only the artifacts' files and vouching for all of them |
| ManifestSync.FetchAdvance | src/main.rs:473-558 | a step that changes only the files of some of the artifacts and settles them when they do not collide keeps the pass's frame-and-settled invariant |
| ManifestSync.ProcessTarget | src/main.rs:476-556 | one target, at most eighteen requests: on success the entry is its specified rewrite, its references and (iff wanted) its name are recorded; a malformed entry fails; an unwanted or settled target touches neither the mirror nor the network; only its artifacts and sidecars change, settled on success unless they collide; for a well-formed entry its failure is the outcome of the checksum loop of one of its artifacts that started at or after its first request and ended exactly at its last one (`FailedOn`); when its artifacts do not collide, every sidecar it changes holds the declared hash of a file with that digest, a settled artifact keeps its file and sidecar, and on success every artifact file it changed has its declared digest (`Vouched`) |
| ManifestSync.NextTarget | src/main.rs:476-556 | one turn of the targets loop: a settled target changes nothing and requests nothing; on success the loop's invariant, including the frame, the settled artifacts and what the pass vouches for, holds with the target added; a failure changes only the table's artifacts' files, vouches for them when they do not collide, and for a well-formed table is the outcome of one of its checksum loops ending at the last request |
| ManifestSync.TargetsAdvance | src/main.rs:476-556 | the targets loop's invariant is kept by one processed target |
| ManifestSync.ProcessTargets | src/main.rs:475-557 | all targets of a package in any order, at most eighteen requests per target: on success the table is the specified rewrite and the referenced and wanted sets grow by exactly the targets' contributions; a malformed table fails; a settled table touches nothing; only the table's artifacts and sidecars change, and on success every wanted target is settled unless artifacts collide; for a well-formed table its failure is the outcome of the checksum loop of one of the table's artifacts that started at or after its first request and ended exactly at its last one (`FailedOn`); when the table's artifacts do not collide, every sidecar it changes holds the declared hash of a file with that digest, a settled artifact keeps its file and sidecar, and on success every artifact file it changed has its declared digest (`Vouched`) |
| ManifestSync.TargetsBudget | src/main.rs:475-557 | one more target of at most eighteen requests keeps the targets loop within eighteen requests per target done, and within the table's whole budget |
| ManifestSync.TargetsSettledOf | src/main.rs:475-557 | when every artifact of a well-formed target table is settled, every wanted target of it is settled |
| ManifestSync.ProcessPackage | src/main.rs:474-557 | one package, at most eighteen requests per target: a malformed target table fails; success implies a well-formed table with the specified rewrite and references; a settled package touches nothing; only its artifacts and sidecars change, settled on success unless they collide; for a well-formed package its failure is the outcome of the checksum loop of one of its artifacts that started at or after its first request and ended exactly at its last one (`FailedOn`); when its artifacts do not collide, every sidecar it changes holds the declared hash of a file with that digest, a settled artifact keeps its file and sidecar, and on success every artifact file it changed has its declared digest (`Vouched`) |
| ManifestSync.NextPackage | src/main.rs:474-557 | one turn of the packages loop: a settled package changes nothing and requests nothing; on success the loop's invariant, including the frame, the settled artifacts and what the pass vouches for, holds with the package added; a failure changes only the manifest's artifacts' files, vouches for them when they do not collide, and for a well-formed manifest is the outcome of one of its checksum loops ending at the last request |
| ManifestSync.PackagesAdvance | src/main.rs:473-558 | the packages loop's invariant is kept by one processed package |
| ManifestSync.ProcessPackages | src/main.rs:471-558 | all packages in any order, at most eighteen requests per target of the manifest: on success the table is the specified rewrite and the referenced and wanted sets grow by exactly the packages' contributions; a malformed package makes the run fail; an all-settled manifest touches nothing; only the manifest's artifacts and sidecars change, settled on success unless they collide; for a well-formed manifest its failure is the outcome of the checksum loop of one of its artifacts that started at or after its first request and ended exactly at its last one (`FailedOn`); when the manifest's artifacts do not collide, every sidecar it changes holds the declared hash of a file with that digest, a settled artifact keeps its file and sidecar, and on success every artifact file it changed has its declared digest (`Vouched`) |
| ManifestSync.PackagesBudget | src/main.rs:471-558 | one more package of at most eighteen requests per target keeps the packages loop within eighteen requests per target done, and within the manifest's whole budget |
| ManifestSync.PackagesSettledOf | src/main.rs:471-558 | when every artifact of well-formed packages is settled, every wanted target of every package is settled |
| Channel.FetchManifest | src/main.rs:445-469 | the manifest is downloaded first and the signature second, each exactly as `Downloaded` says, and the original directory gains exactly those files; a failed manifest download stops before the signature; success means both gates passed; a signature or version failure comes with the evidence that caused it |
| Channel.Publish | src/main.rs:560-586 | publishing adds exactly the four channel files and leaves every other file as it was |
| Channel.PublishedPair | src/main.rs:560-586 | publishing writes the manifest and its signature line under both names, the signature passes the gate, and no other file changes |
| Channel.PublishAfter | src/main.rs:560-586 | publishing after the pass adds the four channel files to what the pass changed, and keeps settled artifacts settled when they share no file with the channel |
| Channel.SyncChannel | src/main.rs:444-587 | the manifest and then the signature are downloaded as `Downloaded` says and the original directory holds exactly what they left, a failed download aborting with its cause; the gates decide before the mirror is touched, and a channel failing them leaves the mirror, the referenced and wanted sets alone and stops right after the downloads (`ManifestEnd`); past the gates the manifest parsed from that very download goes through `ProcessChannel` from the next request |
| Channel.ManifestEnd | src/main.rs:445-449 | the manifest and signature downloads together make between one and six requests |
| Channel.ProcessChannel | src/main.rs:471-587 | a gated manifest through the pass (`ChannelPassed`): on success all packages were rewritten, the referenced and wanted sets grew by exactly their contributions and the rewritten manifest is published; at most eighteen requests per target; only the manifest's artifacts, their sidecars and the four published files change; every wanted target is settled on success unless files collide; a well-formed manifest fails only in one of its checksum loops, ending at the last request; a well-formed, settled channel makes no request and publishes onto the unchanged mirror; when the artifacts collide neither with each other nor (on success) with the published files, every sidecar the pass changed holds the declared hash of a file with that digest, and on success every artifact file it changed has its declared digest (`Vouched`) |
| Channel.ChannelFailed | src/main.rs:471-558 | a failed pass over the packages ends the channel as `ChannelPassed` says, the failure being a checksum mismatch or a failed download |
| Channel.ChannelPublished | src/main.rs:558-587 | a successful pass followed by publishing ends the channel as `ChannelPassed` says, including the settled-channel case |
| Rustup.InitPathsStep | src/main.rs:591-609 | one more target adds exactly its rustup-init path, and `*` adds none |
| Rustup.FetchInits | src/main.rs:591-651 | the best-effort loop writes exactly one rustup-init path per target other than `*` and leaves every other file alone; it makes at least one and at most three requests per such target, and each path holds the file of its own download, in a request window disjoint from every other path's |
| Rustup.OwnDownloadsStep | src/main.rs:600-608 | storing one more download at a path after all earlier ones gives that path a window of its own |
| Rustup.InitsAdvance | src/main.rs:591-609 | one more target keeps the loop state: one to three more requests, its path added and holding its own download |
| Rustup.ReleaseGate | src/main.rs:622-628 | the self-update manifest is accepted iff its schema version is "1" and it has a string version; a wrong schema version gives a version mismatch |
| Rustup.SelfUpdate | src/main.rs:611-657 | the original directory gains exactly the release manifest's download; a failed download aborts with its cause, and when it completed the gate alone decides; on success the mirror gains exactly the versioned rustup-init paths and the release manifest copy, each path holding its own download after the manifest's; a failure leaves the mirror untouched |
| Rustup.ReleaseOutsideInits | src/main.rs:611-657 | the release manifest's path is none of the versioned rustup-init paths |
| GarbageCollect.ClearNightly | src/main.rs:668-674 | a directory's date is needed only when a cutoff is set, a bad date then aborts with that directory's name, and nightlies are cleared iff the date is before the cutoff |
| GarbageCollect.DirStep | src/main.rs:679-713 | one more file: a sidecar changes nothing, a doomed file removes itself and its sidecar, a kept file marks the directory as preserved |
| GarbageCollect.CollectDir | src/main.rs:676-713 | the inner loop removes exactly the doomed files and their sidecars, and preserves the directory iff some non-sidecar file is kept |
| GarbageCollect.SweptSomeStep | src/main.rs:660-722 | sweeping one more entry removes a vanishing directory or replaces the entry by its swept form |
| GarbageCollect.SweepEntry | src/main.rs:662-721 | one `dist/` entry: metadata files pass unchanged, a directory with a bad date fails, otherwise the directory is swept or removed |
| GarbageCollect.CollectGarbage | src/main.rs:660-722 | the collection succeeds iff every directory's date can be read when needed, the result is the specified sweep of every entry, and a failure names a directory with an unreadable date after a partial sweep |
| GarbageCollect.SidecarOf | src/main.rs:683-708 | an artifact's sidecar is recognised as a sidecar, and stripping `.sha256` gives the artifact back |
| GarbageCollect.ToBeDeleted | src/main.rs:691-700 | a referenced file is never to be deleted; an unreferenced one is iff its name lacks `nightly` or its directory's nightlies are cleared |
| GarbageCollect.GcKeepsReferenced | src/main.rs:691-700 | at any point of the collection a referenced file that is not itself named like a sidecar survives, with its sidecar and its directory |
| GarbageCollect.ReferencedSidecarDeleted | src/main.rs:683-700 | a referenced file whose name ends in `.sha256` is skipped by the walk, so a directory holding only it is removed |
| GarbageCollect.GcDeletesUnreferencedStable | src/main.rs:697-709 | an unreferenced file without `nightly` in its name is deleted together with its sidecar |
| GarbageCollect.GcNightly | src/main.rs:668-696 | an unreferenced nightly file survives iff no cutoff is set or its directory's date is not before the cutoff |
| GarbageCollect.GcDirRemovedIff | src/main.rs:676-721 | a date directory is removed iff every non-sidecar file in it is to be deleted |
| GarbageCollect.GcSidecarOnlyWithArtifact | src/main.rs:683-709 | a sidecar is never considered on its own: it disappears only as the sidecar of a deleted artifact |
| GarbageCollect.GcMetaUntouched | src/main.rs:663-666 | a top-level file of `dist/` that is not a directory is never changed |
| GarbageCollect.GcOnlyRemoves | src/main.rs:660-722 | the collector only removes entries and files, it never adds or changes one |
| GarbageCollect.GcNightlyDir | src/main.rs:668-721 | a directory holding only unreferenced nightly files is removed iff its date is before the cutoff, and untouched otherwise |
| GarbageCollect.GcKeyIsArtifactKey | src/main.rs:498-692 | the path the collector looks up for `dist/<dir>/<file>` is the same key the manifest rewrite recorded for that file |

## Left out

- The HTTP client, the file system, SHA-256, TOML and URL parsing, date parsing and the clock: they are parameters (`net`, the file maps, `digest`, `parse`/`render`/`urlPath`, `parseDate` and the day-number cutoff).
- Progress bars and `println!` output, the command line, and the constant channel and target lists: they decide inputs, not behaviour.
- Errors of the local file system (`create_dir_all`, `File::create`, `write_all`, `copy`, `remove_file`, `canonicalize`, `read_dir`) and non-UTF-8 file names: the model assumes local disk operations succeed.
- Windows path prefixes and drive letters in `normalize_path`: the `Prefix` component exists only at the start of a well-formed path and is kept.
- The run's composition (channel loop, then the latest rustup-init loop, then the self-update, then the collection) is not one method: each phase is its own method, and the latest rustup-init loop is `Rustup.FetchInits` with `Release.Latest`.
- The collector works on a view of `dist/` (date directories and their file names) rather than on the mirror's file map, and subdirectories inside a date directory are not modelled.
- The rewind-without-truncate behaviour of the download retry is modelled as the source has it, not corrected; `Fetch.TrailingBytesAfterRetry` shows its effect, and `Fetch.FetchVerified` is what turns a corrupted file into a further attempt.
- The collector deletes the dated stable and beta manifest copies written earlier in the same run, since no manifest references them and their names lack `nightly`; the model follows the code here.
- A date directory's name is parsed only when a cutoff is configured, as in the code; without a cutoff a malformed name is never an error.
- Files are keyed by the relative path string the source builds, not by the file it names: two spellings of one file (`dist//a` and `dist/a`, or a `./` segment) are two keys in the model's file maps, so aliasing between such spellings is not captured. The garbage collector's reference set, by contrast, holds normalized joined paths (`Manifest.ArtifactKey`), as the source's does.
- A URL path that starts with `//` leaves a file name starting with `/` after the first character is dropped (src/main.rs:498); `mirror.join` then discards the mirror directory and the source writes that artifact at an absolute path outside the mirror (src/main.rs:311). The model's file map keys it by that string as if it were inside the mirror, while `Manifest.ArtifactKey` follows `Paths.Join` and records the absolute path, as the source does.
- GarbageCollect.GcKeepsReferenced: holds only for files whose names do not end in `.sha256`. The walk skips every such name as a sidecar before looking at the reference set, so a referenced artifact named like a sidecar is deleted when its neighbour without the suffix is, and does not keep its directory; `GarbageCollect.ReferencedSidecarDeleted` shows a directory holding only such a file being removed.
- Entries of a date directory are regular files in the model. The collector resolves each entry with `canonicalize` before deleting it (src/main.rs:688, 705-709), so for a symbolic link the source deletes the link's target, and the file named after the link with `.sha256` appended in the target's directory; symbolic links are not modelled, and `GarbageCollect.DirStep` and `GarbageCollect.CollectDir` remove the entry itself.
- A checksum mismatch after the third download leaves the artifact's file holding that download's bytes next to whatever sidecar was there (src/main.rs:521-537); the model keeps this, as `ManifestSync.StaleSidecarAfterMismatch` shows, and `Vouched` promises nothing about a file a failed pass changed without writing its sidecar.
- The request bounds of the pass (nine per checksum loop, eighteen per target) are upper bounds, not exact counts; the exact count of one checksum loop is `Fetch.Verify`'s `next`.
