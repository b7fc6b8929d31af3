/**
 * The rustup binaries (src/main.rs:590-657): `rustup-init` for every
 * target recorded by the manifest pass, once in its latest version and
 * once from the archive of the version named by the self-update
 * manifest, which is then published as is. A failed binary download is
 * reported and ignored.
 */
module Rustup {
  import opened Wrappers
  import opened Errors
  import opened Names
  import opened Fetch
  import opened Manifest
  import opened Sets

  /** Which `rustup-init` binaries are fetched: the latest ones, or those archived under a version. */
  datatype Release = Latest | Archive(version: string)

  /** Where the `rustup-init` of a target is fetched from and published to. */
  function InitPath(release: Release, target: string): string {
    match release
    case Latest => RustupInitPath(target)
    case Archive(version) => RustupArchivePath(version, target)
  }

  /** The `rustup-init` paths of a set of targets; the wildcard `*` has none. */
  function InitPaths(release: Release, targets: set<string>): set<string> {
    set t | t in targets && t != "*" :: InitPath(release, t)
  }

  lemma InitPathsStep(release: Release, targets: set<string>, t: string, added: Files, file: string)
    requires added.Keys == InitPaths(release, targets)
    ensures t == "*" ==> added.Keys == InitPaths(release, targets + {t})
    ensures t != "*" ==> added[InitPath(release, t) := file].Keys == InitPaths(release, targets + {t})
  {
    assert InitPaths(release, targets + {t})
        == InitPaths(release, targets) + (if t == "*" then {} else {InitPath(release, t)});
  }

  lemma MergeUpdate(fs: Files, added: Files, k: string, v: string)
    ensures (fs + added)[k := v] == fs + added[k := v]
  {
  }

  lemma MergeFrame(fs: Files, added: Files)
    ensures (fs + added).Keys == fs.Keys + added.Keys
    ensures forall k :: k in fs && k !in added ==> (fs + added)[k] == fs[k]
  {
  }

  /**
   * Each path of `windows` holds in `fs` what the download starting at its
   * request left; those downloads lie between requests `start` and `next`
   * and no two of them overlap.
   */
  ghost predicate OwnDownloads(net: nat -> Attempt, start: nat, next: nat, windows: map<string, nat>, fs: Files) {
    && (forall p {:trigger p in windows} :: p in windows ==>
          && start <= windows[p] && Downloaded(net, windows[p]).2 <= next
          && p in fs && fs[p] == Downloaded(net, windows[p]).1)
    && (forall p, q {:trigger p in windows, q in windows} :: p in windows && q in windows && p != q ==>
          Downloaded(net, windows[p]).2 <= windows[q] || Downloaded(net, windows[q]).2 <= windows[p])
  }

  /** A download from request `first` on, stored at `path`, takes a window of its own. */
  lemma OwnDownloadsStep(net: nat -> Attempt, start: nat, first: nat, windows: map<string, nat>,
                         fs: Files, path: string, fs': Files)
    requires start <= first && OwnDownloads(net, start, first, windows, fs)
    requires fs' == fs[path := Downloaded(net, first).1]
    ensures OwnDownloads(net, start, Downloaded(net, first).2, windows[path := first], fs')
  {
  }

  /** The files of the windows are unchanged when merged over another directory. */
  lemma OwnDownloadsMerge(net: nat -> Attempt, start: nat, next: nat, windows: map<string, nat>,
                          fs: Files, added: Files)
    requires OwnDownloads(net, start, next, windows, added)
    ensures OwnDownloads(net, start, next, windows, fs + added)
  {
  }

  /** Writing a file outside the windows keeps them. */
  lemma OwnDownloadsFrame(net: nat -> Attempt, start: nat, next: nat, windows: map<string, nat>,
                          fs: Files, path: string, file: string)
    requires OwnDownloads(net, start, next, windows, fs) && path !in windows
    ensures OwnDownloads(net, start, next, windows, fs[path := file])
  {
  }

  /** The targets that have a `rustup-init`: all but the wildcard. */
  function Binaries(targets: set<string>): set<string> {
    targets - {"*"}
  }

  lemma BinariesStep(targets: set<string>, t: string)
    requires t !in targets
    ensures |Binaries(targets + {t})| == |Binaries(targets)| + (if t == "*" then 0 else 1)
  {
    if t == "*" {
      assert Binaries(targets + {t}) == Binaries(targets);
    } else {
      assert Binaries(targets + {t}) == Binaries(targets) + {t};
    }
  }

  /**
   * The state of the `rustup-init` loop once the targets in `done` are
   * through: at least one and at most `MaxRetries` requests per target but
   * `*`, the files `added` at exactly their paths over the mirror `fs`,
   * each from a download of its own.
   */
  ghost predicate InitsSoFar(release: Release, fs: Files, done: set<string>, added: Files, windows: map<string, nat>,
                             net: nat -> Attempt, start: nat, next: nat, fs': Files) {
    && start + |Binaries(done)| <= next <= start + MaxRetries * |done|
    && added.Keys == InitPaths(release, done) && windows.Keys == added.Keys
    && fs' == fs + added
    && OwnDownloads(net, start, next, windows, added)
  }

  /** The download for one more target, from request `first` on, keeps the loop state. */
  lemma InitsAdvance(release: Release, fs: Files, done: set<string>, added: Files, windows: map<string, nat>,
                     net: nat -> Attempt, start: nat, first: nat, fs': Files, t: string)
    requires InitsSoFar(release, fs, done, added, windows, net, start, first, fs') && t !in done && t != "*"
    ensures var (_, file, next) := Downloaded(net, first);
      var path := InitPath(release, t);
      InitsSoFar(release, fs, done + {t}, added[path := file], windows[path := first], net, start, next, fs'[path := file])
  {
    var (_, file, next) := Downloaded(net, first);
    var path := InitPath(release, t);
    BinariesStep(done, t);
    InitPathsStep(release, done, t, added, file);
    MergeUpdate(fs, added, path, file);
    OwnDownloadsStep(net, start, first, windows, added, path, added[path := file]);
  }

  /** The wildcard target changes nothing but the set of targets through. */
  lemma InitsSkip(release: Release, fs: Files, done: set<string>, added: Files, windows: map<string, nat>,
                  net: nat -> Attempt, start: nat, next: nat, fs': Files)
    requires InitsSoFar(release, fs, done, added, windows, net, start, next, fs') && "*" !in done
    ensures InitsSoFar(release, fs, done + {"*"}, added, windows, net, start, next, fs')
  {
    BinariesStep(done, "*");
    InitPathsStep(release, done, "*", added, "");
  }

  /**
   * Fetch `rustup-init` to `InitPath(release, t)` for every target `t` but `*`, in any
   * order. Each download creates its file even when it fails, and a
   * failure never stops the loop: the mirror gains exactly the paths of
   * the targets.
   */
  method FetchInits(release: Release, targets: set<string>, fs: Files, net: nat -> Attempt, start: nat)
    returns (fs': Files, next: nat, ghost windows: map<string, nat>)
    ensures start <= next <= start + MaxRetries * |targets|
    ensures fs'.Keys == fs.Keys + InitPaths(release, targets)
    ensures forall k :: k in fs && k !in InitPaths(release, targets) ==> fs'[k] == fs[k]
    // every target but `*` costs at least one request, and each path holds what a download of its own left
    ensures start + |Binaries(targets)| <= next
    ensures windows.Keys == InitPaths(release, targets) && OwnDownloads(net, start, next, windows, fs')
  {
    fs', next := fs, start;
    windows := map[];
    var todo := targets;
    ghost var done: set<string> := {};
    ghost var added: Files := map[];
    assert fs + added == fs;
    while todo != {}
      invariant todo !! done && todo + done == targets
      invariant InitsSoFar(release, fs, done, added, windows, net, start, next, fs')
      decreases |todo|
    {
      var t :| t in todo;
      if t != "*" {
        var got, file;
        ghost var first := next;
        got, file, next := Download(net, next);
        // a failed download is only reported
        InitsAdvance(release, fs, done, added, windows, net, start, first, fs', t);
        fs' := fs'[InitPath(release, t) := file];
        added := added[InitPath(release, t) := file];
        windows := windows[InitPath(release, t) := first];
      } else {
        InitsSkip(release, fs, done, added, windows, net, start, next, fs');
      }
      MoveOne(todo, done, targets, t);
      todo := todo - {t};
      done := done + {t};
    }
    assert done == targets;
    MergeFrame(fs, added);
    OwnDownloadsMerge(net, start, next, windows, fs, added);
  }

  /**
   * The gate on the self-update manifest: `schema-version` must be "1"
   * and `version` a string. Yields the version.
   */
  function ReleaseGate(doc: Value): (r: Result<string, SyncError>)
    ensures r.Ok? <==>
      && doc.Table? && "schema-version" in doc.t && doc.t["schema-version"] == Str("1")
      && "version" in doc.t && doc.t["version"].Str?
    ensures doc.Table? && "schema-version" in doc.t && doc.t["schema-version"] != Str("1") ==> r == Err(VersionMismatch)
  {
    if !doc.Table? then Err(Malformed("release"))
    else if "schema-version" !in doc.t then Err(Malformed("schema-version"))
    else if doc.t["schema-version"] != Str("1") then Err(VersionMismatch)
    else if "version" !in doc.t || !doc.t["version"].Str? then Err(Malformed("version"))
    else Ok(doc.t["version"].s)
  }

  /** The self-update manifest is none of the archived `rustup-init` paths. */
  lemma ReleaseOutsideInits(version: string, targets: set<string>)
    ensures ReleaseName !in InitPaths(Archive(version), targets)
  {
    forall t | t in targets ensures InitPath(Archive(version), t) != ReleaseName {
      InitPathsAvoidRelease(version, t);
    }
  }

  /**
   * The self update: fetch the release manifest into `orig`, check it,
   * fetch the archived `rustup-init` of its version for every recorded
   * target, then publish the manifest unchanged.
   */
  method SelfUpdate(cfg: Config, targets: set<string>, orig: Files, fs: Files, net: nat -> Attempt, start: nat)
    returns (res: Outcome<SyncError>, orig': Files, fs': Files, next: nat, ghost windows: map<string, nat>)
    ensures start < next
    ensures ReleaseName in orig'
    ensures res == Pass ==>
      cfg.parse(orig'[ReleaseName]).Some? && ReleaseGate(cfg.parse(orig'[ReleaseName]).value).Ok?
    ensures res == Pass ==>
      var paths := InitPaths(Archive(ReleaseGate(cfg.parse(orig'[ReleaseName]).value).value), targets);
      && fs'.Keys == fs.Keys + paths + {ReleaseName}
      && fs'[ReleaseName] == orig'[ReleaseName]
      && forall k :: k in fs && k !in paths && k != ReleaseName ==> fs'[k] == fs[k]
    ensures res.Fail? ==> fs' == fs
    // the release manifest is what its download left; when that completed, the gate alone decides
    ensures var (got, data, _) := Downloaded(net, start);
      && orig' == orig[ReleaseName := data]
      && (got.Fail? ==> res == Fail(DownloadFailed(got.error)))
      && (got == Pass ==> (res == Pass <==> cfg.parse(data).Some? && ReleaseGate(cfg.parse(data).value).Ok?))
    ensures res == Pass ==>
      var paths := InitPaths(Archive(ReleaseGate(cfg.parse(orig'[ReleaseName]).value).value), targets);
      && Downloaded(net, start).2 + |Binaries(targets)| <= next
      && windows.Keys == paths && OwnDownloads(net, Downloaded(net, start).2, next, windows, fs')
  {
    fs', windows := fs, map[];
    var got, data;
    got, data, next := Download(net, start);
    orig' := orig[ReleaseName := data];
    if got.Fail? {
      return Fail(DownloadFailed(got.error)), orig', fs', next, windows;
    }
    var parsed := cfg.parse(data);
    if parsed.None? {
      return Fail(Malformed("release")), orig', fs', next, windows;
    }
    var gate := ReleaseGate(parsed.value);
    if gate.Err? {
      return Fail(gate.error), orig', fs', next, windows;
    }
    ghost var mid := next;
    fs', next, windows := FetchInits(Archive(gate.value), targets, fs, net, next);
    ReleaseOutsideInits(gate.value, targets);
    OwnDownloadsFrame(net, mid, next, windows, fs', ReleaseName, data);
    fs' := fs'[ReleaseName := data];
    res := Pass;
  }
}
