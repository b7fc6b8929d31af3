/**
 * The per-target manifest pass of src/main.rs:471-558 as the source runs
 * it: loops over packages and targets, mutating the entries, growing the
 * reference set and the set of seen targets, reading and writing sidecars
 * and downloading what is missing or stale. Each method is proved against
 * the pure rewrite of module `Manifest`.
 */
module ManifestSync {
  import opened Wrappers
  import opened Errors
  import opened Paths
  import opened Strings
  import opened Fetch
  import opened Manifest
  import opened Sets

  /**
   * The most requests one checksum loop makes: `MaxRetries` downloads of
   * at most `MaxRetries` requests each. Written as a number so that the
   * bounds below stay linear.
   */
  const LoopMax: nat := 9

  /** The most requests one target makes: a checksum loop for each of its two variants. */
  const TargetMax: nat := 18

  /** Request budgets add up: `n` targets' worth, then `k` more, fit in `m` when `n + k <= m`. */
  lemma AddBudget(start: nat, mid: nat, next: nat, n: nat, k: nat, m: nat)
    requires mid <= start + TargetMax * n && next <= mid + TargetMax * k && n + k <= m
    ensures next <= start + TargetMax * m
  {
    assert TargetMax * n + TargetMax * k == TargetMax * (n + k);
    assert TargetMax * (n + k) <= TargetMax * m;
  }

  /** After one more target of a table, the requests still fit the budget of the targets done and of the table. */
  lemma TargetsBudget(start: nat, mid: nat, next: nat, done: set<string>, t: string, keys: set<string>)
    requires done <= keys && t in keys && t !in done
    requires mid <= start + TargetMax * |done| && next <= mid + TargetMax
    ensures next <= start + TargetMax * |done + {t}| && next <= start + TargetMax * |keys|
  {
    assert |done + {t}| == |done| + 1;
    SubsetSize(done + {t}, keys);
    AddBudget(start, mid, next, |done|, 1, |keys|);
    AddBudget(start, mid, next, |done|, 1, |done| + 1);
  }

  /** After one more package, the requests still fit the budget of the packages done and of the table. */
  lemma PackagesBudget(pkgs: map<string, Value>, start: nat, mid: nat, next: nat, done: set<string>, p: string)
    requires done <= pkgs.Keys && p in pkgs && p !in done
    requires mid <= start + TargetMax * TargetTotal(pkgs, done) && next <= mid + TargetMax * TargetCount(pkgs[p])
    ensures next <= start + TargetMax * TargetTotal(pkgs, done + {p})
    ensures next <= start + TargetMax * TargetTotal(pkgs, pkgs.Keys)
  {
    TargetTotalStep(pkgs, done, p);
    TargetTotalMono(pkgs, done + {p}, pkgs.Keys);
    AddBudget(start, mid, next, TargetTotal(pkgs, done), TargetCount(pkgs[p]), TargetTotal(pkgs, pkgs.Keys));
    AddBudget(start, mid, next, TargetTotal(pkgs, done), TargetCount(pkgs[p]), TargetTotal(pkgs, done + {p}));
  }

  /** `file_sha256`: the digest of a file, None when it does not exist. */
  function FileDigest(fs: Files, path: string, digest: string -> string): Option<string> {
    if path in fs then Some(digest(fs[path])) else None
  }

  /** What is known of an artifact before deciding: its sidecar, else the digest of a local copy. */
  function PriorDigest(fs: Files, rel: string, digest: string -> string): Option<string> {
    if SidecarName(rel) in fs then Some(fs[SidecarName(rel)]) else FileDigest(fs, rel, digest)
  }

  /** `need_download`: no digest known, or one that is not the declared hash. */
  function NeedDownload(prior: Option<string>, upstream: string): (r: bool)
    ensures r <==> prior != Some(upstream)
  {
    match prior
    case Some(known) => upstream != known
    case None => true
  }

  /** The artifact's sidecar is present and holds its declared hash. */
  predicate Settled(a: Artifact, fs: Files) {
    SidecarName(a.rel) in fs && fs[SidecarName(a.rel)] == a.hash
  }

  /** Only the files named in `keys` may differ between `fs` and `fs'`. */
  ghost predicate ChangesAtMost(fs: Files, fs': Files, keys: set<string>) {
    forall k {:trigger k in fs'} {:trigger k in fs} :: k !in keys ==> (k in fs <==> k in fs') && (k in fs ==> fs'[k] == fs[k])
  }

  /** File `k` is the same in `fs` and `fs'`: absent from both, or present in both with the same contents. */
  predicate Kept(fs: Files, fs': Files, k: string) {
    (k in fs <==> k in fs') && (k in fs ==> fs'[k] == fs[k])
  }

  /**
   * What a pass over the artifacts `arts` from `fs` to `fs'` promises
   * about their files: a sidecar it changed holds the declared hash of an
   * artifact whose file has that digest; an artifact settled before keeps
   * its file and sidecar; and when the pass `passed`, every artifact file
   * it changed has the declared digest. A pass that changed nothing
   * vouches trivially; the first disjunct says so outright.
   */
  ghost predicate Vouched(arts: set<Artifact>, digest: string -> string, fs: Files, fs': Files, passed: bool) {
    fs' == fs || (
    && (forall a {:trigger Kept(fs, fs', SidecarName(a.rel))} :: a in arts && !Kept(fs, fs', SidecarName(a.rel)) ==>
          Settled(a, fs') && a.rel in fs' && digest(fs'[a.rel]) == a.hash)
    && (forall a {:trigger Kept(fs, fs', a.rel)} :: a in arts && Settled(a, fs) ==>
          Kept(fs, fs', a.rel) && Kept(fs, fs', SidecarName(a.rel)))
    && (passed ==> forall a {:trigger Kept(fs, fs', a.rel)} :: a in arts && !Kept(fs, fs', a.rel) ==>
          a.rel in fs' && digest(fs'[a.rel]) == a.hash))
  }

  /** `Vouched` for a single artifact, stated file by file. */
  lemma VouchedOne(a: Artifact, digest: string -> string, fs: Files, fs': Files, passed: bool)
    requires !Kept(fs, fs', SidecarName(a.rel)) ==> Settled(a, fs') && a.rel in fs' && digest(fs'[a.rel]) == a.hash
    requires Settled(a, fs) ==> Kept(fs, fs', a.rel) && Kept(fs, fs', SidecarName(a.rel))
    requires passed && !Kept(fs, fs', a.rel) ==> a.rel in fs' && digest(fs'[a.rel]) == a.hash
    ensures Vouched({a}, digest, fs, fs', passed)
  { }

  /** Widening the set of files allowed to change. */
  lemma ChangesWithinKeys(fs: Files, fs': Files, keys: set<string>, keys': set<string>)
    requires ChangesAtMost(fs, fs', keys) && keys <= keys'
    ensures ChangesAtMost(fs, fs', keys')
  {
  }

  /** `need_download` holds exactly when no digest is known or the known one differs. */
  lemma NeedDownloadExactly(fs: Files, rel: string, digest: string -> string, upstream: string)
    ensures NeedDownload(PriorDigest(fs, rel, digest), upstream) <==>
      (SidecarName(rel) !in fs && rel !in fs)
      || (SidecarName(rel) in fs && fs[SidecarName(rel)] != upstream)
      || (SidecarName(rel) !in fs && rel in fs && digest(fs[rel]) != upstream)
  {
  }

  /**
   * What refreshing artifact `a` does to the mirror when it succeeds.
   */
  ghost predicate Refreshed(a: Artifact, cfg: Config, fs: Files, fs': Files, start: nat, next: nat)
  {
    var need := NeedDownload(PriorDigest(fs, a.rel, cfg.digest), a.hash);
    // the sidecar is written exactly when a download was needed or it was missing, and holds the declared hash
    && ChangesAtMost(fs, fs', if need then {a.rel, SidecarName(a.rel)} else {SidecarName(a.rel)})
    && (need || SidecarName(a.rel) !in fs <==> fs' != fs)
    && Settled(a, fs')
    // a download happened exactly when needed, and what it left has the declared digest
    && (if need then start < next else next == start)
    && (need ==> a.rel in fs' && cfg.digest(fs'[a.rel]) == a.hash)
    // nothing is left to download for this artifact
    && !NeedDownload(PriorDigest(fs', a.rel, cfg.digest), a.hash)
  }

  /** What processing artifact `a` does when it succeeds: it is referenced and refreshed. */
  ghost predicate VariantEffect(a: Artifact, cfg: Config, fs: Files, fs': Files,
                                referenced: set<Path>, referenced': set<Path>, start: nat, next: nat)
  {
    && referenced' == referenced + {ArtifactKey(cfg.mirror, a.rel)}
    && Refreshed(a, cfg, fs, fs', start, next)
  }

  /**
   * The download decision for one artifact: compare what is known of it
   * with the declared hash, fetch and verify when they differ, and write
   * the sidecar when a download happened or it was missing.
   */
  method Refresh(a: Artifact, cfg: Config, fs: Files, net: nat -> Attempt, start: nat)
    returns (res: Outcome<SyncError>, fs': Files, next: nat)
    ensures start <= next <= start + LoopMax
    ensures res == Pass ==> Refreshed(a, cfg, fs, fs', start, next)
    ensures res.Fail? ==>
      // only a failed download aborts, and it leaves the sidecar alone
      && NeedDownload(PriorDigest(fs, a.rel, cfg.digest), a.hash)
      && ChangesAtMost(fs, fs', {a.rel})
      && (res.error == ChecksumMismatch || res.error.DownloadFailed?)
    // the outcome, the artifact's file and the request count are those of the checksum loop
    ensures NeedDownload(PriorDigest(fs, a.rel, cfg.digest), a.hash) ==>
      var v := Verify(net, start, a.hash, cfg.digest, 1);
      res == v.res && next == v.next && a.rel in fs' && fs'[a.rel] == v.file
    ensures !NeedDownload(PriorDigest(fs, a.rel, cfg.digest), a.hash) ==> res == Pass
    // a written sidecar vouches for the file, and a file written on success has the declared digest
    ensures Vouched({a}, cfg.digest, fs, fs', res == Pass)
  {
    fs', next := fs, start;
    var side := SidecarName(a.rel);
    var sidecar := if side in fs then Some(fs[side]) else None;
    var sidecarMissing := sidecar.None?;
    var known := if sidecar.Some? then sidecar else FileDigest(fs, a.rel, cfg.digest);
    var need := NeedDownload(known, a.hash);
    if need {
      var verified, file, tries;
      ghost var starts;
      verified, file, tries, next, starts := FetchVerified(net, start, a.hash, cfg.digest);
      fs' := fs'[a.rel := file];
      if verified.Fail? {
        VouchedOne(a, cfg.digest, fs, fs', false);
        return verified, fs', next;
      }
      known := Some(cfg.digest(file));
    }
    if need || sidecarMissing {
      fs' := fs'[side := known.value];
    }
    res := Pass;
    VouchedOne(a, cfg.digest, fs, fs', true);
  }

  /**
   * One variant (`prefix` "" or "xz_") of an in-scope available target:
   * reference it, decide whether to download, fetch and verify, refresh
   * the sidecar, and point the URL at the mirror.
   */
  method ProcessVariant(entry: map<string, Value>, prefix: string, cfg: Config,
                        fs: Files, referenced: set<Path>, net: nat -> Attempt, start: nat)
    returns (res: Outcome<SyncError>, entry': map<string, Value>, fs': Files, referenced': set<Path>, next: nat)
    ensures start <= next <= start + LoopMax
    ensures res == Pass ==> RewriteVariant(entry, prefix, cfg) == Ok(entry')
    ensures Resolve(entry, prefix, cfg.urlPath).Err? ==> res.Fail? && fs' == fs && next == start
    ensures res == Pass ==>
      VariantEffect(Resolve(entry, prefix, cfg.urlPath).value, cfg, fs, fs', referenced, referenced', start, next)
    ensures res.Fail? && Resolve(entry, prefix, cfg.urlPath).Ok? ==>
      var a := Resolve(entry, prefix, cfg.urlPath).value;
      // only a failed download aborts a resolvable variant, and it leaves the sidecar alone
      && NeedDownload(PriorDigest(fs, a.rel, cfg.digest), a.hash)
      && ChangesAtMost(fs, fs', {a.rel})
      && res == Verify(net, start, a.hash, cfg.digest, 1).res && next == Verify(net, start, a.hash, cfg.digest, 1).next
    ensures Resolve(entry, prefix, cfg.urlPath).Ok? && Settled(Resolve(entry, prefix, cfg.urlPath).value, fs) ==>
      res == Pass && fs' == fs && next == start
    // only the variant's file and sidecar change, and on success it is settled
    ensures ChangesAtMost(fs, fs', FilesOf(Variant(entry, prefix, cfg)))
    ensures res == Pass ==> AllSettled(Variant(entry, prefix, cfg), fs')
    ensures Vouched(Variant(entry, prefix, cfg), cfg.digest, fs, fs', res == Pass)
  {
    entry', fs', referenced', next := entry, fs, referenced, start;
    if UrlKey(prefix) !in entry || !entry[UrlKey(prefix)].Str? {
      return Fail(Malformed(UrlKey(prefix))), entry', fs', referenced', next;
    }
    var parsed := cfg.urlPath(entry[UrlKey(prefix)].s);
    if parsed.None? {
      return Fail(Malformed(UrlKey(prefix))), entry', fs', referenced', next;
    }
    var fileName := DecodeSpaces(parsed.value);
    if fileName == "" {
      // `file_name[1..]` panics on an empty path
      return Fail(Malformed(UrlKey(prefix))), entry', fs', referenced', next;
    }
    var rel := fileName[1..];
    referenced' := referenced + {ArtifactKey(cfg.mirror, rel)};
    // reading the sidecar comes first in the source; reading has no effect, so the order is immaterial
    if HashKey(prefix) !in entry || !entry[HashKey(prefix)].Str? {
      return Fail(Malformed(HashKey(prefix))), entry', fs', referenced', next;
    }
    var a := Artifact(fileName, rel, entry[HashKey(prefix)].s);
    assert Resolve(entry, prefix, cfg.urlPath) == Ok(a);
    res, fs', next := Refresh(a, cfg, fs, net, start);
    if res.Fail? {
      return;
    }
    entry' := entry[UrlKey(prefix) := Str(cfg.mirrorUrl + fileName)];
  }

  /**
   * A stale sidecar (one holding another hash) and a re-download whose
   * every attempt has the wrong digest: the artifact's file is left
   * holding the last download's bytes while the stale sidecar stays, and
   * the next run downloads again, because the sidecar still disagrees.
   */
  method StaleSidecarAfterMismatch(a: Artifact, cfg: Config, fs: Files, net: nat -> Attempt, start: nat)
    returns (res: Outcome<SyncError>, fs': Files, next: nat)
    requires SidecarName(a.rel) in fs && fs[SidecarName(a.rel)] != a.hash
    requires Verify(net, start, a.hash, cfg.digest, 1).res == Fail(ChecksumMismatch)
    ensures res == Fail(ChecksumMismatch)
    ensures a.rel in fs' && fs'[a.rel] == Verify(net, start, a.hash, cfg.digest, 1).file
    ensures cfg.digest(fs'[a.rel]) != a.hash
    ensures SidecarName(a.rel) in fs' && fs'[SidecarName(a.rel)] == fs[SidecarName(a.rel)]
    ensures NeedDownload(PriorDigest(fs', a.rel, cfg.digest), a.hash)
  {
    assert NeedDownload(PriorDigest(fs, a.rel, cfg.digest), a.hash);
    res, fs', next := Refresh(a, cfg, fs, net, start);
    assert SidecarName(a.rel) != a.rel;
  }

  /** An artifact already settled is neither downloaded nor rewritten. */
  lemma SettledUntouched(a: Artifact, cfg: Config, fs: Files, fs': Files,
                         referenced: set<Path>, referenced': set<Path>, start: nat, next: nat)
    requires Settled(a, fs) && VariantEffect(a, cfg, fs, fs', referenced, referenced', start, next)
    ensures fs' == fs && next == start
  {
    assert PriorDigest(fs, a.rel, cfg.digest) == Some(a.hash);
    assert !NeedDownload(PriorDigest(fs, a.rel, cfg.digest), a.hash);
    assert SidecarName(a.rel) in fs;
  }

  /** Both artifacts of a wanted entry have their sidecars with their declared hashes. */
  predicate BothSettled(e: map<string, Value>, cfg: Config, fs: Files) {
    var plain := Resolve(e, "", cfg.urlPath);
    var xz := Resolve(e, "xz_", cfg.urlPath);
    plain.Ok? && xz.Ok? && Settled(plain.value, fs) && Settled(xz.value, fs)
  }

  /** Every artifact of a wanted target already has its sidecar with the declared hash. */
  predicate TargetSettled(target: string, entry: Value, cfg: Config, fs: Files) {
    Wanted(target, entry, cfg.allow) ==> BothSettled(entry.t, cfg, fs)
  }

  /** Two artifact paths and their two sidecars are four different files. */
  predicate Apart(rel1: string, rel2: string) {
    rel1 != rel2 && rel1 != SidecarName(rel2) && rel2 != SidecarName(rel1)
  }

  /** The files the pass may write for a set of artifacts: each artifact and its sidecar. */
  function FilesOf(arts: set<Artifact>): set<string> {
    (set a | a in arts :: a.rel) + (set a | a in arts :: SidecarName(a.rel))
  }

  /** Every artifact of `arts` is settled in `fs`. */
  ghost predicate AllSettled(arts: set<Artifact>, fs: Files) {
    forall a :: a in arts ==> Settled(a, fs)
  }

  /**
   * Two artifacts the pass can both settle: stored apart, or the same file
   * declared with the same hash.
   */
  predicate Compatible(a1: Artifact, a2: Artifact) {
    Apart(a1.rel, a2.rel) || (a1.rel == a2.rel && a1.hash == a2.hash)
  }

  /**
   * No two artifacts of `arts` collide: none is stored under another's path
   * with a different hash, and none under another's sidecar.
   */
  ghost predicate Consistent(arts: set<Artifact>) {
    forall a1, a2 {:trigger Compatible(a1, a2)} :: a1 in arts && a2 in arts ==> Compatible(a1, a2)
  }

  /**
   * The failure `res` is the outcome of the checksum loop of some artifact
   * of `arts` that started at a request from `start` on and made the last
   * request before `next`.
   */
  ghost predicate FailedOn(arts: set<Artifact>, cfg: Config, net: nat -> Attempt, start: nat, next: nat,
                           res: Outcome<SyncError>) {
    exists a, s :: a in arts && start <= s && Verify(net, s, a.hash, cfg.digest, 1).next == next
                   && res == Verify(net, s, a.hash, cfg.digest, 1).res
  }

  /** A failure that is some checksum loop's is a checksum mismatch or a failed download. */
  lemma FailedOnCause(arts: set<Artifact>, cfg: Config, net: nat -> Attempt, start: nat, next: nat,
                      res: Outcome<SyncError>)
    requires FailedOn(arts, cfg, net, start, next, res) && res.Fail?
    ensures start < next
    ensures res.error == ChecksumMismatch || res.error.DownloadFailed?
  {
    var a, s :| a in arts && start <= s && Verify(net, s, a.hash, cfg.digest, 1).next == next
                && res == Verify(net, s, a.hash, cfg.digest, 1).res;
  }

  /** A failure on some artifacts is a failure on any set holding them, from any earlier request. */
  lemma FailedOnWider(arts: set<Artifact>, arts': set<Artifact>, cfg: Config, net: nat -> Attempt,
                      start: nat, mid: nat, next: nat, res: Outcome<SyncError>)
    requires FailedOn(arts, cfg, net, mid, next, res) && arts <= arts' && start <= mid
    ensures FailedOn(arts', cfg, net, start, next, res)
  {
    var a, s :| a in arts && mid <= s && Verify(net, s, a.hash, cfg.digest, 1).next == next
                && res == Verify(net, s, a.hash, cfg.digest, 1).res;
  }

  /**
   * An artifact settled before a step that writes only the files of `arts`
   * and settles all of them stays settled, when it is compatible with each.
   */
  lemma KeepsSettled(a: Artifact, arts: set<Artifact>, fs: Files, fs': Files)
    requires Settled(a, fs) && ChangesAtMost(fs, fs', FilesOf(arts)) && AllSettled(arts, fs')
    requires forall b :: b in arts ==> Compatible(a, b)
    ensures Settled(a, fs')
  {
    var side := SidecarName(a.rel);
    if side in FilesOf(arts) {
      if b :| b in arts && side == b.rel {
        assert false;
      } else {
        var b :| b in arts && side == SidecarName(b.rel);
        SidecarNameInjective(a.rel, b.rel);
        assert Settled(b, fs');
      }
    }
  }

  /**
   * Among artifacts that do not collide, one whose file or sidecar is a
   * file of `arts` has the path and the declared hash of one of them.
   */
  lemma Overlap(a: Artifact, k: string, arts: set<Artifact>, all: set<Artifact>) returns (c: Artifact)
    requires Consistent(all) && a in all && arts <= all
    requires (k == a.rel || k == SidecarName(a.rel)) && k in FilesOf(arts)
    ensures c in arts && c.rel == a.rel && c.hash == a.hash
  {
    if b :| b in arts && k == b.rel {
      c := b;
    } else {
      c :| c in arts && k == SidecarName(c.rel);
      SidecarNameInjective(a.rel, c.rel);
    }
    assert Compatible(a, c);
  }

  /**
   * A step over some of the artifacts `all`, keeping to their files and
   * vouching for them, extends what the pass so far vouches for, when
   * the artifacts do not collide.
   */
  lemma VouchedStep(all: set<Artifact>, arts: set<Artifact>, digest: string -> string,
                    fs: Files, fs1: Files, fs2: Files, passed: bool)
    requires Consistent(all) && arts <= all
    requires Vouched(all, digest, fs, fs1, true)
    requires ChangesAtMost(fs1, fs2, FilesOf(arts)) && Vouched(arts, digest, fs1, fs2, passed)
    ensures Vouched(all, digest, fs, fs2, passed)
  {
    forall a | a in all && !Kept(fs, fs2, SidecarName(a.rel))
      ensures Settled(a, fs2) && a.rel in fs2 && digest(fs2[a.rel]) == a.hash
    {
      if !Kept(fs1, fs2, SidecarName(a.rel)) {
        var c := Overlap(a, SidecarName(a.rel), arts, all);
      } else {
        assert !Kept(fs, fs1, SidecarName(a.rel));
        if !Kept(fs1, fs2, a.rel) {
          // the sidecar was written earlier, so the artifact was settled and the step left it alone
          var c := Overlap(a, a.rel, arts, all);
        }
      }
    }
    forall a | a in all && Settled(a, fs)
      ensures Kept(fs, fs2, a.rel) && Kept(fs, fs2, SidecarName(a.rel))
    {
      assert Kept(fs, fs1, a.rel) && Kept(fs, fs1, SidecarName(a.rel));
      if !Kept(fs1, fs2, a.rel) {
        var c := Overlap(a, a.rel, arts, all);
      }
      if !Kept(fs1, fs2, SidecarName(a.rel)) {
        var c := Overlap(a, SidecarName(a.rel), arts, all);
      }
    }
    if passed {
      forall a | a in all && !Kept(fs, fs2, a.rel) ensures a.rel in fs2 && digest(fs2[a.rel]) == a.hash {
        if !Kept(fs1, fs2, a.rel) {
          var c := Overlap(a, a.rel, arts, all);
        } else {
          assert !Kept(fs, fs1, a.rel);
        }
      }
    }
  }

  /** What a pass vouches for survives a step that writes none of the artifacts' files. */
  lemma VouchedFrame(arts: set<Artifact>, digest: string -> string, fs: Files, fs1: Files, fs2: Files,
                     keys: set<string>, passed: bool)
    requires Vouched(arts, digest, fs, fs1, passed) && ChangesAtMost(fs1, fs2, keys) && FilesOf(arts) !! keys
    ensures Vouched(arts, digest, fs, fs2, passed)
  {
    forall a | a in arts && !Kept(fs, fs2, SidecarName(a.rel))
      ensures Settled(a, fs2) && a.rel in fs2 && digest(fs2[a.rel]) == a.hash
    {
      assert a.rel in FilesOf(arts) && SidecarName(a.rel) in FilesOf(arts);
      assert !Kept(fs, fs1, SidecarName(a.rel));
    }
    forall a | a in arts && Settled(a, fs) ensures Kept(fs, fs2, a.rel) && Kept(fs, fs2, SidecarName(a.rel)) {
      assert a.rel in FilesOf(arts) && SidecarName(a.rel) in FilesOf(arts);
      assert Kept(fs, fs1, a.rel);
    }
    if passed {
      forall a | a in arts && !Kept(fs, fs2, a.rel) ensures a.rel in fs2 && digest(fs2[a.rel]) == a.hash {
        assert a.rel in FilesOf(arts);
        assert !Kept(fs, fs1, a.rel);
      }
    }
  }

  /**
   * The mirror while a loop goes over the artifacts `all`: only their
   * files changed, and when they do not collide the ones in `done` are
   * settled and the pass so far vouches for all of them.
   */
  ghost predicate FetchSoFar(all: set<Artifact>, done: set<Artifact>, digest: string -> string, fs: Files, fs': Files) {
    && done <= all
    && ChangesAtMost(fs, fs', FilesOf(all))
    && (Consistent(all) ==> AllSettled(done, fs') && Vouched(all, digest, fs, fs', true))
  }

  /** Before the first step nothing has changed. */
  lemma FetchStart(all: set<Artifact>, digest: string -> string, fs: Files)
    ensures FetchSoFar(all, {}, digest, fs, fs)
  {
  }

  /** A step over some of the artifacts that keeps to their files, settles them and vouches for them advances the loop. */
  lemma FetchAdvance(all: set<Artifact>, done: set<Artifact>, arts: set<Artifact>, digest: string -> string,
                     fs: Files, fs1: Files, fs2: Files)
    requires FetchSoFar(all, done, digest, fs, fs1) && arts <= all
    requires ChangesAtMost(fs1, fs2, FilesOf(arts))
    requires Consistent(arts) ==> AllSettled(arts, fs2) && Vouched(arts, digest, fs1, fs2, true)
    ensures FetchSoFar(all, done + arts, digest, fs, fs2)
  {
    assert FilesOf(arts) <= FilesOf(all);
    if Consistent(all) {
      assert Consistent(arts);
      forall a | a in done ensures Settled(a, fs2) {
        KeepsSettled(a, arts, fs1, fs2);
      }
      VouchedStep(all, arts, digest, fs, fs1, fs2, true);
    }
  }

  /** A failing step over some of the artifacts ends the loop with what it vouches for carried over. */
  lemma FetchFailed(all: set<Artifact>, done: set<Artifact>, arts: set<Artifact>, digest: string -> string,
                    fs: Files, fs1: Files, fs2: Files)
    requires FetchSoFar(all, done, digest, fs, fs1) && arts <= all
    requires ChangesAtMost(fs1, fs2, FilesOf(arts))
    requires Consistent(arts) ==> Vouched(arts, digest, fs1, fs2, false)
    ensures ChangesAtMost(fs, fs2, FilesOf(all))
    ensures Consistent(all) ==> Vouched(all, digest, fs, fs2, false)
  {
    ChangesWithin(fs1, fs2, arts, all);
    ChangesCompose(fs, fs1, fs2, FilesOf(all));
    if Consistent(all) {
      assert Consistent(arts);
      VouchedStep(all, arts, digest, fs, fs1, fs2, false);
    }
  }

  /** A change confined to the files of some artifacts is confined to those of any set holding them. */
  lemma ChangesWithin(fs: Files, fs': Files, arts: set<Artifact>, arts': set<Artifact>)
    requires ChangesAtMost(fs, fs', FilesOf(arts)) && arts <= arts'
    ensures ChangesAtMost(fs, fs', FilesOf(arts'))
  {
    assert FilesOf(arts) <= FilesOf(arts');
  }

  /** Two steps that each change only files of `keys` together change only those. */
  lemma ChangesCompose(fs: Files, fs1: Files, fs2: Files, keys: set<string>)
    requires ChangesAtMost(fs, fs1, keys) && ChangesAtMost(fs1, fs2, keys)
    ensures ChangesAtMost(fs, fs2, keys)
  {
  }

  /** Settled artifacts stay settled while only files other than theirs change. */
  lemma AllSettledFrame(arts: set<Artifact>, fs: Files, fs': Files, keys: set<string>)
    requires AllSettled(arts, fs) && ChangesAtMost(fs, fs', keys) && FilesOf(arts) !! keys
    ensures AllSettled(arts, fs')
  {
    forall a | a in arts ensures Settled(a, fs') {
      assert SidecarName(a.rel) in FilesOf(arts);
    }
  }

  /** Both variants of an in-scope available entry, plain first, then xz. */
  method ProcessArtifacts(e: map<string, Value>, cfg: Config, fs: Files, referenced: set<Path>,
                          net: nat -> Attempt, start: nat)
    returns (res: Outcome<SyncError>, e': map<string, Value>, fs': Files, referenced': set<Path>, next: nat)
    ensures start <= next <= start + TargetMax
    ensures res == Pass ==>
      RewriteVariant(e, "", cfg).Ok? && RewriteVariant(RewriteVariant(e, "", cfg).value, "xz_", cfg) == Ok(e')
    ensures Resolve(e, "", cfg.urlPath).Err? || Resolve(e, "xz_", cfg.urlPath).Err? ==> res.Fail?
    ensures res == Pass ==>
      referenced' == referenced + {ArtifactKey(cfg.mirror, Resolve(e, "", cfg.urlPath).value.rel),
                                   ArtifactKey(cfg.mirror, Resolve(e, "xz_", cfg.urlPath).value.rel)}
    ensures BothSettled(e, cfg, fs) ==> res == Pass && fs' == fs && next == start
    // only the two artifacts and their sidecars change; on success both are settled unless they collide
    ensures ChangesAtMost(fs, fs', FilesOf(Variant(e, "", cfg) + Variant(e, "xz_", cfg)))
    ensures res == Pass && Consistent(Variant(e, "", cfg) + Variant(e, "xz_", cfg)) ==>
      AllSettled(Variant(e, "", cfg) + Variant(e, "xz_", cfg), fs')
    // with both variants readable, only a checksum loop can fail
    ensures res.Fail? && Resolve(e, "", cfg.urlPath).Ok? && Resolve(e, "xz_", cfg.urlPath).Ok? ==>
      FailedOn(Variant(e, "", cfg) + Variant(e, "xz_", cfg), cfg, net, start, next, res)
    // unless they collide, written sidecars vouch for their files and settled artifacts are left alone
    ensures Consistent(Variant(e, "", cfg) + Variant(e, "xz_", cfg)) ==>
      Vouched(Variant(e, "", cfg) + Variant(e, "xz_", cfg), cfg.digest, fs, fs', res == Pass)
  {
    ghost var all := Variant(e, "", cfg) + Variant(e, "xz_", cfg);
    FetchStart(all, cfg.digest, fs);
    var e1, fs1, referenced1, mid;
    res, e1, fs1, referenced1, mid := ProcessVariant(e, "", cfg, fs, referenced, net, start);
    if res.Fail? {
      e', fs', referenced', next := e, fs1, referenced1, mid;
      FetchFailed(all, {}, Variant(e, "", cfg), cfg.digest, fs, fs, fs1);
      if Resolve(e, "", cfg.urlPath).Ok? {
        ghost var a1 := Resolve(e, "", cfg.urlPath).value;
        assert a1 in all;
      }
      return;
    }
    FetchAdvance(all, {}, Variant(e, "", cfg), cfg.digest, fs, fs, fs1);
    ghost var a1 := Resolve(e, "", cfg.urlPath).value;
    ResolveXzAfterPlain(e, e1[UrlKey("")], cfg.urlPath);
    assert e1 == e[UrlKey("") := e1[UrlKey("")]];
    res, e', fs', referenced', next := ProcessVariant(e1, "xz_", cfg, fs1, referenced1, net, mid);
    assert Variant(e1, "xz_", cfg) == Variant(e, "xz_", cfg);
    if res.Fail? {
      FetchFailed(all, Variant(e, "", cfg), Variant(e, "xz_", cfg), cfg.digest, fs, fs1, fs');
      if Resolve(e, "xz_", cfg.urlPath).Ok? {
        ghost var a2 := Resolve(e, "xz_", cfg.urlPath).value;
        assert a2 in all;
      }
    } else {
      FetchAdvance(all, Variant(e, "", cfg), Variant(e, "xz_", cfg), cfg.digest, fs, fs1, fs');
    }
  }

  /**
   * One `pkg.<name>.target.<target>` entry: out of scope, mark it
   * unavailable; in scope and available, record the target and process
   * both variants.
   */
  method ProcessTarget(target: string, entry: Value, cfg: Config, fs: Files, referenced: set<Path>,
                       seen: set<string>, net: nat -> Attempt, start: nat)
    returns (res: Outcome<SyncError>, entry': Value, fs': Files, referenced': set<Path>,
             seen': set<string>, next: nat)
    ensures start <= next <= start + TargetMax
    ensures res == Pass ==> RewriteTarget(target, entry, cfg) == Ok(entry')
    ensures RewriteTarget(target, entry, cfg).Err? ==> res.Fail?
    ensures res == Pass ==> referenced' == referenced + TargetRefs(target, entry, cfg)
    ensures res == Pass ==> seen' == seen + (if Wanted(target, entry, cfg.allow) then {target} else {})
    ensures !Wanted(target, entry, cfg.allow) ==> fs' == fs && next == start
    ensures TargetSettled(target, entry, cfg, fs) ==> fs' == fs && next == start
    ensures TargetSettled(target, entry, cfg, fs) && RewriteTarget(target, entry, cfg).Ok? ==> res == Pass
    // only the target's artifacts and their sidecars change; on success they are settled unless they collide
    ensures ChangesAtMost(fs, fs', FilesOf(TargetArtifacts(target, entry, cfg)))
    ensures res == Pass && Consistent(TargetArtifacts(target, entry, cfg)) ==>
      AllSettled(TargetArtifacts(target, entry, cfg), fs')
    // on a well-formed entry only a checksum loop can fail
    ensures RewriteTarget(target, entry, cfg).Ok? && res.Fail? ==>
      FailedOn(TargetArtifacts(target, entry, cfg), cfg, net, start, next, res)
    // unless they collide, written sidecars vouch for their files and settled artifacts are left alone
    ensures Consistent(TargetArtifacts(target, entry, cfg)) ==>
      Vouched(TargetArtifacts(target, entry, cfg), cfg.digest, fs, fs', res == Pass)
  {
    entry', fs', referenced', seen', next := entry, fs, referenced, seen, start;
    if !entry.Table? {
      return Fail(Malformed("target")), entry', fs', referenced', seen', next;
    }
    if !InScope(target, cfg.allow) {
      // keep the table, which newer rustup requires, but switch it off
      if "available" !in entry.t {
        return Fail(Malformed("available")), entry', fs', referenced', seen', next;
      }
      entry' := Table(entry.t["available" := Bool(false)]);
      return Pass, entry', fs', referenced', seen', next;
    }
    if "available" !in entry.t || !entry.t["available"].Bool? {
      return Fail(Malformed("available")), entry', fs', referenced', seen', next;
    }
    res := Pass;
    if entry.t["available"].b {
      seen' := seen + {target};
      var e';
      res, e', fs', referenced', next := ProcessArtifacts(entry.t, cfg, fs, referenced, net, start);
      entry' := Table(e');
    }
  }

  /** Every wanted target of a `target` table is settled. */
  predicate TargetsSettled(targets: map<string, Value>, cfg: Config, fs: Files) {
    forall t {:trigger TargetSettled(t, targets[t], cfg, fs)} :: t in targets ==> TargetSettled(t, targets[t], cfg, fs)
  }

  /** Every wanted target of a package is settled. */
  predicate PackageSettled(pkg: Value, cfg: Config, fs: Files) {
    PackageTargets(pkg).Some? ==> TargetsSettled(PackageTargets(pkg).value, cfg, fs)
  }

  /** Every wanted target of every package is settled. */
  predicate PackagesSettled(pkgs: map<string, Value>, cfg: Config, fs: Files) {
    forall p :: p in pkgs ==> PackageSettled(pkgs[p], cfg, fs)
  }

  /**
   * The state of the target loop once the targets in `done` are through:
   * those entries are rewritten, and their references and wanted names
   * were added.
   */
  ghost predicate TargetsSoFar(targets: map<string, Value>, done: set<string>, cfg: Config,
                               referenced: set<Path>, seen: set<string>,
                               targets': map<string, Value>, referenced': set<Path>, seen': set<string>) {
    && targets' == RewriteSome(targets, done, cfg) && TargetsOkIn(targets, done, cfg)
    && referenced' == referenced + TargetsRefs(targets, done, cfg)
    && seen' == seen + WantedIn(targets, done, cfg.allow)
  }

  /** One more target through the pass keeps the loop state in step with the specification. */
  lemma TargetsAdvance(targets: map<string, Value>, done: set<string>, t: string, cfg: Config,
                       referenced: set<Path>, seen: set<string>,
                       targets': map<string, Value>, referenced': set<Path>, seen': set<string>,
                       entry': Value, referenced'': set<Path>, seen'': set<string>)
    requires t in targets && t !in done
    requires TargetsSoFar(targets, done, cfg, referenced, seen, targets', referenced', seen')
    requires RewriteTarget(t, targets[t], cfg) == Ok(entry')
    requires referenced'' == referenced' + TargetRefs(t, targets[t], cfg)
    requires seen'' == seen' + (if Wanted(t, targets[t], cfg.allow) then {t} else {})
    ensures TargetsSoFar(targets, done + {t}, cfg, referenced, seen, targets'[t := entry'], referenced'', seen'')
  {
    TargetsStep(targets, done, t, cfg);
    RewriteSomeStep(targets, done, t, cfg);
    TargetsOkInStep(targets, done, t, cfg);
    Accumulate(referenced, TargetsRefs(targets, done, cfg), TargetRefs(t, targets[t], cfg),
               referenced', referenced'', TargetsRefs(targets, done + {t}, cfg));
    Accumulate(seen, WantedIn(targets, done, cfg.allow), if Wanted(t, targets[t], cfg.allow) then {t} else {},
               seen', seen'', WantedIn(targets, done + {t}, cfg.allow));
  }

  /**
   * The `target` table of one package, entry by entry, in place. The
   * source visits the entries in the table's order; any order gives the
   * same table, references and recorded targets.
   */
  method ProcessTargets(targets: map<string, Value>, cfg: Config, fs: Files, referenced: set<Path>,
                        seen: set<string>, net: nat -> Attempt, start: nat)
    returns (res: Outcome<SyncError>, targets': map<string, Value>, fs': Files, referenced': set<Path>,
             seen': set<string>, next: nat)
    ensures start <= next <= start + TargetMax * |targets.Keys|
    ensures res == Pass ==> TargetsOk(targets, cfg) && targets' == RewriteTargets(targets, cfg)
    ensures !TargetsOk(targets, cfg) ==> res.Fail?
    ensures res == Pass ==> referenced' == referenced + TargetsRefs(targets, targets.Keys, cfg)
    ensures res == Pass ==> seen' == seen + WantedIn(targets, targets.Keys, cfg.allow)
    ensures TargetsSettled(targets, cfg, fs) ==> fs' == fs && next == start
    ensures TargetsSettled(targets, cfg, fs) && TargetsOk(targets, cfg) ==> res == Pass
    // only the table's artifacts and their sidecars change; on success they are settled unless they collide
    ensures ChangesAtMost(fs, fs', FilesOf(TargetsArtifacts(targets, targets.Keys, cfg)))
    ensures res == Pass && Consistent(TargetsArtifacts(targets, targets.Keys, cfg)) ==>
      AllSettled(TargetsArtifacts(targets, targets.Keys, cfg), fs') && TargetsSettled(targets, cfg, fs')
    // on a well-formed table only a checksum loop can fail
    ensures TargetsOk(targets, cfg) && res.Fail? ==>
      FailedOn(TargetsArtifacts(targets, targets.Keys, cfg), cfg, net, start, next, res)
    // unless they collide, written sidecars vouch for their files and settled artifacts are left alone
    ensures Consistent(TargetsArtifacts(targets, targets.Keys, cfg)) ==>
      Vouched(TargetsArtifacts(targets, targets.Keys, cfg), cfg.digest, fs, fs', res == Pass)
  {
    res, targets', fs', referenced', seen', next := Pass, targets, fs, referenced, seen, start;
    var todo := targets.Keys;
    ghost var done: set<string> := {};
    ghost var settled := TargetsSettled(targets, cfg, fs);
    ghost var all := TargetsArtifacts(targets, targets.Keys, cfg);
    while todo != {}
      invariant todo !! done && todo + done == targets.Keys
      invariant TargetsSoFar(targets, done, cfg, referenced, seen, targets', referenced', seen')
      invariant start <= next <= start + TargetMax * |done|
      invariant settled ==> fs' == fs && next == start
      invariant res == Pass && FetchSoFar(all, TargetsArtifacts(targets, done, cfg), cfg.digest, fs, fs')
      decreases |todo|
    {
      var t :| t in todo;
      if settled {
        assert TargetSettled(t, targets[t], cfg, fs');
      }
      res, targets', fs', referenced', seen', next :=
        NextTarget(targets, cfg, fs, referenced, seen, net, start, done, t, targets', fs', referenced', seen', next);
      if res.Fail? {
        return;
      }
      MoveOne(todo, done, targets.Keys, t);
      todo := todo - {t};
      done := done + {t};
    }
    assert done == targets.Keys;
    if Consistent(all) {
      TargetsSettledOf(targets, cfg, fs');
    }
  }

  /** One turn of the walk over a `target` table: the target `t`, not yet visited, through the pass. */
  method NextTarget(targets: map<string, Value>, cfg: Config, fs: Files, referenced: set<Path>,
                    seen: set<string>, net: nat -> Attempt, start: nat, ghost done: set<string>, t: string,
                    targets0: map<string, Value>, fs0: Files, referenced0: set<Path>, seen0: set<string>, mid: nat)
    returns (res: Outcome<SyncError>, targets1: map<string, Value>, fs1: Files, referenced1: set<Path>,
             seen1: set<string>, next: nat)
    requires done <= targets.Keys && t in targets && t !in done
    requires TargetsSoFar(targets, done, cfg, referenced, seen, targets0, referenced0, seen0)
    requires start <= mid <= start + TargetMax * |done|
    requires FetchSoFar(TargetsArtifacts(targets, targets.Keys, cfg), TargetsArtifacts(targets, done, cfg), cfg.digest, fs, fs0)
    ensures mid <= next <= start + TargetMax * |done + {t}| && next <= start + TargetMax * |targets.Keys|
    ensures TargetSettled(t, targets[t], cfg, fs0) ==> fs1 == fs0 && next == mid
    ensures TargetSettled(t, targets[t], cfg, fs0) && res.Fail? ==> !TargetsOk(targets, cfg)
    ensures res == Pass ==>
      && TargetsSoFar(targets, done + {t}, cfg, referenced, seen, targets1, referenced1, seen1)
      && FetchSoFar(TargetsArtifacts(targets, targets.Keys, cfg), TargetsArtifacts(targets, done + {t}, cfg), cfg.digest, fs, fs1)
    ensures res.Fail? ==>
      && ChangesAtMost(fs, fs1, FilesOf(TargetsArtifacts(targets, targets.Keys, cfg)))
      && (Consistent(TargetsArtifacts(targets, targets.Keys, cfg)) ==>
            Vouched(TargetsArtifacts(targets, targets.Keys, cfg), cfg.digest, fs, fs1, false))
      && (TargetsOk(targets, cfg) ==> FailedOn(TargetsArtifacts(targets, targets.Keys, cfg), cfg, net, start, next, res))
  {
    ghost var all := TargetsArtifacts(targets, targets.Keys, cfg);
    var entry';
    res, entry', fs1, referenced1, seen1, next := ProcessTarget(t, targets[t], cfg, fs0, referenced0, seen0, net, mid);
    TargetsArtifactsStep(targets, done, t, cfg);
    TargetsBudget(start, mid, next, done, t, targets.Keys);
    targets1 := targets0[t := entry'];
    if res.Fail? {
      FetchFailed(all, TargetsArtifacts(targets, done, cfg), TargetArtifacts(t, targets[t], cfg), cfg.digest, fs, fs0, fs1);
      if TargetsOk(targets, cfg) {
        assert RewriteTarget(t, targets[t], cfg).Ok?;
        FailedOnWider(TargetArtifacts(t, targets[t], cfg), all, cfg, net, start, mid, next, res);
      }
      return;
    }
    FetchAdvance(all, TargetsArtifacts(targets, done, cfg), TargetArtifacts(t, targets[t], cfg), cfg.digest, fs, fs0, fs1);
    TargetsAdvance(targets, done, t, cfg, referenced, seen, targets0, referenced0, seen0, entry', referenced1, seen1);
  }


  /** A well-formed table whose artifacts are all settled has every wanted target settled. */
  lemma TargetsSettledOf(targets: map<string, Value>, cfg: Config, fs: Files)
    requires TargetsOk(targets, cfg) && AllSettled(TargetsArtifacts(targets, targets.Keys, cfg), fs)
    ensures TargetsSettled(targets, cfg, fs)
  {
    forall t | t in targets ensures TargetSettled(t, targets[t], cfg, fs) {
      TargetsArtifactsStep(targets, {}, t, cfg);
      if Wanted(t, targets[t], cfg.allow) {
        assert RewriteTarget(t, targets[t], cfg).Ok?;
        WantedRewritten(t, targets[t], cfg);
      }
    }
  }

  /** One package: its `target` table through the pass. */
  method ProcessPackage(pkg: Value, cfg: Config, fs: Files, referenced: set<Path>,
                        seen: set<string>, net: nat -> Attempt, start: nat)
    returns (res: Outcome<SyncError>, pkg': Value, fs': Files, referenced': set<Path>,
             seen': set<string>, next: nat)
    ensures start <= next <= start + TargetMax * TargetCount(pkg)
    ensures res == Pass ==> PackageOk(pkg, cfg) && pkg' == RewritePackage(pkg, cfg)
    ensures !PackageOk(pkg, cfg) ==> res.Fail?
    ensures res == Pass ==> referenced' == referenced + PackageRefs(pkg, cfg)
    ensures res == Pass ==> seen' == seen + PackageWanted(pkg, cfg.allow)
    ensures PackageSettled(pkg, cfg, fs) ==> fs' == fs && next == start
    ensures PackageSettled(pkg, cfg, fs) && PackageOk(pkg, cfg) ==> res == Pass
    // only the package's artifacts and their sidecars change; on success they are settled unless they collide
    ensures ChangesAtMost(fs, fs', FilesOf(PackageArtifacts(pkg, cfg)))
    ensures res == Pass && Consistent(PackageArtifacts(pkg, cfg)) ==>
      AllSettled(PackageArtifacts(pkg, cfg), fs') && PackageSettled(pkg, cfg, fs')
    // on a well-formed package only a checksum loop can fail
    ensures PackageOk(pkg, cfg) && res.Fail? ==> FailedOn(PackageArtifacts(pkg, cfg), cfg, net, start, next, res)
    // unless they collide, written sidecars vouch for their files and settled artifacts are left alone
    ensures Consistent(PackageArtifacts(pkg, cfg)) ==> Vouched(PackageArtifacts(pkg, cfg), cfg.digest, fs, fs', res == Pass)
  {
    pkg', fs', referenced', seen', next := pkg, fs, referenced, seen, start;
    if !pkg.Table? {
      return Fail(Malformed("pkg")), pkg', fs', referenced', seen', next;
    }
    if "target" !in pkg.t || !pkg.t["target"].Table? {
      return Fail(Malformed("target")), pkg', fs', referenced', seen', next;
    }
    var targets';
    res, targets', fs', referenced', seen', next :=
      ProcessTargets(pkg.t["target"].t, cfg, fs, referenced, seen, net, start);
    pkg' := Table(pkg.t["target" := Table(targets')]);
  }

  /**
   * The state of the package loop once the packages in `done` are
   * through: those packages are rewritten, and their references and
   * wanted targets were added.
   */
  ghost predicate PackagesSoFar(pkgs: map<string, Value>, done: set<string>, cfg: Config,
                                referenced: set<Path>, seen: set<string>,
                                pkgs': map<string, Value>, referenced': set<Path>, seen': set<string>) {
    && pkgs' == RewriteSomePackages(pkgs, done, cfg) && PackagesOkIn(pkgs, done, cfg)
    && referenced' == referenced + PackagesRefs(pkgs, done, cfg)
    && seen' == seen + PackagesWanted(pkgs, done, cfg.allow)
  }

  /** One more package through the pass keeps the loop state in step with the specification. */
  lemma PackagesAdvance(pkgs: map<string, Value>, done: set<string>, p: string, cfg: Config,
                        referenced: set<Path>, seen: set<string>,
                        pkgs': map<string, Value>, referenced': set<Path>, seen': set<string>,
                        pkg': Value, referenced'': set<Path>, seen'': set<string>)
    requires p in pkgs && p !in done
    requires PackagesSoFar(pkgs, done, cfg, referenced, seen, pkgs', referenced', seen')
    requires PackageOk(pkgs[p], cfg) && pkg' == RewritePackage(pkgs[p], cfg)
    requires referenced'' == referenced' + PackageRefs(pkgs[p], cfg)
    requires seen'' == seen' + PackageWanted(pkgs[p], cfg.allow)
    ensures PackagesSoFar(pkgs, done + {p}, cfg, referenced, seen, pkgs'[p := pkg'], referenced'', seen'')
  {
    PackagesStep(pkgs, done, p, cfg);
    Accumulate(referenced, PackagesRefs(pkgs, done, cfg), PackageRefs(pkgs[p], cfg),
               referenced', referenced'', PackagesRefs(pkgs, done + {p}, cfg));
    Accumulate(seen, PackagesWanted(pkgs, done, cfg.allow), PackageWanted(pkgs[p], cfg.allow),
               seen', seen'', PackagesWanted(pkgs, done + {p}, cfg.allow));
    RewriteSomePackagesStep(pkgs, done, p, cfg);
    PackagesOkInStep(pkgs, done, p, cfg);
  }

  /** The `pkg` table, package by package, in place. */
  method ProcessPackages(pkgs: map<string, Value>, cfg: Config, fs: Files, referenced: set<Path>,
                         seen: set<string>, net: nat -> Attempt, start: nat)
    returns (res: Outcome<SyncError>, pkgs': map<string, Value>, fs': Files, referenced': set<Path>,
             seen': set<string>, next: nat)
    ensures start <= next <= start + TargetMax * TargetTotal(pkgs, pkgs.Keys)
    ensures res == Pass ==> PackagesOk(pkgs, cfg) && pkgs' == RewritePackages(pkgs, cfg)
    ensures !PackagesOk(pkgs, cfg) ==> res.Fail?
    ensures res == Pass ==> referenced' == referenced + PackagesRefs(pkgs, pkgs.Keys, cfg)
    ensures res == Pass ==> seen' == seen + PackagesWanted(pkgs, pkgs.Keys, cfg.allow)
    ensures PackagesSettled(pkgs, cfg, fs) ==> fs' == fs && next == start
    ensures PackagesSettled(pkgs, cfg, fs) && PackagesOk(pkgs, cfg) ==> res == Pass
    // only the artifacts of the table and their sidecars change; on success they are settled unless they collide
    ensures ChangesAtMost(fs, fs', FilesOf(PackagesArtifacts(pkgs, pkgs.Keys, cfg)))
    ensures res == Pass && Consistent(PackagesArtifacts(pkgs, pkgs.Keys, cfg)) ==>
      AllSettled(PackagesArtifacts(pkgs, pkgs.Keys, cfg), fs') && PackagesSettled(pkgs, cfg, fs')
    // on a well-formed table only a checksum loop can fail
    ensures PackagesOk(pkgs, cfg) && res.Fail? ==>
      FailedOn(PackagesArtifacts(pkgs, pkgs.Keys, cfg), cfg, net, start, next, res)
    // unless they collide, written sidecars vouch for their files and settled artifacts are left alone
    ensures Consistent(PackagesArtifacts(pkgs, pkgs.Keys, cfg)) ==>
      Vouched(PackagesArtifacts(pkgs, pkgs.Keys, cfg), cfg.digest, fs, fs', res == Pass)
  {
    res, pkgs', fs', referenced', seen', next := Pass, pkgs, fs, referenced, seen, start;
    var todo := pkgs.Keys;
    ghost var done: set<string> := {};
    ghost var settled := PackagesSettled(pkgs, cfg, fs);
    ghost var all := PackagesArtifacts(pkgs, pkgs.Keys, cfg);
    while todo != {}
      invariant todo !! done && todo + done == pkgs.Keys
      invariant PackagesSoFar(pkgs, done, cfg, referenced, seen, pkgs', referenced', seen')
      invariant start <= next <= start + TargetMax * TargetTotal(pkgs, done)
      invariant settled ==> fs' == fs && next == start
      invariant res == Pass && FetchSoFar(all, PackagesArtifacts(pkgs, done, cfg), cfg.digest, fs, fs')
      decreases |todo|
    {
      var p :| p in todo;
      if settled {
        assert PackageSettled(pkgs[p], cfg, fs');
      }
      res, pkgs', fs', referenced', seen', next :=
        NextPackage(pkgs, cfg, fs, referenced, seen, net, start, done, p, pkgs', fs', referenced', seen', next);
      if res.Fail? {
        return;
      }
      MoveOne(todo, done, pkgs.Keys, p);
      todo := todo - {p};
      done := done + {p};
    }
    assert done == pkgs.Keys;
    if Consistent(all) {
      PackagesSettledOf(pkgs, cfg, fs');
    }
  }
  /** One turn of the walk over the `pkg` table: the package `p`, not yet visited, through the pass. */
  method NextPackage(pkgs: map<string, Value>, cfg: Config, fs: Files, referenced: set<Path>,
                     seen: set<string>, net: nat -> Attempt, start: nat, ghost done: set<string>, p: string,
                     pkgs0: map<string, Value>, fs0: Files, referenced0: set<Path>, seen0: set<string>, mid: nat)
    returns (res: Outcome<SyncError>, pkgs1: map<string, Value>, fs1: Files, referenced1: set<Path>,
             seen1: set<string>, next: nat)
    requires done <= pkgs.Keys && p in pkgs && p !in done
    requires PackagesSoFar(pkgs, done, cfg, referenced, seen, pkgs0, referenced0, seen0)
    requires start <= mid <= start + TargetMax * TargetTotal(pkgs, done)
    requires FetchSoFar(PackagesArtifacts(pkgs, pkgs.Keys, cfg), PackagesArtifacts(pkgs, done, cfg), cfg.digest, fs, fs0)
    ensures mid <= next <= start + TargetMax * TargetTotal(pkgs, done + {p})
    ensures next <= start + TargetMax * TargetTotal(pkgs, pkgs.Keys)
    ensures PackageSettled(pkgs[p], cfg, fs0) ==> fs1 == fs0 && next == mid
    ensures PackageSettled(pkgs[p], cfg, fs0) && res.Fail? ==> !PackagesOk(pkgs, cfg)
    ensures res == Pass ==>
      && PackagesSoFar(pkgs, done + {p}, cfg, referenced, seen, pkgs1, referenced1, seen1)
      && FetchSoFar(PackagesArtifacts(pkgs, pkgs.Keys, cfg), PackagesArtifacts(pkgs, done + {p}, cfg), cfg.digest, fs, fs1)
    ensures res.Fail? ==>
      && ChangesAtMost(fs, fs1, FilesOf(PackagesArtifacts(pkgs, pkgs.Keys, cfg)))
      && (Consistent(PackagesArtifacts(pkgs, pkgs.Keys, cfg)) ==>
            Vouched(PackagesArtifacts(pkgs, pkgs.Keys, cfg), cfg.digest, fs, fs1, false))
      && (PackagesOk(pkgs, cfg) ==> FailedOn(PackagesArtifacts(pkgs, pkgs.Keys, cfg), cfg, net, start, next, res))
  {
    ghost var all := PackagesArtifacts(pkgs, pkgs.Keys, cfg);
    var pkg';
    res, pkg', fs1, referenced1, seen1, next := ProcessPackage(pkgs[p], cfg, fs0, referenced0, seen0, net, mid);
    PackagesArtifactsStep(pkgs, done, p, cfg);
    PackagesBudget(pkgs, start, mid, next, done, p);
    pkgs1 := pkgs0[p := pkg'];
    if res.Fail? {
      FetchFailed(all, PackagesArtifacts(pkgs, done, cfg), PackageArtifacts(pkgs[p], cfg), cfg.digest, fs, fs0, fs1);
      if PackagesOk(pkgs, cfg) {
        assert PackageOk(pkgs[p], cfg);
        FailedOnWider(PackageArtifacts(pkgs[p], cfg), all, cfg, net, start, mid, next, res);
      }
      return;
    }
    FetchAdvance(all, PackagesArtifacts(pkgs, done, cfg), PackageArtifacts(pkgs[p], cfg), cfg.digest, fs, fs0, fs1);
    PackagesAdvance(pkgs, done, p, cfg, referenced, seen, pkgs0, referenced0, seen0, pkg', referenced1, seen1);
  }


  /** A well-formed `pkg` table whose artifacts are all settled has every wanted target settled. */
  lemma PackagesSettledOf(pkgs: map<string, Value>, cfg: Config, fs: Files)
    requires PackagesOk(pkgs, cfg) && AllSettled(PackagesArtifacts(pkgs, pkgs.Keys, cfg), fs)
    ensures PackagesSettled(pkgs, cfg, fs)
  {
    forall p | p in pkgs ensures PackageSettled(pkgs[p], cfg, fs) {
      PackagesArtifactsStep(pkgs, {}, p, cfg);
      assert PackageOk(pkgs[p], cfg);
      TargetsSettledOf(PackageTargets(pkgs[p]).value, cfg, fs);
    }
  }
}
