/**
 * One release channel, as the loop body of src/main.rs:444-589 runs it:
 * fetch the upstream manifest and its signature, check one against the
 * other, check the manifest version, pass every package through the
 * per-target rewrite, and publish the rewritten manifest with a fresh
 * signature, under its canonical name and under its date.
 */
module Channel {
  import opened Wrappers
  import opened Errors
  import opened Paths
  import opened Names
  import opened Fetch
  import opened Manifest
  import opened ManifestSync

  /** The four files a channel publishes, written over the mirror in the source's order. */
  function Publish(fs: Files, channel: string, date: string, text: string, digest: string -> string): (r: Files)
    ensures r.Keys == fs.Keys + ChannelFiles(date, channel)
    ensures forall k :: k in fs && k !in ChannelFiles(date, channel) ==> r[k] == fs[k]
  {
    var line := SignatureLine(digest(text), channel);
    fs[ManifestName(channel) := text][SignatureName(channel) := line]
      [DatedManifestName(date, channel) := text][DatedSignatureName(date, channel) := line]
  }

  /** The four files a channel publishes. */
  function ChannelFiles(date: string, channel: string): set<string> {
    {ManifestName(channel), SignatureName(channel), DatedManifestName(date, channel), DatedSignatureName(date, channel)}
  }

  /** Both downloads of the manifest and of its signature, from request `start` on, complete. */
  predicate Fetched(net: nat -> Attempt, start: nat) {
    Downloaded(net, start).0 == Pass && Downloaded(net, Downloaded(net, start).2).0 == Pass
  }

  /** The upstream manifest of a channel passed the signature and version gates. */
  predicate Gated(orig: Files, channel: string, cfg: Config) {
    && ManifestName(channel) in orig && SignatureName(channel) in orig
    && SignatureMatches(cfg.digest(orig[ManifestName(channel)]), orig[SignatureName(channel)])
    && cfg.parse(orig[ManifestName(channel)]).Some?
    && ChannelGate(cfg.parse(orig[ManifestName(channel)]).value).Ok?
  }

  /**
   * Fetch the upstream manifest and its signature into `orig` and apply
   * the gates: the signature's first 64 characters are the manifest's
   * digest, the manifest parses, and its version is "2".
   */
  method FetchManifest(channel: string, cfg: Config, orig: Files, net: nat -> Attempt, start: nat)
    returns (res: Result<Value, SyncError>, orig': Files, next: nat)
    ensures start < next <= start + 2 * MaxRetries
    ensures ManifestName(channel) in orig'
    ensures res.Ok? ==> Gated(orig', channel, cfg) && res.value == cfg.parse(orig'[ManifestName(channel)]).value
    ensures res == Err(SignatureMismatch) ==>
      && SignatureName(channel) in orig'
      && !SignatureMatches(cfg.digest(orig'[ManifestName(channel)]), orig'[SignatureName(channel)])
    ensures res == Err(VersionMismatch) ==>
      && cfg.parse(orig'[ManifestName(channel)]).Some?
      && ChannelGate(cfg.parse(orig'[ManifestName(channel)]).value) == Err(VersionMismatch)
    ensures res.Err? ==> res.error in {SignatureMismatch, VersionMismatch} || res.error.DownloadFailed? || res.error.Malformed?
    // the manifest is the first download; a failure there stops before the signature
    ensures var (got, data, mid) := Downloaded(net, start);
      && orig'[ManifestName(channel)] == data
      && (got.Fail? ==> res == Err(DownloadFailed(got.error)) && next == mid && orig' == orig[ManifestName(channel) := data])
      && (got == Pass ==>
            var (got', sig, end) := Downloaded(net, mid);
            && next == end && orig' == orig[ManifestName(channel) := data][SignatureName(channel) := sig]
            && (got'.Fail? ==> res == Err(DownloadFailed(got'.error)))
            // both downloads completed: the gates alone decide
            && (got' == Pass ==> (res.Ok? <==> Gated(orig', channel, cfg))))
  {
    var got, data, sig;
    got, data, next := Download(net, start);
    orig' := orig[ManifestName(channel) := data];
    if got.Fail? {
      return Err(DownloadFailed(got.error)), orig', next;
    }
    got, sig, next := Download(net, next);
    orig' := orig'[SignatureName(channel) := sig];
    assert orig'[ManifestName(channel)] == data by {
      assert ManifestName(channel) != SignatureName(channel);
    }
    if got.Fail? {
      return Err(DownloadFailed(got.error)), orig', next;
    }
    if !SignatureMatches(cfg.digest(data), sig) {
      return Err(SignatureMismatch), orig', next;
    }
    var parsed := cfg.parse(data);
    if parsed.None? {
      return Err(Malformed("manifest")), orig', next;
    }
    var gate := ChannelGate(parsed.value);
    if gate.Err? {
      return Err(gate.error), orig', next;
    }
    res := Ok(parsed.value);
  }

  /** The four files of a channel as published: the manifest text and its signature line, each twice. */
  predicate Published(fs: Files, channel: string, date: string, text: string, digest: string -> string) {
    && ManifestName(channel) in fs && fs[ManifestName(channel)] == text
    && DatedManifestName(date, channel) in fs && fs[DatedManifestName(date, channel)] == text
    && SignatureName(channel) in fs && fs[SignatureName(channel)] == SignatureLine(digest(text), channel)
    && DatedSignatureName(date, channel) in fs
    && fs[DatedSignatureName(date, channel)] == SignatureLine(digest(text), channel)
  }

  /**
   * After publishing, the canonical manifest and its dated copy hold the
   * same text, the signature and its dated copy hold the same line, that
   * line passes the mirror's own signature gate when the digest is 64
   * characters long, and no other file changed.
   */
  lemma PublishedPair(fs: Files, channel: string, date: string, text: string, digest: string -> string)
    ensures var fs' := Publish(fs, channel, date, text, digest);
      && Published(fs', channel, date, text, digest)
      && (|digest(text)| == 64 ==> SignatureMatches(digest(fs'[ManifestName(channel)]), fs'[SignatureName(channel)]))
      && fs'.Keys == fs.Keys + {ManifestName(channel), SignatureName(channel),
                                DatedManifestName(date, channel), DatedSignatureName(date, channel)}
      && forall k :: k in fs && k !in {ManifestName(channel), SignatureName(channel),
                                       DatedManifestName(date, channel), DatedSignatureName(date, channel)}
                     ==> fs'[k] == fs[k]
  {
    ChannelNamesDistinct(date, channel);
    if |digest(text)| == 64 {
      SignatureRoundTrip(digest(text), channel);
    }
  }

  /**
   * The request after a channel's upstream downloads: after the manifest's
   * when that one fails, otherwise after the signature's.
   */
  function ManifestEnd(net: nat -> Attempt, start: nat): (r: nat)
    ensures start < r <= start + 2 * MaxRetries
  {
    var (got, _, mid) := Downloaded(net, start);
    if got.Fail? then mid else Downloaded(net, mid).2
  }

  /**
   * What the pass over a gated channel manifest `doc` does, from request
   * `start` on, when it ends with `res`, the mirror `fs'`, the reference
   * and seen sets `referenced'` and `seen'`, and request `next`.
   */
  ghost predicate ChannelPassed(channel: string, cfg: Config, doc: Value, fs: Files, referenced: set<Path>,
                                seen: set<string>, net: nat -> Attempt, start: nat, res: Outcome<SyncError>,
                                fs': Files, referenced': set<Path>, seen': set<string>, next: nat)
    requires ChannelGate(doc).Ok?
  {
    var (date, pkgs) := ChannelGate(doc).value;
    var arts := PackagesArtifacts(pkgs, pkgs.Keys, cfg);
    // on success every package was rewritten and the rewritten manifest is published
    && (res == Pass ==>
          && PackagesOk(pkgs, cfg)
          && referenced' == referenced + PackagesRefs(pkgs, pkgs.Keys, cfg)
          && seen' == seen + PackagesWanted(pkgs, pkgs.Keys, cfg.allow)
          && Published(fs', channel, date, cfg.render(RewriteManifest(doc, cfg)), cfg.digest))
    // each target's checksum loops make at most `TargetMax` requests
    && start <= next <= start + TargetMax * TargetTotal(pkgs, pkgs.Keys)
    // only the referenced artifacts, their sidecars and the four published files change
    && ChangesAtMost(fs, fs', FilesOf(arts) + ChannelFiles(date, channel))
    // on success every wanted artifact is settled, unless artifacts collide with each other or with those files
    && (res == Pass && Consistent(arts) && FilesOf(arts) !! ChannelFiles(date, channel) ==>
          PackagesSettled(pkgs, cfg, fs'))
    // a sidecar the pass changed vouches for its file, and on success every artifact file it changed has the declared digest
    && (Consistent(arts) && (res.Fail? || FilesOf(arts) !! ChannelFiles(date, channel)) ==>
          Vouched(arts, cfg.digest, fs, fs', res == Pass))
    // a well-formed manifest fails only in the checksum loop of one of its artifacts, which ends the run
    && (res.Fail? && PackagesOk(pkgs, cfg) ==>
          (res.error == ChecksumMismatch || res.error.DownloadFailed?) && FailedOn(arts, cfg, net, start, next, res))
    // a well-formed, settled channel requests nothing and publishes onto the unchanged mirror
    && (PackagesOk(pkgs, cfg) && PackagesSettled(pkgs, cfg, fs) ==>
          && res == Pass && next == start
          && fs' == Publish(fs, channel, date, cfg.render(RewriteManifest(doc, cfg)), cfg.digest))
  }

  /**
   * Publishing after the pass over the artifacts `arts`: the four files are
   * written, only they and the artifacts' files differ from the mirror
   * before the pass, and settled artifacts stay settled unless they share
   * a file with the channel.
   */
  lemma PublishAfter(fs: Files, before: Files, channel: string, date: string, text: string,
                     digest: string -> string, arts: set<Artifact>)
    requires ChangesAtMost(fs, before, FilesOf(arts))
    ensures var fs' := Publish(before, channel, date, text, digest);
      && Published(fs', channel, date, text, digest)
      && ChangesAtMost(fs, fs', FilesOf(arts) + ChannelFiles(date, channel))
      && (AllSettled(arts, before) && FilesOf(arts) !! ChannelFiles(date, channel) ==> AllSettled(arts, fs'))
  {
    var fs' := Publish(before, channel, date, text, digest);
    PublishedPair(before, channel, date, text, digest);
    assert ChangesAtMost(before, fs', ChannelFiles(date, channel));
    ChangesWithinKeys(fs, before, FilesOf(arts), FilesOf(arts) + ChannelFiles(date, channel));
    ChangesWithinKeys(before, fs', ChannelFiles(date, channel), FilesOf(arts) + ChannelFiles(date, channel));
    ChangesCompose(fs, before, fs', FilesOf(arts) + ChannelFiles(date, channel));
    if AllSettled(arts, before) && FilesOf(arts) !! ChannelFiles(date, channel) {
      AllSettledFrame(arts, before, fs', ChannelFiles(date, channel));
    }
  }

  /** A pass over the packages that failed ends the channel as `ChannelPassed` says. */
  lemma ChannelFailed(channel: string, cfg: Config, doc: Value, fs: Files, referenced: set<Path>,
                      seen: set<string>, net: nat -> Attempt, start: nat, res: Outcome<SyncError>,
                      fs': Files, referenced': set<Path>, seen': set<string>, next: nat)
    requires ChannelGate(doc).Ok? && res.Fail?
    requires var (date, pkgs) := ChannelGate(doc).value;
      var arts := PackagesArtifacts(pkgs, pkgs.Keys, cfg);
      && start <= next <= start + TargetMax * TargetTotal(pkgs, pkgs.Keys)
      && ChangesAtMost(fs, fs', FilesOf(arts))
      && (Consistent(arts) ==> Vouched(arts, cfg.digest, fs, fs', false))
      && !(PackagesOk(pkgs, cfg) && PackagesSettled(pkgs, cfg, fs))
      && (PackagesOk(pkgs, cfg) ==> FailedOn(arts, cfg, net, start, next, res))
    ensures ChannelPassed(channel, cfg, doc, fs, referenced, seen, net, start, res, fs', referenced', seen', next)
  {
    var (date, pkgs) := ChannelGate(doc).value;
    var arts := PackagesArtifacts(pkgs, pkgs.Keys, cfg);
    ChangesWithinKeys(fs, fs', FilesOf(arts), FilesOf(arts) + ChannelFiles(date, channel));
    if PackagesOk(pkgs, cfg) {
      FailedOnCause(arts, cfg, net, start, next, res);
    }
  }

  /** A pass over the packages that succeeded, followed by publishing, ends the channel as `ChannelPassed` says. */
  lemma ChannelPublished(channel: string, cfg: Config, doc: Value, fs: Files, before: Files, referenced: set<Path>,
                         seen: set<string>, net: nat -> Attempt, start: nat,
                         fs': Files, referenced': set<Path>, seen': set<string>, next: nat)
    requires ChannelGate(doc).Ok?
    requires var (date, pkgs) := ChannelGate(doc).value;
      var arts := PackagesArtifacts(pkgs, pkgs.Keys, cfg);
      && PackagesOk(pkgs, cfg)
      && referenced' == referenced + PackagesRefs(pkgs, pkgs.Keys, cfg)
      && seen' == seen + PackagesWanted(pkgs, pkgs.Keys, cfg.allow)
      && start <= next <= start + TargetMax * TargetTotal(pkgs, pkgs.Keys)
      && ChangesAtMost(fs, before, FilesOf(arts))
      && (Consistent(arts) ==> AllSettled(arts, before) && Vouched(arts, cfg.digest, fs, before, true))
      && (PackagesSettled(pkgs, cfg, fs) ==> before == fs && next == start)
      && fs' == Publish(before, channel, date, cfg.render(RewriteManifest(doc, cfg)), cfg.digest)
    ensures ChannelPassed(channel, cfg, doc, fs, referenced, seen, net, start, Pass, fs', referenced', seen', next)
  {
    var (date, pkgs) := ChannelGate(doc).value;
    var arts := PackagesArtifacts(pkgs, pkgs.Keys, cfg);
    PublishAfter(fs, before, channel, date, cfg.render(RewriteManifest(doc, cfg)), cfg.digest, arts);
    if Consistent(arts) && FilesOf(arts) !! ChannelFiles(date, channel) {
      PackagesSettledOf(pkgs, cfg, fs');
      assert ChangesAtMost(before, fs', ChannelFiles(date, channel));
      VouchedFrame(arts, cfg.digest, fs, before, fs', ChannelFiles(date, channel), true);
    }
  }

  /**
   * A gated channel manifest `doc` through the pass: every package is
   * processed against the mirror, then the rewritten manifest is
   * published under both names. Any failure aborts the run.
   */
  method ProcessChannel(channel: string, cfg: Config, doc: Value, fs: Files, referenced: set<Path>,
                        seen: set<string>, net: nat -> Attempt, start: nat)
    returns (res: Outcome<SyncError>, fs': Files, referenced': set<Path>, seen': set<string>, next: nat)
    requires ChannelGate(doc).Ok?
    ensures ChannelPassed(channel, cfg, doc, fs, referenced, seen, net, start, res, fs', referenced', seen', next)
  {
    var (date, pkgs) := ChannelGate(doc).value;
    var pkgs';
    res, pkgs', fs', referenced', seen', next := ProcessPackages(pkgs, cfg, fs, referenced, seen, net, start);
    if res.Fail? {
      ChannelFailed(channel, cfg, doc, fs, referenced, seen, net, start, res, fs', referenced', seen', next);
      return;
    }
    var text := cfg.render(Table(doc.t["pkg" := Table(pkgs')]));
    assert text == cfg.render(RewriteManifest(doc, cfg));
    ghost var before := fs';
    fs' := Publish(fs', channel, date, text, cfg.digest);
    ChannelPublished(channel, cfg, doc, fs, before, referenced, seen, net, start, fs', referenced', seen', next);
  }

  /**
   * One channel. `orig` is the directory of upstream files, `fs` the
   * mirror. Any failure aborts the run (the source panics); the gates
   * fail before the mirror is touched.
   */
  method SyncChannel(channel: string, cfg: Config, orig: Files, fs: Files, referenced: set<Path>,
                     seen: set<string>, net: nat -> Attempt, start: nat)
    returns (res: Outcome<SyncError>, orig': Files, fs': Files, referenced': set<Path>,
             seen': set<string>, next: nat)
    ensures start < ManifestEnd(net, start) <= next
    ensures ManifestName(channel) in orig'
    // the upstream directory holds what the manifest and signature downloads left; a failed one aborts
    ensures var (got, data, mid) := Downloaded(net, start);
      && orig'[ManifestName(channel)] == data
      && (got.Fail? ==> res == Fail(DownloadFailed(got.error)) && orig' == orig[ManifestName(channel) := data])
      && (got == Pass ==>
            var (got', sig, _) := Downloaded(net, mid);
            && orig' == orig[ManifestName(channel) := data][SignatureName(channel) := sig]
            && (got'.Fail? ==> res == Fail(DownloadFailed(got'.error))))
    ensures res == Pass ==> Fetched(net, start) && Gated(orig', channel, cfg)
    // a failed download or gate stops before the mirror is touched
    ensures !(Fetched(net, start) && Gated(orig', channel, cfg)) ==>
      res.Fail? && fs' == fs && referenced' == referenced && seen' == seen && next == ManifestEnd(net, start)
    // past the gates, the upstream manifest goes through the pass from the request after the downloads
    ensures Fetched(net, start) && Gated(orig', channel, cfg) ==>
      var doc := cfg.parse(orig'[ManifestName(channel)]).value;
      && ChannelGate(doc).Ok?
      && ChannelPassed(channel, cfg, doc, fs, referenced, seen, net, ManifestEnd(net, start),
                       res, fs', referenced', seen', next)
  {
    fs', referenced', seen' := fs, referenced, seen;
    var fetched;
    fetched, orig', next := FetchManifest(channel, cfg, orig, net, start);
    assert next == ManifestEnd(net, start);
    if fetched.Err? {
      return Fail(fetched.error), orig', fs', referenced', seen', next;
    }
    res, fs', referenced', seen', next := ProcessChannel(channel, cfg, fetched.value, fs, referenced, seen, net, next);
  }
}
