/**
 * The file names the mirror builds with `format!` (src/main.rs), and the
 * check of an upstream signature file against a manifest digest.
 */
module Names {
  import opened Strings
  import opened Paths

  /** `dist/channel-rust-<channel>.toml`, the canonical manifest of a channel. */
  function ManifestName(channel: string): (r: string)
    ensures StartsWith(r, "dist/") && EndsWith(r, ".toml")
  {
    "dist/channel-rust-" + channel + ".toml"
  }

  /** The name of the manifest's file inside a date directory. */
  function ManifestFile(channel: string): string {
    "channel-rust-" + channel + ".toml"
  }

  /** `dist/channel-rust-<channel>.toml.sha256`, written out in full in the source. */
  function SignatureName(channel: string): (r: string)
    ensures r == ManifestName(channel) + ".sha256"
  {
    "dist/channel-rust-" + channel + ".toml.sha256"
  }

  /** `dist/<date>/channel-rust-<channel>.toml`, the dated copy of the manifest. */
  function DatedManifestName(date: string, channel: string): (r: string)
    ensures r == "dist/" + date + "/" + ManifestFile(channel)
  {
    "dist/" + date + "/channel-rust-" + channel + ".toml"
  }

  /** `dist/<date>/channel-rust-<channel>.toml.sha256`, the dated copy of the signature. */
  function DatedSignatureName(date: string, channel: string): (r: string)
    ensures r == DatedManifestName(date, channel) + ".sha256"
  {
    "dist/" + date + "/channel-rust-" + channel + ".toml.sha256"
  }

  /** The signature text the mirror writes: `<digest>  channel-rust-<channel>.toml`. */
  function SignatureLine(digest: string, channel: string): (r: string)
    ensures |r| == |digest| + 2 + |ManifestFile(channel)|
    ensures StartsWith(r, digest) && r[|digest|..|digest| + 2] == "  " && r[|digest| + 2..] == ManifestFile(channel)
  {
    digest + "  " + ManifestFile(channel)
  }

  /**
   * The integrity gate on an upstream manifest: the first 64 characters of
   * its signature file are the manifest's hex digest. A signature shorter
   * than 64 characters fails the gate (the slice would panic).
   */
  predicate SignatureMatches(digest: string, signature: string)
    ensures SignatureMatches(digest, signature) <==> |digest| == 64 && StartsWith(signature, digest)
  {
    |signature| >= 64 && digest == signature[..64]
  }

  /** A signature written by the mirror passes the mirror's own gate. */
  lemma SignatureRoundTrip(digest: string, channel: string)
    requires |digest| == 64
    ensures SignatureMatches(digest, SignatureLine(digest, channel))
  {
    assert SignatureLine(digest, channel)[..64] == digest;
  }

  /** The dated copy lies directly inside the directory named after the date. */
  lemma DatedManifestInDateDir(date: string, channel: string)
    requires PlainName(date) && PlainName(ManifestFile(channel))
    ensures Parse(DatedManifestName(date, channel)) ==
            [Normal("dist"), Normal(date), Normal(ManifestFile(channel))]
  {
    ParseThree("dist", date, ManifestFile(channel));
    assert DatedManifestName(date, channel) == "dist" + "/" + date + "/" + ManifestFile(channel);
  }

  /**
   * The four files a channel publishes are four different names, whatever
   * the date and the channel.
   */
  lemma ChannelNamesDistinct(date: string, channel: string)
    ensures ManifestName(channel) != SignatureName(channel)
    ensures ManifestName(channel) != DatedManifestName(date, channel)
    ensures ManifestName(channel) != DatedSignatureName(date, channel)
    ensures SignatureName(channel) != DatedManifestName(date, channel)
    ensures SignatureName(channel) != DatedSignatureName(date, channel)
    ensures DatedManifestName(date, channel) != DatedSignatureName(date, channel)
  {
    var m, s := ManifestName(channel), SignatureName(channel);
    var dm, ds := DatedManifestName(date, channel), DatedSignatureName(date, channel);
    assert |m| == 23 + |channel| && |s| == 30 + |channel|;
    assert |dm| == 24 + |date| + |channel| && |ds| == 31 + |date| + |channel|;
    if |dm| == |s| {
      // the date has six characters: the slash after it meets the 'l' of "channel"
      assert dm[11] == '/' && s[11] == 'l';
    }
  }

  /** `.exe` exactly for targets whose name contains "windows". */
  function ExeSuffix(target: string): (r: string)
    ensures r in {"", ".exe"}
    ensures r == ".exe" <==> Contains(target, "windows")
  {
    if Contains(target, "windows") then ".exe" else ""
  }

  /** `rustup/dist/<target>/rustup-init[.exe]`: ends in `.exe` exactly for Windows targets. */
  function RustupInitPath(target: string): (r: string)
    ensures StartsWith(r, "rustup/dist/" + target + "/")
    ensures EndsWith(r, ".exe") <==> Contains(target, "windows")
  {
    ExeExactlyForWindows("rustup/dist/" + target, target);
    "rustup/dist/" + target + "/rustup-init" + ExeSuffix(target)
  }

  /** `rustup/archive/<version>/<target>/rustup-init[.exe]`: ends in `.exe` exactly for Windows targets. */
  function RustupArchivePath(version: string, target: string): (r: string)
    ensures StartsWith(r, "rustup/archive/" + version + "/" + target + "/")
    ensures EndsWith(r, ".exe") <==> Contains(target, "windows")
  {
    ExeExactlyForWindows("rustup/archive/" + version + "/" + target, target);
    "rustup/archive/" + version + "/" + target + "/rustup-init" + ExeSuffix(target)
  }

  /** A path ending in "rustup-init" plus the suffix ends in ".exe" exactly for Windows targets. */
  lemma {:induction false} ExeExactlyForWindows(stem: string, target: string)
    ensures EndsWith(stem + "/rustup-init" + ExeSuffix(target), ".exe") <==> Contains(target, "windows")
  {
    var p := stem + "/rustup-init" + ExeSuffix(target);
    if !Contains(target, "windows") {
      assert p[|p| - 4..] == "init";
    }
  }

  /** Where the self-update manifest is fetched from and published to. */
  const ReleaseName: string := "rustup/release-stable.toml"

  /** No rustup-init path is the self-update manifest. */
  lemma InitPathsAvoidRelease(version: string, target: string)
    ensures RustupInitPath(target) != ReleaseName
    ensures RustupArchivePath(version, target) != ReleaseName
  {
    assert RustupInitPath(target)[7] == 'd';
    assert RustupArchivePath(version, target)[7] == 'a';
    assert ReleaseName[7] == 'r';
  }
}
