/**
 * The channel manifest as the mirror sees it (TOML as nested tables) and
 * what the per-target pass of src/main.rs:471-558 makes of each target
 * entry, stated as pure functions. The methods that perform the pass, with
 * its downloads and sidecars, are in module `ManifestSync`.
 */
module Manifest {
  import opened Wrappers
  import opened Errors
  import opened Strings
  import opened Paths

  /** A TOML value; integers, arrays and dates are kept as `Other` and never looked into. */
  datatype Value = Bool(b: bool) | Str(s: string) | Table(t: map<string, Value>) | Other(text: string)

  /** The mirror directory: path relative to the mirror root, to contents. */
  type Files = map<string, string>

  /** The run's settings and the foreign functions the pass calls. */
  datatype Config = Config(
    mirror: Path,                      // `Path::new(mirror_path)`, as components
    mirrorUrl: string,                 // where the mirror is served
    allow: set<string>,                // the target allow-list
    urlPath: string -> Option<string>, // `Url::parse(u).path()`; None when `u` does not parse
    digest: string -> string,          // hex SHA-256 of a file's contents
    parse: string -> Option<Value>,    // TOML text to a document; None when it does not parse
    render: Value -> string)           // a document back to TOML text

  function UrlKey(prefix: string): string { prefix + "url" }

  function HashKey(prefix: string): string { prefix + "hash" }

  /** The two encodings of every artifact: plain (`url`, `hash`) and xz (`xz_url`, `xz_hash`). */
  const Prefixes: seq<string> := ["", "xz_"]

  /** A target is processed when it is allowed or is the wildcard `*`. */
  predicate InScope(target: string, allow: set<string>) {
    target in allow || target == "*"
  }

  /** The in-scope target entries whose artifacts are fetched and rewritten. */
  predicate Wanted(target: string, entry: Value, allow: set<string>) {
    InScope(target, allow) && entry.Table? && "available" in entry.t && entry.t["available"] == Bool(true)
  }

  /**
   * One variant of one target, read from the entry: the URL path with
   * "%20" decoded (`file_name`, leading '/' included), the path relative
   * to the mirror root (`file_name[1..]`) and the declared hash.
   */
  datatype Artifact = Artifact(fileName: string, rel: string, hash: string)

  function SidecarName(rel: string): string { rel + ".sha256" }

  /** Different artifacts have different sidecars. */
  lemma SidecarNameInjective(rel1: string, rel2: string)
    ensures SidecarName(rel1) == SidecarName(rel2) ==> rel1 == rel2
  {
    if SidecarName(rel1) == SidecarName(rel2) {
      assert rel1 == SidecarName(rel1)[..|rel1|];
      assert rel2 == SidecarName(rel2)[..|rel2|];
    }
  }

  /**
   * Reading variant `prefix` of an entry; a missing or non-string field, or a
   * URL that does not parse, is fatal.
   */
  function Resolve(entry: map<string, Value>, prefix: string, urlPath: string -> Option<string>): (r: Result<Artifact, SyncError>)
    ensures r.Ok? ==> |r.value.fileName| > 0 && r.value.rel == r.value.fileName[1..]
    ensures r.Ok? ==> HashKey(prefix) in entry && entry[HashKey(prefix)] == Str(r.value.hash)
  {
    if UrlKey(prefix) !in entry || !entry[UrlKey(prefix)].Str? then Err(Malformed(UrlKey(prefix)))
    else match urlPath(entry[UrlKey(prefix)].s) {
      case None => Err(Malformed(UrlKey(prefix)))
      case Some(path) =>
        var name := DecodeSpaces(path);
        if name == "" then Err(Malformed(UrlKey(prefix)))
        else if HashKey(prefix) !in entry || !entry[HashKey(prefix)].Str? then Err(Malformed(HashKey(prefix)))
        else Ok(Artifact(name, name[1..], entry[HashKey(prefix)].s))
    }
  }

  /** The key under which an artifact enters the reference set. */
  function ArtifactKey(mirror: Path, rel: string): Path {
    Normalize(Join(mirror, rel))
  }

  /** The URL the mirror publishes for an artifact. */
  function MirrorUrl(mirrorUrl: string, a: Artifact): string {
    mirrorUrl + a.fileName
  }

  /** Variant `prefix` with its URL pointing into the mirror. */
  function RewriteVariant(entry: map<string, Value>, prefix: string, cfg: Config): Result<map<string, Value>, SyncError> {
    match Resolve(entry, prefix, cfg.urlPath)
    case Err(e) => Err(e)
    case Ok(a) => Ok(entry[UrlKey(prefix) := Str(MirrorUrl(cfg.mirrorUrl, a))])
  }

  /**
   * What the pass makes of the entry of `target`: out of scope, only
   * `available` turns false; in scope and available, both URLs are
   * rewritten; in scope and unavailable, nothing changes.
   */
  function RewriteTarget(target: string, entry: Value, cfg: Config): (r: Result<Value, SyncError>)
    ensures r.Err? ==> r.error.Malformed?
    ensures r.Ok? ==> entry.Table? && r.value.Table? && r.value.t.Keys == entry.t.Keys
    ensures r.Ok? && !InScope(target, cfg.allow) ==> "available" in r.value.t && r.value.t["available"] == Bool(false)
    ensures r.Ok? && InScope(target, cfg.allow) && !Wanted(target, entry, cfg.allow) ==> r == Ok(entry)
  {
    if !entry.Table? then Err(Malformed("target"))
    else if !InScope(target, cfg.allow) then
      if "available" in entry.t then Ok(Table(entry.t["available" := Bool(false)]))
      else Err(Malformed("available"))
    else if "available" !in entry.t || !entry.t["available"].Bool? then Err(Malformed("available"))
    else if !entry.t["available"].b then Ok(entry)
    else match RewriteVariant(entry.t, "", cfg) {
      case Err(e) => Err(e)
      case Ok(e1) =>
        match RewriteVariant(e1, "xz_", cfg) {
          case Err(e) => Err(e)
          case Ok(e2) => Ok(Table(e2))
        }
    }
  }

  /** Rewriting the plain URL leaves what the xz variant reads alone. */
  lemma ResolveXzAfterPlain(entry: map<string, Value>, v: Value, urlPath: string -> Option<string>)
    ensures Resolve(entry[UrlKey("") := v], "xz_", urlPath) == Resolve(entry, "xz_", urlPath)
  {
    assert UrlKey("") != UrlKey("xz_") && UrlKey("") != HashKey("xz_");
    var e := entry[UrlKey("") := v];
    assert UrlKey("xz_") in e <==> UrlKey("xz_") in entry;
    assert HashKey("xz_") in e <==> HashKey("xz_") in entry;
  }

  /** The reference-set keys a target contributes: both variants of a wanted target, nothing otherwise. */
  function TargetRefs(target: string, entry: Value, cfg: Config): set<Path> {
    if Wanted(target, entry, cfg.allow)
       && Resolve(entry.t, "", cfg.urlPath).Ok? && Resolve(entry.t, "xz_", cfg.urlPath).Ok?
    then {ArtifactKey(cfg.mirror, Resolve(entry.t, "", cfg.urlPath).value.rel),
          ArtifactKey(cfg.mirror, Resolve(entry.t, "xz_", cfg.urlPath).value.rel)}
    else {}
  }

  /**
   * A target outside the allow-list (and not `*`) keeps its key and every
   * field but `available`, which becomes false, and contributes no reference.
   */
  lemma OutOfScopeOnlyDisabled(target: string, entry: Value, cfg: Config)
    requires !InScope(target, cfg.allow) && entry.Table? && "available" in entry.t
    ensures RewriteTarget(target, entry, cfg).Ok?
    ensures var e' := RewriteTarget(target, entry, cfg).value;
      e'.Table? && e'.t.Keys == entry.t.Keys && e'.t["available"] == Bool(false) &&
      forall k :: k in entry.t && k != "available" ==> e'.t[k] == entry.t[k]
    ensures TargetRefs(target, entry, cfg) == {}
  {
  }

  /**
   * A wanted target that rewrites successfully has both URLs equal to the
   * mirror URL followed by the decoded URL path, its hashes and every other
   * field untouched, and contributes exactly its two artifact keys.
   */
  lemma WantedRewritten(target: string, entry: Value, cfg: Config)
    requires Wanted(target, entry, cfg.allow) && RewriteTarget(target, entry, cfg).Ok?
    ensures Resolve(entry.t, "", cfg.urlPath).Ok? && Resolve(entry.t, "xz_", cfg.urlPath).Ok?
    ensures var e' := RewriteTarget(target, entry, cfg).value;
      var plain := Resolve(entry.t, "", cfg.urlPath).value;
      var xz := Resolve(entry.t, "xz_", cfg.urlPath).value;
      && e'.Table? && e'.t.Keys == entry.t.Keys
      && e'.t[UrlKey("")] == Str(cfg.mirrorUrl + plain.fileName)
      && e'.t[UrlKey("xz_")] == Str(cfg.mirrorUrl + xz.fileName)
      && e'.t[HashKey("")] == entry.t[HashKey("")] == Str(plain.hash)
      && e'.t[HashKey("xz_")] == entry.t[HashKey("xz_")] == Str(xz.hash)
      && (forall k :: k in entry.t && k != UrlKey("") && k != UrlKey("xz_") ==> e'.t[k] == entry.t[k])
    ensures TargetRefs(target, entry, cfg) ==
      {ArtifactKey(cfg.mirror, Resolve(entry.t, "", cfg.urlPath).value.rel),
       ArtifactKey(cfg.mirror, Resolve(entry.t, "xz_", cfg.urlPath).value.rel)}
  {
    var e := entry.t;
    var plain := Resolve(e, "", cfg.urlPath);
    assert plain.Ok?;
    var e1 := e[UrlKey("") := Str(MirrorUrl(cfg.mirrorUrl, plain.value))];
    ResolveXzAfterPlain(e, Str(MirrorUrl(cfg.mirrorUrl, plain.value)), cfg.urlPath);
    assert RewriteVariant(e, "", cfg) == Ok(e1);
  }

  /** The URL the mirror publishes never keeps a "%20", and begins with the mirror's own URL. */
  lemma PublishedUrlDecoded(entry: map<string, Value>, prefix: string, cfg: Config)
    requires Resolve(entry, prefix, cfg.urlPath).Ok?
    ensures var a := Resolve(entry, prefix, cfg.urlPath).value;
      StartsWith(MirrorUrl(cfg.mirrorUrl, a), cfg.mirrorUrl) && !Contains(a.fileName, "%20")
  {
    var path := cfg.urlPath(entry[UrlKey(prefix)].s).value;
    DecodeSpacesLeavesNoEscape(path);
  }

  /** The targets named in `names` rewrite without error. */
  predicate TargetsOkIn(targets: map<string, Value>, names: set<string>, cfg: Config) {
    forall t {:trigger RewriteTarget(t, targets[t], cfg)} :: t in names && t in targets ==> RewriteTarget(t, targets[t], cfg).Ok?
  }

  /** Every target entry of a package rewrites without error. */
  predicate TargetsOk(targets: map<string, Value>, cfg: Config) {
    TargetsOkIn(targets, targets.Keys, cfg)
  }

  /** A target entry after the pass; an entry the pass fails on stays as it was. */
  function TargetAfter(target: string, entry: Value, cfg: Config): Value {
    match RewriteTarget(target, entry, cfg)
    case Ok(e) => e
    case Err(_) => entry
  }

  /** The `target` table once the entries named in `names` have been through the pass. */
  function RewriteSome(targets: map<string, Value>, names: set<string>, cfg: Config): map<string, Value> {
    map t | t in targets :: if t in names then TargetAfter(t, targets[t], cfg) else targets[t]
  }

  /** The `target` table of a package after the pass. */
  function RewriteTargets(targets: map<string, Value>, cfg: Config): map<string, Value>
    requires TargetsOk(targets, cfg)
  {
    RewriteSome(targets, targets.Keys, cfg)
  }

  /** The reference-set keys contributed by the targets named in `names`. */
  function TargetsRefs(targets: map<string, Value>, names: set<string>, cfg: Config): set<Path> {
    set t, k | t in names && t in targets && k in TargetRefs(t, targets[t], cfg) :: k
  }

  /** The targets named in `names` that enter `all_targets`. */
  function WantedIn(targets: map<string, Value>, names: set<string>, allow: set<string>): set<string> {
    set t | t in names && t in targets && Wanted(t, targets[t], allow)
  }

  /** `pkg.<name>.target`, when the package is a table holding a `target` table. */
  function PackageTargets(pkg: Value): Option<map<string, Value>> {
    if pkg.Table? && "target" in pkg.t && pkg.t["target"].Table? then Some(pkg.t["target"].t) else None
  }

  /** The number of targets a package lists; a package without a `target` table lists none. */
  function TargetCount(pkg: Value): nat {
    if PackageTargets(pkg).Some? then |PackageTargets(pkg).value.Keys| else 0
  }

  /** The number of targets the packages `names` of `pkgs` list together. */
  ghost function TargetTotal(pkgs: map<string, Value>, names: set<string>): nat
    requires names <= pkgs.Keys
    decreases names
  {
    if names == {} then 0
    else var p :| p in names; TargetCount(pkgs[p]) + TargetTotal(pkgs, names - {p})
  }

  /** The total does not depend on which package is counted first. */
  lemma {:induction false} TargetTotalRemove(pkgs: map<string, Value>, names: set<string>, p: string)
    requires names <= pkgs.Keys && p in names
    ensures TargetTotal(pkgs, names) == TargetCount(pkgs[p]) + TargetTotal(pkgs, names - {p})
    decreases |names|
  {
    var q :| q in names && TargetTotal(pkgs, names) == TargetCount(pkgs[q]) + TargetTotal(pkgs, names - {q});
    if q != p {
      TargetTotalRemove(pkgs, names - {q}, p);
      TargetTotalRemove(pkgs, names - {p}, q);
      assert names - {q} - {p} == names - {p} - {q};
    }
  }

  /** One more package adds its own targets to the total. */
  lemma TargetTotalStep(pkgs: map<string, Value>, names: set<string>, p: string)
    requires names <= pkgs.Keys && p in pkgs && p !in names
    ensures TargetTotal(pkgs, names + {p}) == TargetTotal(pkgs, names) + TargetCount(pkgs[p])
  {
    TargetTotalRemove(pkgs, names + {p}, p);
    assert names + {p} - {p} == names;
  }

  /** A set of packages lists at most as many targets as any set holding it. */
  lemma {:induction false} TargetTotalMono(pkgs: map<string, Value>, names: set<string>, more: set<string>)
    requires names <= more <= pkgs.Keys
    ensures TargetTotal(pkgs, names) <= TargetTotal(pkgs, more)
    decreases more
  {
    if names != more {
      assert !(more <= names);
      var q :| q in more && q !in names;
      TargetTotalRemove(pkgs, more, q);
      TargetTotalMono(pkgs, names, more - {q});
    }
  }

  /** A package the pass gets through. */
  predicate PackageOk(pkg: Value, cfg: Config) {
    PackageTargets(pkg).Some? && TargetsOk(PackageTargets(pkg).value, cfg)
  }

  /** A package after the pass: only its `target` table changes. */
  function RewritePackage(pkg: Value, cfg: Config): Value
    requires PackageOk(pkg, cfg)
  {
    Table(pkg.t["target" := Table(RewriteTargets(PackageTargets(pkg).value, cfg))])
  }

  /** The reference-set keys a package contributes. */
  function PackageRefs(pkg: Value, cfg: Config): set<Path> {
    match PackageTargets(pkg)
    case None => {}
    case Some(targets) => TargetsRefs(targets, targets.Keys, cfg)
  }

  /** The targets of a package that enter `all_targets`. */
  function PackageWanted(pkg: Value, allow: set<string>): set<string> {
    match PackageTargets(pkg)
    case None => {}
    case Some(targets) => WantedIn(targets, targets.Keys, allow)
  }

  /** The packages named in `names` get through the pass. */
  predicate PackagesOkIn(pkgs: map<string, Value>, names: set<string>, cfg: Config) {
    forall p {:trigger PackageOk(pkgs[p], cfg)} :: p in names && p in pkgs ==> PackageOk(pkgs[p], cfg)
  }

  /** Every package of the `pkg` table gets through the pass. */
  predicate PackagesOk(pkgs: map<string, Value>, cfg: Config) {
    PackagesOkIn(pkgs, pkgs.Keys, cfg)
  }

  /** A package after the pass; a package the pass fails on stays as it was. */
  function PackageAfter(pkg: Value, cfg: Config): Value {
    if PackageOk(pkg, cfg) then RewritePackage(pkg, cfg) else pkg
  }

  /** The `pkg` table once the packages named in `names` have been through the pass. */
  function RewriteSomePackages(pkgs: map<string, Value>, names: set<string>, cfg: Config): map<string, Value> {
    map p | p in pkgs :: if p in names then PackageAfter(pkgs[p], cfg) else pkgs[p]
  }

  /** The `pkg` table after the pass. */
  function RewritePackages(pkgs: map<string, Value>, cfg: Config): map<string, Value>
    requires PackagesOk(pkgs, cfg)
  {
    RewriteSomePackages(pkgs, pkgs.Keys, cfg)
  }

  /** Passing one more package over changes exactly its own entry. */
  lemma RewriteSomePackagesStep(pkgs: map<string, Value>, names: set<string>, p: string, cfg: Config)
    requires p in pkgs && p !in names
    ensures RewriteSomePackages(pkgs, names + {p}, cfg) == RewriteSomePackages(pkgs, names, cfg)[p := PackageAfter(pkgs[p], cfg)]
  {
    var lhs := RewriteSomePackages(pkgs, names + {p}, cfg);
    var rhs := RewriteSomePackages(pkgs, names, cfg)[p := PackageAfter(pkgs[p], cfg)];
    assert lhs.Keys == rhs.Keys;
    forall u | u in lhs ensures lhs[u] == rhs[u] {
      if u != p {
        assert lhs[u] == RewriteSomePackages(pkgs, names, cfg)[u];
      }
    }
  }

  /** One more package through the pass. */
  lemma PackagesOkInStep(pkgs: map<string, Value>, names: set<string>, p: string, cfg: Config)
    requires p in pkgs && PackagesOkIn(pkgs, names, cfg) && PackageOk(pkgs[p], cfg)
    ensures PackagesOkIn(pkgs, names + {p}, cfg)
  {
  }

  /** The reference-set keys contributed by the packages named in `names`. */
  function PackagesRefs(pkgs: map<string, Value>, names: set<string>, cfg: Config): set<Path> {
    set p, k | p in names && p in pkgs && k in PackageRefs(pkgs[p], cfg) :: k
  }

  /** The targets that the packages named in `names` add to `all_targets`. */
  function PackagesWanted(pkgs: map<string, Value>, names: set<string>, allow: set<string>): set<string> {
    set p, t | p in names && p in pkgs && t in PackageWanted(pkgs[p], allow) :: t
  }

  /** Passing one more target over changes exactly its own entry. */
  lemma RewriteSomeStep(targets: map<string, Value>, names: set<string>, t: string, cfg: Config)
    requires t in targets && t !in names
    ensures RewriteSome(targets, names + {t}, cfg) == RewriteSome(targets, names, cfg)[t := TargetAfter(t, targets[t], cfg)]
  {
    var lhs := RewriteSome(targets, names + {t}, cfg);
    var rhs := RewriteSome(targets, names, cfg)[t := TargetAfter(t, targets[t], cfg)];
    assert lhs.Keys == rhs.Keys;
    forall u | u in lhs ensures lhs[u] == rhs[u] {
      if u != t {
        assert lhs[u] == RewriteSome(targets, names, cfg)[u];
      }
    }
  }

  /** One more target rewritten without error. */
  lemma TargetsOkInStep(targets: map<string, Value>, names: set<string>, t: string, cfg: Config)
    requires t in targets && TargetsOkIn(targets, names, cfg) && RewriteTarget(t, targets[t], cfg).Ok?
    ensures TargetsOkIn(targets, names + {t}, cfg)
  {
  }

  /** Adding one more target to the processed ones adds exactly its references and its wanted name. */
  lemma TargetsStep(targets: map<string, Value>, names: set<string>, t: string, cfg: Config)
    requires t in targets
    ensures TargetsRefs(targets, names + {t}, cfg) == TargetsRefs(targets, names, cfg) + TargetRefs(t, targets[t], cfg)
    ensures WantedIn(targets, names + {t}, cfg.allow) ==
      WantedIn(targets, names, cfg.allow) + (if Wanted(t, targets[t], cfg.allow) then {t} else {})
  {
    var lhs := TargetsRefs(targets, names + {t}, cfg);
    var rhs := TargetsRefs(targets, names, cfg) + TargetRefs(t, targets[t], cfg);
    forall k | k in lhs ensures k in rhs {
      var u :| u in names + {t} && u in targets && k in TargetRefs(u, targets[u], cfg);
    }
    forall k | k in rhs ensures k in lhs {
      if k !in TargetRefs(t, targets[t], cfg) {
        var u :| u in names && u in targets && k in TargetRefs(u, targets[u], cfg);
      }
    }
  }

  /** Adding one more package to the processed ones adds exactly its references and its wanted targets. */
  lemma PackagesStep(pkgs: map<string, Value>, names: set<string>, p: string, cfg: Config)
    requires p in pkgs
    ensures PackagesRefs(pkgs, names + {p}, cfg) == PackagesRefs(pkgs, names, cfg) + PackageRefs(pkgs[p], cfg)
    ensures PackagesWanted(pkgs, names + {p}, cfg.allow) ==
      PackagesWanted(pkgs, names, cfg.allow) + PackageWanted(pkgs[p], cfg.allow)
  {
    var lhs := PackagesRefs(pkgs, names + {p}, cfg);
    var rhs := PackagesRefs(pkgs, names, cfg) + PackageRefs(pkgs[p], cfg);
    forall k | k in lhs ensures k in rhs {
      var u :| u in names + {p} && u in pkgs && k in PackageRefs(pkgs[u], cfg);
    }
    forall k | k in rhs ensures k in lhs {
      if k !in PackageRefs(pkgs[p], cfg) {
        var u :| u in names && u in pkgs && k in PackageRefs(pkgs[u], cfg);
      }
    }
    var lw := PackagesWanted(pkgs, names + {p}, cfg.allow);
    var rw := PackagesWanted(pkgs, names, cfg.allow) + PackageWanted(pkgs[p], cfg.allow);
    forall t | t in lw ensures t in rw {
      var u :| u in names + {p} && u in pkgs && t in PackageWanted(pkgs[u], cfg.allow);
    }
    forall t | t in rw ensures t in lw {
      if t !in PackageWanted(pkgs[p], cfg.allow) {
        var u :| u in names && u in pkgs && t in PackageWanted(pkgs[u], cfg.allow);
      }
    }
  }

  /** The artifact variant `prefix` of an entry names, when it resolves. */
  function Variant(entry: map<string, Value>, prefix: string, cfg: Config): (r: set<Artifact>)
    ensures r == {} <==> Resolve(entry, prefix, cfg.urlPath).Err?
  {
    if Resolve(entry, prefix, cfg.urlPath).Ok? then {Resolve(entry, prefix, cfg.urlPath).value} else {}
  }

  /** The artifacts the pass fetches for a target: both variants of a wanted entry, none otherwise. */
  function TargetArtifacts(target: string, entry: Value, cfg: Config): set<Artifact> {
    if Wanted(target, entry, cfg.allow) then Variant(entry.t, "", cfg) + Variant(entry.t, "xz_", cfg) else {}
  }

  /** The artifacts of the targets named in `names`. */
  function TargetsArtifacts(targets: map<string, Value>, names: set<string>, cfg: Config): set<Artifact> {
    set t, a | t in names && t in targets && a in TargetArtifacts(t, targets[t], cfg) :: a
  }

  /** The artifacts of a package. */
  function PackageArtifacts(pkg: Value, cfg: Config): set<Artifact> {
    match PackageTargets(pkg)
    case None => {}
    case Some(targets) => TargetsArtifacts(targets, targets.Keys, cfg)
  }

  /** The artifacts of the packages named in `names`. */
  function PackagesArtifacts(pkgs: map<string, Value>, names: set<string>, cfg: Config): set<Artifact> {
    set p, a | p in names && p in pkgs && a in PackageArtifacts(pkgs[p], cfg) :: a
  }

  /** One more target adds exactly its artifacts, which are among those of the whole table. */
  lemma TargetsArtifactsStep(targets: map<string, Value>, names: set<string>, t: string, cfg: Config)
    requires t in targets
    ensures TargetsArtifacts(targets, names + {t}, cfg) == TargetsArtifacts(targets, names, cfg) + TargetArtifacts(t, targets[t], cfg)
    ensures TargetArtifacts(t, targets[t], cfg) <= TargetsArtifacts(targets, targets.Keys, cfg)
    ensures names <= targets.Keys ==> TargetsArtifacts(targets, names, cfg) <= TargetsArtifacts(targets, targets.Keys, cfg)
  {
    var lhs := TargetsArtifacts(targets, names + {t}, cfg);
    var rhs := TargetsArtifacts(targets, names, cfg) + TargetArtifacts(t, targets[t], cfg);
    forall a | a in lhs ensures a in rhs {
      var u :| u in names + {t} && u in targets && a in TargetArtifacts(u, targets[u], cfg);
    }
    forall a | a in rhs ensures a in lhs {
      if a !in TargetArtifacts(t, targets[t], cfg) {
        var u :| u in names && u in targets && a in TargetArtifacts(u, targets[u], cfg);
      }
    }
  }

  /** One more package adds exactly its artifacts, which are among those of the whole table. */
  lemma PackagesArtifactsStep(pkgs: map<string, Value>, names: set<string>, p: string, cfg: Config)
    requires p in pkgs
    ensures PackagesArtifacts(pkgs, names + {p}, cfg) == PackagesArtifacts(pkgs, names, cfg) + PackageArtifacts(pkgs[p], cfg)
    ensures PackageArtifacts(pkgs[p], cfg) <= PackagesArtifacts(pkgs, pkgs.Keys, cfg)
    ensures names <= pkgs.Keys ==> PackagesArtifacts(pkgs, names, cfg) <= PackagesArtifacts(pkgs, pkgs.Keys, cfg)
  {
    var lhs := PackagesArtifacts(pkgs, names + {p}, cfg);
    var rhs := PackagesArtifacts(pkgs, names, cfg) + PackageArtifacts(pkgs[p], cfg);
    forall a | a in lhs ensures a in rhs {
      var u :| u in names + {p} && u in pkgs && a in PackageArtifacts(pkgs[u], cfg);
    }
    forall a | a in rhs ensures a in lhs {
      if a !in PackageArtifacts(pkgs[p], cfg) {
        var u :| u in names && u in pkgs && a in PackageArtifacts(pkgs[u], cfg);
      }
    }
  }

  /**
   * Only targets in the allow-list, or `*`, ever enter `all_targets`, and
   * a package whose targets are all out of scope contributes no reference.
   */
  lemma OnlyInScopeRecorded(pkgs: map<string, Value>, cfg: Config)
    ensures forall t :: t in PackagesWanted(pkgs, pkgs.Keys, cfg.allow) ==> InScope(t, cfg.allow)
    ensures forall p :: p in pkgs && PackageTargets(pkgs[p]).Some? ==>
      (forall t :: t in PackageTargets(pkgs[p]).value ==> !InScope(t, cfg.allow)) ==>
      PackageRefs(pkgs[p], cfg) == {}
  {
  }

  /**
   * The gates on a parsed channel manifest: `manifest-version` must be
   * "2", and `date` (a string) and `pkg` (a table) must be there. Yields
   * the date and the `pkg` table.
   */
  function ChannelGate(doc: Value): (r: Result<(string, map<string, Value>), SyncError>)
    ensures r.Ok? <==>
      && doc.Table? && "manifest-version" in doc.t && doc.t["manifest-version"] == Str("2")
      && "date" in doc.t && doc.t["date"].Str? && "pkg" in doc.t && doc.t["pkg"].Table?
    ensures doc.Table? && "manifest-version" in doc.t && doc.t["manifest-version"] != Str("2") ==> r == Err(VersionMismatch)
  {
    if !doc.Table? then Err(Malformed("manifest"))
    else if "manifest-version" !in doc.t then Err(Malformed("manifest-version"))
    else if doc.t["manifest-version"] != Str("2") then Err(VersionMismatch)
    else if "date" !in doc.t || !doc.t["date"].Str? then Err(Malformed("date"))
    else if "pkg" !in doc.t || !doc.t["pkg"].Table? then Err(Malformed("pkg"))
    else Ok((doc.t["date"].s, doc.t["pkg"].t))
  }

  /** The manifest the mirror publishes: the upstream one with its `pkg` table through the pass. */
  function RewriteManifest(doc: Value, cfg: Config): (r: Value)
    requires ChannelGate(doc).Ok? && PackagesOk(ChannelGate(doc).value.1, cfg)
    ensures r.Table? && r.t.Keys == doc.t.Keys
    ensures forall k :: k in doc.t && k != "pkg" ==> r.t[k] == doc.t[k]
    ensures ChannelGate(r) == Ok((ChannelGate(doc).value.0, RewritePackages(ChannelGate(doc).value.1, cfg)))
  {
    Table(doc.t["pkg" := Table(RewritePackages(doc.t["pkg"].t, cfg))])
  }
}
