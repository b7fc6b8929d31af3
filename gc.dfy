/**
 * The garbage collector of src/main.rs:659-722: a walk over the date
 * directories under `dist`, deleting every file the manifests just
 * written do not reference, except nightly files newer than the
 * retention cutoff, each together with its `.sha256` sidecar, and then
 * every date directory in which nothing was kept.
 */
module GarbageCollect {
  import opened Wrappers
  import opened Errors
  import opened Paths
  import opened Strings
  import opened Manifest
  import opened Sets

  /** An entry of `dist`: a date directory with the names of its files, or a file of its own (metadata). */
  datatype Entry = Dir(files: set<string>) | Meta(contents: string)

  /** The `dist` directory of the mirror, by entry name. */
  type Dist = map<string, Entry>

  /**
   * The inputs of a collection: the mirror root, the retention cutoff as a
   * day number (`today - gc days`, absent without `--gc`), the parser of
   * `%Y-%m-%d` directory names into day numbers, and the reference set.
   */
  datatype Sweep = Sweep(mirror: Path, cutoff: Option<int>, parseDate: string -> Option<int>,
                         referenced: set<Path>)

  /**
   * `clear_nightly` of a date directory: without a cutoff, false and the
   * name is not looked at; with one, the directory's date is strictly
   * before it, and a name that is no date is fatal.
   */
  function ClearNightly(s: Sweep, dir: string): (r: Result<bool, SyncError>)
    ensures r.Err? <==> s.cutoff.Some? && s.parseDate(dir).None?
    ensures r.Err? ==> r.error == BadDate(dir)
    ensures r == Ok(true) <==> s.cutoff.Some? && s.parseDate(dir).Some? && s.parseDate(dir).value < s.cutoff.value
  {
    match s.cutoff
    case None => Ok(false)
    case Some(day) =>
      match s.parseDate(dir)
      case None => Err(BadDate(dir))
      case Some(date) => Ok(date < day)
  }

  /** A checksum sidecar, skipped by the walk and deleted only with its artifact. */
  predicate IsSidecar(name: string) {
    EndsWith(name, ".sha256")
  }

  /** `normalize_path` of `<mirror>/dist/<dir>/<name>`, the key looked up in the reference set. */
  function GcKey(mirror: Path, dir: string, name: string): Path {
    Normalize(mirror + [Normal("dist"), Normal(dir), Normal(name)])
  }

  /**
   * `to_be_deleted`: a referenced file stays; an unreferenced nightly file
   * goes when its directory is expired; any other unreferenced file goes.
   */
  predicate ToBeDeleted(s: Sweep, dir: string, name: string, clear: bool)
    ensures ToBeDeleted(s, dir, name, clear) ==> GcKey(s.mirror, dir, name) !in s.referenced
    ensures GcKey(s.mirror, dir, name) !in s.referenced ==>
      (ToBeDeleted(s, dir, name, clear) <==> !Contains(name, "nightly") || clear)
  {
    if GcKey(s.mirror, dir, name) in s.referenced then false
    else if Contains(name, "nightly") then clear
    else true
  }

  /** The files among `names` that the walk deletes. */
  function Doomed(s: Sweep, dir: string, names: set<string>, clear: bool): set<string> {
    set f | f in names && !IsSidecar(f) && ToBeDeleted(s, dir, f, clear)
  }

  /** The files among `names` that the walk keeps, each of which preserves the directory. */
  function Kept(s: Sweep, dir: string, names: set<string>, clear: bool): set<string> {
    set f | f in names && !IsSidecar(f) && !ToBeDeleted(s, dir, f, clear)
  }

  /** The sidecar names of a set of files. */
  function Sidecars(names: set<string>): set<string> {
    set f | f in names :: SidecarName(f)
  }

  /** What deleting the files among `names` removes: each file and its sidecar. */
  function Removed(s: Sweep, dir: string, names: set<string>, clear: bool): set<string> {
    Doomed(s, dir, names, clear) + Sidecars(Doomed(s, dir, names, clear))
  }

  /** One more file through the walk of a directory. */
  lemma DirStep(s: Sweep, dir: string, names: set<string>, f: string, clear: bool,
                removed: set<string>, kept: set<string>)
    requires removed == Removed(s, dir, names, clear) && kept == Kept(s, dir, names, clear)
    ensures IsSidecar(f) ==>
      Removed(s, dir, names + {f}, clear) == removed && Kept(s, dir, names + {f}, clear) == kept
    ensures !IsSidecar(f) && ToBeDeleted(s, dir, f, clear) ==>
      && Removed(s, dir, names + {f}, clear) == removed + {f, SidecarName(f)}
      && Kept(s, dir, names + {f}, clear) == kept
    ensures !IsSidecar(f) && !ToBeDeleted(s, dir, f, clear) ==>
      Removed(s, dir, names + {f}, clear) == removed && Kept(s, dir, names + {f}, clear) == kept + {f}
  {
    var doomed := Doomed(s, dir, names, clear);
    if !IsSidecar(f) && ToBeDeleted(s, dir, f, clear) {
      assert Doomed(s, dir, names + {f}, clear) == doomed + {f};
      assert Sidecars(doomed + {f}) == Sidecars(doomed) + {SidecarName(f)};
      assert Kept(s, dir, names + {f}, clear) == kept;
    } else {
      assert Doomed(s, dir, names + {f}, clear) == doomed;
      assert Kept(s, dir, names + {f}, clear) == kept + (if IsSidecar(f) then {} else {f});
    }
  }

  lemma RemoveMore(files: set<string>, removed: set<string>, more: set<string>)
    ensures files - removed - more == files - (removed + more)
  {
  }

  /**
   * The walk of one date directory (the inner loop), in the order of
   * `read_dir`, which does not matter: it deletes exactly the doomed
   * files and their sidecars, and preserves the directory exactly when
   * some file is kept.
   */
  method CollectDir(s: Sweep, dir: string, files: set<string>, clear: bool)
    returns (files': set<string>, preserve: bool)
    ensures files' == files - Removed(s, dir, files, clear)
    ensures preserve <==> Kept(s, dir, files, clear) != {}
  {
    files', preserve := files, false;
    var todo := files;
    ghost var done: set<string> := {};
    ghost var removed: set<string> := {};
    ghost var kept: set<string> := {};
    while todo != {}
      invariant todo !! done && todo + done == files
      invariant removed == Removed(s, dir, done, clear) && kept == Kept(s, dir, done, clear)
      invariant files' == files - removed
      invariant preserve <==> kept != {}
      decreases |todo|
    {
      var f :| f in todo;
      DirStep(s, dir, done, f, clear, removed, kept);
      if IsSidecar(f) {
        // deleted alongside the file it belongs to
      } else if ToBeDeleted(s, dir, f, clear) {
        RemoveMore(files, removed, {f, SidecarName(f)});
        files' := files' - {f, SidecarName(f)};
        removed := removed + {f, SidecarName(f)};
      } else {
        preserve := true;
        kept := kept + {f};
      }
      MoveOne(todo, done, files, f);
      todo := todo - {f};
      done := done + {f};
    }
    assert done == files;
  }

  /** `clear_nightly` of a directory whose name passed. */
  function Clear(s: Sweep, dir: string): bool {
    ClearNightly(s, dir) == Ok(true)
  }

  /** The name of every date directory in `names` passes `clear_nightly`. */
  predicate DatesOkIn(s: Sweep, dist: Dist, names: set<string>) {
    forall d :: d in names && d in dist && dist[d].Dir? ==> ClearNightly(s, d).Ok?
  }

  /** The name of every date directory passes `clear_nightly`. */
  predicate DatesOk(s: Sweep, dist: Dist) {
    DatesOkIn(s, dist, dist.Keys)
  }

  lemma DatesOkInStep(s: Sweep, dist: Dist, names: set<string>, d: string)
    requires DatesOkIn(s, dist, names) && d in dist && (dist[d].Dir? ==> ClearNightly(s, d).Ok?)
    ensures DatesOkIn(s, dist, names + {d})
  {
  }

  /** The walk of the directory leaves nothing kept, so the directory goes. */
  predicate Vanishes(s: Sweep, d: string, e: Entry) {
    e.Dir? && Kept(s, d, e.files, Clear(s, d)) == {}
  }

  /** An entry of `dist` after the collection, when it is still there. */
  function Swept(s: Sweep, d: string, e: Entry): Entry {
    if e.Dir? then Dir(e.files - Removed(s, d, e.files, Clear(s, d))) else e
  }

  /** `dist` once the entries in `done` have been through the collection. */
  function SweptSome(s: Sweep, dist: Dist, done: set<string>): Dist {
    map d | d in dist && !(d in done && Vanishes(s, d, dist[d])) :: if d in done then Swept(s, d, dist[d]) else dist[d]
  }

  /** `dist` after the collection. */
  function Collected(s: Sweep, dist: Dist): Dist {
    SweptSome(s, dist, dist.Keys)
  }

  /** One more entry through the collection. */
  lemma SweptSomeStep(s: Sweep, dist: Dist, done: set<string>, d: string)
    requires d in dist && d !in done
    ensures Vanishes(s, d, dist[d]) ==> SweptSome(s, dist, done + {d}) == SweptSome(s, dist, done) - {d}
    ensures !Vanishes(s, d, dist[d]) ==>
      SweptSome(s, dist, done + {d}) == SweptSome(s, dist, done)[d := Swept(s, d, dist[d])]
  {
    var lhs := SweptSome(s, dist, done + {d});
    var before := SweptSome(s, dist, done);
    if Vanishes(s, d, dist[d]) {
      assert lhs.Keys == before.Keys - {d};
    } else {
      var rhs := before[d := Swept(s, d, dist[d])];
      assert lhs.Keys == rhs.Keys;
      forall u | u in lhs ensures lhs[u] == rhs[u] {
        if u != d {
          assert lhs[u] == before[u];
        }
      }
    }
  }

  /**
   * One entry of `dist` through the collection (the body of the outer
   * loop): metadata is skipped; a date directory is walked, then removed
   * (`None`) when nothing in it was kept.
   */
  method SweepEntry(s: Sweep, d: string, e: Entry) returns (res: Outcome<SyncError>, e': Option<Entry>)
    ensures res == Pass <==> !(e.Dir? && ClearNightly(s, d).Err?)
    ensures res.Fail? ==> res.error == BadDate(d)
    ensures res == Pass ==> e' == if Vanishes(s, d, e) then None else Some(Swept(s, d, e))
  {
    match e {
      case Meta(_) =>
        // metadata, not a date directory
        return Pass, Some(e);
      case Dir(files) =>
        var clear := ClearNightly(s, d);
        if clear.Err? {
          return Fail(clear.error), None;
        }
        var files', preserve := CollectDir(s, d, files, clear.value);
        if preserve {
          return Pass, Some(Dir(files'));
        }
        // remove_dir_all
        return Pass, None;
    }
  }

  /**
   * The collection (the outer loop), in the order of `read_dir`. A date
   * directory whose name is no date, when a cutoff is set, aborts the run
   * where it stands, with the entries walked so far collected.
   */
  method CollectGarbage(s: Sweep, dist: Dist) returns (res: Outcome<SyncError>, dist': Dist)
    ensures res == Pass <==> DatesOk(s, dist)
    ensures res == Pass ==> dist' == Collected(s, dist)
    ensures res.Fail? ==>
      && res.error.BadDate? && res.error.name in dist && dist[res.error.name].Dir?
      && s.cutoff.Some? && s.parseDate(res.error.name).None?
    ensures res.Fail? ==> exists done :: dist' == SweptSome(s, dist, done)
  {
    res, dist' := Pass, dist;
    var todo := dist.Keys;
    ghost var done: set<string> := {};
    while todo != {}
      invariant todo !! done && todo + done == dist.Keys
      invariant res == Pass && DatesOkIn(s, dist, done)
      invariant dist' == SweptSome(s, dist, done)
      decreases |todo|
    {
      var d :| d in todo;
      var e';
      res, e' := SweepEntry(s, d, dist[d]);
      if res.Fail? {
        assert !DatesOk(s, dist) by {
          assert d in dist.Keys;
        }
        return;
      }
      SweptSomeStep(s, dist, done, d);
      DatesOkInStep(s, dist, done, d);
      if e'.Some? {
        dist' := dist'[d := e'.value];
      } else {
        dist' := dist' - {d};
      }
      MoveOne(todo, done, dist.Keys, d);
      todo := todo - {d};
      done := done + {d};
    }
    assert done == dist.Keys;
  }

  /** A sidecar name is a sidecar, and names the file it belongs to. */
  lemma SidecarOf(f: string)
    ensures IsSidecar(SidecarName(f))
    ensures SidecarName(f)[..|SidecarName(f)| - 7] == f
  {
  }

  /**
   * Garbage collection never deletes a referenced file, nor its sidecar,
   * nor the directory holding it, whatever the cutoff, and also when the
   * run aborts part way.
   */
  lemma GcKeepsReferenced(s: Sweep, dist: Dist, done: set<string>, d: string, f: string)
    requires d in dist && dist[d].Dir? && f in dist[d].files && !IsSidecar(f)
    requires GcKey(s.mirror, d, f) in s.referenced
    ensures var r := SweptSome(s, dist, done);
      && d in r && r[d].Dir? && f in r[d].files
      && (SidecarName(f) in dist[d].files ==> SidecarName(f) in r[d].files)
  {
    var files := dist[d].files;
    var clear := Clear(s, d);
    var doomed := Doomed(s, d, files, clear);
    assert f in Kept(s, d, files, clear);
    SidecarOf(f);
    forall g | g in doomed ensures SidecarName(g) != f && SidecarName(g) != SidecarName(f) {
      SidecarOf(g);
      SidecarNameInjective(g, f);
    }
  }

  /**
   * The walk skips every name ending in ".sha256" before looking at the
   * reference set, so a referenced file with such a name does not keep its
   * directory: a directory holding only a referenced "x.sha256" is removed.
   */
  lemma ReferencedSidecarDeleted(s: Sweep)
    requires s.mirror == [] && s.cutoff == None && s.referenced == {GcKey([], "d", "x.sha256")}
    ensures var dist := map["d" := Dir({"x.sha256"})];
      GcKey(s.mirror, "d", "x.sha256") in s.referenced && "d" !in Collected(s, dist)
  {
    var dist := map["d" := Dir({"x.sha256"})];
    assert IsSidecar("x.sha256") by {
      assert "x.sha256"[|"x.sha256"| - |".sha256"|..] == ".sha256";
    }
    assert Kept(s, "d", dist["d"].files, Clear(s, "d")) == {};
  }

  /** An unreferenced file whose name does not say "nightly" is deleted, with its sidecar, whatever the cutoff. */
  lemma GcDeletesUnreferencedStable(s: Sweep, dist: Dist, d: string, f: string)
    requires d in dist && dist[d].Dir? && f in dist[d].files && !IsSidecar(f)
    requires GcKey(s.mirror, d, f) !in s.referenced && !Contains(f, "nightly")
    ensures var r := Collected(s, dist);
      d !in r || (f !in r[d].files && SidecarName(f) !in r[d].files)
  {
    var files := dist[d].files;
    assert f in Doomed(s, d, files, Clear(s, d));
  }

  /**
   * An unreferenced nightly file is deleted exactly when a cutoff is set
   * and its directory's date is strictly before it.
   */
  lemma GcNightly(s: Sweep, dist: Dist, d: string, f: string)
    requires d in dist && dist[d].Dir? && f in dist[d].files && !IsSidecar(f)
    requires GcKey(s.mirror, d, f) !in s.referenced && Contains(f, "nightly")
    requires ClearNightly(s, d).Ok?
    ensures var r := Collected(s, dist);
      (d in r && f in r[d].files)
        <==> !(s.cutoff.Some? && s.parseDate(d).Some? && s.parseDate(d).value < s.cutoff.value)
  {
    var files := dist[d].files;
    var clear := Clear(s, d);
    if clear {
      assert f in Doomed(s, d, files, clear);
    } else {
      assert f in Kept(s, d, files, clear);
      forall g | g in Doomed(s, d, files, clear) ensures SidecarName(g) != f {
        SidecarOf(g);
      }
    }
  }

  /** A date directory is removed exactly when every file in it that is not a sidecar is to be deleted. */
  lemma GcDirRemovedIff(s: Sweep, dist: Dist, d: string)
    requires d in dist && dist[d].Dir?
    ensures d !in Collected(s, dist) <==>
      forall f :: f in dist[d].files && !IsSidecar(f) ==> ToBeDeleted(s, d, f, Clear(s, d))
  {
    var files := dist[d].files;
    var clear := Clear(s, d);
    if d !in Collected(s, dist) {
      forall f | f in files && !IsSidecar(f) ensures ToBeDeleted(s, d, f, clear) {
        assert f !in Kept(s, d, files, clear);
      }
    } else {
      var f :| f in Kept(s, d, files, clear);
    }
  }

  /** A sidecar is deleted only as the sidecar of a file of the same directory that is deleted. */
  lemma GcSidecarOnlyWithArtifact(s: Sweep, dist: Dist, d: string, g: string)
    requires d in dist && dist[d].Dir? && g in dist[d].files && IsSidecar(g)
    requires d in Collected(s, dist) && g !in Collected(s, dist)[d].files
    ensures var f := g[..|g| - 7];
      && g == SidecarName(f) && f in dist[d].files && !IsSidecar(f) && ToBeDeleted(s, d, f, Clear(s, d))
  {
    var doomed := Doomed(s, d, dist[d].files, Clear(s, d));
    assert g !in doomed;
    var f :| f in doomed && g == SidecarName(f);
    SidecarOf(f);
  }

  /** Entries of `dist` that are not directories are left as they are, also when the run aborts. */
  lemma GcMetaUntouched(s: Sweep, dist: Dist, done: set<string>, d: string)
    requires d in dist && dist[d].Meta?
    ensures d in SweptSome(s, dist, done) && SweptSome(s, dist, done)[d] == dist[d]
  {
  }

  /** Collection adds nothing: no new entry, and no new file in a directory. */
  lemma GcOnlyRemoves(s: Sweep, dist: Dist, done: set<string>)
    ensures var r := SweptSome(s, dist, done);
      && r.Keys <= dist.Keys
      && forall d :: d in r && r[d].Dir? ==> dist[d].Dir? && r[d].files <= dist[d].files
  {
  }

  /**
   * A date directory holding only unreferenced nightly files (and
   * sidecars) is removed when its date is before the cutoff and left
   * untouched otherwise.
   */
  lemma GcNightlyDir(s: Sweep, dist: Dist, d: string, f0: string)
    requires d in dist && dist[d].Dir? && ClearNightly(s, d).Ok?
    requires f0 in dist[d].files && !IsSidecar(f0)
    requires forall f :: f in dist[d].files && !IsSidecar(f) ==>
      GcKey(s.mirror, d, f) !in s.referenced && Contains(f, "nightly")
    ensures var expired := s.cutoff.Some? && s.parseDate(d).Some? && s.parseDate(d).value < s.cutoff.value;
      && (expired ==> d !in Collected(s, dist))
      && (!expired ==> d in Collected(s, dist) && Collected(s, dist)[d] == dist[d])
  {
    var files := dist[d].files;
    var clear := Clear(s, d);
    if clear {
      GcDirRemovedIff(s, dist, d);
    } else {
      assert f0 in Kept(s, d, files, clear);
      assert Doomed(s, d, files, clear) == {};
      assert Removed(s, d, files, clear) == {};
      assert files - {} == files;
    }
  }

  /**
   * The key the collector looks up for `dist/<dir>/<name>` is the key the
   * manifest pass records for the artifact stored there.
   */
  lemma GcKeyIsArtifactKey(mirror: Path, dir: string, name: string)
    requires PlainName(dir) && PlainName(name)
    ensures ArtifactKey(mirror, "dist/" + dir + "/" + name) == GcKey(mirror, dir, name)
  {
    var rel := "dist/" + dir + "/" + name;
    ParseThree("dist", dir, name);
    assert rel == "dist" + "/" + dir + "/" + name;
    assert rel[0] == 'd';
    assert Join(mirror, rel) == mirror + [Normal("dist"), Normal(dir), Normal(name)];
  }
}
