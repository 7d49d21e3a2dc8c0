/**
 Keeping a project's copy of the built-in profile up to date without taking anything from the user.

 A digest is the content it is the digest of. `files` are the managed ones only: the .claude tree and CLAUDE.md.
 */
module ProfileSync {
  import opened Wrappers

  datatype Mode = Narration | Drama | Ad

  const MODES := {Narration, Drama, Ad}

  /** A profile file: shared by all modes, or one mode's variant of a logical file. */
  datatype Source = Common(logical: string) | Variant(logical: string, mode: Mode)

  type Profile = map<Source, string>

  type Contents = map<string, string>

  datatype Entry = Active(digest: string) | Tombstone

  datatype Manifest = Manifest(entries: map<string, Entry>, mode: Option<Mode>)

  datatype ProfileError = Missing | Misconfigured | Empty | BadPath

  function Get<K(!new), V>(m: map<K, V>, k: K): Option<V>
  {
    if k in m then Some(m[k]) else None
  }

  function Put<K(!new), V>(m: map<K, V>, k: K, v: Option<V>): (r: map<K, V>)
    ensures Get(r, k) == v
    ensures forall other | other != k :: Get(r, other) == Get(m, other)
  {
    if v.Some? then m[k := v.value] else m - {k}
  }

  // ----- resolving variants

  /** Each logical file is either common or has a variant for every mode. */
  ghost predicate IsWellFormed(profile: Profile)
  {
    forall source | source in profile :: IsWellPaired(profile, source)
  }

  ghost predicate IsWellPaired(profile: Profile, source: Source)
  {
    match source
    case Common(logical) => forall mode :: Variant(logical, mode) !in profile
    case Variant(logical, _) => Common(logical) !in profile && forall mode :: Variant(logical, mode) in profile
  }

  /** The file that stands for `logical` in one mode. */
  function SourceFor(profile: Profile, logical: string, mode: Mode): Option<Source>
  {
    if Common(logical) in profile then Some(Common(logical))
    else if Variant(logical, mode) in profile then Some(Variant(logical, mode))
    else None
  }

  ghost predicate IsMapping(profile: Profile, mode: Mode, mapping: map<string, Source>)
  {
    forall logical :: Get(mapping, logical) == SourceFor(profile, logical, mode)
  }

  /** The profile's files sorted into common ones and the modes each other logical file has a variant for. */
  ghost predicate IsIndex(profile: Profile, commons: set<string>, variants: map<string, set<Mode>>)
  {
    && (forall logical :: logical in commons <==> Common(logical) in profile)
    && (forall logical, m :: (logical in variants && m in variants[logical]) <==> Variant(logical, m) in profile)
    && forall logical | logical in variants :: variants[logical] != {}
  }

  method IndexSources(profile: Profile) returns (commons: set<string>, variants: map<string, set<Mode>>)
    ensures IsIndex(profile, commons, variants)
  {
    commons, variants := {}, map[];
    var rest := profile.Keys;
    while rest != {}
      invariant rest <= profile.Keys
      invariant forall logical :: logical in commons <==> Common(logical) in profile && Common(logical) !in rest
      invariant forall logical, m :: (logical in variants && m in variants[logical]) <==>
          Variant(logical, m) in profile && Variant(logical, m) !in rest
      invariant forall logical | logical in variants :: variants[logical] != {}
    {
      var source :| source in rest;
      rest := rest - {source};
      match source
      case Common(logical) => commons := commons + {logical};
      case Variant(logical, m) =>
        variants := variants[logical := (if logical in variants then variants[logical] else {}) + {m}];
    }
  }

  predicate IsComplete(modes: set<Mode>)
  {
    forall m | m in MODES :: m in modes
  }

  lemma CollidesOrIncomplete(profile: Profile, commons: set<string>, variants: map<string, set<Mode>>, logical: string)
    requires IsIndex(profile, commons, variants) && logical in variants
    requires logical in commons || !IsComplete(variants[logical])
    ensures !IsWellFormed(profile)
  {
    var present :| present in variants[logical];
    assert Variant(logical, present) in profile;
    forall m | m !in variants[logical] ensures Variant(logical, m) !in profile {
    }
    assert !IsWellPaired(profile, Variant(logical, present));
  }

  lemma IndexIsWellFormed(profile: Profile, commons: set<string>, variants: map<string, set<Mode>>)
    requires IsIndex(profile, commons, variants)
    requires forall logical | logical in variants :: logical !in commons && IsComplete(variants[logical])
    ensures IsWellFormed(profile)
  {
    forall logical, m | logical in variants ensures Variant(logical, m) in profile {
      assert m.Narration? || m.Drama? || m.Ad?;
      assert m in MODES && m in variants[logical];
    }
    forall source | source in profile ensures IsWellPaired(profile, source) {
      if source.Variant? {
        assert source.mode in variants[source.logical];
      } else {
        assert source.logical in commons;
      }
    }
  }

  /** Common files stand for themselves; for the others the variant of the mode is chosen. */
  function Chosen(commons: set<string>, variants: map<string, set<Mode>>, mode: Mode): map<string, Source>
  {
    (map logical | logical in commons :: Common(logical))
    + (map logical | logical in variants :: Variant(logical, mode))
  }

  lemma ChosenIsMapping(profile: Profile, commons: set<string>, variants: map<string, set<Mode>>, mode: Mode)
    requires IsIndex(profile, commons, variants) && mode in MODES
    requires forall logical | logical in variants :: logical !in commons && IsComplete(variants[logical])
    ensures IsMapping(profile, mode, Chosen(commons, variants, mode))
  {
    forall logical ensures Get(Chosen(commons, variants, mode), logical) == SourceFor(profile, logical, mode) {
      assert logical in variants ==> mode in variants[logical];
    }
  }

  /** Succeeds exactly when every logical file is common or complete. */
  method ResolveForMode(profile: Profile, mode: Mode) returns (r: Result<map<string, Source>, ProfileError>)
    ensures r.Ok? <==> IsWellFormed(profile)
    ensures r.Ok? ==> IsMapping(profile, mode, r.value)
  {
    var commons, variants := IndexSources(profile);
    if exists logical | logical in variants :: logical in commons || !IsComplete(variants[logical]) {
      ghost var logical :| logical in variants && (logical in commons || !IsComplete(variants[logical]));
      CollidesOrIncomplete(profile, commons, variants, logical);
      return Err(Misconfigured);
    }
    IndexIsWellFormed(profile, commons, variants);
    assert mode.Narration? || mode.Drama? || mode.Ad?;
    ChosenIsMapping(profile, commons, variants, mode);
    return Ok(Chosen(commons, variants, mode));
  }

  /** The logical files of a profile do not depend on the mode. */
  lemma LogicalFilesAreShared(profile: Profile, a: Mode, b: Mode, forA: map<string, Source>, forB: map<string, Source>)
    requires IsWellFormed(profile) && IsMapping(profile, a, forA) && IsMapping(profile, b, forB)
    ensures forA.Keys == forB.Keys
    ensures forall logical | logical in forA && Common(logical) in profile :: forA[logical] == forB[logical]
  {
    forall logical ensures logical in forA <==> logical in forB {
      assert Get(forA, logical) == SourceFor(profile, logical, a);
      assert Get(forB, logical) == SourceFor(profile, logical, b);
      assert Variant(logical, a) in profile ==> IsWellPaired(profile, Variant(logical, a));
      assert Variant(logical, b) in profile ==> IsWellPaired(profile, Variant(logical, b));
    }
    forall logical | logical in forA && Common(logical) in profile ensures forA[logical] == forB[logical] {
      assert Get(forA, logical) == SourceFor(profile, logical, a);
      assert Get(forB, logical) == SourceFor(profile, logical, b);
    }
  }

  /** What the profile ships in one mode. */
  function Shipped(profile: Profile, mapping: map<string, Source>): Contents
    requires forall logical | logical in mapping :: mapping[logical] in profile
  {
    map logical | logical in mapping :: profile[mapping[logical]]
  }

  // ----- one path

  /** The rows of the decision table, by what the profile (P), the project (D) and the manifest (M) hold. */
  datatype Row =
    | FirstDelivery | DeletedByUser | InStep | Upgrade | CaughtUp | ModifiedByUser | Pruned | Orphaned | UserOnly
    | Restored | StillDeleted | TombstoneLapsed | TombstoneKept | BothGone | Collision | Nothing

  function RowOf(p: Option<string>, d: Option<string>, m: Option<Entry>): Row
  {
    match (p, d, m)
    case (Some(_), None, None) => FirstDelivery
    case (Some(_), None, Some(Active(_))) => DeletedByUser
    case (Some(pc), Some(dc), Some(Active(mc))) =>
      if dc == pc && mc == pc then InStep
      else if dc == mc then Upgrade
      else if dc == pc then CaughtUp
      else ModifiedByUser
    case (None, Some(dc), Some(Active(mc))) => if dc == mc then Pruned else Orphaned
    case (None, Some(_), None) => UserOnly
    case (Some(_), Some(_), Some(Tombstone)) => Restored
    case (Some(_), None, Some(Tombstone)) => StillDeleted
    case (None, Some(_), Some(Tombstone)) => TombstoneLapsed
    case (None, None, Some(Tombstone)) => TombstoneKept
    case (None, None, Some(Active(_))) => BothGone
    case (Some(_), Some(_), None) => Collision
    case (None, None, None) => Nothing
  }

  /** What a sync leaves in the project and in the manifest for one path. */
  function Decide(p: Option<string>, d: Option<string>, m: Option<Entry>): (Option<string>, Option<Entry>)
  {
    match RowOf(p, d, m)
    case FirstDelivery => (p, Some(Active(p.value)))
    case Upgrade => (p, Some(Active(p.value)))
    case CaughtUp => (d, Some(Active(p.value)))
    case DeletedByUser => (d, Some(Tombstone))
    case BothGone => (d, Some(Tombstone))
    case Pruned => (None, Some(Tombstone))
    case Orphaned => (d, None)
    case Restored => (d, None)
    case TombstoneLapsed => (d, None)
    case Collision => (d, if d == p then Some(Active(p.value)) else None)
    case _ => (d, m)
  }

  // ----- the whole project

  datatype Project = Project(files: Contents, manifest: Option<Manifest>)

  /** The paths a sync goes through. */
  function Paths(shipped: Contents, files: Contents, entries: map<string, Entry>): set<string>
  {
    shipped.Keys + files.Keys + entries.Keys
  }

  /** Every path outside `faulty` is left as the decision table says; faulty ones are left alone. */
  ghost predicate IsSynced(
    shipped: Contents, faulty: set<string>, files: Contents, entries: map<string, Entry>,
    files': Contents, entries': map<string, Entry>)
  {
    forall path :: IsSyncedAt(shipped, faulty, files, entries, files', entries', path)
  }

  ghost predicate IsSyncedAt(
    shipped: Contents, faulty: set<string>, files: Contents, entries: map<string, Entry>,
    files': Contents, entries': map<string, Entry>, path: string)
  {
    (Get(files', path), Get(entries', path)) ==
    if path in faulty then (Get(files, path), Get(entries, path))
    else Decide(Get(shipped, path), Get(files, path), Get(entries, path))
  }

  lemma OneMoreSynced(
    shipped: Contents, faulty: set<string>, rest: set<string>, path: string,
    files0: Contents, entries0: map<string, Entry>, files1: Contents, entries1: map<string, Entry>,
    files: Contents, entries: map<string, Entry>)
    requires IsSynced(shipped, faulty + rest, files0, entries0, files1, entries1) && path in rest
    requires (Get(files, path), Get(entries, path)) ==
             if path in faulty then (Get(files1, path), Get(entries1, path))
             else Decide(Get(shipped, path), Get(files1, path), Get(entries1, path))
    requires forall other | other != path ::
             Get(files, other) == Get(files1, other) && Get(entries, other) == Get(entries1, other)
    ensures IsSynced(shipped, faulty + (rest - {path}), files0, entries0, files, entries)
  {
    forall other ensures IsSyncedAt(shipped, faulty + (rest - {path}), files0, entries0, files, entries, other) {
      assert IsSyncedAt(shipped, faulty + rest, files0, entries0, files1, entries1, other);
    }
  }

  /** Everything the profile ships, apart from faulty paths, and nothing else. */
  function Materialized(shipped: Contents, faulty: set<string>): Contents
  {
    shipped - faulty
  }

  function Baseline(files: Contents): map<string, Entry>
  {
    map path | path in files :: Active(files[path])
  }

  /** A project is rebuilt from the profile when its manifest is unusable or belongs to another mode. */
  predicate NeedsReset(project: Project, mode: Mode)
  {
    project.manifest.None? || (project.manifest.value.mode.Some? && project.manifest.value.mode.value != mode)
  }

  ghost predicate IsSync(shipped: Contents, mode: Mode, faulty: set<string>, project: Project, project': Project)
  {
    if NeedsReset(project, mode) then
      && project'.files == Materialized(shipped, faulty)
      && project'.manifest == Some(Manifest(Baseline(Materialized(shipped, faulty)), Some(mode)))
    else
      && project'.manifest.Some? && project'.manifest.value.mode == Some(mode)
      && IsSynced(shipped, faulty, project.files, project.manifest.value.entries,
                  project'.files, project'.manifest.value.entries)
  }

  /** Chosen paths the profile ships are overwritten and recorded; all others are left alone. */
  ghost predicate IsForced(
    shipped: Contents, mode: Mode, target: set<string>, faulty: set<string>, project: Project, project': Project)
  {
    var before := if project.manifest.Some? then project.manifest.value.entries else map[];
    && project'.manifest.Some? && project'.manifest.value.mode == Some(mode)
    && forall path ::
         (Get(project'.files, path), Get(project'.manifest.value.entries, path)) ==
         if path in target && path in shipped && path !in faulty then (Some(shipped[path]), Some(Active(shipped[path])))
         else (Get(project.files, path), Get(before, path))
  }

  /** A project directory; inside a method its lock is held. */
  class ProjectDir {
    var files: Contents
    var manifest: Option<Manifest>

    constructor (project: Project)
      ensures State() == project
    {
      files, manifest := project.files, project.manifest;
    }

    ghost function State(): Project
      reads this
    {
      Project(files, manifest)
    }

    /** The decision table for one path; `entries` is the manifest being rewritten. */
    method ApplyDecision(path: string, p: Option<string>, entries: map<string, Entry>)
      returns (entries': map<string, Entry>)
      modifies this`files
      ensures (Get(files, path), Get(entries', path)) == Decide(p, Get(old(files), path), Get(entries, path))
      ensures forall other | other != path ::
                Get(files, other) == Get(old(files), other) && Get(entries', other) == Get(entries, other)
    {
      entries' := entries;
      var d: Option<string>, m: Option<Entry> := Get(files, path), Get(entries, path);
      match (p.Some?, d.Some?, m)
      case (true, false, None) =>
        files := files[path := p.value];
        entries' := entries[path := Active(p.value)];
      case (true, false, Some(Active(_))) =>
        entries' := entries[path := Tombstone];
      case (true, true, Some(Active(digest))) =>
        if d == p && digest == p.value {
        } else if d.value == digest && d != p {
          files := files[path := p.value];
          entries' := entries[path := Active(p.value)];
        } else if d.value != digest && d == p {
          entries' := entries[path := Active(p.value)];
        }
      case (false, true, Some(Active(digest))) =>
        if d.value == digest {
          files := files - {path};
          entries' := entries[path := Tombstone];
        } else {
          entries' := entries - {path};
        }
      case (false, true, None) =>
      case (true, true, Some(Tombstone)) =>
        entries' := entries - {path};
      case (true, false, Some(Tombstone)) =>
      case (false, true, Some(Tombstone)) =>
        entries' := entries - {path};
      case (false, false, Some(Tombstone)) =>
      case (false, false, Some(Active(_))) =>
        entries' := entries[path := Tombstone];
      case (true, true, None) =>
        if d == p {
          entries' := entries[path := Active(p.value)];
        }
      case (false, false, None) =>
    }

    /** Rebuilds everything from the profile. */
    method FullReset(shipped: Contents, mode: Option<Mode>, faulty: set<string>)
      modifies this
      ensures files == Materialized(shipped, faulty)
      ensures manifest == Some(Manifest(Baseline(Materialized(shipped, faulty)), mode))
    {
      files := map[];
      var entries: map<string, Entry> := map[];
      var rest := shipped.Keys;
      while rest != {}
        invariant rest <= shipped.Keys
        invariant files == (shipped - faulty) - rest && entries == Baseline(files)
      {
        var path :| path in rest;
        rest := rest - {path};
        if path !in faulty {
          files := files[path := shipped[path]];
          entries := entries[path := Active(shipped[path])];
        }
      }
      manifest := Some(Manifest(entries, mode));
    }

    /** The order in which paths are taken is left open, and does not matter. */
    method SyncPaths(shipped: Contents, faulty: set<string>, entries0: map<string, Entry>)
      returns (entries: map<string, Entry>)
      modifies this`files
      ensures IsSynced(shipped, faulty, old(files), entries0, files, entries)
    {
      entries := entries0;
      var all := Paths(shipped, files, entries);
      var rest := all;
      while rest != {}
        invariant IsSynced(shipped, faulty + rest, old(files), entries0, files, entries)
      {
        var path :| path in rest;
        ghost var files1, entries1 := files, entries;
        if path !in faulty {
          entries := ApplyDecision(path, Get(shipped, path), entries);
        }
        OneMoreSynced(shipped, faulty, rest, path, old(files), entries0, files1, entries1, files, entries);
        rest := rest - {path};
      }
      assert faulty + rest == faulty;
    }

    /** profile -> project. The profile is refused before anything is touched. */
    method Sync(profile: Option<Profile>, mode: Mode, faulty: set<string>) returns (r: Result<Contents, ProfileError>)
      modifies this
      ensures r.Err? <==> Fault(profile).Some?
      ensures r.Err? ==> Some(r.error) == Fault(profile) && State() == old(State())
      ensures r.Ok? ==> IsShipped(profile.value, mode, r.value) && IsSync(r.value, mode, faulty, old(State()), State())
    {
      var loaded := LoadProfile(profile, mode);
      if loaded.Err? {
        return loaded;
      }
      var shipped := loaded.value;
      if NeedsReset(Project(files, manifest), mode) {
        FullReset(shipped, Some(mode), faulty);
        return Ok(shipped);
      }
      var entries := SyncPaths(shipped, faulty, manifest.value.entries);
      manifest := Some(Manifest(entries, Some(mode)));
      return Ok(shipped);
    }

    /**
     The user's "restore": the profile's version wins for the chosen paths; None means all of them. A bad profile and a
     path that is not one of the profile's kind are refused before anything is touched.
     */
    method ForceResync(
      profile: Option<Profile>, mode: Mode, paths: Option<set<string>>, normal: string -> Option<string>,
      faulty: set<string>)
      returns (r: Result<Contents, ProfileError>)
      modifies this
      ensures r.Err? <==> Fault(profile).Some? || HasBadPath(paths, normal)
      ensures r.Err? ==> State() == old(State())
      ensures r.Err? ==> Some(r.error) == if Fault(profile).Some? then Fault(profile) else Some(BadPath)
      ensures r.Ok? ==> IsShipped(profile.value, mode, r.value)
      ensures r.Ok? ==>
                if paths.None? && old(manifest).None? then
                  IsSync(r.value, mode, faulty, old(State()), State())
                else
                  IsForced(r.value, mode, TargetOf(paths, normal, r.value), faulty, old(State()), State())
    {
      r := LoadProfile(profile, mode);
      if r.Err? {
        return;
      }
      var shipped := r.value;
      if paths.Some? && exists path | path in paths.value :: normal(path).None? {
        return Err(BadPath);
      }
      if manifest.None? && paths.None? {
        FullReset(shipped, Some(mode), faulty);
        return;
      }
      var target := TargetOf(paths, normal, shipped);
      var entries := if manifest.Some? then manifest.value.entries else map[];
      ghost var before := entries;
      var rest := target;
      while rest != {}
        invariant rest <= target
        invariant forall path ::
            (Get(files, path), Get(entries, path)) ==
            if path in target && path !in rest && path in shipped && path !in faulty
            then (Some(shipped[path]), Some(Active(shipped[path])))
            else (Get(old(files), path), Get(before, path))
      {
        var path :| path in rest;
        rest := rest - {path};
        if path in shipped && path !in faulty {
          files := files[path := shipped[path]];
          entries := entries[path := Active(shipped[path])];
        }
      }
      manifest := Some(Manifest(entries, Some(mode)));
    }
  }

  /** Why a profile is refused: it is not there, holds a file for some modes only, or holds nothing. */
  ghost function Fault(profile: Option<Profile>): Option<ProfileError>
  {
    if profile.None? then Some(Missing)
    else if !IsWellFormed(profile.value) then Some(Misconfigured)
    else if profile.value == map[] then Some(Empty)
    else None
  }

  ghost predicate HasBadPath(paths: Option<set<string>>, normal: string -> Option<string>)
  {
    paths.Some? && exists path | path in paths.value :: normal(path).None?
  }

  /** The chosen paths in normal form, or all the profile ships. */
  function TargetOf(paths: Option<set<string>>, normal: string -> Option<string>, shipped: Contents): set<string>
  {
    if paths.None? then shipped.Keys
    else set path | path in paths.value && normal(path).Some? :: normal(path).value
  }

  /** What a profile ships in a mode, when it is fit to be shipped. */
  method LoadProfile(profile: Option<Profile>, mode: Mode) returns (r: Result<Contents, ProfileError>)
    ensures r.Err? <==> Fault(profile).Some?
    ensures r.Err? ==> Some(r.error) == Fault(profile)
    ensures r.Ok? ==> IsShipped(profile.value, mode, r.value)
  {
    if profile.None? {
      return Err(Missing);
    }
    var resolved := ResolveForMode(profile.value, mode);
    if resolved.Err? {
      return Err(Misconfigured);
    }
    MappingIsShipped(profile.value, mode, resolved.value);
    if resolved.value == map[] {
      return Err(Empty);
    }
    return Ok(Shipped(profile.value, resolved.value));
  }

  /** `shipped` is what the profile holds for every logical file in this mode. */
  ghost predicate IsShipped(profile: Profile, mode: Mode, shipped: Contents)
  {
    forall logical ::
      Get(shipped, logical) ==
      match SourceFor(profile, logical, mode) case None => None case Some(source) => Get(profile, source)
  }

  lemma MappingIsShipped(profile: Profile, mode: Mode, mapping: map<string, Source>)
    requires IsWellFormed(profile) && IsMapping(profile, mode, mapping)
    ensures forall logical | logical in mapping :: mapping[logical] in profile
    ensures IsShipped(profile, mode, Shipped(profile, mapping))
    ensures mapping == map[] <==> profile == map[]
  {
    forall logical | logical in mapping ensures mapping[logical] in profile {
      assert Get(mapping, logical) == SourceFor(profile, logical, mode);
    }
    forall logical
      ensures Get(Shipped(profile, mapping), logical) ==
              match SourceFor(profile, logical, mode) case None => None case Some(source) => Get(profile, source)
    {
      assert Get(mapping, logical) == SourceFor(profile, logical, mode);
    }
    if profile != map[] {
      var source :| source in profile;
      assert IsWellPaired(profile, source);
      assert Get(mapping, source.logical) == SourceFor(profile, source.logical, mode);
    }
  }
}
