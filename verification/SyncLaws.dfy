/** What repeated syncs promise: they settle, they take nothing from the user, and deletions are remembered. */
module SyncLaws {
  import opened Wrappers
  import opened ProfileSync

  // ----- what one sync does

  /** The file is as the manifest says it was delivered, or neither knows anything of it. */
  ghost predicate IsAsDelivered(p: Project, path: string)
  {
    && p.manifest.Some?
    && var entries := p.manifest.value.entries;
       if path !in entries then path !in p.files
       else entries[path].Active? && Get(p.files, path) == Some(entries[path].digest)
  }

  /** What the manifest is to say about a file, given what was said before and what the project holds now. */
  function EntryFor(shipped: Option<string>, file: Option<string>, before: Option<Entry>): Option<Entry>
  {
    if file.None? then (if before.Some? then Some(Tombstone) else None)
    else if shipped.None? || before == Some(Tombstone) then None
    else if file == shipped then Some(Active(file.value))
    else before
  }

  /**
   A sync that need not rebuild brings every file that is as delivered, or new, to what the profile ships now, be it
   nothing, and leaves every other file alone. The manifest records what is as shipped, buries what it knew and is gone,
   and gives up what the user has made again or the profile no longer has.
   */
  lemma SyncDelivers(
    shipped: Contents, mode: Mode, faulty: set<string>, p: Project, p': Project, path: string)
    requires IsSync(shipped, mode, faulty, p, p') && !NeedsReset(p, mode)
    ensures p'.manifest.Some? && p'.manifest.value.mode == Some(mode)
    ensures path !in faulty ==>
              Get(p'.files, path) == if IsAsDelivered(p, path) then Get(shipped, path) else Get(p.files, path)
    ensures path !in faulty ==>
              Get(p'.manifest.value.entries, path) ==
              EntryFor(Get(shipped, path), Get(p'.files, path), Get(p.manifest.value.entries, path))
    ensures path in faulty ==>
              && Get(p'.files, path) == Get(p.files, path)
              && Get(p'.manifest.value.entries, path) == Get(p.manifest.value.entries, path)
  {
    assert IsSyncedAt(shipped, faulty, p.files, p.manifest.value.entries, p'.files, p'.manifest.value.entries, path);
  }

  /** Each mode gets the common files and its own variants, and nothing else. */
  lemma EachModeGetsItsOwn(profile: Profile, mode: Mode, shipped: Contents)
    requires IsWellFormed(profile) && IsShipped(profile, mode, shipped)
    ensures forall source | source in profile && (source.Common? || source.mode == mode) ::
              Get(shipped, source.logical) == Some(profile[source])
    ensures forall path | path in shipped :: Common(path) in profile || Variant(path, mode) in profile
  {
    forall source | source in profile && (source.Common? || source.mode == mode)
      ensures Get(shipped, source.logical) == Some(profile[source])
    {
      assert IsWellPaired(profile, source);
      assert Get(shipped, source.logical) == match SourceFor(profile, source.logical, mode)
                                             case None => None case Some(chosen) => Get(profile, chosen);
    }
    forall path | path in shipped ensures Common(path) in profile || Variant(path, mode) in profile {
      assert Get(shipped, path) == match SourceFor(profile, path, mode)
                                   case None => None case Some(chosen) => Get(profile, chosen);
    }
  }

  // ----- settling

  /** A file deleted and put back by hand with exactly the profile's content: only the second sync adopts it. */
  ghost predicate IsAdoptedLate(
    shipped: Contents, faulty: set<string>, files: Contents, entries: map<string, Entry>, path: string)
  {
    && path !in faulty
    && RowOf(Get(shipped, path), Get(files, path), Get(entries, path)) == Restored
    && Get(files, path) == Get(shipped, path)
  }

  /** The decision table, applied again and again to its own result. */
  lemma DecisionsSettle(p: Option<string>, d: Option<string>, m: Option<Entry>)
    ensures var first := Decide(p, d, m);
            var second := Decide(p, first.0, first.1);
            && second.0 == first.0
            && (second.1 == first.1 <==> !(RowOf(p, d, m) == Restored && d == p))
            && Decide(p, second.0, second.1) == second
  {
  }

  lemma SettlesAt(
    shipped: Contents, faulty: set<string>, p0: Contents, e0: map<string, Entry>, p1: Contents, e1: map<string, Entry>,
    p2: Contents, e2: map<string, Entry>, p3: Contents, e3: map<string, Entry>, path: string)
    requires IsSyncedAt(shipped, faulty, p0, e0, p1, e1, path)
    requires IsSyncedAt(shipped, faulty, p1, e1, p2, e2, path)
    requires IsSyncedAt(shipped, faulty, p2, e2, p3, e3, path)
    ensures Get(p1, path) == Get(p2, path) == Get(p3, path)
    ensures Get(e1, path) == Get(e2, path) <==> !IsAdoptedLate(shipped, faulty, p0, e0, path)
    ensures Get(e2, path) == Get(e3, path)
  {
    DecisionsSettle(Get(shipped, path), Get(p0, path), Get(e0, path));
  }

  lemma SameByPath<V>(a: map<string, V>, b: map<string, V>)
    requires forall path: string :: Get(a, path) == Get(b, path)
    ensures a == b
  {
    forall path: string ensures path in a <==> path in b {
      assert Get(a, path) == Get(b, path);
    }
    forall path: string | path in a ensures a[path] == b[path] {
      assert Get(a, path) == Get(b, path);
    }
  }

  /**
   With nothing changing outside, one sync settles the files and two the manifest; the second one is needed exactly
   when a deleted file had been put back with the profile's own content.
   */
  lemma SyncsSettle(
    shipped: Contents, mode: Mode, faulty: set<string>, p0: Project, p1: Project, p2: Project, p3: Project)
    requires IsSync(shipped, mode, faulty, p0, p1)
    requires IsSync(shipped, mode, faulty, p1, p2)
    requires IsSync(shipped, mode, faulty, p2, p3)
    ensures p1.files == p2.files == p3.files
    ensures p2 == p3
    ensures p1 == p2 <==>
            NeedsReset(p0, mode)
            || forall path :: !IsAdoptedLate(shipped, faulty, p0.files, p0.manifest.value.entries, path)
  {
    assert !NeedsReset(p1, mode) && !NeedsReset(p2, mode);
    if NeedsReset(p0, mode) {
      RebuildingSettles(shipped, faulty, p1.files, p1.manifest.value.entries, p2.files, p2.manifest.value.entries);
      RebuildingSettles(shipped, faulty, p2.files, p2.manifest.value.entries, p3.files, p3.manifest.value.entries);
    } else {
      DecidingSettles(
        shipped, faulty, p0.files, p0.manifest.value.entries, p1.files, p1.manifest.value.entries,
        p2.files, p2.manifest.value.entries, p3.files, p3.manifest.value.entries);
    }
  }

  /** A project just rebuilt is left as it is. */
  lemma RebuildingSettles(
    shipped: Contents, faulty: set<string>, files: Contents, entries: map<string, Entry>, files': Contents,
    entries': map<string, Entry>)
    requires files == Materialized(shipped, faulty) && entries == Baseline(files)
    requires IsSynced(shipped, faulty, files, entries, files', entries')
    ensures files' == files && entries' == entries
  {
    forall path ensures Get(files', path) == Get(files, path) && Get(entries', path) == Get(entries, path) {
      assert IsSyncedAt(shipped, faulty, files, entries, files', entries', path);
    }
    SameByPath(files', files);
    SameByPath(entries', entries);
  }

  lemma DecidingSettles(
    shipped: Contents, faulty: set<string>, p0: Contents, e0: map<string, Entry>, p1: Contents, e1: map<string, Entry>,
    p2: Contents, e2: map<string, Entry>, p3: Contents, e3: map<string, Entry>)
    requires IsSynced(shipped, faulty, p0, e0, p1, e1)
    requires IsSynced(shipped, faulty, p1, e1, p2, e2)
    requires IsSynced(shipped, faulty, p2, e2, p3, e3)
    ensures p1 == p2 == p3 && e2 == e3
    ensures e1 == e2 <==> forall path :: !IsAdoptedLate(shipped, faulty, p0, e0, path)
  {
    forall path
      ensures Get(p1, path) == Get(p2, path) == Get(p3, path)
      ensures Get(e1, path) == Get(e2, path) <==> !IsAdoptedLate(shipped, faulty, p0, e0, path)
      ensures Get(e2, path) == Get(e3, path)
    {
      SettlesAt(shipped, faulty, p0, e0, p1, e1, p2, e2, p3, e3, path);
    }
    if forall path :: !IsAdoptedLate(shipped, faulty, p0, e0, path) {
      SameByPath(e1, e2);
    }
    SameByPath(p1, p2);
    SameByPath(p2, p3);
    SameByPath(e2, e3);
  }

  // ----- runs

  datatype Event =
    | Sync(mode: Mode, shipped: Contents, faulty: set<string>)
    | Force(mode: Mode, shipped: Contents, target: set<string>, faulty: set<string>)
    | UserWrites(path: string, content: Option<string>)
    | LosesManifest

  /** Mode and profile may be others each time; the user may write or delete any file in between. */
  ghost predicate Next(p: Project, event: Event, p': Project)
  {
    match event
    case Sync(mode, shipped, faulty) => IsSync(shipped, mode, faulty, p, p')
    case Force(mode, shipped, target, faulty) => IsForced(shipped, mode, target, faulty, p, p')
    case UserWrites(path, content) => p' == p.(files := Put(p.files, path, content))
    case LosesManifest => p' == p.(manifest := None)
  }

  /**
   A run that begins with any project whose manifest, if it has one, records as delivered only what has been shipped
   before (`past`): a new project, one rebuilt, one with some paths restored, or one an earlier run has led to.
   */
  ghost predicate IsRun(past: set<(string, string)>, states: seq<Project>, events: seq<Event>)
  {
    && |states| == |events| + 1
    && IsHonest(past, events, 0, states[0])
    && forall i | 0 <= i < |events| :: Next(states[i], events[i], states[i + 1])
  }

  /** Before the run or at one of its first `i` events the profile shipped this content under this path. */
  ghost predicate WasShipped(past: set<(string, string)>, events: seq<Event>, i: nat, path: string, content: string)
  {
    (path, content) in past || exists k :: 0 <= k < i && k < |events| && ShipsAt(events[k], path, content)
  }

  predicate ShipsAt(event: Event, path: string, content: string)
  {
    (event.Sync? || event.Force?) && Get(event.shipped, path) == Some(content)
  }

  /** Whatever the manifest records as delivered was shipped. */
  ghost predicate IsHonest(past: set<(string, string)>, events: seq<Event>, i: nat, p: Project)
  {
    p.manifest.Some? ==>
      forall path | path in p.manifest.value.entries && p.manifest.value.entries[path].Active? ::
        WasShipped(past, events, i, path, p.manifest.value.entries[path].digest)
  }

  /** The entry a sync or a forced restore leaves is the profile's present version or was there before. */
  lemma EntryIsNewOrOld(p: Project, event: Event, p': Project, path: string)
    requires Next(p, event, p') && (event.Sync? || event.Force?)
    requires path in p'.manifest.value.entries && p'.manifest.value.entries[path].Active?
    ensures || ShipsAt(event, path, p'.manifest.value.entries[path].digest)
            || (p.manifest.Some? && Get(p.manifest.value.entries, path) == Get(p'.manifest.value.entries, path))
  {
    if event.Sync? && !NeedsReset(p, event.mode) {
      assert IsSyncedAt(event.shipped, event.faulty, p.files, p.manifest.value.entries,
                        p'.files, p'.manifest.value.entries, path);
    }
  }

  lemma StepStaysHonest(past: set<(string, string)>, events: seq<Event>, i: nat, p: Project, p': Project)
    requires i < |events| && Next(p, events[i], p') && IsHonest(past, events, i, p)
    ensures IsHonest(past, events, i + 1, p')
  {
    if p'.manifest.Some? {
      var entries' := p'.manifest.value.entries;
      forall path | path in entries' && entries'[path].Active?
        ensures WasShipped(past, events, i + 1, path, entries'[path].digest)
      {
        if events[i].Sync? || events[i].Force? {
          EntryIsNewOrOld(p, events[i], p', path);
        }
        if p.manifest.Some? && Get(p.manifest.value.entries, path) == Some(entries'[path]) {
          assert WasShipped(past, events, i, path, entries'[path].digest);
        } else {
          assert ShipsAt(events[i], path, entries'[path].digest);
        }
      }
    }
  }

  lemma {:induction false} RunStaysHonest(
    past: set<(string, string)>, states: seq<Project>, events: seq<Event>, i: nat)
    requires IsRun(past, states, events) && i < |states|
    ensures IsHonest(past, events, i, states[i])
  {
    if i > 0 {
      RunStaysHonest(past, states, events, i - 1);
      assert Next(states[i - 1], events[i - 1], states[i - 1 + 1]);
      StepStaysHonest(past, events, i - 1, states[i - 1], states[i]);
    }
  }

  /**
   A sync that does not have to rebuild the project never overwrites or deletes anything but a version the profile
   itself once shipped under that path: what the user wrote stays.
   */
  lemma NothingOfTheUsersIsLost(
    past: set<(string, string)>, states: seq<Project>, events: seq<Event>, i: nat, path: string)
    requires IsRun(past, states, events) && i < |events|
    requires events[i].Sync? && !NeedsReset(states[i], events[i].mode)
    requires path in states[i].files && Get(states[i + 1].files, path) != Some(states[i].files[path])
    ensures WasShipped(past, events, i, path, states[i].files[path])
  {
    RunStaysHonest(past, states, events, i);
    assert Next(states[i], events[i], states[i + 1]);
    assert IsSyncedAt(events[i].shipped, events[i].faulty, states[i].files, states[i].manifest.value.entries,
                      states[i + 1].files, states[i + 1].manifest.value.entries, path);
  }

  // ----- deletions

  ghost predicate IsBuried(p: Project, path: string)
  {
    p.manifest.Some? && Get(p.manifest.value.entries, path) == Some(Tombstone) && path !in p.files
  }

  /**
   The user makes the file again or asks for it back, the manifest is lost, or another mode has everything rebuilt.
   */
  predicate Revives(p: Project, event: Event, path: string)
  {
    match event
    case Sync(mode, _, _) => NeedsReset(p, mode)
    case Force(_, _, target, _) => path in target
    case UserWrites(other, content) => other == path && content.Some?
    case LosesManifest => true
  }

  lemma StepKeepsBuried(p: Project, event: Event, p': Project, path: string)
    requires Next(p, event, p') && IsBuried(p, path) && !Revives(p, event, path)
    ensures IsBuried(p', path)
  {
    if event.Sync? {
      assert IsSyncedAt(event.shipped, event.faulty, p.files, p.manifest.value.entries,
                        p'.files, p'.manifest.value.entries, path);
    }
  }

  /** Nothing else brings a deleted file back, whatever the profile ships, drops and ships again. */
  lemma {:induction false} DeletionsAreRemembered(
    past: set<(string, string)>, states: seq<Project>, events: seq<Event>, i: nat, j: nat, path: string)
    requires IsRun(past, states, events) && i <= j < |states| && IsBuried(states[i], path)
    requires forall k | i <= k < j :: !Revives(states[k], events[k], path)
    ensures IsBuried(states[j], path)
  {
    if i < j {
      DeletionsAreRemembered(past, states, events, i, j - 1, path);
      assert Next(states[j - 1], events[j - 1], states[j - 1 + 1]);
      assert !Revives(states[j - 1], events[j - 1], path);
      StepKeepsBuried(states[j - 1], events[j - 1], states[j], path);
    }
  }

  /** The manifest records the file as delivered. */
  ghost predicate IsDelivered(p: Project, path: string)
  {
    p.manifest.Some? && path in p.manifest.value.entries && p.manifest.value.entries[path].Active?
  }

  /**
   A file that was delivered and then deleted by the user is buried by the next sync that gets to it, and stays so.
   */
  lemma DeliveredThenDeleted(
    past: set<(string, string)>, states: seq<Project>, events: seq<Event>, i: nat, j: nat, path: string)
    requires IsRun(past, states, events) && i + 2 <= j < |states|
    requires IsDelivered(states[i], path)
    requires events[i] == UserWrites(path, None)
    requires events[i + 1].Sync? && path !in events[i + 1].faulty && !NeedsReset(states[i + 1], events[i + 1].mode)
    requires forall k | i + 2 <= k < j :: !Revives(states[k], events[k], path)
    ensures path !in states[j].files && IsBuried(states[j], path)
  {
    var sync := events[i + 1];
    assert Next(states[i], events[i], states[i + 1]);
    assert Next(states[i + 1], sync, states[i + 1 + 1]);
    assert IsSyncedAt(sync.shipped, sync.faulty, states[i + 1].files, states[i + 1].manifest.value.entries,
                      states[i + 2].files, states[i + 2].manifest.value.entries, path);
    DeletionsAreRemembered(past, states, events, i + 2, j, path);
  }

  // ----- upgrades

  /** The step neither loses the manifest, nor is the user's on this file, nor a sync that fails to get it there. */
  predicate Follows(event: Event, path: string)
  {
    match event
    case Sync(_, shipped, faulty) => path in shipped && path !in faulty
    case Force(_, _, _, _) => true
    case UserWrites(other, _) => other != path
    case LosesManifest => false
  }

  lemma StepFollows(p: Project, event: Event, p': Project, path: string)
    requires Next(p, event, p') && IsAsDelivered(p, path) && Follows(event, path)
    ensures IsAsDelivered(p', path)
    ensures event.Sync? ==> Get(p'.files, path) == Get(event.shipped, path)
  {
    match event
    case Sync(mode, shipped, faulty) =>
      if !NeedsReset(p, mode) {
        SyncDelivers(shipped, mode, faulty, p, p', path);
      }
    case Force(mode, shipped, target, faulty) =>
      assert (Get(p'.files, path), Get(p'.manifest.value.entries, path)) ==
             if path in target && path in shipped && path !in faulty
             then (Some(shipped[path]), Some(Active(shipped[path])))
             else (Get(p.files, path), Get(p.manifest.value.entries, path));
    case UserWrites(_, _) =>
    case LosesManifest =>
  }

  lemma {:induction false} StaysAsDelivered(
    past: set<(string, string)>, states: seq<Project>, events: seq<Event>, i: nat, j: nat, path: string)
    requires IsRun(past, states, events) && i <= j < |states| && IsAsDelivered(states[i], path)
    requires forall k | i <= k < j :: Follows(events[k], path)
    ensures IsAsDelivered(states[j], path)
  {
    if i < j {
      StaysAsDelivered(past, states, events, i, j - 1, path);
      assert Next(states[j - 1], events[j - 1], states[j - 1 + 1]);
      assert Follows(events[j - 1], path);
      StepFollows(states[j - 1], events[j - 1], states[j], path);
    }
  }

  /** A file the user leaves alone follows the profile: after every sync it is what that sync ships. */
  lemma UpgradesArrive(
    past: set<(string, string)>, states: seq<Project>, events: seq<Event>, i: nat, j: nat, path: string)
    requires IsRun(past, states, events) && i <= j < |events| && IsAsDelivered(states[i], path)
    requires forall k | i <= k <= j :: Follows(events[k], path)
    requires events[j].Sync?
    ensures path in events[j].shipped && Get(states[j + 1].files, path) == Some(events[j].shipped[path])
  {
    StaysAsDelivered(past, states, events, i, j, path);
    assert Next(states[j], events[j], states[j + 1]);
    StepFollows(states[j], events[j], states[j + 1], path);
  }
}
