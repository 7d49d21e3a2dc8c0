/** A run that passes over a file: it is added while a plan call is in flight, and the commit goes on behind it. */
module PassedOver {
  import opened Wrappers
  import opened SourceText
  import opened Boundaries
  import opened EpisodeFiles
  import opened Ledger
  import opened Tiling
  import opened PlanSpec
  import opened LedgerInvariant
  import opened PlanLaws
  import opened EpisodeSource
  import opened CommitFailures
  import opened Planner
  import opened NewSources
  import opened SharedLedger
  import opened SharedCommits
  import opened SharedRuns
  import P = PlanRuns

  /** A file of nothing but a blank, and one with text. */
  function FirstSources(): seq<SourceDoc>
  {
    [SourceDoc("a", " "), SourceDoc("c", "xy")]
  }

  function LaterSources(): seq<SourceDoc>
  {
    [SourceDoc("a", " "), SourceDoc("b", "zz"), SourceDoc("c", "xy")]
  }

  function FirstDisk(): Disk
  {
    Disk(FirstSources(), map[], map[], {}, {}, {}, {})
  }

  function LaterDisk(): Disk
  {
    FirstDisk().(sources := LaterSources())
  }

  /** One episode that takes the whole of the second file. */
  function FirstPending(): Pending
  {
    Pending(Snap(Place("a", 0), "c", 0, "xy", "xy", true, map["a" := " ", "c" := "xy"]), [Draft("", "", "xy")], [2])
  }

  lemma FirstPlaces()
    ensures DistinctRels(FirstSources()) && DistinctRels(LaterSources())
    ensures IndexOf(FirstSources(), "a") == Some(0) && IndexOf(FirstSources(), "c") == Some(1)
    ensures IndexOf(LaterSources(), "a") == Some(0) && IndexOf(LaterSources(), "b") == Some(1)
    ensures IndexOf(LaterSources(), "c") == Some(2)
    ensures IsNew(FirstSources(), 1, SourceDoc("b", "zz"))
    ensures Inserted(FirstSources(), 1, SourceDoc("b", "zz")) == LaterSources()
  {
    IndexOfAt(FirstSources(), 0);
    IndexOfAt(FirstSources(), 1);
    IndexOfAt(LaterSources(), 0);
    IndexOfAt(LaterSources(), 1);
    IndexOfAt(LaterSources(), 2);
  }

  lemma FirstDigests()
    ensures Digests(FirstSources())["a" := " "] == map["a" := " ", "c" := "xy"]
  {
    FirstPlaces();
    var m := Digests(FirstSources());
    forall rel | rel in m ensures rel == "a" || rel == "c" {
      assert IndexOf(FirstSources(), rel).Some?;
    }
  }

  lemma FirstSkip()
    ensures SkipBlank(FirstSources(), 0, 0) == Some((1, 0))
  {
    var sources := FirstSources();
    assert " "[0..] == " " && "xy"[0..] == "xy";
    assert !IsSpace("xy"[0]) && IsSpace(" "[0]);
    assert IsBlank(sources[0].text[0..]) && !IsBlank(sources[1].text[0..]);
    assert SkipBlank(sources, 1, 0) == Some((1, 0));
  }

  lemma FirstOutlook()
    ensures OutlookFrom(FirstDisk(), Place("a", 0), 2) == Ok(Window(FirstPending().snap))
  {
    FirstPlaces();
    FirstSkip();
    FirstDigests();
    assert "xy"[0..2] == "xy";
  }

  lemma FirstResolution(normalize: string -> string)
    ensures Anchors(FirstPending().drafts) == ["xy"] && IsResolution("xy", ["xy"], true, normalize, [2])
  {
    SmallResolution(normalize);
  }

  /** The empty ledger registers as it is, and planning goes on from the top. */
  lemma EmptyAt(disk: Disk)
    requires disk.files == map[]
    ensures NoOrphans([], disk.files) && IsRegistered(EmptyProject(), disk, EmptyProject())
  {
    assert forall num :: !HasEpisodeFile(disk.files, num);
    RegistersAsItIs(EmptyProject(), disk);
  }

  function FirstState(): P.State
  {
    P.State(EmptyProject(), FirstDisk(), {})
  }

  function SecondState(): P.State
  {
    P.State(EmptyProject(), FirstDisk(), {FirstPending()})
  }

  function ThirdState(): P.State
  {
    P.State(EmptyProject(), LaterDisk(), {FirstPending()})
  }

  lemma FirstIsOutlook()
    ensures IsOutlook(EmptyProject(), FirstDisk(), 2, Ok(Window(FirstPending().snap)))
  {
    EmptyAt(FirstDisk());
    FirstPlaces();
    FirstOutlook();
    assert IsOutlookOfHealed(EmptyProject(), FirstDisk(), 2, Ok(Window(FirstPending().snap)));
  }

  lemma FirstBegins(normalize: string -> string)
    ensures P.Begins(normalize, FirstState(), SecondState(), 2, FirstPending())
  {
    FirstIsOutlook();
    FirstResolution(normalize);
  }

  function LaterRows(): seq<Entry>
  {
    [NewEntry(LaterDisk(), 1, Draft("", "", "xy"), Range("c", 0, 2))]
  }

  lemma LaterRowsCommitted()
    ensures var pending := FirstPending();
            CommittedRows(EmptyProject(), LaterDisk(), pending.snap, pending.drafts, pending.ends) == LaterRows()
  {
    BatchRows(EmptyProject(), LaterDisk(), FirstPending());
    assert CommittedEntries(EmptyProject(), LaterDisk(), FirstPending()) == LaterRows();
  }

  lemma LaterWrites()
    ensures WritesOf(LaterDisk(), map["c" := "xy"], LaterRows()) == Some([(1, "xy")])
    ensures KnownNums(LaterRows()) == {1}
  {
    var rows, cache := LaterRows(), map["c" := "xy"];
    NewEntryIsRow(LaterDisk(), 1, Draft("", "", "xy"), Range("c", 0, 2));
    assert "xy"[0..2] == "xy";
    assert PieceOf(LaterDisk(), cache, rows[0]) == Some("xy") && NumOf(rows[0]) == Some(1);
    assert rows[..|rows| - 1] == [];
    var none: seq<(int, string)> := [];
    assert none + [(1, "xy")] == [(1, "xy")];
    assert 1 in KnownNums(rows);
  }

  /** One derived file, and no residue. */
  function LaterFiles(): Files
  {
    map[CanonicalName(1) := "xy"]
  }

  lemma LaterReconciled()
    ensures IsReconciled(LaterDisk(), map["c" := "xy"], LaterRows(), Some(LaterFiles()))
  {
    LaterWrites();
    var writes := [(1, "xy")];
    assert writes[..|writes| - 1] == [];
    assert Applied(map[], writes) == LaterFiles();
    RemainingIsNoEpisode();
    assert EpisodeNumber(CanonicalName(1)) == Some(1);
    assert !IsResidue(LaterFiles(), {1}, CanonicalName(1));
  }

  lemma LaterIsLast()
    ensures IsLastBatch(LaterSources(), FirstPending().snap, [2])
  {
    FirstPlaces();
    assert "xy"[2..] == "";
  }

  function LaterDone(): Committed
  {
    Committed(CommittedProject(LaterRows(), LaterDisk(), FirstPending().snap, [2]), LaterFiles(), true,
              StaleNums(EmptyProject(), LaterDisk(), 1))
  }

  lemma LaterRefusal()
    ensures Refusal(EmptyProject(), LaterDisk(), FirstPending().snap) == None
  {
    FirstPlaces();
    assert !ChangedSince(FirstPending().snap.used, LaterSources());
  }

  lemma LaterCommits()
    ensures P.Commits(ThirdState(), LastState(), FirstPending(), Ok(LaterDone()))
  {
    var pending := FirstPending();
    EmptyAt(LaterDisk());
    LaterRowsCommitted();
    LaterReconciled();
    LaterIsLast();
    LaterRefusal();
    assert IsDone(EmptyProject(), LaterDisk(), pending.snap, pending.drafts, pending.ends, LaterDone());
    assert IsCommitOfHealed(
        EmptyProject(), LaterDisk(), pending.snap, pending.drafts, pending.ends, Ok(LaterDone()));
    assert {pending} - {pending} == {};
  }

  function LastState(): P.State
  {
    P.State(LaterDone().project, LaterDisk().(files := LaterFiles()), {})
  }

  function TheSteps(): seq<Step>
  {
    [Own(P.Begin(2, FirstPending())), AddSource(1, SourceDoc("b", "zz")),
     Own(P.CommitBatch(FirstPending(), Ok(LaterDone())))]
  }

  function TheStates(): seq<P.State>
  {
    [FirstState(), SecondState(), ThirdState(), LastState()]
  }

  lemma FirstStep(normalize: string -> string)
    ensures Next(normalize, FirstState(), Own(P.Begin(2, FirstPending())), SecondState())
  {
    FirstBegins(normalize);
  }

  lemma SecondStep(normalize: string -> string)
    ensures Next(normalize, SecondState(), AddSource(1, SourceDoc("b", "zz")), ThirdState())
  {
    FirstPlaces();
  }

  lemma ThirdStep(normalize: string -> string)
    ensures Next(normalize, ThirdState(), Own(P.CommitBatch(FirstPending(), Ok(LaterDone()))), LastState())
  {
    LaterCommits();
  }

  lemma FirstIsInitial()
    ensures IsInitial(FirstState())
  {
    FirstPlaces();
  }

  lemma TheRun(normalize: string -> string)
    ensures IsRun(normalize, TheStates(), TheSteps())
  {
    FirstIsInitial();
    FirstStep(normalize);
    SecondStep(normalize);
    ThirdStep(normalize);
    ThreeStepsMakeARun(normalize, FirstState(), SecondState(), ThirdState(), LastState(),
                       Own(P.Begin(2, FirstPending())), AddSource(1, SourceDoc("b", "zz")),
                       Own(P.CommitBatch(FirstPending(), Ok(LaterDone()))));
  }

  lemma ThreeStepsMakeARun(
    normalize: string -> string, a: P.State, b: P.State, c: P.State, d: P.State, ab: Step, bc: Step, cd: Step)
    requires IsInitial(a) && Next(normalize, a, ab, b) && Next(normalize, b, bc, c) && Next(normalize, c, cd, d)
    ensures IsRun(normalize, [a, b, c, d], [ab, bc, cd])
  {
  }

  lemma TheStepLetsGo()
    ensures LetsGo(ThirdState(), Own(P.CommitBatch(FirstPending(), Ok(LaterDone()))), LastState(), "b", 0)
  {
    FirstPlaces();
    assert !IsSpace("zz"[0]);
  }

  /**
   The input that shows it: a file sorts before the one a plan call has just cut from, and is added before the call
   commits. The commit goes through and reports that everything is planned, and the file is in no episode.
   */
  lemma OneFileIsPassedOver(normalize: string -> string)
    ensures IsRun(normalize, TheStates(), TheSteps()) && LaterDone().exhausted
    ensures LetsGo(TheStates()[2], TheSteps()[2], TheStates()[3], "b", 0)
    ensures IsSkipped(LastState().project, LaterSources(), "b", 0)
    ensures !IsAllTaken(LastState().project, LaterSources())
  {
    TheRun(normalize);
    TheStepLetsGo();
    SkipsAt(normalize, TheStates(), TheSteps(), 3, "b", 0);
  }
}
