/** How the rest of the system reads the text of one episode. */
module EpisodeSource {
  import opened Wrappers
  import opened SourceText
  import opened EpisodeFiles
  import opened Ledger
  import opened Tiling
  import opened PlanSpec
  import opened LedgerInvariant
  import opened PlanLaws

  /** The first row with the wanted number. */
  function EpisodeEntry(entries: seq<Entry>, episode: int): Option<Entry>
  {
    if entries == [] then None
    else if NumOf(entries[0]) == Some(episode) then Some(entries[0])
    else EpisodeEntry(entries[1..], episode)
  }

  /**
   The text the ledger gives for an episode: None without a row, usable coordinates, a readable file or any non-blank
   text.
   */
  function LedgerSource(p: Project, disk: Disk, episode: int): Option<string>
  {
    match EpisodeEntry(Rows(p), episode)
    case None => None
    case Some(e) =>
      match PieceOf(disk, map[], e)
      case None => None
      case Some(text) => if IsBlank(text) then None else Some(text)
  }

  /** The first row of the episode. */
  ghost predicate IsFirstRow(entries: seq<Entry>, i: int, episode: int)
  {
    && 0 <= i < |entries| && NumOf(entries[i]) == Some(episode)
    && forall j | 0 <= j < i :: NumOf(entries[j]) != Some(episode)
  }

  /** The stretch of a readable file that the row's coordinates give. */
  ghost predicate IsTextOf(disk: Disk, e: Entry, text: string)
  {
    && Coords(e).Some?
    && var r := Coords(e).value;
       && LoadText(disk, r.rel).Some? && 0 <= r.start <= r.end <= |LoadText(disk, r.rel).value|
       && text == LoadText(disk, r.rel).value[r.start..r.end]
  }

  /** On any ledger, however damaged: the text the ledger gives is what the first row says, unless it is blank. */
  lemma LedgerSourceIff(p: Project, disk: Disk, episode: int, text: string)
    ensures LedgerSource(p, disk, episode) == Some(text) <==>
            !IsBlank(text) && exists i :: IsFirstRow(Rows(p), i, episode) && IsTextOf(disk, Rows(p)[i], text)
  {
    EntryIsFirst(Rows(p), episode);
    if LedgerSource(p, disk, episode) == Some(text) {
      var i :| IsFirstRow(Rows(p), i, episode) && Rows(p)[i] == EpisodeEntry(Rows(p), episode).value;
      assert IsTextOf(disk, Rows(p)[i], text);
    }
    if exists i :: IsFirstRow(Rows(p), i, episode) && IsTextOf(disk, Rows(p)[i], text) {
      var i :| IsFirstRow(Rows(p), i, episode) && IsTextOf(disk, Rows(p)[i], text);
      OnlyFirstRow(Rows(p), i, episode);
    }
  }

  lemma OnlyFirstRow(entries: seq<Entry>, i: int, episode: int)
    requires IsFirstRow(entries, i, episode)
    ensures EpisodeEntry(entries, episode) == Some(entries[i])
  {
    EntryIsFirst(entries, episode);
    var j :| IsFirstRow(entries, j, episode) && entries[j] == EpisodeEntry(entries, episode).value;
    assert i == j;
  }

  lemma {:induction false} EntryIsFirst(entries: seq<Entry>, episode: int)
    ensures match EpisodeEntry(entries, episode)
            case None => forall i | 0 <= i < |entries| :: NumOf(entries[i]) != Some(episode)
            case Some(e) => exists i :: IsFirstRow(entries, i, episode) && entries[i] == e
  {
    if entries == [] {
    } else if NumOf(entries[0]) == Some(episode) {
      assert IsFirstRow(entries, 0, episode);
    } else {
      EntryIsFirst(entries[1..], episode);
      match EpisodeEntry(entries[1..], episode)
      case None =>
        forall i | 0 <= i < |entries| ensures NumOf(entries[i]) != Some(episode) {
          assert i > 0 ==> entries[i] == entries[1..][i - 1];
        }
      case Some(e) =>
        var i :| IsFirstRow(entries[1..], i, episode) && entries[1..][i] == e;
        FirstRowShifts(entries, i + 1, episode);
    }
  }

  lemma FirstRowShifts(entries: seq<Entry>, i: int, episode: int)
    requires entries != [] && NumOf(entries[0]) != Some(episode)
    ensures IsFirstRow(entries, i, episode) <==> IsFirstRow(entries[1..], i - 1, episode)
    ensures IsFirstRow(entries, i, episode) ==> entries[i] == entries[1..][i - 1]
  {
    if IsFirstRow(entries[1..], i - 1, episode) {
      forall j | 0 <= j < i ensures NumOf(entries[j]) != Some(episode) {
        assert j > 0 ==> entries[j] == entries[1..][j - 1];
      }
    }
  }

  lemma {:induction false} NumberedEntry(entries: seq<Entry>, first: int, k: nat)
    requires k < |entries| && forall i | 0 <= i < |entries| :: IsRow(entries[i], first + i)
    ensures EpisodeEntry(entries, first + k) == Some(entries[k])
  {
    assert IsRow(entries[0], first);
    if k > 0 {
      forall i | 0 <= i < |entries| - 1 ensures IsRow(entries[1..][i], first + 1 + i) {
        assert IsRow(entries[i + 1], first + (i + 1));
      }
      NumberedEntry(entries[1..], first + 1, k - 1);
    }
  }

  lemma EntryOf(entries: seq<Entry>, episode: int)
    requires IsNumbered(entries) && 1 <= episode <= |entries|
    ensures EpisodeEntry(entries, episode) == Some(entries[episode - 1])
  {
    forall i | 0 <= i < |entries| ensures IsRow(entries[i], 1 + i) {
      assert IsRow(entries[i], i + 1);
    }
    NumberedEntry(entries, 1, episode - 1);
  }

  /**
   After a commit the ledger and the derived file of every non-blank episode read the same; a blank one has no ledger
   text.
   */
  lemma ReadersAgree(p: Project, disk: Disk, episode: int)
    requires DistinctRels(disk.sources) && IsTiled(p, disk.sources)
    requires InSync(disk.files, p.episodes.entries, disk.sources)
    requires 1 <= episode <= |p.episodes.entries|
    ensures CanonicalName(episode) in disk.files
    ensures LedgerSource(p, disk, episode) ==
            if IsBlank(disk.files[CanonicalName(episode)]) then None else Some(disk.files[CanonicalName(episode)])
  {
    var entries := p.episodes.entries;
    EntryOf(entries, episode);
    AllFiled(disk.files, entries, disk.sources);
    assert IsFiled(disk.files, disk.sources, entries[episode - 1], episode - 1 + 1);
    PieceIsTheFile(disk, entries[episode - 1], disk.files[CanonicalName(episode)]);
  }

  lemma PieceIsTheFile(disk: Disk, e: Entry, piece: string)
    requires IsPieceOf(disk.sources, e, piece)
    ensures PieceOf(disk, map[], e) == Some(piece)
  {
  }

  /** The derived files of episodes 1..n, as far as they belong to one source. */
  ghost function DerivedFiles(files: Files, n: nat): (pieces: seq<string>)
    requires forall num | 1 <= num <= n :: CanonicalName(num) in files
  {
    seq(n, i requires 0 <= i < n => files[CanonicalName(i + 1)])
  }

  /** The derived files of each source, joined in order, are a prefix of its text: nothing lost, repeated or changed. */
  lemma DerivedFilesMakeAPrefix(p: Project, disk: Disk, rel: string)
    requires DistinctRels(disk.sources) && IsTiled(p, disk.sources)
    requires InSync(disk.files, p.episodes.entries, disk.sources)
    ensures var entries := p.episodes.entries;
            var ranges := RangesOf(entries);
            && (forall num | 1 <= num <= |entries| :: CanonicalName(num) in disk.files)
            && 0 <= FileEnd(ranges, rel) <= |TextAt(disk.sources, rel)|
            && Joined(ranges, DerivedFiles(disk.files, |entries|), rel) ==
               TextAt(disk.sources, rel)[..FileEnd(ranges, rel)]
  {
    var entries := p.episodes.entries;
    AllFiled(disk.files, entries, disk.sources);
    DerivedArePieces(disk.files, entries, disk.sources);
    PiecesMakeAPrefix(disk.sources, RangesOf(entries), DerivedFiles(disk.files, |entries|), rel);
  }

  lemma DerivedArePieces(files: Files, entries: seq<Entry>, sources: seq<SourceDoc>)
    requires IsNumbered(entries) && InSync(files, entries, sources)
    requires forall num | 1 <= num <= |entries| :: CanonicalName(num) in files
    ensures forall k | 0 <= k < |entries| :: IsPiece(sources, RangesOf(entries)[k], DerivedFiles(files, |entries|)[k])
  {
    forall k | 0 <= k < |entries| ensures IsPiece(sources, RangesOf(entries)[k], DerivedFiles(files, |entries|)[k]) {
      assert IsFiled(files, sources, entries[k], k + 1);
    }
  }

  lemma AllFiled(files: Files, entries: seq<Entry>, sources: seq<SourceDoc>)
    requires InSync(files, entries, sources)
    ensures forall num | 1 <= num <= |entries| :: CanonicalName(num) in files
  {
    forall num | 1 <= num <= |entries| ensures CanonicalName(num) in files {
      assert IsFiled(files, sources, entries[num - 1], num - 1 + 1);
    }
  }

  // ----- the end of planning

  /** Every non-whitespace character of every source lies in exactly one episode. */
  ghost predicate IsFullyPlanned(p: Project, sources: seq<SourceDoc>)
    requires IsTiled(p, sources)
  {
    IsAllCovered(sources, RangesOf(p.episodes.entries))
  }

  lemma NothingLeftMeansPlanned(p: Project, sources: seq<SourceDoc>)
    requires DistinctRels(sources) && IsTiled(p, sources)
    requires if p.episodes.entries == [] then BlankBetween(sources, 0, |sources|)
             else NothingLeft(sources, LastRange(p.episodes.entries).rel, LastRange(p.episodes.entries).end)
    ensures IsFullyPlanned(p, sources)
  {
    var ranges := RangesOf(p.episodes.entries);
    forall i: nat, offset: nat | i < |sources| && offset < |sources[i].text| && !IsSpace(sources[i].text[offset])
      ensures IsInOneRange(sources, ranges, i, offset)
    {
      FullyCovered(sources, ranges, i, offset);
    }
  }

  /** When a plan call finds the sources exhausted before asking the model, everything is planned. */
  lemma ExhaustedOutlook(p: Project, disk: Disk, windowChars: int, used: map<string, string>)
    requires DistinctRels(disk.sources) && IsTiled(p, disk.sources) && windowChars >= 1
    requires IsOutlook(p, disk, windowChars, Ok(Exhausted(used)))
    ensures IsFullyPlanned(p, disk.sources)
  {
    var sources := disk.sources;
    var healed :| IsRegistered(p, disk, healed)
                  && IsOutlookOfHealed(healed, disk, windowChars, Ok(Exhausted(used)));
    TiledRegistration(p, disk, healed);
    StartIsInSources(p, sources);
    ExhaustedFrom(disk, EffectiveStart(p, sources).value, windowChars, used);
    TiledStart(p, sources);
    if p.episodes.entries == [] {
      IndexOfAt(sources, 0);
      assert sources[0].text[0..] == sources[0].text;
    }
    NothingLeftMeansPlanned(p, sources);
  }

  lemma ExhaustedFrom(disk: Disk, start: Place, windowChars: int, used: map<string, string>)
    requires DistinctRels(disk.sources) && windowChars >= 1
    requires OutlookFrom(disk, start, windowChars) == Ok(Exhausted(used))
    requires 0 <= Idx(disk.sources, start.rel) && 0 <= start.offset <= |TextAt(disk.sources, start.rel)|
    ensures NothingLeft(disk.sources, start.rel, start.offset)
  {
    SkipReaches(disk.sources, Idx(disk.sources, start.rel), start.offset);
  }

  /** When a commit reports the sources exhausted, everything is planned. */
  lemma ExhaustedCommit(
    p: Project, disk: Disk, pending: Pending, normalize: string -> string, r: Result<Committed, PlanError>)
    requires DistinctRels(disk.sources) && IsTiled(p, disk.sources)
    requires IsPending(pending, disk.sources, normalize)
    requires IsCommit(p, disk, pending.snap, pending.drafts, pending.ends, r) && r.Ok? && r.value.exhausted
    ensures IsTiled(r.value.project, disk.sources) && IsFullyPlanned(r.value.project, disk.sources)
  {
    CommittedEnd(p, disk, pending, normalize, r);
    var entries := r.value.project.episodes.entries;
    TiledRowsInBounds(entries, disk.sources);
    LastBatchLeavesNothing(disk.sources, pending.snap, pending.ends);
    NothingLeftMeansPlanned(r.value.project, disk.sources);
  }

  lemma LastBatchLeavesNothing(sources: seq<SourceDoc>, snap: Snap, ends: seq<int>)
    requires ends != [] && IsLastBatch(sources, snap, ends)
    requires 0 <= Idx(sources, snap.rel) && snap.text == TextAt(sources, snap.rel)
    requires 0 <= snap.start + ends[|ends| - 1] <= |snap.text|
    ensures NothingLeft(sources, snap.rel, snap.start + ends[|ends| - 1])
  {
    assert BlankBetween(sources, Idx(sources, snap.rel) + 1, |sources|);
  }
}
