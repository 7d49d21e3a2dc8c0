/** One planning call in two parts: a snapshot taken outside the project lock and a commit made inside it. */
module PlanSpec {
  import opened Wrappers
  import opened SourceText
  import opened EpisodeFiles
  import opened Ledger
  import opened Tiling

  /** A place in a source text: the next batch starts here. */
  datatype Place = Place(rel: string, offset: int)

  datatype PlanError =
    | NoSources
    | MalformedLedger
    | MissingRange
    | SourceChanged
    | StartOutOfBounds
    | NotWritten
    | Unreadable
    | Conflict
    | BadRange

  // ----- where the next batch starts

  /** The row with the highest number among those whose range names a file and an end; the first such row on ties. */
  function LastAnchored(entries: seq<Entry>): Option<(int, Place)>
  {
    if entries == [] then None
    else
      var before := LastAnchored(entries[..|entries| - 1]);
      match Anchor(entries[|entries| - 1])
      case None => before
      case Some(a) => if before.None? || a.0 > before.value.0 then Some(a) else before
  }

  function Anchor(e: Entry): Option<(int, Place)>
  {
    match e
    case Entry(_, RangeMapping(Path(rel), _, Int(end)), _, _, _, _) =>
      (match NumOf(e) case None => None case Some(num) => Some((num, Place(rel, end))))
    case _ => None
  }

  /** The stored cursor, when it is usable. */
  function CursorPlace(cursor: CursorValue): Option<Place>
  {
    match cursor
    case CursorAt(Path(rel), Int(offset)) => if offset >= 0 then Some(Place(rel, offset)) else None
    case _ => None
  }

  /** The further of two places in source order. */
  function Further(sources: seq<SourceDoc>, last: Place, cur: Place): Place
  {
    if cur.rel == last.rel then Place(last.rel, if last.offset >= cur.offset then last.offset else cur.offset)
    else
      var lastAt, curAt := IndexOf(sources, last.rel), IndexOf(sources, cur.rel);
      if lastAt.None? then (if curAt.Some? then cur else last)
      else if curAt.None? || curAt.value < lastAt.value then last
      else cur
  }

  function EffectiveStart(p: Project, sources: seq<SourceDoc>): Option<Place>
  {
    match (LastAnchored(Rows(p)), CursorPlace(p.cursor))
    case (Some(last), Some(cur)) => Some(Further(sources, last.1, cur))
    case (Some(last), None) => Some(last.1)
    case (None, Some(cur)) => Some(cur)
    case (None, None) => if sources == [] then None else Some(Place(sources[0].rel, 0))
  }

  // ----- snapshot

  /**
   What a plan call carries from its snapshot to its commit: the start it saw, the file, offset and text it cut from,
   the window it showed to the model, whether that window reaches the end of the text, and the digests it relied on.
   */
  datatype Snap = Snap(
    startRef: Place, rel: string, start: int, text: string, window: string, final: bool, used: map<string, string>)

  datatype Outlook = Exhausted(used: map<string, string>) | Window(snap: Snap)

  function LoadText(disk: Disk, rel: string): Option<string>
  {
    if IndexOf(disk.sources, rel).Some? then TextOf(disk.sources, rel)
    else if rel in disk.others then Some(disk.others[rel])
    else None
  }

  /** The first place at or after offset `start` of the `i`-th source with something other than whitespace ahead. */
  function SkipBlank(sources: seq<SourceDoc>, i: nat, start: int): (r: Option<(nat, int)>)
    requires i < |sources| && 0 <= start <= |sources[i].text|
    ensures r.Some? ==> r.value.0 < |sources| && 0 <= r.value.1 <= |sources[r.value.0].text|
    decreases |sources| - i
  {
    if !IsBlank(sources[i].text[start..]) then Some((i, start))
    else if i + 1 < |sources| then SkipBlank(sources, i + 1, 0)
    else None
  }

  /** The window grows to the end of the text when less than 1.2 windows are left. */
  function WindowEnd(length: int, start: int, windowChars: int): (end: int)
    requires start < length && windowChars >= 1
    ensures start < end <= length
    ensures (length - start) * 5 <= windowChars * 6 ==> end == length
    ensures end < length ==> end == start + windowChars && (length - end) * 5 > windowChars
  {
    if (length - start) * 5 <= windowChars * 6 then length else start + windowChars
  }

  /** Where a slice bound stands in a text: a negative one counts from the end. */
  function Clip(text: string, at: int): (r: nat)
    ensures r <= |text|
    ensures 0 <= at <= |text| ==> r == at
  {
    if at > |text| then |text| else if at >= 0 then at else if |text| + at >= 0 then |text| + at else 0
  }

  function Slice(text: string, from: int, to: int): (r: string)
    ensures 0 <= from <= to <= |text| ==> r == text[from..to]
  {
    if Clip(text, from) <= Clip(text, to) then text[Clip(text, from)..Clip(text, to)] else ""
  }

  function MakeSnap(startRef: Place, rel: string, start: int, text: string, windowChars: int, used: map<string, string>)
    : Snap
    requires start < |text| && windowChars >= 1
  {
    var end := WindowEnd(|text|, start, windowChars);
    Snap(startRef, rel, start, text, Slice(text, start, end), end >= |text|, used)
  }

  /** The digests of all candidate sources. */
  function Digests(sources: seq<SourceDoc>): (m: map<string, string>)
    ensures forall rel :: rel in m <==> IndexOf(sources, rel).Some?
    ensures forall rel | rel in m :: m[rel] == sources[IndexOf(sources, rel).value].text
  {
    map rel | rel in set i | 0 <= i < |sources| :: sources[i].rel :: sources[IndexOf(sources, rel).value].text
  }

  /** What plan() sees from a given start. */
  function OutlookFrom(disk: Disk, startRef: Place, windowChars: int): Result<Outlook, PlanError>
    requires windowChars >= 1
  {
    match LoadText(disk, startRef.rel)
    case None => Err(Unreadable)
    case Some(text) =>
      if startRef.offset > |text| then Err(StartOutOfBounds)
      else
        var used := Digests(disk.sources)[startRef.rel := text];
        var from := Clip(text, startRef.offset);
        match IndexOf(disk.sources, startRef.rel)
        case None =>
          if IsBlank(text[from..]) then Ok(Exhausted(used))
          else
            BlankEnd(text, startRef.offset);
            Ok(Window(MakeSnap(startRef, startRef.rel, startRef.offset, text, windowChars, used)))
        case Some(i) =>
          match SkipBlank(disk.sources, i, from)
          case None => Ok(Exhausted(used))
          case Some(at) =>
            SkipStops(disk.sources, i, from);
            var doc := disk.sources[at.0];
            var start := if at.0 == i then startRef.offset else at.1;
            BlankEnd(doc.text, start);
            Ok(Window(MakeSnap(startRef, doc.rel, start, doc.text, windowChars, used)))
  }

  lemma BlankEnd(text: string, offset: int)
    requires offset <= |text| && !IsBlank(text[Clip(text, offset)..])
    ensures offset < |text|
  {
  }

  lemma {:induction false} SkipStops(sources: seq<SourceDoc>, i: nat, start: int)
    requires i < |sources| && 0 <= start <= |sources[i].text|
    ensures var r := SkipBlank(sources, i, start);
            r.Some? ==> && !IsBlank(sources[r.value.0].text[r.value.1..])
                        && i <= r.value.0 && (r.value.0 == i ==> r.value.1 == start)
    decreases |sources| - i
  {
    if IsBlank(sources[i].text[start..]) && i + 1 < |sources| {
      SkipStops(sources, i + 1, 0);
    }
  }

  /** The gates of the snapshot and what lies behind them. */
  ghost predicate IsOutlook(p: Project, disk: Disk, windowChars: int, r: Result<Outlook, PlanError>)
    requires windowChars >= 1
  {
    exists healed :: IsRegistered(p, disk, healed) && IsOutlookOfHealed(healed, disk, windowChars, r)
  }

  ghost predicate IsOutlookOfHealed(healed: Project, disk: Disk, windowChars: int, r: Result<Outlook, PlanError>)
    requires windowChars >= 1
  {
    if SomeLackRange(Rows(healed)) then r == Err(MissingRange)
    else if Mismatched(healed.fingerprints, disk.sources) != {} then r == Err(SourceChanged)
    else if healed.episodes.Malformed? then r == Err(MalformedLedger)
    else
      match EffectiveStart(healed, disk.sources)
      case None => r == Err(NoSources)
      case Some(startRef) => r == OutlookFrom(disk, startRef, windowChars)
  }

  // ----- commit

  /** The part of a draft that ends up in the ledger. */
  datatype Draft = Draft(title: string, hook: string, endAnchor: string)

  /** A finished commit: the new ledger, the new directory listing, and what the caller is told. */
  datatype Committed = Committed(project: Project, files: Files, exhausted: bool, stale: set<int>)

  predicate ChangedSince(used: map<string, string>, sources: seq<SourceDoc>)
  {
    exists rel | rel in used :: TextOf(sources, rel) != Some(used[rel])
  }

  function NonNull(entries: seq<Entry>): seq<Entry>
  {
    if entries == [] then []
    else NonNull(entries[..|entries| - 1]) + (if entries[|entries| - 1].Null? then [] else [entries[|entries| - 1]])
  }

  /** The highest positive number in use, or 0. */
  function MaxNum(entries: seq<Entry>): (m: nat)
  {
    if entries == [] then 0
    else
      var before := MaxNum(entries[..|entries| - 1]);
      var num := NumOf(entries[|entries| - 1]);
      if num.Some? && num.value > before then num.value else before
  }

  function PlannedEntry(num: int, draft: Draft, r: Range): Entry
  {
    Entry(Whole(num), RangeMapping(Path(r.rel), Int(r.start), Int(r.end)), Planned, Path(ScriptRel(num)),
          draft.title, draft.hook)
  }

  /** The episode about to be numbered `num` has been consumed before. */
  predicate AlreadyProduced(disk: Disk, num: int)
  {
    HasDownstreamProducts(disk, num, Path(ScriptRel(num)))
  }

  function NewEntry(disk: Disk, num: int, draft: Draft, r: Range): Entry
  {
    var entry := PlannedEntry(num, draft, r);
    if AlreadyProduced(disk, num) then entry.(status := Stale) else entry
  }

  function NewEntries(disk: Disk, next: int, drafts: seq<Draft>, ranges: seq<Range>): (r: seq<Entry>)
    requires |drafts| == |ranges|
  {
    seq(|drafts|, i requires 0 <= i < |drafts| => NewEntry(disk, next + i, drafts[i], ranges[i]))
  }

  lemma OneMoreEntry(disk: Disk, next: int, drafts: seq<Draft>, ranges: seq<Range>, i: nat)
    requires i < |drafts| == |ranges|
    ensures NewEntries(disk, next, drafts[..i + 1], ranges[..i + 1]) ==
            NewEntries(disk, next, drafts[..i], ranges[..i]) + [NewEntry(disk, next + i, drafts[i], ranges[i])]
  {
  }

  /** The text a row stands for: None when its coordinates are missing, unreadable or out of bounds. */
  function PieceOf(disk: Disk, cache: map<string, string>, e: Entry): Option<string>
  {
    match Coords(e)
    case None => None
    case Some(r) =>
      match if r.rel in cache then Some(cache[r.rel]) else LoadText(disk, r.rel)
      case None => None
      case Some(text) => if 0 <= r.start <= r.end <= |text| then Some(text[r.start..r.end]) else None
  }

  /** What reconciliation writes, number by number in the order of rows; None when some numbered row has no text. */
  function WritesOf(disk: Disk, cache: map<string, string>, entries: seq<Entry>): Option<seq<(int, string)>>
  {
    if entries == [] then Some([])
    else
      var e := entries[|entries| - 1];
      match WritesOf(disk, cache, entries[..|entries| - 1])
      case None => None
      case Some(writes) =>
        if NumOf(e).None? then Some(writes)
        else
          match PieceOf(disk, cache, e)
          case None => None
          case Some(piece) => Some(writes + [(NumOf(e).value, piece)])
  }

  function Applied(files: Files, writes: seq<(int, string)>): Files
  {
    if writes == [] then files
    else Applied(files, writes[..|writes| - 1])[CanonicalName(writes[|writes| - 1].0) := writes[|writes| - 1].1]
  }

  lemma AppliedStep(files: Files, writes: seq<(int, string)>, done: nat)
    requires done < |writes|
    ensures Applied(files, writes[..done + 1]) ==
            Applied(files, writes[..done])[CanonicalName(writes[done].0) := writes[done].1]
  {
    assert writes[..done + 1][..done] == writes[..done];
  }

  /** The listing after all of that has been written. */
  function Written(disk: Disk, cache: map<string, string>, entries: seq<Entry>): Option<Files>
  {
    match WritesOf(disk, cache, entries)
    case None => None
    case Some(writes) => Some(Applied(disk.files, writes))
  }

  /** What is removed last: the file standing for each number outside `keep`, and the leftover text. */
  ghost predicate IsResidue(files: Files, keep: set<int>, name: string)
  {
    name == REMAINING || (IsFirstAlias(files, name) && EpisodeNumber(name).value !in keep)
  }

  /** The residue is gone, apart from what cannot be removed; everything else is as it was. */
  ghost predicate IsSwept(files: Files, keep: set<int>, stuck: set<string>, swept: Files)
  {
    && swept.Keys <= files.Keys
    && (forall name | name in swept :: swept[name] == files[name])
    && forall name | name in files :: name in swept <==> name in stuck || !IsResidue(files, keep, name)
  }

  /** The derived files a commit leaves behind. */
  ghost predicate IsReconciled(disk: Disk, cache: map<string, string>, entries: seq<Entry>, r: Option<Files>)
  {
    match Written(disk, cache, entries)
    case None => r == None
    case Some(written) => r.Some? && IsSwept(written, KnownNums(entries), disk.stuck, r.value)
  }

  // ----- a commit the system stops

  /**
   Where the system stops a commit: in writing a file, perhaps after `begun` characters of it, in removing residue,
   with `left` not yet dealt with, or in saving the ledger.
   */
  datatype Trouble = NoTrouble | AtWrite(done: nat, begun: Option<nat>) | AtSweep(left: set<string>) | AtSave

  /** The names that stay although they are residue. */
  function Staying(stuck: set<string>, trouble: Trouble): set<string>
  {
    if trouble.AtSweep? then stuck + trouble.left else stuck
  }

  /** The listing after `done` writes and the beginning, if any, of the next. */
  function TornFiles(files: Files, writes: seq<(int, string)>, done: nat, begun: Option<nat>): Files
    requires done < |writes|
  {
    var before := Applied(files, writes[..done]);
    if begun.None? then before
    else before[CanonicalName(writes[done].0) := Beginning(writes[done].1, begun.value)]
  }

  function Beginning(text: string, count: nat): string
  {
    if count < |text| then text[..count] else text
  }

  /** `files` is what reconciliation leaves when `trouble` stops it or the saving that follows. */
  ghost predicate IsStopped(
    disk: Disk, cache: map<string, string>, entries: seq<Entry>, trouble: Trouble, files: Files)
  {
    match (WritesOf(disk, cache, entries), trouble)
    case (Some(writes), AtWrite(done, begun)) =>
      done < |writes| && files == TornFiles(disk.files, writes, done, begun)
    case (_, NoTrouble) => false
    case (None, _) => false
    case (Some(writes), _) =>
      IsSwept(Applied(disk.files, writes), KnownNums(entries), Staying(disk.stuck, trouble), files)
  }

  /** A commit passes its checks, is stopped while it writes, and leaves the ledger as it was. */
  ghost predicate IsFailedCommit(
    p: Project, disk: Disk, snap: Snap, drafts: seq<Draft>, ends: seq<int>, trouble: Trouble, files: Files)
    requires |drafts| == |ends| > 0
  {
    exists healed ::
      IsRegistered(p, disk, healed) && IsFailedCommitOfHealed(healed, disk, snap, drafts, ends, trouble, files)
  }

  ghost predicate IsFailedCommitOfHealed(
    healed: Project, disk: Disk, snap: Snap, drafts: seq<Draft>, ends: seq<int>, trouble: Trouble, files: Files)
    requires |drafts| == |ends| > 0
  {
    && Refusal(healed, disk, snap) == None
    && IsStopped(disk, map[snap.rel := snap.text], CommittedRows(healed, disk, snap, drafts, ends), trouble, files)
  }

  function NextSource(sources: seq<SourceDoc>, rel: string): Option<string>
  {
    match IndexOf(sources, rel)
    case None => None
    case Some(i) => if i + 1 < |sources| then Some(sources[i + 1].rel) else None
  }

  ghost predicate IsCommit(
    p: Project, disk: Disk, snap: Snap, drafts: seq<Draft>, ends: seq<int>, r: Result<Committed, PlanError>)
    requires |drafts| == |ends| > 0
  {
    exists healed :: IsRegistered(p, disk, healed) && IsCommitOfHealed(healed, disk, snap, drafts, ends, r)
  }

  ghost predicate IsCommitOfHealed(
    healed: Project, disk: Disk, snap: Snap, drafts: seq<Draft>, ends: seq<int>, r: Result<Committed, PlanError>)
    requires |drafts| == |ends| > 0
  {
    match Refusal(healed, disk, snap)
    case Some(e) => r == Err(e)
    case None =>
      if r.Ok? then IsDone(healed, disk, snap, drafts, ends, r.value)
      else
        r == Err(BadRange)
        && IsReconciled(disk, map[snap.rel := snap.text], CommittedRows(healed, disk, snap, drafts, ends), None)
  }

  /** The first of the commit's checks that fails. */
  ghost function Refusal(healed: Project, disk: Disk, snap: Snap): Option<PlanError>
  {
    if SomeLackRange(Rows(healed)) then Some(MissingRange)
    else if healed.episodes.Malformed? then Some(MalformedLedger)
    else if EffectiveStart(healed, disk.sources).None? then Some(NoSources)
    else if EffectiveStart(healed, disk.sources) != Some(snap.startRef) then Some(Conflict)
    else if Mismatched(healed.fingerprints, disk.sources) != {} then Some(SourceChanged)
    else if ChangedSince(snap.used, disk.sources) then Some(SourceChanged)
    else None
  }

  ghost predicate IsDone(
    healed: Project, disk: Disk, snap: Snap, drafts: seq<Draft>, ends: seq<int>, done: Committed)
    requires |drafts| == |ends| > 0
  {
    IsDoneWith(
      CommittedRows(healed, disk, snap, drafts, ends), disk, snap, ends, StaleNums(healed, disk, |drafts|), done)
  }

  /** What a finished commit consists of, given the rows it writes. */
  ghost predicate IsDoneWith(
    entries: seq<Entry>, disk: Disk, snap: Snap, ends: seq<int>, stale: set<int>, done: Committed)
    requires ends != []
  {
    && done.project == CommittedProject(entries, disk, snap, ends)
    && IsReconciled(disk, map[snap.rel := snap.text], entries, Some(done.files))
    && done.exhausted == IsLastBatch(disk.sources, snap, ends)
    && done.stale == stale
  }

  function CommittedRows(healed: Project, disk: Disk, snap: Snap, drafts: seq<Draft>, ends: seq<int>): seq<Entry>
    requires |drafts| == |ends|
  {
    var kept := NonNull(WalkedRows(healed));
    var ranges := BatchRanges(snap.rel, snap.start, ends);
    SortIfPossible(kept + NewEntries(disk, MaxNum(kept) + 1, drafts, ranges))
  }

  function CommittedProject(entries: seq<Entry>, disk: Disk, snap: Snap, ends: seq<int>): Project
    requires ends != []
  {
    Project(Listed(entries), CursorAt(Path(snap.rel), Int(snap.start + ends[|ends| - 1])),
            Recorded(CurrentFingerprints(disk.sources)))
  }

  /** The new numbers that already have products on disk. */
  function StaleNums(healed: Project, disk: Disk, count: nat): set<int>
  {
    ProducedFrom(disk, MaxNum(NonNull(WalkedRows(healed))) + 1, count)
  }

  function ProducedFrom(disk: Disk, first: int, count: nat): set<int>
  {
    set num | first <= num < first + count && AlreadyProduced(disk, num) :: num
  }

  /** source_exhausted as a commit reports it. */
  predicate IsLastBatch(sources: seq<SourceDoc>, snap: Snap, ends: seq<int>)
    requires ends != []
  {
    var end := snap.start + ends[|ends| - 1];
    && snap.final
    && IsBlank(snap.text[Clip(snap.text, end)..])
    && NextSource(sources, snap.rel).None?
  }
}
