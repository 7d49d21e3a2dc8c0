/** What a plan call shows the model, and what the episodes it commits say and contain. */
module PlanContents {
  import opened Wrappers
  import opened SourceText
  import opened Boundaries
  import opened Ledger
  import opened Tiling
  import opened PlanSpec
  import opened LedgerInvariant
  import opened PlanLaws

  // ----- the window

  /** The stretch of `text` that begins at `start` and is as long as `window`. */
  predicate IsStretch(text: string, start: int, window: string)
  {
    0 <= start && start + |window| <= |text| && window == text[start..start + |window|]
  }

  /** A slice bound below zero counts from the end, and reaches no further than the beginning. */
  function FromEnd(text: string, at: int): (r: nat)
    requires at < 0
    ensures r <= |text|
  {
    if |text| + at >= 0 then |text| + at else 0
  }

  /**
   Every snapshot shows the text of its file from its start on: all that is left, when that is no more than 1.2 windows,
   and one window otherwise. A start below zero, which only a damaged ledger gives, counts from the end.
   */
  lemma WindowIsText(disk: Disk, windowChars: int, snap: Snap)
    requires DistinctRels(disk.sources) && windowChars >= 1 && IsSnapOf(disk.sources, disk, windowChars, snap)
    ensures LoadText(disk, snap.rel) == Some(snap.text)
    ensures snap.start >= 0 ==>
              && IsStretch(snap.text, snap.start, snap.window)
              && |snap.window| == (if (|snap.text| - snap.start) * 5 <= windowChars * 6 then |snap.text| - snap.start
                                   else windowChars)
              && (snap.final <==> snap.start + |snap.window| == |snap.text|)
    ensures snap.start < 0 ==>
              exists to | FromEnd(snap.text, snap.start) <= to <= |snap.text| ::
                snap.window == snap.text[FromEnd(snap.text, snap.start)..to]
  {
    SnapIsMade(disk, windowChars, snap);
    if snap.start < 0 {
      SliceFromEnd(snap.text, snap.start, WindowEnd(|snap.text|, snap.start, windowChars));
    }
  }

  lemma SliceFromEnd(text: string, at: int, end: int)
    requires at < 0
    ensures exists to | FromEnd(text, at) <= to <= |text| :: Slice(text, at, end) == text[FromEnd(text, at)..to]
  {
    var from, to := FromEnd(text, at), Clip(text, end);
    assert Slice(text, at, end) == text[from..if from <= to then to else from];
  }

  lemma SnapIsMade(disk: Disk, windowChars: int, snap: Snap)
    requires DistinctRels(disk.sources) && windowChars >= 1 && IsSnapOf(disk.sources, disk, windowChars, snap)
    ensures LoadText(disk, snap.rel) == Some(snap.text) && snap.start < |snap.text|
    ensures snap == MakeSnap(snap.startRef, snap.rel, snap.start, snap.text, windowChars, snap.used)
  {
    var text := LoadText(disk, snap.startRef.rel).value;
    var from := Clip(text, snap.startRef.offset);
    match IndexOf(disk.sources, snap.startRef.rel)
    case None =>
      BlankEnd(text, snap.startRef.offset);
    case Some(i) =>
      SkipStops(disk.sources, i, from);
      var at := SkipBlank(disk.sources, i, from).value;
      IndexOfAt(disk.sources, at.0);
      BlankEnd(disk.sources[at.0].text, if at.0 == i then snap.startRef.offset else at.1);
  }

  // ----- anchors

  /** The text ends with these characters, and there are some. */
  predicate EndsIn(text: string, tail: string)
  {
    tail != "" && |tail| <= |text| && text[|text| - |tail|..] == tail
  }

  /** Up to `end` the text ends with the anchor, or with its normal form up to folding. */
  ghost predicate IsAnchoredAt(text: string, end: int, anchor: string, normalize: string -> string)
  {
    && 0 <= end <= |text|
    && (EndsIn(text[..end], anchor) || EndsIn(Fold(text[..end]), Fold(normalize(anchor))))
  }

  /** The same, or, for the last of a batch, with nothing but whitespace after it. */
  ghost predicate IsEndFor(text: string, end: int, anchor: string, normalize: string -> string, isLast: bool)
  {
    exists cut | 0 <= cut <= end <= |text| ::
      IsAnchoredAt(text, cut, anchor, normalize) && IsBlank(text[cut..end]) && (isLast || cut == end)
  }

  lemma OccursInStretch(text: string, start: int, window: string, needle: string, at: int)
    requires IsStretch(text, start, window) && OccursAt(window, needle, at)
    ensures EndsIn(text[..start + at + |needle|], needle)
  {
    var upTo := text[..start + at + |needle|];
    forall k | 0 <= k < |needle| ensures upTo[|upTo| - |needle| + k] == needle[k] {
      assert window[at..at + |needle|][k] == needle[k];
    }
  }

  lemma FoldedStretch(text: string, start: int, window: string)
    requires IsStretch(text, start, window)
    ensures IsStretch(Fold(text), start, Fold(window))
  {
  }

  lemma FoldedStart(text: string, end: int)
    requires 0 <= end <= |text|
    ensures Fold(text)[..end] == Fold(text[..end])
  {
  }

  lemma AnchoredInText(
    text: string, start: int, window: string, anchor: string, normalize: string -> string, end: int)
    requires IsStretch(text, start, window) && EndsAt(window, anchor, normalize, end)
    ensures IsAnchoredAt(text, start + end, anchor, normalize)
  {
    if Occurs(window, anchor) {
      OccursInStretch(text, start, window, anchor, end - |anchor|);
    } else {
      var needle := Fold(normalize(anchor));
      FoldedStretch(text, start, window);
      OccursInStretch(Fold(text), start, Fold(window), needle, end - |needle|);
      FoldedStart(text, start + end);
    }
  }

  lemma AnchoredIsEnd(text: string, end: int, anchor: string, normalize: string -> string, isLast: bool)
    requires IsAnchoredAt(text, end, anchor, normalize)
    ensures IsEndFor(text, end, anchor, normalize, isLast)
  {
    assert text[end..end] == "";
  }

  lemma SnappedIsEnd(text: string, start: int, window: string, anchor: string, normalize: string -> string, cut: int)
    requires IsStretch(text, start, window) && 0 <= cut <= |window| && IsBlank(window[cut..])
    requires IsAnchoredAt(text, start + cut, anchor, normalize)
    ensures IsEndFor(text, start + |window|, anchor, normalize, true)
  {
    assert text[start + cut..start + |window|] == window[cut..];
  }

  /** What a resolution's cuts were before the last one was moved to the end of the window, if it was. */
  lemma CutOf(
    window: string, anchors: seq<string>, snap: bool, normalize: string -> string, ends: seq<int>, i: nat)
    returns (cut: int)
    requires IsResolution(window, anchors, snap, normalize, ends) && i < |ends|
    ensures |ends| == |anchors| && 0 <= cut <= |window| && EndsAt(window, anchors[i], normalize, cut)
    ensures cut == ends[i] || (i == |ends| - 1 && snap && ends[i] == |window| && IsBlank(window[cut..]))
  {
    var cuts :| IsSnappedCut(window, anchors, snap, normalize, cuts, ends);
    ResolutionIsOrdered(window, anchors, snap, normalize, ends);
    cut := cuts[i];
  }

  lemma EndInText(
    text: string, start: int, window: string, anchor: string, normalize: string -> string, cut: int, length: int,
    end: int, isLast: bool)
    requires IsStretch(text, start, window) && 0 <= cut <= |window| && EndsAt(window, anchor, normalize, cut)
    requires cut == length || (isLast && length == |window| && IsBlank(window[cut..]))
    requires end == start + length
    ensures IsEndFor(text, end, anchor, normalize, isLast)
  {
    AnchoredInText(text, start, window, anchor, normalize, cut);
    if cut == length {
      AnchoredIsEnd(text, end, anchor, normalize, isLast);
    } else {
      SnappedIsEnd(text, start, window, anchor, normalize, cut);
    }
  }

  /** A resolution of anchors in a stretch of text cuts the text where the anchors stand in it. */
  lemma ResolvedInText(
    text: string, start: int, window: string, anchors: seq<string>, snap: bool, normalize: string -> string,
    ends: seq<int>, i: nat, anchor: string, end: int, isLast: bool)
    requires IsStretch(text, start, window) && IsResolution(window, anchors, snap, normalize, ends)
    requires i < |ends| == |anchors| && anchors[i] == anchor && end == start + ends[i]
    requires isLast == (snap && i == |ends| - 1)
    ensures IsEndFor(text, end, anchor, normalize, isLast)
  {
    var cut := CutOf(window, anchors, snap, normalize, ends, i);
    EndInText(text, start, window, anchor, normalize, cut, end - start, end, isLast);
  }

  // ----- the rows of a batch

  /** What the row for a draft says, given the text it is cut from and the stale numbers the commit reports. */
  ghost predicate IsRowFor(
    row: Entry, num: int, draft: Draft, text: string, rel: string, stale: set<int>, isLast: bool,
    normalize: string -> string)
  {
    && row.Entry? && row.episode == Whole(num) && row.title == draft.title && row.hook == draft.hook
    && row.script == Path(ScriptRel(num))
    && row.status == (if num in stale then Stale else Planned)
    && Coords(row).Some? && Coords(row).value.rel == rel
    && IsEndFor(text, Coords(row).value.end, draft.endAnchor, normalize, isLast)
  }

  lemma ProducedIs(disk: Disk, first: int, count: nat, num: int)
    ensures num in ProducedFrom(disk, first, count) <==>
            first <= num < first + count && (ScriptRel(num) in disk.paths || num in disk.drafts)
  {
    assert AlreadyProduced(disk, num) <==> ScriptRel(num) in disk.paths || num in disk.drafts;
  }

  lemma NewEntrySays(
    row: Entry, disk: Disk, num: int, draft: Draft, text: string, r: Range, end: int, stale: set<int>, isLast: bool,
    normalize: string -> string)
    requires row == NewEntry(disk, num, draft, r) && r.end == end
    requires num in stale <==> ScriptRel(num) in disk.paths || num in disk.drafts
    requires IsEndFor(text, end, draft.endAnchor, normalize, isLast)
    ensures IsRowFor(row, num, draft, text, r.rel, stale, isLast, normalize)
  {
  }

  /** The cut may have been moved past whitespace: it is the last one, and the window reaches the end of the file. */
  predicate MayMove(final: bool, i: int, count: nat)
  {
    final && i == count - 1
  }

  /** After the first `before` rows there is one for each draft, in order and with numbers that go on. */
  ghost predicate FollowDrafts(
    entries: seq<Entry>, before: nat, drafts: seq<Draft>, text: string, rel: string, stale: set<int>, final: bool,
    normalize: string -> string)
  {
    && |entries| == before + |drafts|
    && forall i | 0 <= i < |drafts| ::
         IsRowFor(entries[before + i], before + i + 1, drafts[i], text, rel, stale, MayMove(final, i, |drafts|),
                  normalize)
  }

  /**
   Every episode a commit adds says what its draft says, and ends where the draft's anchor stands in the source:
   exactly, or up to folding of its normal form; the last one before the end of the file perhaps some whitespace later.
   It is stale exactly when the commit reports its number.
   */
  lemma EpisodesFollowDrafts(
    p: Project, disk: Disk, pending: Pending, normalize: string -> string, r: Result<Committed, PlanError>)
    requires DistinctRels(disk.sources) && IsTiled(p, disk.sources)
    requires IsPending(pending, disk.sources, normalize)
    requires IsCommit(p, disk, pending.snap, pending.drafts, pending.ends, r) && r.Ok?
    ensures p.episodes.entries <= Rows(r.value.project)
    ensures FollowDrafts(Rows(r.value.project), |p.episodes.entries|, pending.drafts,
                         TextAt(disk.sources, pending.snap.rel), pending.snap.rel, r.value.stale, pending.snap.final,
                         normalize)
  {
    CommittedBatch(p, disk, pending, normalize, r);
    ReportedStale(p, disk, pending, r);
    forall i | 0 <= i < |pending.drafts|
      ensures IsRowFor(CommittedEntries(p, disk, pending)[|p.episodes.entries| + i], |p.episodes.entries| + i + 1,
                       pending.drafts[i], pending.snap.text, pending.snap.rel, r.value.stale,
                       MayMove(pending.snap.final, i, |pending.drafts|), normalize)
    {
      CommittedRowFollows(p, disk, pending, normalize, r.value.stale, i);
    }
  }

  lemma CommittedRowFollows(
    p: Project, disk: Disk, pending: Pending, normalize: string -> string, stale: set<int>, i: nat)
    requires DistinctRels(disk.sources) && p.episodes.Listed? && IsPending(pending, disk.sources, normalize)
    requires pending.snap.start >= 0 && i < |pending.drafts|
    requires stale == ProducedFrom(disk, |p.episodes.entries| + 1, |pending.drafts|)
    ensures IsRowFor(CommittedEntries(p, disk, pending)[|p.episodes.entries| + i], |p.episodes.entries| + i + 1,
                     pending.drafts[i], pending.snap.text, pending.snap.rel, stale,
                     MayMove(pending.snap.final, i, |pending.drafts|), normalize)
  {
    var num := |p.episodes.entries| + i + 1;
    ProducedIs(disk, |p.episodes.entries| + 1, |pending.drafts|, num);
    RowFollowsDraft(CommittedEntries(p, disk, pending)[|p.episodes.entries| + i], p, disk, pending, normalize,
                    stale, num, i, MayMove(pending.snap.final, i, |pending.drafts|));
  }

  lemma RowFollowsDraft(
    row: Entry, p: Project, disk: Disk, pending: Pending, normalize: string -> string, stale: set<int>, num: int,
    i: nat, isLast: bool)
    requires DistinctRels(disk.sources) && p.episodes.Listed? && IsPending(pending, disk.sources, normalize)
    requires pending.snap.start >= 0 && i < |pending.drafts| && num == |p.episodes.entries| + i + 1
    requires num in stale <==> ScriptRel(num) in disk.paths || num in disk.drafts
    requires row == CommittedEntries(p, disk, pending)[|p.episodes.entries| + i]
    requires isLast == MayMove(pending.snap.final, i, |pending.drafts|)
    ensures IsRowFor(row, num, pending.drafts[i], pending.snap.text, pending.snap.rel, stale, isLast, normalize)
  {
    var end := pending.snap.start + pending.ends[i];
    PendingIsAnchored(disk.sources, pending, normalize, i, end, isLast);
    RowSays(row, p, disk, pending, normalize, stale, num, i, end, isLast);
  }

  lemma RowSays(
    row: Entry, p: Project, disk: Disk, pending: Pending, normalize: string -> string, stale: set<int>, num: int,
    i: nat, end: int, isLast: bool)
    requires p.episodes.Listed? && |pending.drafts| == |pending.ends| && i < |pending.drafts|
    requires num == |p.episodes.entries| + i + 1 && end == pending.snap.start + pending.ends[i]
    requires num in stale <==> ScriptRel(num) in disk.paths || num in disk.drafts
    requires row == CommittedEntries(p, disk, pending)[|p.episodes.entries| + i]
    requires IsEndFor(pending.snap.text, end, pending.drafts[i].endAnchor, normalize, isLast)
    ensures IsRowFor(row, num, pending.drafts[i], pending.snap.text, pending.snap.rel, stale, isLast, normalize)
  {
    AddedRow(p, disk, pending, i);
    NewRowSays(row, disk, pending, normalize, stale, num, i, end, isLast);
  }

  lemma NewRowSays(
    row: Entry, disk: Disk, pending: Pending, normalize: string -> string, stale: set<int>, num: int, i: nat,
    end: int, isLast: bool)
    requires |pending.drafts| == |pending.ends| && i < |pending.drafts| && end == pending.snap.start + pending.ends[i]
    requires num in stale <==> ScriptRel(num) in disk.paths || num in disk.drafts
    requires row == NewEntry(disk, num, pending.drafts[i],
                             BatchRange(pending.snap.rel, pending.snap.start, pending.ends, i))
    requires IsEndFor(pending.snap.text, end, pending.drafts[i].endAnchor, normalize, isLast)
    ensures IsRowFor(row, num, pending.drafts[i], pending.snap.text, pending.snap.rel, stale, isLast, normalize)
  {
    NewEntrySays(row, disk, num, pending.drafts[i], pending.snap.text,
                 BatchRange(pending.snap.rel, pending.snap.start, pending.ends, i), end, stale, isLast, normalize);
  }

  lemma AddedRow(p: Project, disk: Disk, pending: Pending, i: nat)
    requires p.episodes.Listed? && |pending.drafts| == |pending.ends| && i < |pending.drafts|
    ensures var before, all := |p.episodes.entries|, CommittedEntries(p, disk, pending);
            && |all| == before + |pending.drafts| && all[..before] == p.episodes.entries
            && all[before + i] == NewEntry(disk, before + i + 1, pending.drafts[i],
                                           BatchRange(pending.snap.rel, pending.snap.start, pending.ends, i))
  {
  }

  lemma CommittedBatch(
    p: Project, disk: Disk, pending: Pending, normalize: string -> string, r: Result<Committed, PlanError>)
    requires DistinctRels(disk.sources) && IsTiled(p, disk.sources)
    requires IsPending(pending, disk.sources, normalize)
    requires IsCommit(p, disk, pending.snap, pending.drafts, pending.ends, r) && r.Ok?
    ensures Rows(r.value.project) == CommittedEntries(p, disk, pending)
    ensures pending.snap.start >= 0 && pending.snap.text == TextAt(disk.sources, pending.snap.rel)
  {
    CommitKeepsTiling(p, disk, pending, normalize, r);
    BatchContinues(p, disk, pending, normalize);
  }

  /** The cuts of a plan call in flight lie where its anchors stand in the file it was cut from. */
  lemma PendingIsAnchored(
    sources: seq<SourceDoc>, pending: Pending, normalize: string -> string, i: nat, end: int, isLast: bool)
    requires DistinctRels(sources) && IsPending(pending, sources, normalize) && i < |pending.drafts|
    requires pending.snap.start >= 0 && end == pending.snap.start + pending.ends[i]
    requires isLast == MayMove(pending.snap.final, i, |pending.drafts|)
    ensures IsEndFor(pending.snap.text, end, pending.drafts[i].endAnchor, normalize, isLast)
  {
    PendingIsStretch(sources, pending, normalize);
    ResolvedInText(pending.snap.text, pending.snap.start, pending.snap.window, Anchors(pending.drafts),
                   pending.snap.final, normalize, pending.ends, i, pending.drafts[i].endAnchor, end, isLast);
  }

  lemma PendingIsStretch(sources: seq<SourceDoc>, pending: Pending, normalize: string -> string)
    requires DistinctRels(sources) && IsPending(pending, sources, normalize) && pending.snap.start >= 0
    ensures IsStretch(pending.snap.text, pending.snap.start, pending.snap.window)
  {
    var disk, windowChars :| windowChars >= 1 && IsSnapOf(sources, disk, windowChars, pending.snap);
    WindowIsText(disk, windowChars, pending.snap);
  }

  lemma ReportedStale(p: Project, disk: Disk, pending: Pending, r: Result<Committed, PlanError>)
    requires IsTiled(p, disk.sources) && |pending.drafts| == |pending.ends| > 0
    requires IsCommit(p, disk, pending.snap, pending.drafts, pending.ends, r) && r.Ok?
    ensures r.value.stale == ProducedFrom(disk, |p.episodes.entries| + 1, |pending.drafts|)
  {
    var healed :| IsRegistered(p, disk, healed)
                  && IsCommitOfHealed(healed, disk, pending.snap, pending.drafts, pending.ends, r);
    DoneIfOk(healed, disk, pending, r);
    PassedGates(p, disk, pending.snap, healed);
    StaleWhenDone(p, disk, pending, r.value);
  }

  lemma StaleWhenDone(p: Project, disk: Disk, pending: Pending, done: Committed)
    requires p.episodes.Listed? && IsNumbered(p.episodes.entries) && |pending.drafts| == |pending.ends| > 0
    requires IsDone(p, disk, pending.snap, pending.drafts, pending.ends, done)
    ensures done.stale == ProducedFrom(disk, |p.episodes.entries| + 1, |pending.drafts|)
  {
    NumberedRows(p.episodes.entries);
  }

  /** The stale numbers are those of the batch for which a script or a first draft is already there. */
  lemma StaleIffProduced(p: Project, disk: Disk, pending: Pending, r: Result<Committed, PlanError>, num: int)
    requires IsTiled(p, disk.sources) && |pending.drafts| == |pending.ends| > 0
    requires IsCommit(p, disk, pending.snap, pending.drafts, pending.ends, r) && r.Ok?
    ensures num in r.value.stale <==>
            && |p.episodes.entries| < num <= |p.episodes.entries| + |pending.drafts|
            && (ScriptRel(num) in disk.paths || num in disk.drafts)
  {
    ReportedStale(p, disk, pending, r);
    ProducedIs(disk, |p.episodes.entries| + 1, |pending.drafts|, num);
  }
}
