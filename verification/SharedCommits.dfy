/** What a commit does to a ledger others write to, with a snapshot that may be older than some source files. */
module SharedCommits {
  import opened Wrappers
  import opened SourceText
  import opened Boundaries
  import opened Sequences
  import opened EpisodeFiles
  import opened Ledger
  import opened Tiling
  import opened PlanSpec
  import opened LedgerInvariant
  import opened PlanLaws
  import opened PlanContents
  import opened ResetLaws
  import opened SharedLedger

  /** All of `before` is in `sources`, in the same order and with the same texts; more may have been added since. */
  ghost predicate IsWithin(before: seq<SourceDoc>, sources: seq<SourceDoc>)
  {
    && (forall i | 0 <= i < |before| :: IsFound(sources, before[i]))
    && forall i, j | 0 <= i < j < |before| :: Idx(sources, before[i].rel) < Idx(sources, before[j].rel)
  }

  ghost predicate IsFound(sources: seq<SourceDoc>, doc: SourceDoc)
  {
    0 <= Idx(sources, doc.rel) && TextAt(sources, doc.rel) == doc.text
  }

  /** A plan call in flight: its snapshot is of the sources as they were at some time. */
  ghost predicate IsPendingWithin(
    pending: Pending, before: seq<SourceDoc>, sources: seq<SourceDoc>, normalize: string -> string)
  {
    DistinctRels(before) && IsWithin(before, sources) && IsPending(pending, before, normalize)
  }

  // ----- where the batch is cut

  lemma OrderIsKept(before: seq<SourceDoc>, sources: seq<SourceDoc>, a: string, b: string)
    requires IsWithin(before, sources) && 0 <= Idx(before, a) && 0 <= Idx(before, b)
    ensures 0 <= Idx(sources, a) && TextAt(sources, a) == TextAt(before, a)
    ensures Idx(before, a) < Idx(before, b) <==> Idx(sources, a) < Idx(sources, b)
    ensures Idx(before, a) == Idx(before, b) <==> a == b
  {
    var i, j := Idx(before, a), Idx(before, b);
    assert IsFound(sources, before[i]) && IsFound(sources, before[j]);
    assert i < j ==> Idx(sources, before[i].rel) < Idx(sources, before[j].rel);
    assert j < i ==> Idx(sources, before[j].rel) < Idx(sources, before[i].rel);
  }

  /** Between two places there are only files the snapshot has not seen. */
  ghost predicate IsUnseenBetween(before: seq<SourceDoc>, sources: seq<SourceDoc>, from: Place, to: Place)
  {
    forall rel, offset | IsText(sources, rel, offset) && !IsBefore(sources, rel, offset, from)
                         && IsBefore(sources, rel, offset, to) :: Idx(before, rel) < 0
  }

  /** What a snapshot has seen and passed over is whitespace. */
  lemma SeenIsBlank(before: seq<SourceDoc>, from: Place, to: Place, rel: string, offset: int)
    requires 0 <= Idx(before, from.rel) && 0 <= Idx(before, to.rel)
    requires Reaches(before, from.rel, from.offset, to.rel, to.offset)
    requires 0 <= Idx(before, rel) && 0 <= offset < |TextAt(before, rel)|
    requires !IsBefore(before, rel, offset, from) && IsBefore(before, rel, offset, to)
    ensures IsSpace(TextAt(before, rel)[offset])
  {
    var i, text := Idx(before, rel), TextAt(before, rel);
    assert before[i].rel == rel && before[Idx(before, from.rel)].rel == from.rel;
    if i == Idx(before, from.rel) {
      assert text[from.offset..][offset - from.offset] == text[offset];
    }
  }

  lemma ReachedOverUnseen(
    before: seq<SourceDoc>, sources: seq<SourceDoc>, from: Place, to: Place, rel: string, offset: int)
    requires IsWithin(before, sources) && 0 <= Idx(before, from.rel) && 0 <= Idx(before, to.rel)
    requires Reaches(before, from.rel, from.offset, to.rel, to.offset)
    requires IsText(sources, rel, offset) && !IsBefore(sources, rel, offset, from) && IsBefore(sources, rel, offset, to)
    ensures Idx(before, rel) < 0
  {
    if 0 <= Idx(before, rel) {
      OrderIsKept(before, sources, rel, from.rel);
      OrderIsKept(before, sources, rel, to.rel);
      SeenIsBlank(before, from, to, rel, offset);
    }
  }

  /** A snapshot that passes the digest check lies in the sources as they are, at or after its start. */
  lemma SnapIsThere(
    before: seq<SourceDoc>, sources: seq<SourceDoc>, disk: Disk, windowChars: int, snap: Snap)
    requires DistinctRels(before) && IsWithin(before, sources) && windowChars >= 1
    requires IsSnapOf(before, disk, windowChars, snap) && !ChangedSince(snap.used, sources)
    requires IsPlace(sources, snap.startRef)
    ensures 0 <= Idx(sources, snap.rel) && snap.text == TextAt(sources, snap.rel)
    ensures 0 <= snap.start < |snap.text| && |snap.window| <= |snap.text| - snap.start
    ensures IsUpTo(sources, snap.startRef, Place(snap.rel, snap.start))
    ensures IsUnseenBetween(before, sources, snap.startRef, Place(snap.rel, snap.start))
  {
    if 0 <= Idx(before, snap.startRef.rel) {
      SnapOfSeen(before, sources, disk, windowChars, snap);
    } else {
      SnapOfOther(before, sources, disk, windowChars, snap);
    }
  }

  lemma SnapOfSeen(before: seq<SourceDoc>, sources: seq<SourceDoc>, disk: Disk, windowChars: int, snap: Snap)
    requires DistinctRels(before) && IsWithin(before, sources) && windowChars >= 1
    requires IsSnapOf(before, disk, windowChars, snap) && 0 <= Idx(before, snap.startRef.rel)
    requires IsPlace(sources, snap.startRef)
    ensures 0 <= Idx(sources, snap.rel) && snap.text == TextAt(sources, snap.rel)
    ensures 0 <= snap.start < |snap.text| && |snap.window| <= |snap.text| - snap.start
    ensures IsUpTo(sources, snap.startRef, Place(snap.rel, snap.start))
    ensures IsUnseenBetween(before, sources, snap.startRef, Place(snap.rel, snap.start))
  {
    OrderIsKept(before, sources, snap.startRef.rel, snap.startRef.rel);
    SnapGoesOn(disk, snap, windowChars);
    OrderIsKept(before, sources, snap.startRef.rel, snap.rel);
    OrderIsKept(before, sources, snap.rel, snap.startRef.rel);
    forall rel, offset | IsText(sources, rel, offset) && !IsBefore(sources, rel, offset, snap.startRef)
                         && IsBefore(sources, rel, offset, Place(snap.rel, snap.start))
      ensures Idx(before, rel) < 0
    {
      ReachedOverUnseen(before, sources, snap.startRef, Place(snap.rel, snap.start), rel, offset);
    }
  }

  /** The start lay in a file that was not a candidate source then. */
  lemma SnapOfOther(before: seq<SourceDoc>, sources: seq<SourceDoc>, disk: Disk, windowChars: int, snap: Snap)
    requires DistinctRels(before) && windowChars >= 1
    requires IsSnapOf(before, disk, windowChars, snap) && Idx(before, snap.startRef.rel) < 0
    requires !ChangedSince(snap.used, sources) && IsPlace(sources, snap.startRef)
    ensures 0 <= Idx(sources, snap.rel) && snap.text == TextAt(sources, snap.rel)
    ensures 0 <= snap.start < |snap.text| && |snap.window| <= |snap.text| - snap.start
    ensures snap.startRef == Place(snap.rel, snap.start)
  {
    assert snap.startRef.rel in snap.used;
    assert TextOf(sources, snap.startRef.rel) == Some(snap.used[snap.startRef.rel]);
    BlankEnd(snap.text, snap.start);
  }

  // ----- the rows of the batch

  /** The batch's ranges under the numbers from `next`. */
  function BatchMarks(next: int, ranges: seq<Range>): set<Mark>
  {
    set i | 0 <= i < |ranges| :: Mark(next + i, ranges[i])
  }

  lemma OneMoreBatchMark(next: int, ranges: seq<Range>, i: nat)
    requires i < |ranges|
    ensures BatchMarks(next, ranges[..i + 1]) == BatchMarks(next, ranges[..i]) + {Mark(next + i, ranges[i])}
  {
    forall m ensures m in BatchMarks(next, ranges[..i + 1]) <==>
                     m in BatchMarks(next, ranges[..i]) || m == Mark(next + i, ranges[i])
    {
      if m in BatchMarks(next, ranges[..i]) {
        var k :| 0 <= k < i && m == Mark(next + k, ranges[..i][k]);
        assert ranges[..i + 1][k] == ranges[k];
      }
      if m == Mark(next + i, ranges[i]) {
        assert ranges[..i + 1][i] == ranges[i];
      }
    }
  }

  lemma NewEntryIsShaped(disk: Disk, num: int, draft: Draft, r: Range)
    ensures var e := NewEntry(disk, num, draft, r);
            IsShaped(e) && IsMarked(e) && MarkOf(e) == Mark(num, r) && NumOf(e) == Some(num)
  {
  }

  /** Rows of the planner's or the system's making with just these ranges and with numbers below `next`. */
  ghost predicate AreFit(entries: seq<Entry>, marks: set<Mark>, next: int)
  {
    && IsDistinct(entries) && (forall e | e in entries :: IsShaped(e))
    && Marks(entries) == marks
    && forall num | num in KnownNums(entries) :: num < next
  }

  lemma OneMoreFits(entries: seq<Entry>, marks: set<Mark>, next: int, disk: Disk, draft: Draft, r: Range)
    requires AreFit(entries, marks, next)
    ensures AreFit(entries + [NewEntry(disk, next, draft, r)], marks + {Mark(next, r)}, next + 1)
  {
    var e := NewEntry(disk, next, draft, r);
    NewEntryIsShaped(disk, next, draft, r);
    DistinctAppend(entries, e);
    MarksAppend(entries, e);
    KnownNumsAppend(entries, e);
  }

  lemma AppendedAsWell<T>(a: seq<T>, b: seq<T>, x: T)
    ensures a + (b + [x]) == (a + b) + [x]
  {
  }

  lemma AddedAsWell<T>(a: set<T>, b: set<T>, x: T)
    ensures a + (b + {x}) == (a + b) + {x}
  {
  }

  lemma SameFit(a: seq<Entry>, b: seq<Entry>, marks: set<Mark>, others: set<Mark>, next: int)
    requires AreFit(a, marks, next) && a == b && marks == others
    ensures AreFit(b, others, next)
  {
  }

  lemma NextRow(
    disk: Disk, entries: seq<Entry>, marks: set<Mark>, next: int, drafts: seq<Draft>, ranges: seq<Range>, n: nat)
    requires |drafts| == |ranges| && n < |drafts|
    ensures entries + NewEntries(disk, next, drafts[..n + 1], ranges[..n + 1]) ==
            entries + NewEntries(disk, next, drafts[..n], ranges[..n]) +
            [NewEntry(disk, next + n, drafts[n], ranges[n])]
    ensures marks + BatchMarks(next, ranges[..n + 1]) ==
            marks + BatchMarks(next, ranges[..n]) + {Mark(next + n, ranges[n])}
  {
    OneMoreEntry(disk, next, drafts, ranges, n);
    OneMoreBatchMark(next, ranges, n);
    AppendedAsWell(entries, NewEntries(disk, next, drafts[..n], ranges[..n]),
                   NewEntry(disk, next + n, drafts[n], ranges[n]));
    AddedAsWell(marks, BatchMarks(next, ranges[..n]), Mark(next + n, ranges[n]));
  }

  lemma NextRowFits(
    disk: Disk, entries: seq<Entry>, marks: set<Mark>, next: int, drafts: seq<Draft>, ranges: seq<Range>, n: nat)
    requires |drafts| == |ranges| && n < |drafts|
    requires AreFit(entries + NewEntries(disk, next, drafts[..n], ranges[..n]),
                    marks + BatchMarks(next, ranges[..n]), next + n)
    ensures AreFit(entries + NewEntries(disk, next, drafts[..n + 1], ranges[..n + 1]),
                   marks + BatchMarks(next, ranges[..n + 1]), next + n + 1)
  {
    var rows, cut := entries + NewEntries(disk, next, drafts[..n], ranges[..n]), marks + BatchMarks(next, ranges[..n]);
    OneMoreFits(rows, cut, next + n, disk, drafts[n], ranges[n]);
    NextRow(disk, entries, marks, next, drafts, ranges, n);
    SameFit(rows + [NewEntry(disk, next + n, drafts[n], ranges[n])],
            entries + NewEntries(disk, next, drafts[..n + 1], ranges[..n + 1]),
            cut + {Mark(next + n, ranges[n])}, marks + BatchMarks(next, ranges[..n + 1]), next + n + 1);
  }

  /** The new rows, one more at a time: they get numbers of their own and bring exactly their ranges. */
  lemma {:induction false} NewRowsFit(
    disk: Disk, entries: seq<Entry>, marks: set<Mark>, next: int, drafts: seq<Draft>, ranges: seq<Range>, n: nat)
    requires |drafts| == |ranges| && n <= |drafts| && AreFit(entries, marks, next)
    ensures AreFit(entries + NewEntries(disk, next, drafts[..n], ranges[..n]),
                   marks + BatchMarks(next, ranges[..n]), next + n)
  {
    if n == 0 {
      assert entries + NewEntries(disk, next, drafts[..0], ranges[..0]) == entries;
      assert marks + BatchMarks(next, ranges[..0]) == marks;
    } else {
      NewRowsFit(disk, entries, marks, next, drafts, ranges, n - 1);
      NextRowFits(disk, entries, marks, next, drafts, ranges, n - 1);
    }
  }

  lemma NumbersUpToMax(entries: seq<Entry>)
    ensures forall num | num in KnownNums(entries) :: num < MaxNum(entries) + 1
  {
    forall num | num in KnownNums(entries) ensures num < MaxNum(entries) + 1 {
      if num > MaxNum(entries) {
        NewNumbersAreFree(entries, num);
      }
    }
  }

  /** The first number of the batch. */
  function FirstNew(healed: Project): int
  {
    MaxNum(NonNull(WalkedRows(healed))) + 1
  }

  lemma SortedAsFit(entries: seq<Entry>, marks: set<Mark>, next: int)
    requires AreFit(entries, marks, next)
    ensures AreFit(SortIfPossible(entries), marks, next)
  {
    ShapedAreNumbered(entries);
    SortedInOrder(entries);
    SameRowsSameMarks(SortByNum(entries), entries);
    SameRowsSameNums(SortByNum(entries), entries);
  }

  lemma AllNewRowsFit(
    disk: Disk, entries: seq<Entry>, marks: set<Mark>, next: int, drafts: seq<Draft>, ranges: seq<Range>)
    requires |drafts| == |ranges| && AreFit(entries, marks, next)
    ensures AreFit(SortIfPossible(entries + NewEntries(disk, next, drafts, ranges)),
                   marks + BatchMarks(next, ranges), next + |drafts|)
  {
    NewRowsFit(disk, entries, marks, next, drafts, ranges, |drafts|);
    TakeAll(drafts);
    TakeAll(ranges);
    SortedAsFit(entries + NewEntries(disk, next, drafts, ranges), marks + BatchMarks(next, ranges), next + |drafts|);
  }

  lemma OldRowsFit(entries: seq<Entry>)
    requires IsDistinct(entries) && forall e | e in entries :: IsShaped(e)
    ensures NonNull(entries) == entries && AreFit(entries, Marks(entries), MaxNum(entries) + 1)
    ensures forall m | m in Marks(entries) :: m.num < MaxNum(entries) + 1
  {
    ShapedAreNumbered(entries);
    NumbersUpToMax(entries);
    MarksAreKnown(entries);
  }

  /** The rows a commit writes: the old ones and the batch's, under numbers from the first free one, sorted. */
  lemma RowsOfCommit(healed: Project, disk: Disk, pending: Pending)
    requires healed.episodes.Listed? && forall e | e in healed.episodes.entries :: IsShaped(e)
    requires |pending.drafts| == |pending.ends|
    ensures FirstNew(healed) == MaxNum(healed.episodes.entries) + 1
    ensures CommittedRows(healed, disk, pending.snap, pending.drafts, pending.ends) ==
            SortIfPossible(healed.episodes.entries +
                           NewEntries(disk, FirstNew(healed), pending.drafts,
                                      BatchRanges(pending.snap.rel, pending.snap.start, pending.ends)))
  {
    ShapedAreNumbered(healed.episodes.entries);
  }

  lemma MarksAreKnown(entries: seq<Entry>)
    ensures forall m | m in Marks(entries) :: m.num in KnownNums(entries)
  {
    forall m | m in Marks(entries) ensures m.num in KnownNums(entries) {
      var e :| e in entries && IsMarked(e) && MarkOf(e) == m;
      var i :| 0 <= i < |entries| && entries[i] == e;
    }
  }

  // ----- the batch among the other ranges

  lemma {:induction false} EndsIncrease(ends: seq<int>, start: int, length: int, i: nat, j: nat)
    requires IsBatch(ends, start, length) && i < j < |ends|
    ensures ends[i] < ends[j]
  {
    assert ends[j - 1] < ends[j - 1 + 1];
    if i < j - 1 {
      EndsIncrease(ends, start, length, i, j - 1);
    }
  }

  lemma BatchIsOrdered(sources: seq<SourceDoc>, next: int, rel: string, start: int, ends: seq<int>)
    requires next >= 1 && 0 <= Idx(sources, rel) && 0 <= start && IsBatch(ends, start, |TextAt(sources, rel)|)
    ensures AreOrdered(sources, BatchMarks(next, BatchRanges(rel, start, ends)))
  {
    var ranges := BatchRanges(rel, start, ends);
    var marks := BatchMarks(next, ranges);
    forall i | 0 <= i < |ends| ensures InBounds(sources, ranges[i]) {
      BatchInBounds(sources, rel, start, ends, i);
    }
    forall i, j | 0 <= i < j < |ends| ensures IsBehind(sources, ranges[i], StartOf(ranges[j])) {
      if i < j - 1 {
        EndsIncrease(ends, start, |TextAt(sources, rel)|, i, j - 1);
      }
    }
  }

  /** The batch lies between its start and its end. */
  lemma BatchLies(sources: seq<SourceDoc>, next: int, rel: string, start: int, ends: seq<int>, m: Mark)
    requires 0 <= Idx(sources, rel) && 0 <= start && IsBatch(ends, start, |TextAt(sources, rel)|)
    requires m in BatchMarks(next, BatchRanges(rel, start, ends))
    ensures m.num >= next && m.range.rel == rel && start <= m.range.start
    ensures m.range.end <= start + ends[|ends| - 1]
  {
    var i :| 0 <= i < |ends| && m == Mark(next + i, BatchRanges(rel, start, ends)[i]);
    BatchInBounds(sources, rel, start, ends, i);
    if i < |ends| - 1 {
      EndsIncrease(ends, start, |TextAt(sources, rel)|, i, |ends| - 1);
    }
  }

  lemma BehindIsBehind(sources: seq<SourceDoc>, r: Range, a: Place, b: Place)
    requires IsBehind(sources, r, a) && IsUpTo(sources, a, b)
    ensures IsBehind(sources, r, b)
  {
  }

  /** Ranges behind a place and ranges from that place on are in order together. */
  lemma OrderedTogether(sources: seq<SourceDoc>, earlier: set<Mark>, later: set<Mark>, next: int, from: Place)
    requires AreOrdered(sources, earlier) && AreOrdered(sources, later)
    requires forall m | m in earlier :: m.num < next && IsBehind(sources, m.range, from)
    requires forall m | m in later :: m.num >= next && IsUpTo(sources, from, StartOf(m.range))
    ensures AreOrdered(sources, earlier + later)
  {
    forall a, b | a in earlier && b in later ensures IsBehind(sources, a.range, StartOf(b.range)) {
      BehindIsBehind(sources, a.range, from, StartOf(b.range));
    }
  }

  /** Where a batch cut at these points ends. */
  function BatchEnd(rel: string, start: int, ends: seq<int>): Place
    requires ends != []
  {
    Place(rel, start + ends[|ends| - 1])
  }

  /** The place lies in the sources, behind all these ranges. */
  ghost predicate ArePassed(sources: seq<SourceDoc>, marks: set<Mark>, place: Place)
  {
    IsPlace(sources, place) && forall m | m in marks :: IsBehind(sources, m.range, place)
  }

  lemma ExtendOrdered(
    sources: seq<SourceDoc>, marks: set<Mark>, next: int, from: Place, rel: string, start: int, ends: seq<int>)
    requires AreOrdered(sources, marks) && next >= 1
    requires forall m | m in marks :: m.num < next && IsBehind(sources, m.range, from)
    requires IsUpTo(sources, from, Place(rel, start))
    requires 0 <= Idx(sources, rel) && 0 <= start && IsBatch(ends, start, |TextAt(sources, rel)|)
    ensures var all := marks + BatchMarks(next, BatchRanges(rel, start, ends));
            && AreOrdered(sources, all)
            && ArePassed(sources, all, BatchEnd(rel, start, ends))
  {
    var batch, end := BatchMarks(next, BatchRanges(rel, start, ends)), BatchEnd(rel, start, ends);
    BatchIsOrdered(sources, next, rel, start, ends);
    forall m | m in batch
      ensures m.num >= next && IsUpTo(sources, from, StartOf(m.range)) && IsBehind(sources, m.range, end)
    {
      BatchLies(sources, next, rel, start, ends, m);
    }
    OrderedTogether(sources, marks, batch, next, from);
    forall m | m in marks ensures IsBehind(sources, m.range, end) {
      BehindIsBehind(sources, m.range, from, end);
    }
  }

  /** The batch takes exactly the text from its start to its end. */
  lemma {:induction false} BatchTakes(
    sources: seq<SourceDoc>, next: int, rel: string, start: int, ends: seq<int>, k: nat, offset: int)
    requires 0 <= Idx(sources, rel) && 0 <= start && IsBatch(ends, start, |TextAt(sources, rel)|) && k < |ends|
    requires start <= offset < start + ends[k]
    ensures IsTaken(BatchMarks(next, BatchRanges(rel, start, ends)), rel, offset)
  {
    if k == 0 || start + ends[k - 1] <= offset {
      var m := Mark(next + k, BatchRanges(rel, start, ends)[k]);
      assert m in BatchMarks(next, BatchRanges(rel, start, ends)) && Holds(m.range, rel, offset);
    } else {
      BatchTakes(sources, next, rel, start, ends, k - 1, offset);
    }
  }

  // ----- the commit

  /** Where planning goes on from, all ranges are behind it. */
  lemma StartIsPlace(p: Project, sources: seq<SourceDoc>)
    requires IsOrderly(p, sources) && EffectiveStart(p, sources).Some?
    ensures var start := EffectiveStart(p, sources).value;
            IsPlace(sources, start) && forall m | m in Marks(p.episodes.entries) :: IsBehind(sources, m.range, start)
  {
    StartIsCursor(p, sources);
  }

  /** Rows that all have a range inside the sources have a text each. */
  lemma {:induction false} EveryRowHasText(disk: Disk, cache: map<string, string>, entries: seq<Entry>)
    requires Writable(disk, cache, entries)
    ensures WritesOf(disk, cache, entries).Some?
  {
    if entries != [] {
      var n := |entries| - 1;
      EveryRowHasText(disk, cache, entries[..n]);
      PieceIsFiled(disk, cache, entries[n], 0, disk.files);
    }
  }

  lemma CommittedAreMarked(healed: Project, disk: Disk, pending: Pending)
    requires IsOrderly(healed, disk.sources) && !SomeLackRange(Rows(healed))
    requires |pending.drafts| == |pending.ends|
    ensures AreAllMarked(CommittedRows(healed, disk, pending.snap, pending.drafts, pending.ends))
  {
    var entries := healed.episodes.entries;
    var ranges := BatchRanges(pending.snap.rel, pending.snap.start, pending.ends);
    var rows := NewEntries(disk, FirstNew(healed), pending.drafts, ranges);
    ShapedAreNumbered(entries);
    SortKeepsRows(entries + rows);
    MarkedRows(entries);
    forall e | e in rows ensures IsMarked(e) {
      var i :| 0 <= i < |rows| && rows[i] == e;
      NewEntryIsShaped(disk, FirstNew(healed) + i, pending.drafts[i], ranges[i]);
    }
  }

  lemma MarkedRows(entries: seq<Entry>)
    requires !SomeLackRange(entries) && forall e | e in entries :: IsShaped(e)
    ensures forall e | e in entries :: IsMarked(e)
  {
    forall e | e in entries ensures IsMarked(e) {
      var i :| 0 <= i < |entries| && entries[i] == e;
      assert !LacksRange(entries[i]);
    }
  }

  ghost predicate AreAllMarked(entries: seq<Entry>)
  {
    forall e | e in entries :: IsMarked(e)
  }

  lemma MarkedLackNothing(entries: seq<Entry>)
    requires AreAllMarked(entries)
    ensures !SomeLackRange(entries)
  {
    forall i | 0 <= i < |entries| ensures !LacksRange(entries[i]) {
      assert entries[i] in entries;
    }
  }

  lemma MarkedAreWritable(disk: Disk, cache: map<string, string>, entries: seq<Entry>)
    requires (forall e | e in entries :: IsMarked(e)) && AreOrdered(disk.sources, Marks(entries))
    requires forall rel | rel in cache && 0 <= Idx(disk.sources, rel) :: cache[rel] == TextAt(disk.sources, rel)
    ensures Writable(disk, cache, entries)
  {
    forall i | 0 <= i < |entries| ensures Coords(entries[i]).Some? && InBounds(disk.sources, Coords(entries[i]).value) {
      assert entries[i] in entries;
      assert MarkOf(entries[i]) in Marks(entries);
    }
  }

  /** The batch of a plan call goes on from where planning stands, past files its snapshot has not seen. */
  ghost predicate IsNext(p: Project, sources: seq<SourceDoc>, before: seq<SourceDoc>, pending: Pending)
  {
    var snap := pending.snap;
    && EffectiveStart(p, sources) == Some(snap.startRef)
    && 0 <= Idx(sources, snap.rel) && snap.text == TextAt(sources, snap.rel)
    && 0 <= snap.start && IsBatch(pending.ends, snap.start, |snap.text|)
    && IsUpTo(sources, snap.startRef, Place(snap.rel, snap.start))
    && IsUnseenBetween(before, sources, snap.startRef, Place(snap.rel, snap.start))
  }

  lemma PassedIsNext(
    healed: Project, sources: seq<SourceDoc>, before: seq<SourceDoc>, disk: Disk, pending: Pending,
    normalize: string -> string)
    requires IsOrderly(healed, sources) && IsPendingWithin(pending, before, sources, normalize)
    requires disk.sources == sources && Refusal(healed, disk, pending.snap) == None
    ensures IsNext(healed, sources, before, pending)
  {
    StartIsPlace(healed, sources);
    var seen, windowChars :| windowChars >= 1 && IsSnapOf(before, seen, windowChars, pending.snap);
    SnapIsThere(before, sources, seen, windowChars, pending.snap);
    PendingIsBatch(pending, before, normalize);
  }

  /** The ledger after a batch: its ranges under new numbers, and nothing else that is new. */
  ghost predicate IsBatchAdded(p: Project, sources: seq<SourceDoc>, pending: Pending, next: int, p': Project)
    requires p.episodes.Listed? && pending.ends != []
  {
    && IsOrderly(p', sources) && !SomeLackRange(p'.episodes.entries)
    && p'.cursor == EndOfBatch(pending)
    && (forall m | m in Marks(p.episodes.entries) :: m.num < next)
    && Marks(p'.episodes.entries) ==
       Marks(p.episodes.entries) +
       BatchMarks(next, BatchRanges(pending.snap.rel, pending.snap.start, pending.ends))
  }

  ghost predicate AddsBatch(p: Project, sources: seq<SourceDoc>, pending: Pending, p': Project)
    requires p.episodes.Listed? && pending.ends != []
  {
    exists next :: IsBatchAdded(p, sources, pending, next, p')
  }

  /** Rows with these ranges, and a cursor with all of them behind it, make an orderly ledger. */
  lemma FitIsOrderly(sources: seq<SourceDoc>, entries: seq<Entry>, marks: set<Mark>, next: int, end: Place)
    requires AreFit(entries, marks, next) && AreOrdered(sources, marks)
    requires ArePassed(sources, marks, end)
    ensures IsOrderly(
              Project(Listed(entries), CursorAt(Path(end.rel), Int(end.offset)),
                      Recorded(CurrentFingerprints(sources))),
              sources)
  {
    CurrentNeverMismatches(sources);
  }

  lemma CommittedAreWritten(disk: Disk, snap: Snap, all: seq<Entry>)
    requires (forall e | e in all :: IsMarked(e)) && AreOrdered(disk.sources, Marks(all))
    requires snap.text == TextAt(disk.sources, snap.rel)
    ensures WritesOf(disk, map[snap.rel := snap.text], all).Some?
  {
    MarkedAreWritable(disk, map[snap.rel := snap.text], all);
    EveryRowHasText(disk, map[snap.rel := snap.text], all);
  }

  lemma DoneProject(healed: Project, disk: Disk, pending: Pending, all: seq<Entry>, r: Result<Committed, PlanError>)
    requires |pending.drafts| == |pending.ends| > 0 && Refusal(healed, disk, pending.snap) == None
    requires IsCommitOfHealed(healed, disk, pending.snap, pending.drafts, pending.ends, r)
    requires all == CommittedRows(healed, disk, pending.snap, pending.drafts, pending.ends)
    requires WritesOf(disk, map[pending.snap.rel := pending.snap.text], all).Some?
    ensures r.Ok? && r.value.project == CommittedProject(all, disk, pending.snap, pending.ends)
    ensures r.value.exhausted == IsLastBatch(disk.sources, pending.snap, pending.ends)
  {
  }

  /**
   On an orderly ledger a commit is refused or adds exactly its batch, and the ledger stays orderly; it cannot fail once
   its checks have passed.
   */
  lemma CommitStaysOrderly(
    p: Project, before: seq<SourceDoc>, disk: Disk, pending: Pending, normalize: string -> string,
    r: Result<Committed, PlanError>)
    requires IsOrderly(p, disk.sources) && IsPendingWithin(pending, before, disk.sources, normalize)
    requires IsCommit(p, disk, pending.snap, pending.drafts, pending.ends, r)
    ensures r.Err? ==> r.error != BadRange && r.error != MalformedLedger
    ensures r.Ok? ==> IsCommitted(p, before, disk, pending, r.value)
  {
    var healed :| IsRegistered(p, disk, healed)
                  && IsCommitOfHealed(healed, disk, pending.snap, pending.drafts, pending.ends, r);
    RegisteredStaysOrderly(p, disk, healed);
    if Refusal(healed, disk, pending.snap) == None {
      PassedIsNext(healed, disk.sources, before, disk, pending, normalize);
      PassedCommit(p, healed, before, disk, pending, r);
    } else {
      RefusalKinds(p, disk, pending.snap, healed);
    }
  }

  /** What a successful commit has done. */
  ghost predicate IsCommitted(
    p: Project, before: seq<SourceDoc>, disk: Disk, pending: Pending, done: Committed)
    requires p.episodes.Listed? && |pending.drafts| == |pending.ends| > 0
  {
    && !SomeLackRange(p.episodes.entries) && NoOrphans(p.episodes.entries, disk.files)
    && IsNext(p, disk.sources, before, pending)
    && AddsBatch(p, disk.sources, pending, done.project)
    && done.exhausted == IsLastBatch(disk.sources, pending.snap, pending.ends)
  }

  /** The same rows in another order, or with rows without ranges besides: the batch goes on from the same place. */
  lemma NextAsWell(p: Project, healed: Project, sources: seq<SourceDoc>, before: seq<SourceDoc>, pending: Pending)
    requires IsOrderly(p, sources) && IsOrderly(healed, sources) && healed.cursor == p.cursor
    requires IsNext(healed, sources, before, pending)
    ensures IsNext(p, sources, before, pending)
  {
    StartIsCursor(p, sources);
    StartIsCursor(healed, sources);
  }

  lemma AddsAsWell(p: Project, healed: Project, sources: seq<SourceDoc>, pending: Pending, p': Project)
    requires p.episodes.Listed? && healed.episodes.Listed? && Marks(Rows(healed)) == Marks(Rows(p))
    requires pending.ends != [] && AddsBatch(healed, sources, pending, p')
    ensures AddsBatch(p, sources, pending, p')
  {
    var next :| IsBatchAdded(healed, sources, pending, next, p');
    assert IsBatchAdded(p, sources, pending, next, p');
  }

  lemma Gathered(p: Project, sources: seq<SourceDoc>, pending: Pending, next: int, p': Project)
    requires p.episodes.Listed? && pending.ends != [] && IsOrderly(p', sources)
    requires !SomeLackRange(Rows(p')) && p'.cursor == EndOfBatch(pending)
    requires forall m | m in Marks(p.episodes.entries) :: m.num < next
    requires Marks(p'.episodes.entries) ==
             Marks(p.episodes.entries) +
             BatchMarks(next, BatchRanges(pending.snap.rel, pending.snap.start, pending.ends))
    ensures AddsBatch(p, sources, pending, p')
  {
    assert IsBatchAdded(p, sources, pending, next, p');
  }

  /** The old rows with a batch of these ranges added, under numbers from `next`. */
  ghost predicate AreGrown(entries: seq<Entry>, next: int, ranges: seq<Range>, all: seq<Entry>)
  {
    exists top :: AreGrownTo(entries, next, ranges, all, top)
  }

  ghost predicate AreGrownTo(entries: seq<Entry>, next: int, ranges: seq<Range>, all: seq<Entry>, top: int)
  {
    && next >= 1 && (forall m | m in Marks(entries) :: m.num < next)
    && AreFit(all, Marks(entries) + BatchMarks(next, ranges), top)
  }

  lemma FitIsAdded(
    p: Project, sources: seq<SourceDoc>, before: seq<SourceDoc>, pending: Pending, all: seq<Entry>, next: int, top: int)
    requires IsOrderly(p, sources) && pending.ends != [] && IsNext(p, sources, before, pending) && next >= 1
    requires forall m | m in Marks(p.episodes.entries) :: m.num < next
    requires AreFit(
               all, Marks(p.episodes.entries) +
               BatchMarks(next, BatchRanges(pending.snap.rel, pending.snap.start, pending.ends)), top)
    ensures IsOrderly(
              Project(Listed(all), EndOfBatch(pending), Recorded(CurrentFingerprints(sources))), sources)
  {
    StartIsPlace(p, sources);
    FitGoesOn(sources, Marks(p.episodes.entries), next, pending, all, top);
  }

  lemma FitGoesOn(
    sources: seq<SourceDoc>, earlier: set<Mark>, next: int, pending: Pending, all: seq<Entry>, top: int)
    requires AreOrdered(sources, earlier) && next >= 1 && pending.ends != []
    requires var snap := pending.snap;
             && (forall m | m in earlier :: m.num < next && IsBehind(sources, m.range, snap.startRef))
             && IsUpTo(sources, snap.startRef, Place(snap.rel, snap.start))
             && 0 <= Idx(sources, snap.rel) && 0 <= snap.start
             && IsBatch(pending.ends, snap.start, |TextAt(sources, snap.rel)|)
             && AreFit(all, earlier + BatchMarks(next, BatchRanges(snap.rel, snap.start, pending.ends)), top)
    ensures IsOrderly(
              Project(Listed(all), EndOfBatch(pending), Recorded(CurrentFingerprints(sources))), sources)
  {
    var snap, ends := pending.snap, pending.ends;
    var marks := earlier + BatchMarks(next, BatchRanges(snap.rel, snap.start, ends));
    ExtendOrdered(sources, earlier, next, snap.startRef, snap.rel, snap.start, ends);
    FitIsOrderly(sources, all, marks, top, BatchEnd(snap.rel, snap.start, ends));
  }

  lemma GrownIsOrderly(
    p: Project, sources: seq<SourceDoc>, before: seq<SourceDoc>, pending: Pending, all: seq<Entry>, next: int, top: int)
    requires IsOrderly(p, sources) && pending.ends != [] && IsNext(p, sources, before, pending)
    requires AreGrownTo(
               p.episodes.entries, next, BatchRanges(pending.snap.rel, pending.snap.start, pending.ends), all, top)
    ensures IsOrderly(
              Project(Listed(all), EndOfBatch(pending), Recorded(CurrentFingerprints(sources))), sources)
  {
    FitIsAdded(p, sources, before, pending, all, next, top);
  }

  lemma GrownAddsBatch(
    p: Project, before: seq<SourceDoc>, disk: Disk, pending: Pending, all: seq<Entry>, next: int)
    requires IsOrderly(p, disk.sources) && pending.ends != [] && IsNext(p, disk.sources, before, pending)
    requires AreGrown(
               p.episodes.entries, next, BatchRanges(pending.snap.rel, pending.snap.start, pending.ends), all)
    requires AreAllMarked(all)
    ensures AddsBatch(p, disk.sources, pending, CommittedProject(all, disk, pending.snap, pending.ends))
  {
    var top :| AreGrownTo(
        p.episodes.entries, next, BatchRanges(pending.snap.rel, pending.snap.start, pending.ends), all, top);
    GrownToAddsBatch(p, disk.sources, before, pending, all, next, top,
                     CommittedProject(all, disk, pending.snap, pending.ends));
  }

  lemma GrownToAddsBatch(
    p: Project, sources: seq<SourceDoc>, before: seq<SourceDoc>, pending: Pending, all: seq<Entry>, next: int, top: int,
    p': Project)
    requires IsOrderly(p, sources) && pending.ends != [] && IsNext(p, sources, before, pending)
    requires AreGrownTo(
               p.episodes.entries, next, BatchRanges(pending.snap.rel, pending.snap.start, pending.ends), all, top)
    requires AreAllMarked(all)
    requires p' == Project(Listed(all), EndOfBatch(pending), Recorded(CurrentFingerprints(sources)))
    ensures AddsBatch(p, sources, pending, p')
  {
    GrownIsOrderly(p, sources, before, pending, all, next, top);
    MarkedLackNothing(all);
    Gathered(p, sources, pending, next, p');
  }

  lemma AddedAreWritten(p: Project, disk: Disk, pending: Pending, all: seq<Entry>)
    requires p.episodes.Listed? && pending.ends != [] && pending.snap.text == TextAt(disk.sources, pending.snap.rel)
    requires AddsBatch(p, disk.sources, pending, CommittedProject(all, disk, pending.snap, pending.ends))
    requires AreAllMarked(all)
    ensures WritesOf(disk, map[pending.snap.rel := pending.snap.text], all).Some?
  {
    CommittedAreWritten(disk, pending.snap, all);
  }

  lemma RowsAreGrown(healed: Project, disk: Disk, pending: Pending, all: seq<Entry>, next: int)
    requires healed.episodes.Listed? && IsDistinct(healed.episodes.entries)
    requires forall e | e in healed.episodes.entries :: IsShaped(e)
    requires |pending.drafts| == |pending.ends| && next == FirstNew(healed)
    requires all == CommittedRows(healed, disk, pending.snap, pending.drafts, pending.ends)
    ensures AreGrown(
              healed.episodes.entries, next, BatchRanges(pending.snap.rel, pending.snap.start, pending.ends), all)
  {
    var entries := healed.episodes.entries;
    var ranges := BatchRanges(pending.snap.rel, pending.snap.start, pending.ends);
    RowsOfCommit(healed, disk, pending);
    OldRowsFit(entries);
    AllNewRowsFit(disk, entries, Marks(entries), next, pending.drafts, ranges);
    assert AreGrownTo(entries, next, ranges, all, next + |pending.drafts|);
  }

  lemma CommittedAddsBatch(
    healed: Project, before: seq<SourceDoc>, disk: Disk, pending: Pending, all: seq<Entry>)
    requires IsOrderly(healed, disk.sources) && !SomeLackRange(Rows(healed))
    requires |pending.drafts| == |pending.ends| > 0 && IsNext(healed, disk.sources, before, pending)
    requires all == CommittedRows(healed, disk, pending.snap, pending.drafts, pending.ends)
    ensures AddsBatch(healed, disk.sources, pending, CommittedProject(all, disk, pending.snap, pending.ends))
    ensures WritesOf(disk, map[pending.snap.rel := pending.snap.text], all).Some?
  {
    CommittedAreMarked(healed, disk, pending);
    RowsAreGrown(healed, disk, pending, all, FirstNew(healed));
    GrownAddsBatch(healed, before, disk, pending, all, FirstNew(healed));
    AddedAreWritten(healed, disk, pending, all);
  }

  lemma PassedCommit(
    p: Project, healed: Project, before: seq<SourceDoc>, disk: Disk, pending: Pending, r: Result<Committed, PlanError>)
    requires IsOrderly(p, disk.sources) && IsOrderly(healed, disk.sources) && IsRegistered(p, disk, healed)
    requires healed.cursor == p.cursor && Marks(Rows(healed)) == Marks(Rows(p))
    requires |pending.drafts| == |pending.ends| > 0 && IsNext(healed, disk.sources, before, pending)
    requires Refusal(healed, disk, pending.snap) == None
    requires IsCommitOfHealed(healed, disk, pending.snap, pending.drafts, pending.ends, r)
    ensures r.Ok? && IsCommitted(p, before, disk, pending, r.value)
  {
    var all := CommittedRows(healed, disk, pending.snap, pending.drafts, pending.ends);
    CommittedAddsBatch(healed, before, disk, pending, all);
    DoneProject(healed, disk, pending, all, r);
    GateIff(p, disk, healed);
    NextAsWell(p, healed, disk.sources, before, pending);
    AddsAsWell(p, healed, disk.sources, pending, r.value.project);
  }

  // ----- what the new rows say

  /** There is a row for each draft, under numbers from `next`. */
  ghost predicate HasRowsFor(
    entries: seq<Entry>, next: int, drafts: seq<Draft>, text: string, rel: string, stale: set<int>, final: bool,
    normalize: string -> string)
  {
    forall i | 0 <= i < |drafts| :: HasRowFor(entries, next, drafts, i, text, rel, stale, final, normalize)
  }

  ghost predicate HasRowFor(
    entries: seq<Entry>, next: int, drafts: seq<Draft>, i: nat, text: string, rel: string, stale: set<int>,
    final: bool, normalize: string -> string)
    requires i < |drafts|
  {
    exists row :: row in entries && IsRowFor(row, next + i, drafts[i], text, rel, stale,
                                             MayMove(final, i, |drafts|), normalize)
  }

  /** Whoever else writes to the ledger, a commit's episodes say what their drafts say and end at their anchors. */
  lemma SharedEpisodesFollowDrafts(
    p: Project, before: seq<SourceDoc>, disk: Disk, pending: Pending, normalize: string -> string,
    r: Result<Committed, PlanError>)
    requires IsOrderly(p, disk.sources) && IsPendingWithin(pending, before, disk.sources, normalize)
    requires IsCommit(p, disk, pending.snap, pending.drafts, pending.ends, r) && r.Ok?
    ensures exists next :: HasRowsFor(Rows(r.value.project), next, pending.drafts,
                                      TextAt(disk.sources, pending.snap.rel), pending.snap.rel, r.value.stale,
                                      pending.snap.final, normalize)
  {
    var healed :| IsRegistered(p, disk, healed)
                  && IsCommitOfHealed(healed, disk, pending.snap, pending.drafts, pending.ends, r);
    RegisteredStaysOrderly(p, disk, healed);
    DoneIfOk(healed, disk, pending, r);
    PassedIsNext(healed, disk.sources, before, disk, pending, normalize);
    HealedRowsFollow(healed, before, disk, pending, normalize, r.value);
  }

  lemma HealedRowsFollow(
    healed: Project, before: seq<SourceDoc>, disk: Disk, pending: Pending, normalize: string -> string,
    done: Committed)
    requires healed.episodes.Listed? && forall e | e in healed.episodes.entries :: IsShaped(e)
    requires DistinctRels(before) && IsPending(pending, before, normalize) && pending.snap.start >= 0
    requires IsDone(healed, disk, pending.snap, pending.drafts, pending.ends, done)
    ensures HasRowsFor(Rows(done.project), FirstNew(healed), pending.drafts, pending.snap.text, pending.snap.rel,
                       done.stale, pending.snap.final, normalize)
  {
    forall i | 0 <= i < |pending.drafts|
      ensures HasRowFor(Rows(done.project), FirstNew(healed), pending.drafts, i, pending.snap.text, pending.snap.rel,
                        done.stale, pending.snap.final, normalize)
    {
      var row := HealedRowFollows(healed, before, disk, pending, normalize, done, i, FirstNew(healed) + i,
                                  MayMove(pending.snap.final, i, |pending.drafts|));
    }
  }

  lemma HealedRowFollows(
    healed: Project, before: seq<SourceDoc>, disk: Disk, pending: Pending, normalize: string -> string,
    done: Committed, i: nat, num: int, isLast: bool)
    returns (row: Entry)
    requires healed.episodes.Listed? && forall e | e in healed.episodes.entries :: IsShaped(e)
    requires DistinctRels(before) && IsPending(pending, before, normalize) && pending.snap.start >= 0
    requires IsDone(healed, disk, pending.snap, pending.drafts, pending.ends, done)
    requires i < |pending.drafts| && num == FirstNew(healed) + i
    requires isLast == MayMove(pending.snap.final, i, |pending.drafts|)
    ensures row in Rows(done.project)
    ensures IsRowFor(row, num, pending.drafts[i], pending.snap.text, pending.snap.rel, done.stale, isLast, normalize)
  {
    row := NewRowIsThere(healed, disk, pending, i, num, done);
    var end := pending.snap.start + pending.ends[i];
    PendingIsAnchored(before, pending, normalize, i, end, isLast);
    NewRowSays(row, disk, pending, normalize, done.stale, num, i, end, isLast);
  }

  lemma NewRowIsThere(healed: Project, disk: Disk, pending: Pending, i: nat, num: int, done: Committed)
    returns (row: Entry)
    requires healed.episodes.Listed? && forall e | e in healed.episodes.entries :: IsShaped(e)
    requires |pending.drafts| == |pending.ends| && i < |pending.drafts| && num == FirstNew(healed) + i
    requires IsDone(healed, disk, pending.snap, pending.drafts, pending.ends, done)
    ensures row == NewEntry(disk, num, pending.drafts[i],
                            BatchRange(pending.snap.rel, pending.snap.start, pending.ends, i))
    ensures row in Rows(done.project)
    ensures num in done.stale <==> ScriptRel(num) in disk.paths || num in disk.drafts
  {
    ProducedIs(disk, FirstNew(healed), |pending.drafts|, num);
    var ranges := BatchRanges(pending.snap.rel, pending.snap.start, pending.ends);
    var added := NewEntries(disk, FirstNew(healed), pending.drafts, ranges);
    RowsOfCommit(healed, disk, pending);
    SortKeepsRows(healed.episodes.entries + added);
    row := added[i];
  }
}
