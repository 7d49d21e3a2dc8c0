/**
 A ledger many parts of the system write to: rows without ranges come and go, rows are moved and deleted, source files
 are added. What the planner relies on is said about the rows that have ranges, and about the cursor.
 */
module SharedLedger {
  import opened Wrappers
  import opened SourceText
  import opened Boundaries
  import opened EpisodeFiles
  import opened Ledger
  import opened Tiling
  import opened PlanSpec
  import opened LedgerInvariant
  import opened PlanLaws
  import opened ResetSpec
  import opened ResetLaws

  /** A row that has a number and a range. */
  datatype Mark = Mark(num: int, range: Range)

  predicate IsMarked(e: Entry)
  {
    NumOf(e).Some? && Coords(e).Some?
  }

  function MarkOf(e: Entry): Mark
    requires IsMarked(e)
  {
    Mark(NumOf(e).value, Coords(e).value)
  }

  function Marks(entries: seq<Entry>): set<Mark>
  {
    set e | e in entries && IsMarked(e) :: MarkOf(e)
  }

  /** A row as the planner or another part of the system writes it: with a whole range, or with none. */
  predicate IsShaped(e: Entry)
  {
    e.Entry? && e.episode.Whole? && (Coords(e).Some? || e.range == NotMapping)
  }

  /** No two rows share a number. */
  ghost predicate IsDistinct(entries: seq<Entry>)
  {
    && (forall a, b | a in entries && b in entries && NumOf(a) == NumOf(b) :: a == b)
    && forall e | e in entries :: multiset(entries)[e] == 1
  }

  // ----- order

  /** The range ends at or before this place in reading order. */
  ghost predicate IsBehind(sources: seq<SourceDoc>, r: Range, place: Place)
  {
    Idx(sources, r.rel) < Idx(sources, place.rel) || (r.rel == place.rel && r.end <= place.offset)
  }

  /** The first place is not further on than the second. */
  ghost predicate IsUpTo(sources: seq<SourceDoc>, a: Place, b: Place)
  {
    Idx(sources, a.rel) < Idx(sources, b.rel) || (a.rel == b.rel && a.offset <= b.offset)
  }

  function StartOf(r: Range): Place
  {
    Place(r.rel, r.start)
  }

  /** Ranges lie in their sources, and episodes follow each other in reading order without overlap. */
  ghost predicate AreOrdered(sources: seq<SourceDoc>, marks: set<Mark>)
  {
    && (forall m | m in marks :: m.num >= 1 && InBounds(sources, m.range))
    && (forall a, b | a in marks && b in marks && a.num < b.num :: IsBehind(sources, a.range, StartOf(b.range)))
    && forall a, b | a in marks && b in marks && a.num == b.num :: a == b
  }

  ghost predicate IsPlace(sources: seq<SourceDoc>, place: Place)
  {
    0 <= Idx(sources, place.rel) && 0 <= place.offset <= |TextAt(sources, place.rel)|
  }

  /** The cursor is a place in the sources with every range behind it; without one there are no ranges. */
  ghost predicate IsAhead(sources: seq<SourceDoc>, cursor: CursorValue, marks: set<Mark>)
  {
    match CursorPlace(cursor)
    case None => cursor == NoCursor && forall m :: m !in marks
    case Some(front) => IsPlace(sources, front) && forall m | m in marks :: IsBehind(sources, m.range, front)
  }

  ghost predicate IsOrderly(p: Project, sources: seq<SourceDoc>)
  {
    && p.episodes.Listed?
    && (forall e | e in p.episodes.entries :: IsShaped(e))
    && IsDistinct(p.episodes.entries)
    && AreOrdered(sources, Marks(p.episodes.entries))
    && IsAhead(sources, p.cursor, Marks(p.episodes.entries))
    && !p.fingerprints.NotAMapping? && Mismatched(p.fingerprints, sources) == {}
  }

  // ----- characters

  /** There is a character there, and it is not whitespace. */
  ghost predicate IsText(sources: seq<SourceDoc>, rel: string, offset: int)
  {
    0 <= Idx(sources, rel) && 0 <= offset < |TextAt(sources, rel)| && !IsSpace(TextAt(sources, rel)[offset])
  }

  predicate Holds(r: Range, rel: string, offset: int)
  {
    r.rel == rel && r.start <= offset < r.end
  }

  /** Some episode has the character. */
  ghost predicate IsTaken(marks: set<Mark>, rel: string, offset: int)
  {
    exists m :: m in marks && Holds(m.range, rel, offset)
  }

  /** The character comes before this place in reading order. */
  ghost predicate IsBefore(sources: seq<SourceDoc>, rel: string, offset: int, place: Place)
  {
    Idx(sources, rel) < Idx(sources, place.rel) || (rel == place.rel && offset < place.offset)
  }

  /** Planning has gone past the character, and no episode has it. */
  ghost predicate IsSkipped(p: Project, sources: seq<SourceDoc>, rel: string, offset: int)
    requires p.episodes.Listed?
  {
    && IsText(sources, rel, offset)
    && CursorPlace(p.cursor).Some? && IsBefore(sources, rel, offset, CursorPlace(p.cursor).value)
    && !IsTaken(Marks(p.episodes.entries), rel, offset)
  }

  /** No character is in two episodes, and none further on than the cursor is in one. */
  lemma TakenOnce(sources: seq<SourceDoc>, marks: set<Mark>, a: Mark, b: Mark, rel: string, offset: int)
    requires AreOrdered(sources, marks) && a in marks && b in marks
    requires Holds(a.range, rel, offset) && Holds(b.range, rel, offset)
    ensures a == b
  {
    assert a.num < b.num ==> IsBehind(sources, a.range, StartOf(b.range));
    assert b.num < a.num ==> IsBehind(sources, b.range, StartOf(a.range));
  }

  lemma TakenIsBefore(sources: seq<SourceDoc>, r: Range, place: Place, rel: string, offset: int)
    requires IsBehind(sources, r, place) && Holds(r, rel, offset)
    ensures IsBefore(sources, rel, offset, place)
  {
  }

  // ----- where planning goes on

  /** On an orderly ledger the cursor decides alone. */
  lemma StartIsCursor(p: Project, sources: seq<SourceDoc>)
    requires IsOrderly(p, sources)
    ensures EffectiveStart(p, sources) ==
            if CursorPlace(p.cursor).Some? then CursorPlace(p.cursor)
            else if sources == [] then None else Some(Place(sources[0].rel, 0))
  {
    var entries := p.episodes.entries;
    LastAnchoredIsHighest(entries);
    if LastAnchored(entries).Some? {
      var i :| 0 <= i < |entries| && Anchor(entries[i]) == LastAnchored(entries);
      AnchoredIsMarked(sources, p.cursor, entries, entries[i]);
    }
  }

  lemma AnchoredIsMarked(sources: seq<SourceDoc>, cursor: CursorValue, entries: seq<Entry>, e: Entry)
    requires e in entries && IsShaped(e) && Anchor(e).Some?
    requires AreOrdered(sources, Marks(entries)) && IsAhead(sources, cursor, Marks(entries))
    ensures CursorPlace(cursor).Some?
    ensures Further(sources, Anchor(e).value.1, CursorPlace(cursor).value) == CursorPlace(cursor).value
  {
    assert MarkOf(e) in Marks(entries);
  }

  // ----- rows that come, go and move

  lemma SameRowsSameMarks(a: seq<Entry>, b: seq<Entry>)
    requires multiset(a) == multiset(b)
    ensures Marks(a) == Marks(b)
    ensures (forall e | e in a :: IsShaped(e)) <==> (forall e | e in b :: IsShaped(e))
    ensures IsDistinct(a) <==> IsDistinct(b)
  {
    forall e ensures e in a <==> e in b {
      assert e in a <==> e in multiset(a);
      assert e in b <==> e in multiset(b);
    }
  }

  lemma MarksAppend(entries: seq<Entry>, e: Entry)
    ensures Marks(entries + [e]) == Marks(entries) + (if IsMarked(e) then {MarkOf(e)} else {})
  {
    var all := entries + [e];
    forall x ensures x in all <==> x in entries || x == e {
    }
  }

  lemma DistinctAppend(entries: seq<Entry>, e: Entry)
    requires IsDistinct(entries) && NumOf(e).Some? && NumOf(e).value !in KnownNums(entries)
    ensures IsDistinct(entries + [e])
  {
    var all := entries + [e];
    assert multiset(all) == multiset(entries) + multiset{e};
    forall x | x in entries ensures NumOf(x) != NumOf(e) {
      var i :| 0 <= i < |entries| && entries[i] == x;
    }
    forall x | x in all ensures multiset(all)[x] == 1 {
      assert x in entries || x == e;
      if x == e {
        assert e !in multiset(entries);
      }
    }
  }

  /** What is left when one row has been taken out. */
  lemma RowRemoved(entries: seq<Entry>, e: Entry, left: seq<Entry>)
    requires IsDistinct(entries) && e in entries && multiset(left) == multiset(entries) - multiset{e}
    ensures forall x :: x in left <==> x in entries && x != e
    ensures IsDistinct(left)
    ensures NumOf(e).Some? ==> NumOf(e).value !in KnownNums(left)
    ensures Marks(left) == Marks(entries) - (if IsMarked(e) then {MarkOf(e)} else {})
  {
    assert multiset(entries)[e] == 1;
    forall x ensures x in left <==> x in entries && x != e {
      assert x in left <==> x in multiset(left);
      assert x in entries <==> x in multiset(entries);
    }
    assert forall x | x in left :: multiset(left)[x] == multiset(entries)[x];
    MarksWithout(entries, e, left);
  }

  lemma MarksWithout(entries: seq<Entry>, e: Entry, left: seq<Entry>)
    requires IsDistinct(entries) && e in entries && forall x :: x in left <==> x in entries && x != e
    ensures Marks(left) == Marks(entries) - (if IsMarked(e) then {MarkOf(e)} else {})
    ensures NumOf(e).Some? ==> NumOf(e).value !in KnownNums(left)
  {
    forall x | x in entries && x != e ensures NumOf(x) != NumOf(e) {
    }
  }

  /** The same rows but for one, which has been rewritten with its number and range kept. */
  lemma RowRewritten(entries: seq<Entry>, e: Entry, e': Entry, after: seq<Entry>)
    requires IsDistinct(entries) && e in entries && IsShaped(e) && IsShaped(e')
    requires e'.episode == e.episode && e'.range == e.range
    requires multiset(after) == multiset(entries) - multiset{e} + multiset{e'}
    ensures IsDistinct(after) && Marks(after) == Marks(entries)
    ensures forall x | x in after :: x in entries || x == e'
  {
    var left := Remove(entries, e);
    RowRemoved(entries, e, left);
    DistinctAppend(left, e');
    MarksAppend(left, e');
    assert multiset(left + [e']) == multiset(left) + multiset{e'};
    SameRowsSameMarks(left + [e'], after);
    forall x | x in after ensures x in entries || x == e' {
      assert x in multiset(after);
    }
  }

  /** The sequence without the first occurrence of an element. */
  function Remove(entries: seq<Entry>, e: Entry): (left: seq<Entry>)
    requires e in entries
    ensures multiset(left) == multiset(entries) - multiset{e}
  {
    assert entries == [entries[0]] + entries[1..];
    if entries[0] == e then entries[1..] else [entries[0]] + Remove(entries[1..], e)
  }

  lemma SameMarksStayOrderly(p: Project, p': Project, sources: seq<SourceDoc>)
    requires IsOrderly(p, sources) && p'.episodes.Listed? && p'.cursor == p.cursor && p'.fingerprints == p.fingerprints
    requires (forall e | e in p'.episodes.entries :: IsShaped(e)) && IsDistinct(p'.episodes.entries)
    requires Marks(p'.episodes.entries) == Marks(p.episodes.entries)
    ensures IsOrderly(p', sources)
  {
  }

  /** Fewer ranges behind the same cursor are in order as well. */
  lemma FewerMarksStayOrderly(p: Project, p': Project, sources: seq<SourceDoc>)
    requires IsOrderly(p, sources) && p'.episodes.Listed? && p'.cursor == p.cursor && p'.fingerprints == p.fingerprints
    requires (forall e | e in p'.episodes.entries :: IsShaped(e)) && IsDistinct(p'.episodes.entries)
    requires Marks(p'.episodes.entries) <= Marks(p.episodes.entries)
    ensures IsOrderly(p', sources)
  {
  }

  // ----- registration

  lemma {:induction false} OrphansAddNoMarks(entries: seq<Entry>, nums: seq<int>, disk: Disk)
    requires IsDistinct(entries) && forall e | e in entries :: IsShaped(e)
    ensures var all := WithOrphans(entries, nums, disk);
            && IsDistinct(all) && (forall e | e in all :: IsShaped(e)) && Marks(all) == Marks(entries)
  {
    if nums != [] {
      var before := WithOrphans(entries, nums[..|nums| - 1], disk);
      var orphan := OrphanEntry(disk, nums[|nums| - 1]);
      OrphansAddNoMarks(entries, nums[..|nums| - 1], disk);
      MarksAppend(before, orphan);
      if nums[|nums| - 1] !in KnownNums(before) {
        DistinctAppend(before, orphan);
      }
    }
  }

  lemma ShapedAreNumbered(entries: seq<Entry>)
    requires forall e | e in entries :: IsShaped(e)
    ensures AllNumbered(entries) && NonNull(entries) == entries
  {
    forall i | 0 <= i < |entries| ensures NumOf(entries[i]).Some? {
      assert IsShaped(entries[i]);
    }
    NoNulls(entries);
  }

  lemma {:induction false} NoNulls(entries: seq<Entry>)
    requires forall e | e in entries :: IsShaped(e)
    ensures NonNull(entries) == entries
  {
    if entries != [] {
      NoNulls(entries[..|entries| - 1]);
      assert IsShaped(entries[|entries| - 1]);
    }
  }

  /** Registering orphans adds rows without ranges and nothing else. */
  lemma RegisteredStaysOrderly(p: Project, disk: Disk, healed: Project)
    requires IsOrderly(p, disk.sources) && IsRegistered(p, disk, healed)
    ensures IsOrderly(healed, disk.sources) && Marks(Rows(healed)) == Marks(Rows(p))
    ensures healed.cursor == p.cursor && healed.fingerprints == p.fingerprints
  {
    var entries := p.episodes.entries;
    var nums :| IsAscending(nums, EpisodeNums(disk.files))
                && healed == p.(episodes := Listed(SortIfPossible(WithOrphans(entries, nums, disk))));
    OrphansAddNoMarks(entries, nums, disk);
    var all := WithOrphans(entries, nums, disk);
    SortedInOrder(all);
    SameRowsSameMarks(SortByNum(all), all);
    ShapedAreNumbered(all);
    SameMarksStayOrderly(p, healed, disk.sources);
  }

  /** The range gate opens exactly when every row has a range and every numbered file a row. */
  lemma GateIff(p: Project, disk: Disk, healed: Project)
    requires IsOrderly(p, disk.sources) && IsRegistered(p, disk, healed)
    ensures SomeLackRange(Rows(healed)) <==> SomeLackRange(Rows(p)) || !NoOrphans(Rows(p), disk.files)
    ensures !SomeLackRange(Rows(healed)) ==> multiset(Rows(healed)) == multiset(Rows(p))
  {
    var entries := p.episodes.entries;
    var nums :| IsAscending(nums, EpisodeNums(disk.files))
                && healed == p.(episodes := Listed(SortIfPossible(WithOrphans(entries, nums, disk))));
    var all := WithOrphans(entries, nums, disk);
    OrphansAddNoMarks(entries, nums, disk);
    ShapedAreNumbered(all);
    SortKeepsRows(all);
    SortedInOrder(all);
    LackingIsMembership(all, SortByNum(all));
    forall num ensures num in nums <==> HasEpisodeFile(disk.files, num) {
    }
    if NoOrphans(entries, disk.files) {
      WithOrphansNothingToAdd(entries, nums, disk);
    }
    WithOrphansCovers(entries, nums, disk);
    if SomeLackRange(entries) {
      var i :| 0 <= i < |entries| && LacksRange(entries[i]);
      assert all[i] == entries[i];
    }
    if !SomeLackRange(all) {
      OrphansAreRows(entries, nums, disk);
    }
  }

  lemma LackingIsMembership(a: seq<Entry>, b: seq<Entry>)
    requires forall e :: e in a <==> e in b
    ensures SomeLackRange(a) <==> SomeLackRange(b)
  {
    LackingMember(a, b);
    LackingMember(b, a);
  }

  lemma LackingMember(a: seq<Entry>, b: seq<Entry>)
    requires forall e | e in a :: e in b
    ensures SomeLackRange(a) ==> SomeLackRange(b)
  {
    if SomeLackRange(a) {
      var i :| 0 <= i < |a| && LacksRange(a[i]);
      assert a[i] in b;
      var j :| 0 <= j < |b| && b[j] == a[i];
      assert LacksRange(b[j]);
    }
  }
}
