/** The ledgers the planner produces, and how its readers see them. */
module LedgerInvariant {
  import opened Wrappers
  import opened SourceText
  import opened EpisodeFiles
  import opened Ledger
  import opened Tiling
  import opened PlanSpec

  /** The ranges of rows that all have one. */
  function RangesOf(entries: seq<Entry>): (r: seq<Range>)
    requires forall i | 0 <= i < |entries| :: Coords(entries[i]).Some?
  {
    seq(|entries|, i requires 0 <= i < |entries| => Coords(entries[i]).value)
  }

  /** Rows 1..n in order, each with its number as an int and with coordinates. */
  ghost predicate IsNumbered(entries: seq<Entry>)
  {
    forall i | 0 <= i < |entries| :: IsRow(entries[i], i + 1)
  }

  predicate IsRow(e: Entry, num: int)
  {
    e.Entry? && e.episode == Whole(num) && Coords(e).Some?
  }

  /**
   Episodes numbered 1..n whose ranges tile the sources, a cursor at the end of episode n, and current fingerprints.
   */
  ghost predicate IsTiled(p: Project, sources: seq<SourceDoc>)
  {
    && p.episodes.Listed?
    && var entries := p.episodes.entries;
       && IsNumbered(entries)
       && IsTiling(sources, RangesOf(entries))
       && (entries == [] ==>
             && p.cursor == NoCursor
             && (p.fingerprints == NoFingerprints || p.fingerprints == Recorded(CurrentFingerprints(sources))))
       && (entries != [] ==>
             && p.cursor == CursorAfter(entries)
             && p.fingerprints == Recorded(CurrentFingerprints(sources)))
  }

  /** The end of the last row. */
  function LastRange(entries: seq<Entry>): Range
    requires entries != [] && Coords(entries[|entries| - 1]).Some?
  {
    Coords(entries[|entries| - 1]).value
  }

  function CursorAfter(entries: seq<Entry>): CursorValue
    requires entries != [] && Coords(entries[|entries| - 1]).Some?
  {
    CursorAt(Path(LastRange(entries).rel), Int(LastRange(entries).end))
  }

  // ----- what the readers make of numbered rows

  lemma {:induction false} NumberedRows(entries: seq<Entry>)
    requires IsNumbered(entries)
    ensures NonNull(entries) == entries && MaxNum(entries) == |entries|
    ensures LastAnchored(entries) ==
            if entries == [] then None else Some((|entries|, Place(LastRange(entries).rel, LastRange(entries).end)))
  {
    if entries != [] {
      assert IsRow(entries[|entries| - 1], |entries|);
      NumberedRows(entries[..|entries| - 1]);
    }
  }

  lemma NumberedOrder(entries: seq<Entry>)
    requires IsNumbered(entries)
    ensures InOrder(entries) && AllNumbered(entries) && !SomeLackRange(entries)
    ensures forall n :: n in KnownNums(entries) <==> 1 <= n <= |entries|
  {
    forall i | 0 <= i < |entries| - 1 ensures SortKey(entries[i]) <= SortKey(entries[i + 1]) {
      assert IsRow(entries[i], i + 1) && IsRow(entries[i + 1], i + 2);
    }
    forall i | 0 <= i < |entries| ensures NumOf(entries[i]) == Some(i + 1) && Coords(entries[i]).Some? {
      assert IsRow(entries[i], i + 1);
    }
    forall n | 1 <= n <= |entries| ensures n in KnownNums(entries) {
      assert NumOf(entries[n - 1]) == Some(n);
    }
  }

  /** The place where a tiled ledger is continued: the end of its last range, or the top of the first source. */
  lemma TiledStart(p: Project, sources: seq<SourceDoc>)
    requires IsTiled(p, sources)
    ensures EffectiveStart(p, sources) ==
            if p.episodes.entries != [] then
              Some(Place(LastRange(p.episodes.entries).rel, LastRange(p.episodes.entries).end))
            else if sources == [] then None
            else Some(Place(sources[0].rel, 0))
  {
    var entries := p.episodes.entries;
    NumberedRows(entries);
    if entries != [] {
      assert IsRow(entries[|entries| - 1], |entries|);
      assert InBounds(sources, RangesOf(entries)[|entries| - 1]);
    }
  }

  /** On a tiled ledger registration either changes nothing or leaves a row that fails the range gate. */
  lemma TiledRegistration(p: Project, disk: Disk, healed: Project)
    requires IsTiled(p, disk.sources) && IsRegistered(p, disk, healed)
    requires !SomeLackRange(Rows(healed))
    ensures healed == p
    ensures NoOrphans(p.episodes.entries, disk.files)
  {
    var entries := p.episodes.entries;
    NumberedOrder(entries);
    var nums :| IsAscending(nums, EpisodeNums(disk.files))
                && healed == p.(episodes := Listed(SortIfPossible(WithOrphans(entries, nums, disk))));
    OrphanShows(entries, nums, disk);
    forall num | HasEpisodeFile(disk.files, num) ensures num in KnownNums(entries) {
      assert num in EpisodeNums(disk.files) && num in nums;
    }
    RegistrationIsIdle(p, disk, healed);
  }

  /** A number without a row leads to a row without a range. */
  lemma OrphanShows(entries: seq<Entry>, nums: seq<int>, disk: Disk)
    requires !SomeLackRange(SortIfPossible(WithOrphans(entries, nums, disk)))
    ensures forall n | n in nums :: n in KnownNums(entries)
  {
    var all := WithOrphans(entries, nums, disk);
    if AllNumbered(all) {
      SortKeepsRows(all);
    }
    assert !SomeLackRange(all) by {
      forall i | 0 <= i < |all| ensures !LacksRange(all[i]) {
        assert all[i] in SortIfPossible(all);
      }
    }
    OrphansAreRows(entries, nums, disk);
  }

  lemma {:induction false} OrphansAreRows(entries: seq<Entry>, nums: seq<int>, disk: Disk)
    requires !SomeLackRange(WithOrphans(entries, nums, disk))
    ensures WithOrphans(entries, nums, disk) == entries
    ensures forall n | n in nums :: n in KnownNums(entries)
  {
    if nums != [] {
      var before := WithOrphans(entries, nums[..|nums| - 1], disk);
      var num := nums[|nums| - 1];
      var all := WithOrphans(entries, nums, disk);
      assert before <= all;
      assert !SomeLackRange(before) by {
        forall i | 0 <= i < |before| ensures !LacksRange(before[i]) {
          assert before[i] == all[i];
        }
      }
      OrphansAreRows(entries, nums[..|nums| - 1], disk);
      var extended := before + [OrphanEntry(disk, num)];
      assert LacksRange(extended[|before|]);
      assert num in KnownNums(before);
    }
  }

  lemma SortKeepsRows(entries: seq<Entry>)
    ensures forall x :: x in SortByNum(entries) <==> x in entries
  {
    SortedInOrder(entries);
    assert forall x :: x in entries <==> x in multiset(entries);
    assert forall x :: x in SortByNum(entries) <==> x in multiset(SortByNum(entries));
  }

  // ----- any ledger, however it came about

  /** The anchored row that counts is one with the highest number of all anchored rows. */
  lemma {:induction false} LastAnchoredIsHighest(entries: seq<Entry>)
    ensures LastAnchored(entries).None? <==> forall i | 0 <= i < |entries| :: Anchor(entries[i]).None?
    ensures LastAnchored(entries).Some? ==>
              && (exists i :: 0 <= i < |entries| && Anchor(entries[i]) == LastAnchored(entries))
              && forall i | 0 <= i < |entries| && Anchor(entries[i]).Some? ::
                   Anchor(entries[i]).value.0 <= LastAnchored(entries).value.0
  {
    if entries != [] {
      var n := |entries| - 1;
      LastAnchoredIsHighest(entries[..n]);
      assert forall i | 0 <= i < n :: entries[..n][i] == entries[i];
      if LastAnchored(entries[..n]).Some? {
        var i :| 0 <= i < n && Anchor(entries[..n][i]) == LastAnchored(entries[..n]);
        assert Anchor(entries[i]) == LastAnchored(entries[..n]);
      }
      var last, before := LastAnchored(entries), LastAnchored(entries[..n]);
      assert Anchor(entries[n]).Some? ==> Anchor(entries[n]) == last || before == last;
    }
  }

  /**
   Of the last range's end and the cursor, planning goes on from the one further on in the sources; one outside them
   yields.
   */
  lemma FurtherIsLater(sources: seq<SourceDoc>, last: Place, cur: Place)
    ensures var r := Further(sources, last, cur);
            && (r == last || r == cur)
            && (0 <= Idx(sources, last.rel) && 0 <= Idx(sources, cur.rel) ==>
                  && !Tiling.Before(Idx(sources, r.rel), r.offset, Idx(sources, last.rel), last.offset)
                  && !Tiling.Before(Idx(sources, r.rel), r.offset, Idx(sources, cur.rel), cur.offset))
            && (Idx(sources, last.rel) < 0 && 0 <= Idx(sources, cur.rel) ==> r == cur)
            && (0 <= Idx(sources, last.rel) && Idx(sources, cur.rel) < 0 ==> r == last)
  {
  }

  /** New episodes never take a number that is in use, on whatever ledger. */
  lemma {:induction false} NewNumbersAreFree(entries: seq<Entry>, num: int)
    requires num > MaxNum(entries)
    ensures num !in KnownNums(entries)
  {
    if entries != [] {
      var n := |entries| - 1;
      NewNumbersAreFree(entries[..n], num);
      assert entries == entries[..n] + [entries[n]];
      KnownNumsAppend(entries[..n], entries[n]);
    }
  }

  // ----- what the snapshot found

  lemma {:induction false} SkipReaches(sources: seq<SourceDoc>, i: nat, start: int)
    requires DistinctRels(sources) && i < |sources| && 0 <= start <= |sources[i].text|
    ensures var r := SkipBlank(sources, i, start);
            r.Some? ==> i <= r.value.0 && Reaches(sources, sources[i].rel, start, sources[r.value.0].rel, r.value.1)
    ensures SkipBlank(sources, i, start).None? ==>
              IsBlank(sources[i].text[start..]) && BlankBetween(sources, i + 1, |sources|)
    decreases |sources| - i
  {
    IndexOfAt(sources, i);
    if IsBlank(sources[i].text[start..]) && i + 1 < |sources| {
      IndexOfAt(sources, i + 1);
      SkipReaches(sources, i + 1, 0);
      assert sources[i + 1].text[0..] == sources[i + 1].text;
      var r := SkipBlank(sources, i + 1, 0);
      if r.Some? {
        IndexOfAt(sources, r.value.0);
      }
    }
  }

  /** What a snapshot carries, whatever ledger it was taken from: a place further on with something left to plan. */
  ghost predicate IsSnapOf(sources: seq<SourceDoc>, disk: Disk, windowChars: int, snap: Snap)
    requires windowChars >= 1
  {
    disk.sources == sources && OutlookFrom(disk, snap.startRef, windowChars) == Ok(Window(snap))
  }

  /**
   From a place in the sources a snapshot goes on over whitespace only, and cuts inside a text with something left.
   */
  lemma SnapGoesOn(disk: Disk, snap: Snap, windowChars: int)
    requires DistinctRels(disk.sources) && windowChars >= 1 && IsSnapOf(disk.sources, disk, windowChars, snap)
    requires 0 <= Idx(disk.sources, snap.startRef.rel)
    requires 0 <= snap.startRef.offset <= |TextAt(disk.sources, snap.startRef.rel)|
    ensures 0 <= Idx(disk.sources, snap.rel) && snap.text == TextAt(disk.sources, snap.rel)
    ensures 0 <= snap.start < |snap.text| && !IsBlank(snap.text[snap.start..])
    ensures |snap.window| <= |snap.text| - snap.start && (snap.final <==> snap.start + |snap.window| == |snap.text|)
    ensures Reaches(disk.sources, snap.startRef.rel, snap.startRef.offset, snap.rel, snap.start)
  {
    var sources := disk.sources;
    var i := Idx(sources, snap.startRef.rel);
    SkipReaches(sources, i, snap.startRef.offset);
    SkipStops(sources, i, snap.startRef.offset);
    var at := SkipBlank(sources, i, snap.startRef.offset).value;
    BlankEnd(sources[at.0].text, at.1);
    IndexOfAt(sources, at.0);
  }

  /** A batch that passes the commit's checks continues the tiling it is committed onto. */
  lemma SnapContinues(p: Project, disk: Disk, snap: Snap, windowChars: int)
    requires DistinctRels(disk.sources) && IsTiled(p, disk.sources)
    requires windowChars >= 1 && IsSnapOf(disk.sources, disk, windowChars, snap)
    requires EffectiveStart(p, disk.sources) == Some(snap.startRef)
    ensures 0 <= Idx(disk.sources, snap.rel) && snap.text == TextAt(disk.sources, snap.rel)
    ensures 0 <= snap.start < |snap.text| && !IsBlank(snap.text[snap.start..])
    ensures |snap.window| <= |snap.text| - snap.start && (snap.final <==> snap.start + |snap.window| == |snap.text|)
    ensures Continues(disk.sources, RangesOf(p.episodes.entries), snap.rel, snap.start)
  {
    TiledStart(p, disk.sources);
    var sources, entries := disk.sources, p.episodes.entries;
    if entries != [] {
      assert InBounds(sources, RangesOf(entries)[|entries| - 1]);
      SnapGoesOn(disk, snap, windowChars);
    } else {
      IndexOfAt(sources, 0);
      SnapGoesOn(disk, snap, windowChars);
      assert sources[0].text[0..] == sources[0].text;
    }
  }
}
