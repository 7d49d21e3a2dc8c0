/** Resetting the ledger: what may be kept, which files go and how, and what is left. */
module ResetSpec {
  import opened Wrappers
  import opened SourceText
  import opened EpisodeFiles
  import opened Ledger
  import opened Tiling
  import opened PlanSpec

  datatype ResetError =
    | NotPositiveFrom
    | BadShape
    | BadNumber
    | DuplicateNumber(num: int)
    | UnknownEpisode
    | MissingEpisode(num: int)
    | SourceTextChanged
    | InvalidRange(num: int)
    | NoRangeBefore(num: int)
    | WrongStart(num: int)
    | NoRange(num: int)

  datatype ResetFailure = Refused(reason: ResetError) | NewlyConsumed | Interrupted

  // ----- the partial reset's conditions

  /** Every row is an object with a positive number, and no two share one. */
  ghost predicate IsCleanLedger(entries: seq<Entry>)
  {
    && (forall i | 0 <= i < |entries| :: NumOf(entries[i]).Some? && NumOf(entries[i]).value >= 1)
    && forall i, j | 0 <= i < j < |entries| :: NumOf(entries[i]) != NumOf(entries[j])
  }

  /** The row numbered `num` has these coordinates. */
  ghost predicate HasRange(entries: seq<Entry>, num: int, r: Range)
  {
    exists i :: 0 <= i < |entries| && NumOf(entries[i]) == Some(num) && Coords(entries[i]) == Some(r)
  }

  /** The coordinates of episodes 1..n. */
  ghost predicate HasRanges(entries: seq<Entry>, ranges: seq<Range>)
  {
    forall k | 0 <= k < |ranges| :: HasRange(entries, k + 1, ranges[k])
  }

  /**
   What a reset from episode `from` >= 2 demands: a clean ledger, unchanged sources, and a tiling by episodes
   1..from-1.
   */
  ghost predicate CanKeep(p: Project, sources: seq<SourceDoc>, from: int, ranges: seq<Range>)
  {
    && p.episodes.Listed?
    && IsCleanLedger(p.episodes.entries)
    && from in KnownNums(p.episodes.entries)
    && Mismatched(p.fingerprints, sources) == {}
    && |ranges| == from - 1
    && HasRanges(p.episodes.entries, ranges)
    && IsTiling(sources, ranges)
  }

  /** What each reason given for refusing a partial reset says about the project. */
  ghost predicate IsTrueReason(p: Project, sources: seq<SourceDoc>, from: int, reason: ResetError)
  {
    var entries := Rows(p);
    match reason
    case NotPositiveFrom => from < 1
    case BadShape => !p.episodes.Listed?
    case BadNumber => exists e :: e in entries && (NumOf(e).None? || NumOf(e).value < 1)
    case DuplicateNumber(num) => SharesNumber(entries, num)
    case UnknownEpisode => from !in KnownNums(entries)
    case MissingEpisode(num) => 1 <= num < from && num !in KnownNums(entries)
    case SourceTextChanged => Mismatched(p.fingerprints, sources) != {}
    case _ => IsTrueFault(entries, sources, from, reason)
  }

  ghost predicate SharesNumber(entries: seq<Entry>, num: int)
  {
    exists i, j :: 0 <= i < j < |entries| && NumOf(entries[i]) == NumOf(entries[j]) == Some(num)
  }

  /** The reasons that have to do with ranges. */
  ghost predicate IsTrueFault(entries: seq<Entry>, sources: seq<SourceDoc>, from: int, reason: ResetError)
  {
    match reason
    case InvalidRange(num) => 1 <= num < from && exists r :: HasRange(entries, num, r) && !InBounds(sources, r)
    case NoRangeBefore(num) => 1 < num < from && HasNoRange(entries, num - 1)
    case WrongStart(num) =>
      1 <= num < from && exists r :: HasRange(entries, num, r) && !FitsAfter(entries, sources, num, r)
    case NoRange(num) => num == from - 1 && HasNoRange(entries, num)
    case _ => false
  }

  ghost predicate HasNoRange(entries: seq<Entry>, num: int)
  {
    forall r :: !HasRange(entries, num, r)
  }

  /** The range starts where the previous episode ends, or, for the first, where the sources begin. */
  ghost predicate FitsAfter(entries: seq<Entry>, sources: seq<SourceDoc>, num: int, r: Range)
  {
    if num == 1 then Opens(sources, r.rel, r.start)
    else forall q | HasRange(entries, num - 1, q) :: RunsOn(sources, q, r)
  }

  lemma RangesAreUnique(entries: seq<Entry>, a: seq<Range>, b: seq<Range>)
    requires IsCleanLedger(entries) && HasRanges(entries, a) && HasRanges(entries, b) && |a| == |b|
    ensures a == b
  {
    forall k | 0 <= k < |a| ensures a[k] == b[k] {
      assert HasRange(entries, k + 1, a[k]) && HasRange(entries, k + 1, b[k]);
      var i :| 0 <= i < |entries| && NumOf(entries[i]) == Some(k + 1) && Coords(entries[i]) == Some(a[k]);
      var j :| 0 <= j < |entries| && NumOf(entries[j]) == Some(k + 1) && Coords(entries[j]) == Some(b[k]);
      assert i == j;
    }
  }

  // ----- scope, consumption and file disposal

  /** A full reset looks at every number, even zero and negative ones. */
  predicate InScope(from: int, num: int)
  {
    from == 1 || num >= from
  }

  /** Every row of the number has coordinates, and there is at least one: its files can be made again. */
  ghost predicate Recreatable(entries: seq<Entry>, num: int)
  {
    && num in KnownNums(entries)
    && forall i | 0 <= i < |entries| && NumOf(entries[i]) == Some(num) :: Coords(entries[i]).Some?
  }

  ghost predicate RowIsConsumed(disk: Disk, num: int, e: Entry)
  {
    NumOf(e) == Some(num) && (e.status == Consumed || HasDownstreamProducts(disk, num, e.script))
  }

  /** The ledger or the disk shows that work has been built on the episode. */
  ghost predicate IsConsumed(entries: seq<Entry>, disk: Disk, num: int)
  {
    || num in disk.products
    || (exists i :: 0 <= i < |entries| && RowIsConsumed(disk, num, entries[i]))
    || (num !in KnownNums(entries) && num in EpisodeNums(disk.files) && HasDownstreamProducts(disk, num, NotText))
  }

  /** All rows of one number, in ledger order. */
  function Dupes(entries: seq<Entry>, num: int): seq<Entry>
  {
    if entries == [] then []
    else
      var e := entries[|entries| - 1];
      Dupes(entries[..|entries| - 1], num) + (if NumOf(e) == Some(num) then [e] else [])
  }

  /** The answer to a reset request before anything is written. */
  datatype ResetCheck = NeedsConfirmation(consumed: set<int>, archives: seq<string>) | Cleared(consumed: set<int>)

  /** What a reset will do. */
  datatype ResetPlan = ResetPlan(nums: seq<int>, consumed: set<int>, deletes: seq<string>, archives: seq<string>)

  ghost predicate NoDuplicates<T>(s: seq<T>)
  {
    forall i, j | 0 <= i < j < |s| :: s[i] != s[j]
  }

  /** A numbered file inside the scope of the reset. */
  ghost predicate IsAffected(files: Files, from: int, name: string)
  {
    name in files && EpisodeNumber(name).Some? && InScope(from, EpisodeNumber(name).value)
  }

  ghost predicate IsScan(p: Project, disk: Disk, from: int, plan: ResetPlan)
  {
    var entries := Rows(p);
    && IsAscending(plan.nums, set num | num in KnownNums(entries) && InScope(from, num))
    && (forall num :: num in plan.consumed <==> InScope(from, num) && IsConsumed(entries, disk, num))
    && (forall name :: name in plan.deletes <==>
          IsAffected(disk.files, from, name) && Recreatable(entries, EpisodeNumber(name).value))
    && (forall name :: name in plan.archives <==>
          IsAffected(disk.files, from, name) && !Recreatable(entries, EpisodeNumber(name).value))
    && NoDuplicates(plan.deletes) && NoDuplicates(plan.archives)
  }

  ghost predicate IsInjective(m: map<string, string>)
  {
    forall a, b | a in m && b in m && m[a] == m[b] :: a == b
  }

  /**
   The directory after the files in `deletes` have been deleted and those in `archives` renamed: every archived file
   has a home of its own, under a name that was free and is not an episode file's, and nothing else has changed.
   */
  ghost predicate IsTidied(
    before: Files, after: Files, deletes: set<string>, archives: set<string>, homes: map<string, string>)
  {
    && homes.Keys == archives <= before.Keys
    && IsInjective(homes)
    && IsHoused(before, after, homes)
    && IsUntouched(before, after, deletes + archives, homes)
  }

  ghost predicate IsHoused(before: Files, after: Files, homes: map<string, string>)
  {
    forall name | name in homes :: IsHome(before, after, name, homes[name])
  }

  /** Every other file is as it was, and nothing but the homes is new. */
  ghost predicate IsUntouched(before: Files, after: Files, gone: set<string>, homes: map<string, string>)
  {
    && (forall name | name in before && name !in gone :: name in after && after[name] == before[name])
    && forall name | name in after :: (name in before && name !in gone) || name in homes.Values
  }

  ghost predicate IsHome(before: Files, after: Files, name: string, home: string)
  {
    && name in before && home in after && after[home] == before[name]
    && home !in before && EpisodeNumber(home).None? && home != REMAINING
  }

  /** The first `count` elements, or all of them. */
  function First(s: seq<string>, count: int): seq<string>
  {
    if count <= 0 then [] else if count >= |s| then s else s[..count]
  }

  /** Where the directory stands after the first `count` file operations: deletions first, then renamings. */
  ghost predicate IsTidiedSoFar(before: Files, after: Files, plan: ResetPlan, count: nat, homes: map<string, string>)
  {
    IsTidied(
      before, after, Names(First(plan.deletes, count)), Names(First(plan.archives, count - |plan.deletes|)), homes)
  }

  /** The number of file operations a plan takes. */
  function Operations(plan: ResetPlan, files: Files): nat
  {
    |plan.deletes| + |plan.archives| + (if REMAINING in files then 1 else 0)
  }

  // ----- the ledger afterwards

  /** The rows kept by a partial reset, before sorting. */
  function Retained(entries: seq<Entry>, from: int): seq<Entry>
  {
    if entries == [] then []
    else
      var e := entries[|entries| - 1];
      Retained(entries[..|entries| - 1], from) + (if IsBelow(e, from) then [e] else [])
  }

  predicate IsBelow(e: Entry, from: int)
  {
    e.Entry? && SortKey(e) < from
  }

  /** The ledger a reset writes; `cursor` is used when something is kept. */
  function ResetProject(p: Project, from: int, cursor: Place): Project
  {
    if from == 1 then Project(Listed([]), NoCursor, NoFingerprints)
    else p.(episodes := Listed(SortByNum(Retained(Rows(p), from))),
            cursor := CursorAt(Path(cursor.rel), Int(cursor.offset)))
  }

  /**
   The cursor of a reset from `from`: the end of the last kept range; there is none unless the reset may keep
   1..from-1.
   */
  ghost predicate IsResetCursor(p: Project, sources: seq<SourceDoc>, from: int, cursor: Place)
  {
    from > 1 ==> exists ranges :: CanKeep(p, sources, from, ranges) && cursor == LastPlace(ranges)
  }

  ghost predicate MayReset(p: Project, sources: seq<SourceDoc>, from: int)
  {
    from == 1 || (from > 1 && exists ranges :: CanKeep(p, sources, from, ranges))
  }

  /** The consumed episodes a reset would touch. */
  ghost predicate IsConsumedSet(p: Project, disk: Disk, from: int, consumed: set<int>)
  {
    forall num :: num in consumed <==> InScope(from, num) && IsConsumed(Rows(p), disk, num)
  }

  /** Every consumed episode the reset would touch is one the caller has been told about. */
  ghost predicate IsCleared(p: Project, disk: Disk, from: int, allowed: set<int>)
  {
    forall num | InScope(from, num) && IsConsumed(Rows(p), disk, num) :: num in allowed
  }

  function LastPlace(ranges: seq<Range>): Place
  {
    if ranges == [] then Place("", 0) else Place(ranges[|ranges| - 1].rel, ranges[|ranges| - 1].end)
  }

  /**
   A reset that went through: the ledger is cut back and the files are dealt with; `allowed` are the consumed episodes
   the caller has been told about.
   */
  ghost predicate IsReset(p: Project, disk: Disk, from: int, allowed: set<int>, p': Project, disk': Disk)
  {
    && MayReset(p, disk.sources, from)
    && (exists cursor :: IsResetCursor(p, disk.sources, from, cursor) && p' == ResetProject(p, from, cursor))
    && IsCleared(p, disk, from, allowed)
    && disk' == disk.(files := disk'.files)
    && exists plan, homes, tidy :: IsResetFiles(p, disk, from, plan, homes, tidy, disk'.files)
  }

  ghost predicate IsResetFiles(
    p: Project, disk: Disk, from: int, plan: ResetPlan, homes: map<string, string>, tidy: Files, files: Files)
  {
    && IsScan(p, disk, from, plan)
    && IsTidied(disk.files, tidy, Names(plan.deletes), Names(plan.archives), homes)
    && files == tidy - {REMAINING}
  }

  /**
   The directory when something fails after `count` operations: at a file, or at saving the ledger when all are done.
   */
  ghost predicate IsStoppedAfter(before: Files, after: Files, plan: ResetPlan, count: nat, homes: map<string, string>)
  {
    if count < Operations(plan, before) then IsTidiedSoFar(before, after, plan, count, homes)
    else IsAllDone(before, after, plan, homes)
  }

  ghost predicate IsAllDone(before: Files, after: Files, plan: ResetPlan, homes: map<string, string>)
  {
    exists tidy :: IsTidied(before, tidy, Names(plan.deletes), Names(plan.archives), homes)
        && after == tidy - {REMAINING}
  }

  /** A reset that stopped after `budget` operations: the ledger is as it was. */
  ghost predicate IsInterrupted(p: Project, disk: Disk, from: int, budget: nat, p': Project, disk': Disk)
  {
    && MayReset(p, disk.sources, from)
    && p' == p
    && disk' == disk.(files := disk'.files)
    && exists plan, homes :: IsScan(p, disk, from, plan) && IsStoppedAfter(disk.files, disk'.files, plan, budget, homes)
  }

  function Names(s: seq<string>): (r: set<string>)
  {
    set name | name in s
  }
}
