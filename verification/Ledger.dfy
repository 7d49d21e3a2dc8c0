/**
 The episode ledger as it may stand in project.json, damaged or not, and the readers every planning step shares.

 A value that project.json may hold in the wrong shape is a datatype with one constructor for the good shape and one
 for everything else. A digest is the text it is the digest of: digests are equal exactly when the texts are.
 */
module Ledger {
  import opened Wrappers
  import opened SourceText
  import opened Decimal
  import opened Sequences
  import opened EpisodeFiles

  /** An episode number: an int, a string of digits (hand-edited ledgers), or something else. */
  datatype NumValue = Whole(n: int) | Numeral(digits: nat) | NoNumber

  datatype PathValue = Path(rel: string) | NotText

  /** An int that is not a bool, or anything else. */
  datatype IntValue = Int(i: int) | NotInt

  datatype RangeValue = NotMapping | RangeMapping(file: PathValue, start: IntValue, end: IntValue)

  datatype Status = Planned | Consumed | Stale | OtherStatus

  datatype Entry =
    | Null
    | NotObject
    | Entry(episode: NumValue, range: RangeValue, status: Status, script: PathValue, title: string, hook: string)

  /**
   The episodes field: null or another empty value, a list, an object or a string (which some readers walk through, key
   by key or character by character), or a value nothing can walk through. A project without the field counts as an
   empty list.
   */
  datatype Episodes = NullEpisodes | Malformed | Keyed(count: nat) | Listed(entries: seq<Entry>)

  datatype CursorValue = NoCursor | CursorAt(file: PathValue, offset: IntValue)

  datatype FingerprintValue = Sha256(text: string) | Junk

  datatype Fingerprints = NoFingerprints | NotAMapping | Recorded(of: map<string, FingerprintValue>)

  datatype Project = Project(episodes: Episodes, cursor: CursorValue, fingerprints: Fingerprints)

  /**
   What the project directory holds: candidate sources in name order, other readable texts by path, the rest of
   source/, the project-relative paths that exist, episodes with a step1 draft in the canonical place, the episode
   numbers found by scanning scripts/ and drafts/, and the names in source/ that a commit fails to remove.
   */
  datatype Disk = Disk(
    sources: seq<SourceDoc>, others: map<string, string>, files: Files,
    paths: set<string>, drafts: set<int>, products: set<int>, stuck: set<string>)

  /** A position record: a stretch of one source text. */
  datatype Range = Range(rel: string, start: int, end: int)

  function ParseNum(value: NumValue): Option<int>
  {
    match value
    case Whole(n) => Some(n)
    case Numeral(n) => Some(n)
    case NoNumber => None
  }

  function NumOf(entry: Entry): Option<int>
  {
    if entry.Entry? then ParseNum(entry.episode) else None
  }

  /** parse_source_range: the coordinates, or None when any of the three is missing or of the wrong type. */
  function Coords(entry: Entry): Option<Range>
  {
    match entry
    case Entry(_, RangeMapping(Path(rel), Int(start), Int(end)), _, _, _, _) => Some(Range(rel, start, end))
    case _ => None
  }

  function KnownNums(entries: seq<Entry>): (nums: set<int>)
    ensures forall n :: n in nums <==> exists i :: 0 <= i < |entries| && NumOf(entries[i]) == Some(n)
  {
    set i | 0 <= i < |entries| && NumOf(entries[i]).Some? :: NumOf(entries[i]).value
  }

  /** Some row with a readable number has no usable position record. */
  ghost predicate LacksRange(entry: Entry)
  {
    NumOf(entry).Some? && Coords(entry).None?
  }

  ghost predicate SomeLackRange(entries: seq<Entry>)
  {
    exists i :: 0 <= i < |entries| && LacksRange(entries[i])
  }

  ghost predicate LacksRangeAt(entries: seq<Entry>, num: int)
  {
    exists i :: 0 <= i < |entries| && LacksRange(entries[i]) && NumOf(entries[i]) == Some(num)
  }

  /** The rows a reader that accepts only lists sees. */
  function Rows(p: Project): seq<Entry>
  {
    if p.episodes.Listed? then p.episodes.entries else []
  }

  /** The rows a reader that walks through whatever it can sees. */
  function WalkedRows(p: Project): (r: seq<Entry>)
  {
    match p.episodes
    case Listed(entries) => entries
    case Keyed(count) => seq(count, i => NotObject)
    case _ => []
  }

  method EpisodesWithoutSourceRange(p: Project) returns (nums: set<int>)
    ensures forall n :: n in nums <==> LacksRangeAt(Rows(p), n)
    ensures nums == {} <==> !SomeLackRange(Rows(p))
  {
    nums := {};
    var entries := Rows(p);
    for i := 0 to |entries|
      invariant forall n | n in nums :: LacksRangeAt(entries, n)
      invariant forall k | 0 <= k < i && LacksRange(entries[k]) :: NumOf(entries[k]).value in nums
    {
      var num := NumOf(entries[i]);
      if num.None? {
        continue;
      }
      if Coords(entries[i]).None? {
        nums := nums + {num.value};
        assert LacksRange(entries[i]);
      }
    }
    if nums != {} {
      NonEmpty(nums);
    }
  }

  // ----- sorting rows by number

  function SortKey(entry: Entry): int
  {
    if NumOf(entry).Some? then NumOf(entry).value else 0
  }

  function InsertByNum(sorted: seq<Entry>, e: Entry): seq<Entry>
  {
    if sorted == [] || SortKey(sorted[|sorted| - 1]) <= SortKey(e) then sorted + [e]
    else InsertByNum(sorted[..|sorted| - 1], e) + [sorted[|sorted| - 1]]
  }

  /** list.sort by number: stable. */
  function SortByNum(entries: seq<Entry>): seq<Entry>
  {
    if entries == [] then []
    else InsertByNum(SortByNum(entries[..|entries| - 1]), entries[|entries| - 1])
  }

  predicate AllNumbered(entries: seq<Entry>)
  {
    forall i | 0 <= i < |entries| :: NumOf(entries[i]).Some?
  }

  function SortIfPossible(entries: seq<Entry>): seq<Entry>
  {
    if AllNumbered(entries) then SortByNum(entries) else entries
  }

  ghost predicate InOrder(entries: seq<Entry>)
  {
    forall i | 0 <= i < |entries| - 1 :: SortKey(entries[i]) <= SortKey(entries[i + 1])
  }

  /** The last key after an insertion is the greater of the new one and the old last one. */
  lemma InsertedLast(sorted: seq<Entry>, e: Entry)
    ensures var r := InsertByNum(sorted, e);
            r != [] && SortKey(r[|r| - 1]) ==
                       if sorted == [] || SortKey(sorted[|sorted| - 1]) <= SortKey(e) then SortKey(e)
                       else SortKey(sorted[|sorted| - 1])
  {
  }

  lemma {:induction false} InsertKeepsAll(sorted: seq<Entry>, e: Entry)
    ensures multiset(InsertByNum(sorted, e)) == multiset(sorted) + multiset{e}
  {
    if !(sorted == [] || SortKey(sorted[|sorted| - 1]) <= SortKey(e)) {
      assert sorted == sorted[..|sorted| - 1] + [sorted[|sorted| - 1]];
      InsertKeepsAll(sorted[..|sorted| - 1], e);
    }
  }

  lemma InitInOrder(entries: seq<Entry>)
    requires InOrder(entries) && entries != []
    ensures InOrder(entries[..|entries| - 1])
    ensures |entries| > 1 ==> SortKey(entries[|entries| - 2]) <= SortKey(entries[|entries| - 1])
  {
    var init := entries[..|entries| - 1];
    forall i | 0 <= i < |init| - 1 ensures SortKey(init[i]) <= SortKey(init[i + 1]) {
      assert SortKey(entries[i]) <= SortKey(entries[i + 1]);
    }
    assert |entries| > 1 ==> SortKey(entries[|entries| - 2]) <= SortKey(entries[|entries| - 2 + 1]);
  }

  lemma {:induction false} InsertInOrder(sorted: seq<Entry>, e: Entry)
    requires InOrder(sorted)
    ensures InOrder(InsertByNum(sorted, e))
  {
    if sorted == [] || SortKey(sorted[|sorted| - 1]) <= SortKey(e) {
      AppendInOrder(sorted, e);
    } else {
      var init := sorted[..|sorted| - 1];
      InitInOrder(sorted);
      InsertInOrder(init, e);
      InsertedLast(init, e);
      AppendInOrder(InsertByNum(init, e), sorted[|sorted| - 1]);
    }
  }

  lemma AppendInOrder(entries: seq<Entry>, e: Entry)
    requires InOrder(entries) && (entries != [] ==> SortKey(entries[|entries| - 1]) <= SortKey(e))
    ensures InOrder(entries + [e])
  {
    var all := entries + [e];
    forall i | 0 <= i < |all| - 1 ensures SortKey(all[i]) <= SortKey(all[i + 1]) {
      if i < |entries| - 1 {
        assert SortKey(entries[i]) <= SortKey(entries[i + 1]);
      }
    }
  }

  /** Sorting puts the same rows in order. */
  lemma {:induction false} SortedInOrder(entries: seq<Entry>)
    ensures InOrder(SortByNum(entries)) && multiset(SortByNum(entries)) == multiset(entries)
  {
    if entries != [] {
      var init, last := entries[..|entries| - 1], entries[|entries| - 1];
      assert entries == init + [last];
      SortedInOrder(init);
      InsertInOrder(SortByNum(init), last);
      InsertKeepsAll(SortByNum(init), last);
    }
  }

  /** Rows in order stay as they are. */
  lemma {:induction false} SortingInOrder(entries: seq<Entry>)
    requires InOrder(entries)
    ensures SortByNum(entries) == entries
  {
    if entries != [] {
      InitInOrder(entries);
      SortingInOrder(entries[..|entries| - 1]);
    }
  }

  // ----- sets of numbers in ascending order

  ghost predicate IsAscending(s: seq<int>, of: set<int>)
  {
    && (forall n :: n in s <==> n in of)
    && forall i, j | 0 <= i < j < |s| :: s[i] < s[j]
  }

  method Sorted(nums: set<int>) returns (s: seq<int>)
    ensures IsAscending(s, nums)
  {
    s := [];
    var rest := nums;
    while rest != {}
      invariant rest <= nums
      invariant IsAscending(s, nums - rest)
      invariant forall i, n | 0 <= i < |s| && n in rest :: s[i] < n
    {
      ExistsMin(rest);
      var n :| n in rest && forall m | m in rest :: n <= m;
      s := s + [n];
      rest := rest - {n};
    }
  }

  lemma NonEmpty(nums: set<int>)
    requires nums != {}
    ensures exists n :: n in nums
  {
    assert (forall n :: n !in nums) ==> nums == {};
  }

  lemma ExistsMin(nums: set<int>)
    requires nums != {}
    ensures exists n :: n in nums && forall m | m in nums :: n <= m
  {
    NonEmpty(nums);
    var n :| n in nums;
    if nums != {n} {
      ExistsMin(nums - {n});
      var k :| k in nums - {n} && forall m | m in nums - {n} :: k <= m;
      var least := if k < n then k else n;
      assert forall m | m in nums :: m == n || m in nums - {n};
      assert least in nums;
    }
  }

  // ----- orphan registration

  function ScriptRel(num: int): string
  {
    "scripts/episode_" + (if num < 0 then "-" + Show(-num) else Show(num)) + ".json"
  }

  predicate HasDownstreamProducts(disk: Disk, num: int, script: PathValue)
  {
    || (script.Path? && script.rel in disk.paths)
    || ScriptRel(num) in disk.paths
    || num in disk.drafts
  }

  function OrphanEntry(disk: Disk, num: int): Entry
  {
    var script := Path(ScriptRel(num));
    var status := if HasDownstreamProducts(disk, num, script) then Consumed else Planned;
    Entry(Whole(num), NotMapping, status, script, "", "")
  }

  /** The rows after every number of `nums` without a row has been given one. */
  function WithOrphans(entries: seq<Entry>, nums: seq<int>, disk: Disk): seq<Entry>
  {
    if nums == [] then entries
    else
      var before := WithOrphans(entries, nums[..|nums| - 1], disk);
      var num := nums[|nums| - 1];
      if num in KnownNums(before) then before else before + [OrphanEntry(disk, num)]
  }

  /** Every numbered file in source/ has a ledger row. */
  ghost predicate NoOrphans(entries: seq<Entry>, files: Files)
  {
    forall num :: HasEpisodeFile(files, num) ==> num in KnownNums(entries)
  }

  /** `healed` is `p` with a row added for every derived file that has none, sorted when every row has a number. */
  ghost predicate IsRegistered(p: Project, disk: Disk, healed: Project)
  {
    if p.episodes.Listed? then
      exists nums :: IsAscending(nums, EpisodeNums(disk.files))
                     && healed == p.(episodes := Listed(SortIfPossible(WithOrphans(p.episodes.entries, nums, disk))))
    else
      healed == p
  }

  method RegisterOrphanEpisodeEntries(disk: Disk, p: Project) returns (healed: Project)
    ensures IsRegistered(p, disk, healed)
  {
    if !p.episodes.Listed? {
      return p;
    }
    var episodes := p.episodes.entries;
    var known: set<int> := {};
    for i := 0 to |episodes|
      invariant known == KnownNums(episodes[..i])
    {
      assert episodes[..i + 1][..i] == episodes[..i];
      KnownNumsAppend(episodes[..i], episodes[i]);
      assert episodes[..i] + [episodes[i]] == episodes[..i + 1];
      if NumOf(episodes[i]).Some? {
        known := known + {NumOf(episodes[i]).value};
      }
    }
    assert episodes[..|episodes|] == episodes;
    var nums := Sorted(EpisodeNums(disk.files));
    for i := 0 to |nums|
      invariant episodes == WithOrphans(p.episodes.entries, nums[..i], disk)
      invariant known == KnownNums(episodes)
    {
      assert nums[..i + 1][..i] == nums[..i];
      if nums[i] !in known {
        KnownNumsAppend(episodes, OrphanEntry(disk, nums[i]));
        episodes := episodes + [OrphanEntry(disk, nums[i])];
        known := known + {nums[i]};
      }
    }
    assert nums[..|nums|] == nums;
    healed := p.(episodes := Listed(SortIfPossible(episodes)));
  }

  lemma KnownNumsAppend(entries: seq<Entry>, e: Entry)
    ensures KnownNums(entries + [e]) == KnownNums(entries) + (if NumOf(e).Some? then {NumOf(e).value} else {})
  {
    var all := entries + [e];
    forall n ensures n in KnownNums(all) <==> n in KnownNums(entries) || NumOf(e) == Some(n) {
      if n in KnownNums(entries) {
        var i :| 0 <= i < |entries| && NumOf(entries[i]) == Some(n);
        assert NumOf(all[i]) == Some(n);
      }
      if NumOf(e) == Some(n) {
        assert NumOf(all[|entries|]) == Some(n);
      }
    }
  }

  lemma {:induction false} WithOrphansNothingToAdd(entries: seq<Entry>, nums: seq<int>, disk: Disk)
    requires forall n | n in nums :: n in KnownNums(entries)
    ensures WithOrphans(entries, nums, disk) == entries
  {
    if nums != [] {
      WithOrphansNothingToAdd(entries, nums[..|nums| - 1], disk);
    }
  }

  /** Where nothing is orphaned and the rows are in order, registration changes nothing. */
  lemma RegistrationIsIdle(p: Project, disk: Disk, healed: Project)
    requires IsRegistered(p, disk, healed)
    requires p.episodes.Listed? ==> NoOrphans(p.episodes.entries, disk.files) && InOrder(p.episodes.entries)
    ensures healed == p
  {
    if p.episodes.Listed? {
      var nums :| IsAscending(nums, EpisodeNums(disk.files))
                  && healed == p.(episodes := Listed(SortIfPossible(WithOrphans(p.episodes.entries, nums, disk))));
      WithOrphansNothingToAdd(p.episodes.entries, nums, disk);
      SortingInOrder(p.episodes.entries);
    }
  }

  lemma {:induction false} WithOrphansCovers(entries: seq<Entry>, nums: seq<int>, disk: Disk)
    ensures entries <= WithOrphans(entries, nums, disk)
    ensures forall n :: n in KnownNums(WithOrphans(entries, nums, disk)) <==> n in KnownNums(entries) || n in nums
    ensures AllNumbered(entries) ==> AllNumbered(WithOrphans(entries, nums, disk))
  {
    if nums != [] {
      var n := |nums| - 1;
      WithOrphansCovers(entries, nums[..n], disk);
      OneMoreCovered(WithOrphans(entries, nums[..n], disk), nums[n], disk);
      InitAndLast(nums);
    }
  }

  /** A row is there, or is added, for one more number. */
  lemma OneMoreCovered(before: seq<Entry>, num: int, disk: Disk)
    ensures var after := if num in KnownNums(before) then before else before + [OrphanEntry(disk, num)];
            && before <= after
            && (forall n :: n in KnownNums(after) <==> n in KnownNums(before) || n == num)
            && (AllNumbered(before) ==> AllNumbered(after))
  {
    KnownNumsAppend(before, OrphanEntry(disk, num));
  }

  lemma SameRowsSameNums(a: seq<Entry>, b: seq<Entry>)
    requires multiset(a) == multiset(b)
    ensures KnownNums(a) == KnownNums(b) && (AllNumbered(a) <==> AllNumbered(b))
  {
    assert forall e :: e in a <==> e in multiset(a);
    assert forall e :: e in b <==> e in multiset(b);
    forall n ensures n in KnownNums(a) <==> n in KnownNums(b) {
      RowsWithNum(a, n);
      RowsWithNum(b, n);
    }
    assert forall i | 0 <= i < |a| :: a[i] in b;
    assert forall i | 0 <= i < |b| :: b[i] in a;
  }

  lemma RowsWithNum(entries: seq<Entry>, n: int)
    ensures n in KnownNums(entries) <==> exists e :: e in entries && NumOf(e) == Some(n)
  {
    if n in KnownNums(entries) {
      var i :| 0 <= i < |entries| && NumOf(entries[i]) == Some(n);
      assert entries[i] in entries;
    }
  }

  /** After registration every numbered file has a row, no row is lost, and registering once more changes nothing. */
  lemma RegistrationIsComplete(p: Project, disk: Disk, healed: Project, again: Project)
    requires p.episodes.Listed? && IsRegistered(p, disk, healed) && IsRegistered(healed, disk, again)
    ensures NoOrphans(healed.episodes.entries, disk.files)
    ensures multiset(p.episodes.entries) <= multiset(healed.episodes.entries)
    ensures forall n :: n in KnownNums(healed.episodes.entries) <==>
              n in KnownNums(p.episodes.entries) || HasEpisodeFile(disk.files, n)
    ensures again == healed
  {
    var nums :| IsAscending(nums, EpisodeNums(disk.files))
                && healed == p.(episodes := Listed(SortIfPossible(WithOrphans(p.episodes.entries, nums, disk))));
    AllCovered(p.episodes.entries, nums, disk);
    assert forall n :: n in nums <==> HasEpisodeFile(disk.files, n);
    Again(healed, disk, again);
  }

  lemma AllCovered(entries: seq<Entry>, nums: seq<int>, disk: Disk)
    ensures var all := SortIfPossible(WithOrphans(entries, nums, disk));
            && (forall n :: n in KnownNums(all) <==> n in KnownNums(entries) || n in nums)
            && multiset(entries) <= multiset(all)
            && (AllNumbered(all) ==> InOrder(all))
  {
    var all := WithOrphans(entries, nums, disk);
    WithOrphansCovers(entries, nums, disk);
    assert all == entries + all[|entries|..];
    SortedInOrder(all);
    SameRowsSameNums(SortIfPossible(all), all);
  }

  /** Rows without orphans, sorted when they could be: nothing more to do. */
  lemma Again(healed: Project, disk: Disk, again: Project)
    requires healed.episodes.Listed? && NoOrphans(healed.episodes.entries, disk.files)
    requires AllNumbered(healed.episodes.entries) ==> InOrder(healed.episodes.entries)
    requires IsRegistered(healed, disk, again)
    ensures again == healed
  {
    var entries := healed.episodes.entries;
    var nums :| IsAscending(nums, EpisodeNums(disk.files))
                && again == healed.(episodes := Listed(SortIfPossible(WithOrphans(entries, nums, disk))));
    WithOrphansNothingToAdd(entries, nums, disk);
    if AllNumbered(entries) {
      SortingInOrder(entries);
    }
  }

  lemma RegistrationKeepsKind(p: Project, disk: Disk, healed: Project)
    requires IsRegistered(p, disk, healed)
    ensures healed.episodes.Malformed? <==> p.episodes.Malformed?
    ensures healed.cursor == p.cursor && healed.fingerprints == p.fingerprints
  {
  }

  // ----- fingerprints

  /** The fingerprints of the candidate sources as they are now. */
  function CurrentFingerprints(sources: seq<SourceDoc>): (m: map<string, FingerprintValue>)
    ensures forall rel :: rel in m <==> IndexOf(sources, rel).Some?
    ensures forall rel | rel in m :: m[rel] == Sha256(sources[IndexOf(sources, rel).value].text)
  {
    var rels := set i | 0 <= i < |sources| :: sources[i].rel;
    map rel | rel in rels :: Sha256(sources[IndexOf(sources, rel).value].text)
  }

  /** The recorded files whose text is no longer the recorded one, or which are gone. */
  function Mismatched(recorded: Fingerprints, sources: seq<SourceDoc>): (rels: set<string>)
    ensures recorded.Recorded? ==> forall rel :: rel in rels <==>
        rel in recorded.of && recorded.of[rel].Sha256? && TextOf(sources, rel) != Some(recorded.of[rel].text)
  {
    if !recorded.Recorded? then {}
    else
      var current := CurrentFingerprints(sources);
      set rel | rel in recorded.of && recorded.of[rel].Sha256? && !(rel in current && current[rel] == recorded.of[rel])
  }
}
