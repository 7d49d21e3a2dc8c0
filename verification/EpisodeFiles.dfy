/** File names under source/: derived episode files, their archived copies, and which names may be source texts. */
module EpisodeFiles {
  import opened Wrappers
  import opened Decimal
  import opened Sets
  import opened Strings

  /** The directory listing of source/, apart from the candidate source files: file name to content. */
  type Files = map<string, string>

  const REMAINING := "_remaining.txt"

  /** The fullmatch of `episode_([0-9]+)\.txt`, as the number captured. */
  function EpisodeNumber(name: string): Option<nat>
  {
    if |name| > 12 && name[..8] == "episode_" && name[|name| - 4..] == ".txt" && AllDigits(name[8..|name| - 4])
    then Some(Read(name[8..|name| - 4]))
    else None
  }

  lemma RemainingIsNoEpisode()
    ensures EpisodeNumber(REMAINING).None?
  {
    assert REMAINING[0] == '_' && "episode_"[0] == 'e';
  }

  /** The name under which the planner writes episode `num`. */
  function CanonicalName(num: int): (name: string)
    ensures num >= 0 ==> EpisodeNumber(name) == Some(num)
    ensures num < 0 ==> EpisodeNumber(name) == None
  {
    if num >= 0 then
      var name := "episode_" + Show(num) + ".txt";
      assert name[..8] == "episode_" && name[8..|name| - 4] == Show(num) && name[|name| - 4..] == ".txt";
      name
    else
      var name := "episode_-" + Show(-num) + ".txt";
      assert name[8..|name| - 4][0] == '-';
      name
  }

  /** Any digits make an episode's file, and a zero in front of them makes another file of the same episode. */
  lemma PaddedNamesCount(digits: string)
    requires digits != "" && AllDigits(digits)
    ensures EpisodeNumber("episode_" + digits + ".txt") == Some(Read(digits))
    ensures EpisodeNumber("episode_" + ("0" + digits) + ".txt") == Some(Read(digits))
  {
    ZeroInFront(digits);
    NumberOf(digits);
    NumberOf("0" + digits);
  }

  lemma NumberOf(digits: string)
    requires digits != "" && AllDigits(digits)
    ensures EpisodeNumber("episode_" + digits + ".txt") == Some(Read(digits))
  {
    var name := "episode_" + digits + ".txt";
    assert name[..8] == "episode_" && name[8..|name| - 4] == digits && name[|name| - 4..] == ".txt";
  }

  /** The name written for an episode is the one without zeros in front. */
  lemma CanonicalIsPlain(num: nat)
    ensures CanonicalName(num) == "episode_" + Show(num) + ".txt"
    ensures CanonicalName(num)[8] == '0' <==> num == 0
  {
    ShowIsPlain(num);
    assert CanonicalName(num)[8] == Show(num)[0];
  }

  lemma CanonicalNamesDiffer(a: nat, b: nat)
    requires CanonicalName(a) == CanonicalName(b)
    ensures a == b
  {
    assert EpisodeNumber(CanonicalName(a)) == Some(a);
  }

  /** Whether a name in source/ can be a candidate source text (suffixes compared after lower-casing: `lower`). */
  predicate IsSourceName(name: string, lower: string -> string)
  {
    && name != "" && name[0] != '_' && name[0] != '.'
    && (EndsWith(lower(name), ".txt") || EndsWith(lower(name), ".md"))
    && EpisodeNumber(name).None?
  }

  predicate EndsWith(s: string, suffix: string)
  {
    |suffix| <= |s| && s[|s| - |suffix|..] == suffix
  }

  /** The `index`-th name tried when `name` is set aside. */
  function ArchiveCandidate(name: string, index: nat): (r: string)
    ensures r != name && EpisodeNumber(r).None? && |r| > |name| + 1 && r[0] == '_'
  {
    var r := if index == 0 then "_" + name + ".bak" else "_" + name + "." + Show(index) + ".bak";
    assert r[0] == '_' && |r| > |name| && "episode_"[0] == 'e';
    assert |r| > 12 ==> r[..8][0] == r[0];
    r
  }

  lemma ArchiveCandidatesDiffer(name: string, i: nat, j: nat)
    requires i != j
    ensures ArchiveCandidate(name, i) != ArchiveCandidate(name, j)
  {
    var a, b := ArchiveCandidate(name, i), ArchiveCandidate(name, j);
    if i == 0 {
      assert |b| > |a|;
    } else if j == 0 {
      assert |a| > |b|;
    } else {
      assert a[|name| + 2..|a| - 4] == Show(i);
      assert b[|name| + 2..|b| - 4] == Show(j);
    }
  }

  /** An archived file is neither a derived episode file nor a source text. */
  lemma ArchivesAreInvisible(name: string, index: nat, lower: string -> string)
    ensures EpisodeNumber(ArchiveCandidate(name, index)).None?
    ensures !IsSourceName(ArchiveCandidate(name, index), lower)
  {
    assert ArchiveCandidate(name, index)[0] == '_';
  }

  /** Some numbered file in the listing carries the number `num`. */
  ghost predicate HasEpisodeFile(files: Files, num: int)
  {
    exists name :: name in files && EpisodeNumber(name) == Some(num)
  }

  /** The file that stands for its number: of all padded names with that number the first. */
  ghost predicate IsFirstAlias(files: Files, name: string)
  {
    && name in files && EpisodeNumber(name).Some?
    && forall other | other in files && EpisodeNumber(other) == EpisodeNumber(name) :: !Less(other, name)
  }

  lemma FirstAliasIsUnique(files: Files, a: string, b: string)
    requires IsFirstAlias(files, a) && IsFirstAlias(files, b) && EpisodeNumber(a) == EpisodeNumber(b)
    ensures a == b
  {
    LessIsTotal(a, b);
  }

  method FirstAlias(files: Files, num: nat) returns (name: string)
    requires HasEpisodeFile(files, num)
    ensures IsFirstAlias(files, name) && EpisodeNumber(name) == Some(num)
  {
    var names := set n | n in files && EpisodeNumber(n) == Some(num);
    ghost var some :| some in files && EpisodeNumber(some) == Some(num);
    assert some in names;
    name :| name in names;
    var rest := names;
    while rest != {}
      invariant rest <= names && name in names
      invariant forall other | other in names && other !in rest :: !Less(other, name)
    {
      var next :| next in rest;
      LessIsTotal(next, next);
      if Less(next, name) {
        forall other ensures Less(other, next) ==> Less(other, name) {
          if Less(other, next) {
            LessIsTransitive(other, next, name);
          }
        }
        name := next;
      }
      rest := rest - {next};
    }
  }

  /** The numbers of all derived episode files. */
  function EpisodeNums(files: Files): (nums: set<int>)
    ensures forall num :: num in nums <==> HasEpisodeFile(files, num)
  {
    var nums := set name | name in files && EpisodeNumber(name).Some? :: EpisodeNumber(name).value;
    nums
  }

  /** The first `n` names tried when `name` is set aside. */
  ghost function Candidates(name: string, n: nat): set<string>
  {
    if n == 0 then {} else Candidates(name, n - 1) + {ArchiveCandidate(name, n - 1)}
  }

  lemma {:induction false} CandidateCount(name: string, n: nat)
    ensures |Candidates(name, n)| == n
  {
    if n > 0 {
      CandidateCount(name, n - 1);
      NextIsNew(name, n - 1);
      OneMore(Candidates(name, n - 1), ArchiveCandidate(name, n - 1));
    }
  }

  lemma NextIsNew(name: string, n: nat)
    ensures ArchiveCandidate(name, n) !in Candidates(name, n)
  {
    LaterIsNew(name, n, n);
  }

  lemma {:induction false} LaterIsNew(name: string, n: nat, later: nat)
    requires n <= later
    ensures ArchiveCandidate(name, later) !in Candidates(name, n)
  {
    if n > 0 {
      LaterIsNew(name, n - 1, later);
      ArchiveCandidatesDiffer(name, n - 1, later);
    }
  }

  /** There are never more taken candidates than files. */
  lemma OneMoreTaken(files: Files, name: string, index: nat)
    requires index >= 1 && Candidates(name, index - 1) <= files.Keys && ArchiveCandidate(name, index - 1) in files
    ensures Candidates(name, index) <= files.Keys && index <= |files|
  {
    assert Candidates(name, index) == Candidates(name, index - 1) + {ArchiveCandidate(name, index - 1)};
    CandidateCount(name, index);
    SubsetSize(Candidates(name, index), files.Keys);
  }

  /** `target` is the first free archive name for `name`. */
  ghost predicate IsArchiveTarget(files: Files, name: string, target: string)
  {
    exists index: nat :: IsFirstFree(files, name, index) && target == ArchiveCandidate(name, index)
  }

  ghost predicate IsFirstFree(files: Files, name: string, index: nat)
  {
    ArchiveCandidate(name, index) !in files && Candidates(name, index) <= files.Keys
  }

  /** The search ends because distinct candidates cannot all be taken in a finite directory. */
  method ArchivePath(files: Files, name: string) returns (candidate: string)
    ensures IsArchiveTarget(files, name, candidate)
    ensures candidate !in files && candidate != name && EpisodeNumber(candidate).None? && |candidate| > |name| + 1
  {
    candidate := ArchiveCandidate(name, 0);
    var index := 1;
    while candidate in files
      invariant index >= 1 && candidate == ArchiveCandidate(name, index - 1)
      invariant Candidates(name, index - 1) <= files.Keys
      decreases |files| + 1 - index
    {
      OneMoreTaken(files, name, index);
      candidate := ArchiveCandidate(name, index);
      index := index + 1;
    }
    assert IsFirstFree(files, name, index - 1);
  }
}
