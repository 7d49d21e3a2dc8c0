/** Source texts: whitespace as Python's str.isspace knows it, and the ordered list of candidate source files. */
module SourceText {
  import opened Wrappers

  /** The characters for which Python's str.isspace holds (and which str.strip removes). */
  predicate IsSpace(c: char)
  {
    || '\t' <= c <= '\r'
    || '\U{1C}' <= c <= '\U{20}'
    || c == '\U{85}'
    || c == '\U{A0}'
    || c == '\U{1680}'
    || '\U{2000}' <= c <= '\U{200A}'
    || c == '\U{2028}'
    || c == '\U{2029}'
    || c == '\U{202F}'
    || c == '\U{205F}'
    || c == '\U{3000}'
  }

  /** `not s.strip()` */
  predicate IsBlank(s: string)
  {
    forall i | 0 <= i < |s| :: IsSpace(s[i])
  }

  /** A candidate source file: its path and its normalized text. */
  datatype SourceDoc = SourceDoc(rel: string, text: string)

  /** File names in one directory are distinct. */
  ghost predicate DistinctRels(sources: seq<SourceDoc>)
  {
    forall i, j | 0 <= i < j < |sources| :: sources[i].rel != sources[j].rel
  }

  /** `rels.index(rel)`, or None where Python raises ValueError. */
  function IndexOf(sources: seq<SourceDoc>, rel: string): (r: Option<nat>)
    ensures r.Some? ==> r.value < |sources| && sources[r.value].rel == rel
    ensures r.Some? ==> forall i | 0 <= i < r.value :: sources[i].rel != rel
    ensures r.None? ==> forall i | 0 <= i < |sources| :: sources[i].rel != rel
  {
    if sources == [] then None
    else if sources[0].rel == rel then Some(0)
    else match IndexOf(sources[1..], rel)
      case None => None
      case Some(i) => Some(i + 1)
  }

  lemma IndexOfAt(sources: seq<SourceDoc>, i: nat)
    requires DistinctRels(sources)
    requires i < |sources|
    ensures IndexOf(sources, sources[i].rel) == Some(i)
  {
    var r := IndexOf(sources, sources[i].rel);
    assert r.Some?;
  }

  /** The normalized text of a candidate source file. */
  function TextOf(sources: seq<SourceDoc>, rel: string): (r: Option<string>)
  {
    match IndexOf(sources, rel)
    case None => None
    case Some(i) => Some(sources[i].text)
  }

  /** All files in positions lo..hi hold only whitespace. */
  ghost predicate BlankBetween(sources: seq<SourceDoc>, lo: nat, hi: nat)
  {
    forall i | lo <= i < hi && i < |sources| :: IsBlank(sources[i].text)
  }
}
