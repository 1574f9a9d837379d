/**
 * `find_cover_image`: the first of fifteen fixed candidate names (three
 * spellings of "cover" times five image extensions) that exists in the
 * directory. The directory is the set of names it holds.
 */
module Covers {
  import opened Wrappers

  const CoverCandidates: seq<string> := [
    "cover.jpg", "cover.jpeg", "cover.png", "cover.bmp", "cover.gif",
    "Cover.jpg", "Cover.jpeg", "Cover.png", "Cover.bmp", "Cover.gif",
    "COVER.jpg", "COVER.jpeg", "COVER.png", "COVER.bmp", "COVER.gif"
  ]

  /** The index of the first of `names` that exists, if any does. */
  function FirstPresent(names: seq<string>, existing: set<string>): (r: Option<nat>)
    ensures r.Some? ==> r.value < |names| && names[r.value] in existing
    ensures r.Some? ==> forall j :: 0 <= j < r.value ==> names[j] !in existing
    ensures r.None? <==> forall j :: 0 <= j < |names| ==> names[j] !in existing
  {
    if names == [] then None
    else if names[0] in existing then Some(0)
    else
      match FirstPresent(names[1..], existing)
      case None => None
      case Some(k) => Some(k + 1)
  }

  /** A present name with none present before it is the first present. */
  lemma FirstPresentAt(names: seq<string>, existing: set<string>, i: nat)
    requires i < |names| && names[i] in existing
    requires forall j :: 0 <= j < i ==> names[j] !in existing
    ensures FirstPresent(names, existing) == Some(i)
  {
  }

  /** The cover the writer settles on: the first candidate, in list order, that exists. */
  function CoverImage(existing: set<string>): (cover: Option<string>)
    ensures cover.Some? ==> cover.value in existing && cover.value in CoverCandidates
  {
    match FirstPresent(CoverCandidates, existing)
    case None => None
    case Some(k) => Some(CoverCandidates[k])
  }

  /**
   * The chosen cover exists, no candidate before it does, and there is no
   * cover exactly when no candidate exists.
   */
  lemma CoverImageIsFirst(existing: set<string>)
    ensures CoverImage(existing).None? <==> forall j :: 0 <= j < |CoverCandidates| ==> CoverCandidates[j] !in existing
    ensures CoverImage(existing).Some? ==>
              exists k :: 0 <= k < |CoverCandidates| && CoverCandidates[k] == CoverImage(existing).value
                          && CoverCandidates[k] in existing
                          && forall j :: 0 <= j < k ==> CoverCandidates[j] !in existing
  {
    var r := FirstPresent(CoverCandidates, existing);
    if r.Some? {
      assert CoverCandidates[r.value] == CoverImage(existing).value;
    }
  }

  /** The candidate list spells fifteen different names. */
  lemma CandidatesDistinct()
    ensures forall i, j :: 0 <= i < j < |CoverCandidates| ==> CoverCandidates[i] != CoverCandidates[j]
  {
  }

  /**
   * The search as the source runs it: a loop over the candidates that
   * returns the first one found and `None` when the loop runs out.
   */
  method FindCoverImage(existing: set<string>) returns (cover: Option<string>)
    ensures cover == CoverImage(existing)
  {
    for i := 0 to |CoverCandidates|
      invariant forall j :: 0 <= j < i ==> CoverCandidates[j] !in existing
    {
      if CoverCandidates[i] in existing {
        FirstPresentAt(CoverCandidates, existing, i);
        return Some(CoverCandidates[i]);
      }
    }
    return None;
  }

  /**
   * An earlier candidate always beats a later one: whenever candidate `j`
   * exists, no candidate after it is chosen ("cover.jpg" beats "Cover.png").
   */
  lemma EarlierCandidateWins(existing: set<string>, j: nat, k: nat)
    requires j < k < |CoverCandidates| && CoverCandidates[j] in existing
    ensures CoverImage(existing) != Some(CoverCandidates[k])
  {
    CandidatesDistinct();
  }

  /** Only the candidate names matter: other files never change the choice. */
  lemma {:induction false} OnlyCandidatesMatter(names: seq<string>, existing: set<string>, others: set<string>)
    requires forall j :: 0 <= j < |names| ==> names[j] !in others
    ensures FirstPresent(names, existing + others) == FirstPresent(names, existing)
  {
    if names != [] {
      OnlyCandidatesMatter(names[1..], existing, others);
    }
  }
}
