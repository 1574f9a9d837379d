/**
 * The episode-tag extractor of the PSP metadata writer: seven search patterns
 * tried in a fixed order over a file-name stem, the first that matches
 * deciding the tag `S{season:02d}E{episode:02d}` or `E{episode:02d}`.
 *
 * Each pattern is modelled by `MatchAt`, which says whether the pattern
 * matches at one position and what its groups capture, and `Search`, which
 * finds the leftmost such position as `re.search` does. Every `\d+` in the
 * patterns is followed by a non-digit or by the end of the text, so greedy
 * matching with backtracking comes down to taking the longest digit run.
 * Letters are compared ignoring ASCII case (`re.IGNORECASE`).
 */
module EpisodeTags {
  import opened Wrappers
  import opened Numerals

  /** The seven patterns, named after what they look for. */
  datatype Rule =
    | SeasonEpisode       // S(\d+)E(\d+), ignoring case
    | SeasonCrossEpisode  // (\d+)x(\d+), ignoring case
    | EpPrefix            // EP(\d+), ignoring case; season 1
    | LeadingNumberDash   // ^(\d+)-; season 1
    | EpisodeWord         // Episode\s*(\d+), ignoring case
    | EpWord              // Ep\s*(\d+), ignoring case
    | BareNumber          // (\d+)

  /** The order in which the extractor tries the patterns. */
  const RuleOrder: seq<Rule> :=
    [SeasonEpisode, SeasonCrossEpisode, EpPrefix, LeadingNumberDash, EpisodeWord, EpWord, BareNumber]

  /** A captured group: the text `s[lo..hi]`. */
  datatype Span = Span(lo: nat, hi: nat)

  /** What a match captures: a season group (first two rules only) and an episode group. */
  datatype Capture = Capture(season: Option<Span>, episode: Span)

  /** A match found by `Search`: where it starts and what it captured. */
  datatype Found = Found(pos: nat, capture: Capture)

  /** The normalised tag, before it is rendered as text. */
  datatype EpisodeTag = Seasoned(season: nat, episode: nat) | Unseasoned(episode: nat)

  /** `lower` or its ASCII upper-case form, as `re.IGNORECASE` compares letters. */
  predicate SameLetter(c: char, lower: char)
    requires 'a' <= lower <= 'z'
  {
    c == lower || c as int == lower as int - 32
  }

  /** Python's `\s` on the ASCII range: space, \t \n \v \f \r and the separators 0x1c-0x1f. */
  predicate IsSpace(c: char) {
    c == ' ' || 9 <= c as int <= 13 || 28 <= c as int <= 31
  }

  /** The word `w` (lower-case letters) at position `i`, ignoring case. */
  predicate WordAt(s: string, i: nat, w: string)
    requires forall k :: 0 <= k < |w| ==> 'a' <= w[k] <= 'z'
  {
    i + |w| <= |s| && forall k :: 0 <= k < |w| ==> SameLetter(s[i + k], w[k])
  }

  /** The end of the longest digit run that starts at `i`. */
  function RunEnd(s: string, i: nat): (j: nat)
    requires i <= |s|
    ensures i <= j <= |s|
    ensures forall k :: i <= k < j ==> IsDigit(s[k])
    ensures j < |s| ==> !IsDigit(s[j])
    decreases |s| - i
  {
    if i < |s| && IsDigit(s[i]) then RunEnd(s, i + 1) else i
  }

  /** The end of the longest whitespace run that starts at `i` (`\s*`, greedy). */
  function SpaceEnd(s: string, i: nat): (j: nat)
    requires i <= |s|
    ensures i <= j <= |s|
    ensures forall k :: i <= k < j ==> IsSpace(s[k])
    ensures j < |s| ==> !IsSpace(s[j])
    decreases |s| - i
  {
    if i < |s| && IsSpace(s[i]) then SpaceEnd(s, i + 1) else i
  }

  /** A non-empty digit run inside `s` that cannot be extended to the right. */
  predicate IsRun(s: string, sp: Span) {
    && sp.lo < sp.hi <= |s|
    && (forall k :: sp.lo <= k < sp.hi ==> IsDigit(s[k]))
    && (sp.hi == |s| || !IsDigit(s[sp.hi]))
  }

  function Text(s: string, sp: Span): string
    requires sp.lo <= sp.hi <= |s|
  {
    s[sp.lo..sp.hi]
  }

  /**
   * What every match promises about its groups: each is a maximal digit run
   * lying at or after the match position, preceded by a non-digit unless it
   * starts right at that position, and the season group (when there is one)
   * comes before the episode group.
   */
  predicate WellPlaced(s: string, i: nat, c: Capture) {
    && IsRun(s, c.episode) && i <= c.episode.lo
    && (i < c.episode.lo ==> !IsDigit(s[c.episode.lo - 1]))
    && (c.season.Some? ==>
          && IsRun(s, c.season.value) && i <= c.season.value.lo
          && c.season.value.hi < c.episode.lo
          && (i < c.season.value.lo ==> !IsDigit(s[c.season.value.lo - 1])))
  }

  /** `S(\d+)E(\d+)` matched at `i`. */
  function MatchSeasonEpisode(s: string, i: nat): (m: Option<Capture>)
    requires i <= |s|
    ensures m.Some? ==> WellPlaced(s, i, m.value) && m.value.season.Some? && i < m.value.season.value.lo
  {
    if i < |s| && SameLetter(s[i], 's') then
      var a := RunEnd(s, i + 1);
      if i + 1 < a < |s| && SameLetter(s[a], 'e') then
        var b := RunEnd(s, a + 1);
        if a + 1 < b then Some(Capture(Some(Span(i + 1, a)), Span(a + 1, b))) else None
      else None
    else None
  }

  /** `(\d+)x(\d+)` matched at `i`. */
  function MatchSeasonCrossEpisode(s: string, i: nat): (m: Option<Capture>)
    requires i <= |s|
    ensures m.Some? ==> WellPlaced(s, i, m.value) && m.value.season.Some? && m.value.season.value.lo == i
  {
    if i < |s| && IsDigit(s[i]) then
      var a := RunEnd(s, i);
      if a < |s| && SameLetter(s[a], 'x') then
        var b := RunEnd(s, a + 1);
        if a + 1 < b then Some(Capture(Some(Span(i, a)), Span(a + 1, b))) else None
      else None
    else None
  }

  /**
   * The word `w` at `i`, then (when `spaces`) any whitespace, then digits:
   * `EP(\d+)`, `Episode\s*(\d+)` and `Ep\s*(\d+)`.
   */
  function MatchWordNumber(s: string, i: nat, w: string, spaces: bool): (m: Option<Capture>)
    requires i <= |s| && |w| > 0
    requires forall k :: 0 <= k < |w| ==> 'a' <= w[k] <= 'z'
    ensures m.Some? ==> WellPlaced(s, i, m.value) && m.value.season.None? && i < m.value.episode.lo
  {
    if WordAt(s, i, w) then
      assert SameLetter(s[i + |w| - 1], w[|w| - 1]);
      var d := if spaces then SpaceEnd(s, i + |w|) else i + |w|;
      var b := RunEnd(s, d);
      if d < b then Some(Capture(None, Span(d, b))) else None
    else None
  }

  /** `^(\d+)-`, which can only match at the start. */
  function MatchLeadingNumberDash(s: string, i: nat): (m: Option<Capture>)
    requires i <= |s|
    ensures m.Some? ==> WellPlaced(s, i, m.value) && m.value.season.None? && i == 0
  {
    if i == 0 && 0 < |s| && IsDigit(s[0]) then
      var a := RunEnd(s, 0);
      if a < |s| && s[a] == '-' then Some(Capture(None, Span(0, a))) else None
    else None
  }

  /** `(\d+)` matched at `i`. */
  function MatchBareNumber(s: string, i: nat): (m: Option<Capture>)
    requires i <= |s|
    ensures m.Some? ==> WellPlaced(s, i, m.value) && m.value.season.None? && m.value.episode.lo == i
    ensures m.Some? <==> i < |s| && IsDigit(s[i])
  {
    if i < |s| && IsDigit(s[i]) then Some(Capture(None, Span(i, RunEnd(s, i)))) else None
  }

  /**
   * Whether `r` matches at position `i` of `s` (`re.match` at that position),
   * and what it captures.
   */
  function MatchAt(r: Rule, s: string, i: nat): (m: Option<Capture>)
    requires i <= |s|
    ensures m.Some? ==> WellPlaced(s, i, m.value)
    ensures m.Some? ==> (m.value.season.Some? <==> r in {SeasonEpisode, SeasonCrossEpisode})
    ensures m.Some? && r == LeadingNumberDash ==> i == 0
  {
    match r
    case SeasonEpisode => MatchSeasonEpisode(s, i)
    case SeasonCrossEpisode => MatchSeasonCrossEpisode(s, i)
    case EpPrefix => MatchWordNumber(s, i, "ep", false)
    case LeadingNumberDash => MatchLeadingNumberDash(s, i)
    case EpisodeWord => MatchWordNumber(s, i, "episode", true)
    case EpWord => MatchWordNumber(s, i, "ep", true)
    case BareNumber => MatchBareNumber(s, i)
  }

  /** `re.search`: the leftmost position at or after `i` where `r` matches. */
  function Search(r: Rule, s: string, i: nat): (f: Option<Found>)
    requires i <= |s|
    ensures f.Some? ==> i <= f.value.pos <= |s| && MatchAt(r, s, f.value.pos) == Some(f.value.capture)
    ensures f.Some? ==> forall q :: i <= q < f.value.pos ==> MatchAt(r, s, q).None?
    ensures f.None? ==> forall q :: i <= q <= |s| ==> MatchAt(r, s, q).None?
    decreases |s| - i
  {
    var m := MatchAt(r, s, i);
    if m.Some? then Some(Found(i, m.value))
    else if i == |s| then None
    else
      var rest := Search(r, s, i + 1);
      assert rest.Some? ==> forall q :: i <= q < rest.value.pos ==> MatchAt(r, s, q).None? by {
        if rest.Some? {
          forall q | i <= q < rest.value.pos
            ensures MatchAt(r, s, q).None?
          {
            if q == i {
              assert MatchAt(r, s, q) == m;
            }
          }
        }
      }
      rest
  }

  /** The pattern that decides the tag: its index in `RuleOrder` and its leftmost match. */
  datatype Firing = Firing(index: nat, found: Found)

  /** The first pattern in `RuleOrder`, from index `k` on, that has a match anywhere in `s`. */
  function FirstFiringFrom(s: string, k: nat): (f: Option<Firing>)
    requires k <= |RuleOrder|
    ensures f.Some? ==> k <= f.value.index < |RuleOrder|
                        && Search(RuleOrder[f.value.index], s, 0) == Some(f.value.found)
    ensures f.Some? ==> forall j :: k <= j < f.value.index ==> Search(RuleOrder[j], s, 0).None?
    ensures f.None? ==> forall j :: k <= j < |RuleOrder| ==> Search(RuleOrder[j], s, 0).None?
    decreases |RuleOrder| - k
  {
    if k == |RuleOrder| then None
    else
      var found := Search(RuleOrder[k], s, 0);
      if found.Some? then Some(Firing(k, found.value)) else FirstFiringFrom(s, k + 1)
  }

  /** The pattern that decides the tag of `s`, if any matches. */
  function FiringRule(s: string): Option<Firing> {
    FirstFiringFrom(s, 0)
  }

  /** The captured digits of a run, as `int()` sees them. */
  lemma RunIsDigits(s: string, sp: Span)
    requires IsRun(s, sp)
    ensures AllDigits(Text(s, sp))
  {
  }

  /**
   * The tag a matched pattern produces: both groups for the first two rules,
   * season 1 for `EP` and the leading `N-`, no season for the last three.
   */
  function TagFrom(r: Rule, s: string, c: Capture): EpisodeTag
    requires IsRun(s, c.episode)
    requires c.season.Some? <==> r in {SeasonEpisode, SeasonCrossEpisode}
    requires c.season.Some? ==> IsRun(s, c.season.value)
  {
    RunIsDigits(s, c.episode);
    var episode := DecimalValue(Text(s, c.episode));
    match r
    case SeasonEpisode | SeasonCrossEpisode =>
      RunIsDigits(s, c.season.value);
      Seasoned(DecimalValue(Text(s, c.season.value)), episode)
    case EpPrefix | LeadingNumberDash => Seasoned(1, episode)
    case EpisodeWord | EpWord | BareNumber => Unseasoned(episode)
  }

  /** The tag of a stem, before rendering; `None` when no pattern matches. */
  function Classify(stem: string): Option<EpisodeTag> {
    match FiringRule(stem)
    case None => None
    case Some(f) => Some(TagFrom(RuleOrder[f.index], stem, f.found.capture))
  }

  /** `f"S{season:02d}E{episode:02d}"` or `f"E{episode:02d}"`. */
  function Render(t: EpisodeTag): (text: string)
    ensures |text| >= 3
  {
    match t
    case Seasoned(season, episode) => "S" + Pad2(season) + "E" + Pad2(episode)
    case Unseasoned(episode) => "E" + Pad2(episode)
  }

  /**
   * `extract_episode_number`: the rendered tag of the first pattern that
   * matches, or `None`. A tag is never the empty string, so the caller's
   * truth test on it is the same as a test for `None`.
   */
  function ExtractEpisodeNumber(stem: string): (tag: Option<string>)
    ensures tag.Some? ==> tag.value != ""
  {
    match Classify(stem)
    case None => None
    case Some(t) => Some(Render(t))
  }

  /** Reads a rendered tag back: `S<digits>E<digits>` or `E<digits>`, nothing else. */
  function ParseTag(text: string): Option<EpisodeTag> {
    if |text| >= 2 && text[0] == 'S' then
      var a := RunEnd(text, 1);
      if 1 < a < |text| - 1 && text[a] == 'E' && RunEnd(text, a + 1) == |text| then
        assert AllDigits(text[1..a]) && AllDigits(text[a + 1..]);
        Some(Seasoned(DecimalValue(text[1..a]), DecimalValue(text[a + 1..])))
      else None
    else if |text| >= 2 && text[0] == 'E' && RunEnd(text, 1) == |text| then
      assert AllDigits(text[1..]);
      Some(Unseasoned(DecimalValue(text[1..])))
    else None
  }

  /** A digit run that ends at a non-digit (or at the end) is the run `RunEnd` finds. */
  lemma {:induction false} RunEndAt(s: string, i: nat, j: nat)
    requires i <= j <= |s|
    requires forall k :: i <= k < j ==> IsDigit(s[k])
    requires j == |s| || !IsDigit(s[j])
    ensures RunEnd(s, i) == j
    decreases j - i
  {
    if i < j {
      RunEndAt(s, i + 1, j);
    }
  }

  /** The rendered tag determines the season and the episode: reading it back gives the tag. */
  lemma RenderRoundTrip(t: EpisodeTag)
    ensures ParseTag(Render(t)) == Some(t)
  {
    var text := Render(t);
    match t
    case Seasoned(season, episode) =>
      var p, q := Pad2(season), Pad2(episode);
      assert text == "S" + p + "E" + q;
      var a := 1 + |p|;
      assert text[1..a] == p && text[a] == 'E' && text[a + 1..] == q;
      RunEndAt(text, 1, a);
      RunEndAt(text, a + 1, |text|);
    case Unseasoned(episode) =>
      assert text[1..] == Pad2(episode);
      RunEndAt(text, 1, |text|);
  }

  /** Different tags render as different text. */
  lemma RenderInjective(t: EpisodeTag, u: EpisodeTag)
    requires Render(t) == Render(u)
    ensures t == u
  {
    RenderRoundTrip(t);
    RenderRoundTrip(u);
  }

  /** Every pattern needs at least one digit: a match shows one. */
  lemma MatchHasDigit(r: Rule, s: string, i: nat)
    requires i <= |s| && MatchAt(r, s, i).Some?
    ensures IsDigit(s[MatchAt(r, s, i).value.episode.lo])
  {
  }

  /** No tag is produced exactly when the stem contains no digit. */
  lemma NoTagIffNoDigit(s: string)
    ensures ExtractEpisodeNumber(s).None? <==> forall k :: 0 <= k < |s| ==> !IsDigit(s[k])
  {
    if k :| 0 <= k < |s| && IsDigit(s[k]) {
      assert MatchAt(BareNumber, s, k).Some?;
      assert Search(RuleOrder[6], s, 0).Some?;
    } else {
      forall j | 0 <= j < |RuleOrder|
        ensures Search(RuleOrder[j], s, 0).None?
      {
        var f := Search(RuleOrder[j], s, 0);
        if f.Some? {
          MatchHasDigit(RuleOrder[j], s, f.value.pos);
          assert false;
        }
      }
    }
  }

  /**
   * Precedence: when the pattern at index `j` of `RuleOrder` matches anywhere,
   * the tag is decided by that pattern or by one tried before it.
   */
  lemma Precedence(s: string, j: nat, i: nat)
    requires j < |RuleOrder| && i <= |s| && MatchAt(RuleOrder[j], s, i).Some?
    ensures FiringRule(s).Some? && FiringRule(s).value.index <= j
  {
    assert Search(RuleOrder[j], s, 0).Some?;
  }

  /**
   * `S<digits>E<digits>` anywhere, in either case, wins over every other
   * pattern; both numbers come from its leftmost occurrence, read with
   * `int()` and padded to two digits.
   */
  lemma SeasonEpisodeWins(s: string, i: nat)
    requires i <= |s| && MatchAt(SeasonEpisode, s, i).Some?
    ensures Search(SeasonEpisode, s, 0).Some?
    ensures var c := Search(SeasonEpisode, s, 0).value.capture;
            && Search(SeasonEpisode, s, 0).value.pos <= i
            && AllDigits(Text(s, c.season.value)) && AllDigits(Text(s, c.episode))
            && ExtractEpisodeNumber(s) ==
                 Some("S" + Pad2(DecimalValue(Text(s, c.season.value))) + "E" + Pad2(DecimalValue(Text(s, c.episode))))
  {
    var found := Search(SeasonEpisode, s, 0).value;
    assert RuleOrder[0] == SeasonEpisode;
    assert FiringRule(s) == Some(Firing(0, found));
    var c := found.capture;
    RunIsDigits(s, c.season.value);
    RunIsDigits(s, c.episode);
    assert Classify(s) == Some(Seasoned(DecimalValue(Text(s, c.season.value)), DecimalValue(Text(s, c.episode))));
  }

  /**
   * `(\d+)x(\d+)` decides when no `S<digits>E<digits>` occurs: both numbers
   * come from its leftmost occurrence, read with `int()` and padded.
   */
  lemma SeasonCrossEpisodeWins(s: string, i: nat)
    requires i <= |s| && MatchAt(SeasonCrossEpisode, s, i).Some?
    requires Search(SeasonEpisode, s, 0).None?
    ensures Search(SeasonCrossEpisode, s, 0).Some?
    ensures var c := Search(SeasonCrossEpisode, s, 0).value.capture;
            && Search(SeasonCrossEpisode, s, 0).value.pos <= i
            && AllDigits(Text(s, c.season.value)) && AllDigits(Text(s, c.episode))
            && ExtractEpisodeNumber(s) ==
                 Some("S" + Pad2(DecimalValue(Text(s, c.season.value))) + "E" + Pad2(DecimalValue(Text(s, c.episode))))
  {
    var found := Search(SeasonCrossEpisode, s, 0).value;
    assert RuleOrder[0] == SeasonEpisode && RuleOrder[1] == SeasonCrossEpisode;
    assert FirstFiringFrom(s, 1) == Some(Firing(1, found));
    assert FiringRule(s) == Some(Firing(1, found));
    var c := found.capture;
    RunIsDigits(s, c.season.value);
    RunIsDigits(s, c.episode);
    assert Classify(s) == Some(Seasoned(DecimalValue(Text(s, c.season.value)), DecimalValue(Text(s, c.episode))));
  }

  /** `S<digits>E<digits>` starts with its letter: without an `s` or `S` from `i` on, it is not found there. */
  lemma SeasonEpisodeNeedsS(s: string, i: nat)
    requires i <= |s| && 's' !in s[i..] && 'S' !in s[i..]
    ensures Search(SeasonEpisode, s, i).None?
  {
    forall q | i <= q < |s|
      ensures MatchAt(SeasonEpisode, s, q).None?
    {
      assert s[q] == s[i..][q - i];
    }
  }

  /** `(\d+)x(\d+)` needs its `x`: without an `x` or `X` from `i` on, it is not found there. */
  lemma SeasonCrossEpisodeNeedsX(s: string, i: nat)
    requires i <= |s| && 'x' !in s[i..] && 'X' !in s[i..]
    ensures Search(SeasonCrossEpisode, s, i).None?
  {
    forall q | i <= q < |s| && IsDigit(s[q])
      ensures MatchAt(SeasonCrossEpisode, s, q).None?
    {
      var a := RunEnd(s, q);
      if a < |s| {
        assert s[a] == s[i..][a - i];
      }
    }
  }

  /** `EP`, `Episode` and `Ep` start with an `e`: without an `e` or `E` from `i` on, none of them is found there. */
  lemma EpWordsNeedE(s: string, i: nat)
    requires i <= |s| && 'e' !in s[i..] && 'E' !in s[i..]
    ensures Search(EpPrefix, s, i).None? && Search(EpisodeWord, s, i).None? && Search(EpWord, s, i).None?
  {
    forall q | i <= q < |s|
      ensures !WordAt(s, q, "ep") && !WordAt(s, q, "episode")
    {
      assert s[q] == s[i..][q - i];
      WordStartsWith(s, q, "ep");
      WordStartsWith(s, q, "episode");
    }
  }

  /** A word found at `q` has its first letter there. */
  lemma WordStartsWith(s: string, q: nat, w: string)
    requires |w| > 0 && forall k :: 0 <= k < |w| ==> 'a' <= w[k] <= 'z'
    ensures WordAt(s, q, w) ==> q < |s| && SameLetter(s[q], w[0])
  {
    if WordAt(s, q, w) {
      assert SameLetter(s[q + 0], w[0]);
    }
  }

  /**
   * A stem that starts with digits and a dash gets season 1 and that number as
   * its episode, unless one of the first three patterns matches somewhere;
   * the later `Episode`, `Ep` and bare-number patterns never get a say.
   */
  lemma LeadingNumberDashWins(s: string, a: nat)
    requires 0 < a < |s| && s[a] == '-'
    requires forall k :: 0 <= k < a ==> IsDigit(s[k])
    requires forall j :: 0 <= j < 3 ==> Search(RuleOrder[j], s, 0).None?
    ensures AllDigits(s[..a])
    ensures ExtractEpisodeNumber(s) == Some("S01E" + Pad2(DecimalValue(s[..a])))
  {
    LeadingNumberDashFires(s, a);
    LeadingNumberDashTag(s, a);
  }

  lemma LeadingNumberDashTag(s: string, a: nat)
    requires 0 < a < |s| && AllDigits(s[..a])
    requires FiringRule(s) == Some(Firing(3, Found(0, Capture(None, Span(0, a)))))
    ensures ExtractEpisodeNumber(s) == Some("S01E" + Pad2(DecimalValue(s[..a])))
  {
    SeasonOneTag(s, FiringRule(s).value);
    assert Text(s, Span(0, a)) == s[..a];
  }

  /** `EP` and the leading `N-` give `S01E` and the episode group's value. */
  lemma SeasonOneTag(s: string, f: Firing)
    requires FiringRule(s) == Some(f) && (f.index == 2 || f.index == 3)
    ensures IsRun(s, f.found.capture.episode)
    ensures AllDigits(Text(s, f.found.capture.episode))
    ensures ExtractEpisodeNumber(s) == Some("S01E" + Pad2(DecimalValue(Text(s, f.found.capture.episode))))
  {
    ExtractFromFiring(s, f);
    FiringSeason(s, f);
    RunIsDigits(s, f.found.capture.episode);
    RenderSeasonOne(DecimalValue(Text(s, f.found.capture.episode)));
  }

  /** The tag of a stem is the rendering of what its deciding pattern captured. */
  lemma ExtractFromFiring(s: string, f: Firing)
    requires FiringRule(s) == Some(f)
    ensures f.index < |RuleOrder|
    ensures ExtractEpisodeNumber(s) == Some(Render(TagFrom(RuleOrder[f.index], s, f.found.capture)))
  {
  }

  lemma RenderSeasonOne(episode: nat)
    ensures Render(Seasoned(1, episode)) == "S01E" + Pad2(episode)
  {
    assert Pad2(1) == "01";
    assert "S" + "01" + "E" == "S01E";
  }

  lemma LeadingNumberDashFires(s: string, a: nat)
    requires 0 < a < |s| && s[a] == '-'
    requires forall k :: 0 <= k < a ==> IsDigit(s[k])
    requires forall j :: 0 <= j < 3 ==> Search(RuleOrder[j], s, 0).None?
    ensures FiringRule(s) == Some(Firing(3, Found(0, Capture(None, Span(0, a)))))
  {
    var found := Found(0, Capture(None, Span(0, a)));
    LeadingNumberDashMatches(s, a);
    assert RuleOrder[3] == LeadingNumberDash;
    assert FirstFiringFrom(s, 3) == Some(Firing(3, found));
    assert FirstFiringFrom(s, 2) == FirstFiringFrom(s, 3);
    assert FirstFiringFrom(s, 1) == FirstFiringFrom(s, 2);
  }

  lemma LeadingNumberDashMatches(s: string, a: nat)
    requires 0 < a < |s| && s[a] == '-'
    requires forall k :: 0 <= k < a ==> IsDigit(s[k])
    ensures Search(LeadingNumberDash, s, 0) == Some(Found(0, Capture(None, Span(0, a))))
  {
    RunEndAt(s, 0, a);
    assert MatchAt(LeadingNumberDash, s, 0) == Some(Capture(None, Span(0, a)));
  }

  /** The leading-number pattern fires only for a stem whose first character is a digit. */
  lemma LeadingNumberDashAtStartOnly(s: string)
    requires FiringRule(s).Some? && FiringRule(s).value.index == 3
    ensures |s| > 0 && IsDigit(s[0])
  {
    var f := FiringRule(s).value;
    assert MatchAt(LeadingNumberDash, s, f.found.pos).Some?;
  }

  /**
   * When none of the first six patterns matches, the tag is `E` and the value
   * of the leftmost maximal digit run, wherever it is.
   */
  lemma BareNumberFallback(s: string, k: nat)
    requires k < |s| && IsDigit(s[k])
    requires forall j :: 0 <= j < k ==> !IsDigit(s[j])
    requires forall j :: 0 <= j < 6 ==> Search(RuleOrder[j], s, 0).None?
    ensures AllDigits(s[k..RunEnd(s, k)])
    ensures ExtractEpisodeNumber(s) == Some("E" + Pad2(DecimalValue(s[k..RunEnd(s, k)])))
  {
    BareNumberFires(s, k);
    BareNumberTag(s, k);
  }

  lemma BareNumberTag(s: string, k: nat)
    requires k < |s| && IsDigit(s[k])
    requires FiringRule(s) == Some(Firing(6, Found(k, Capture(None, Span(k, RunEnd(s, k))))))
    ensures AllDigits(s[k..RunEnd(s, k)])
    ensures ExtractEpisodeNumber(s) == Some("E" + Pad2(DecimalValue(s[k..RunEnd(s, k)])))
  {
    UnseasonedTag(s, FiringRule(s).value);
  }

  /** The last three patterns give `E` and the episode group's value. */
  lemma UnseasonedTag(s: string, f: Firing)
    requires FiringRule(s) == Some(f) && f.index >= 4
    ensures IsRun(s, f.found.capture.episode)
    ensures AllDigits(Text(s, f.found.capture.episode))
    ensures ExtractEpisodeNumber(s) == Some("E" + Pad2(DecimalValue(Text(s, f.found.capture.episode))))
  {
    ExtractFromFiring(s, f);
    FiringSeason(s, f);
    RunIsDigits(s, f.found.capture.episode);
  }

  lemma BareNumberFires(s: string, k: nat)
    requires k < |s| && IsDigit(s[k])
    requires forall j :: 0 <= j < k ==> !IsDigit(s[j])
    requires forall j :: 0 <= j < 6 ==> Search(RuleOrder[j], s, 0).None?
    ensures FiringRule(s) == Some(Firing(6, Found(k, Capture(None, Span(k, RunEnd(s, k))))))
  {
    var found := Found(k, Capture(None, Span(k, RunEnd(s, k))));
    BareNumberFound(s, k);
    assert RuleOrder[6] == BareNumber;
    assert FirstFiringFrom(s, 6) == Some(Firing(6, found));
    assert FirstFiringFrom(s, 5) == FirstFiringFrom(s, 6);
    assert FirstFiringFrom(s, 4) == FirstFiringFrom(s, 5);
    assert FirstFiringFrom(s, 3) == FirstFiringFrom(s, 4);
    assert FirstFiringFrom(s, 2) == FirstFiringFrom(s, 3);
    assert FirstFiringFrom(s, 1) == FirstFiringFrom(s, 2);
  }

  /** The bare number is searched for at its first digit. */
  lemma BareNumberFound(s: string, k: nat)
    requires k < |s| && IsDigit(s[k])
    requires forall j :: 0 <= j < k ==> !IsDigit(s[j])
    ensures Search(BareNumber, s, 0) == Some(Found(k, Capture(None, Span(k, RunEnd(s, k)))))
  {
    var f := Search(BareNumber, s, 0);
    assert MatchAt(BareNumber, s, k).Some?;
    assert f.Some? && f.value.pos <= k;
    assert MatchAt(BareNumber, s, f.value.pos).Some?;
  }

  /**
   * Every group of a leftmost match is a maximal digit run: it is neither
   * preceded nor followed by a digit.
   */
  lemma LeftmostGroupsAreMaximal(r: Rule, s: string)
    requires Search(r, s, 0).Some?
    ensures var c := Search(r, s, 0).value.capture;
            && (c.episode.lo == 0 || !IsDigit(s[c.episode.lo - 1]))
            && (c.season.Some? ==> c.season.value.lo == 0 || !IsDigit(s[c.season.value.lo - 1]))
  {
    var p := Search(r, s, 0).value.pos;
    if 0 < p {
      // A match of the two patterns that start with digits, beginning inside
      // a digit run, would also match one position earlier.
      assert MatchAt(r, s, p - 1).None?;
    }
  }

  /**
   * The shape of the tag follows the deciding pattern: the first four give
   * `S..E..` (the third and fourth with season `01`), the last three give `E..`.
   */
  lemma TagShape(s: string)
    requires ExtractEpisodeNumber(s).Some?
    ensures var tag := ExtractEpisodeNumber(s).value;
            var index := FiringRule(s).value.index;
            && (tag[0] == 'S' <==> index < 4)
            && (tag[0] == 'E' <==> index >= 4)
            && (index == 2 || index == 3 ==> tag[..4] == "S01E")
            && ParseTag(tag) == Classify(s)
  {
    var f := FiringRule(s).value;
    ExtractFromFiring(s, f);
    var t := TagFrom(RuleOrder[f.index], s, f.found.capture);
    FiringSeason(s, f);
    RenderRoundTrip(t);
    RenderHead(t);
    if f.index == 2 || f.index == 3 {
      RenderSeasonOne(t.episode);
    }
  }

  /** The first four patterns give a season, `EP` and the leading `N-` give season 1. */
  lemma FiringSeason(s: string, f: Firing)
    requires FiringRule(s) == Some(f)
    ensures f.index < |RuleOrder|
    ensures var t := TagFrom(RuleOrder[f.index], s, f.found.capture);
            && (t.Seasoned? <==> f.index < 4)
            && (f.index == 2 || f.index == 3 ==> t == Seasoned(1, t.episode))
  {
  }

  /** A rendered tag starts with `S` exactly when it has a season. */
  lemma RenderHead(t: EpisodeTag)
    ensures Render(t)[0] == if t.Seasoned? then 'S' else 'E'
  {
  }
}
