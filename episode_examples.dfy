/**
 * Worked stems for the episode tag extractor: the pattern order and the
 * zero padding on concrete names.
 */
module EpisodeExamples {
  import opened Wrappers
  import opened Numerals
  import opened EpisodeTags

  /**
   * `S01E02 - Episode 3` carries two tags; the season/episode pattern comes
   * first in the order and decides, so the `Episode 3` further on is ignored.
   */
  lemma SeasonEpisodeBeatsEpisodeWord(s: string)
    requires s == "S01E02 - Episode 3"
    ensures ExtractEpisodeNumber(s) == Some("S01E02")
  {
    SeasonEpisodeRead(s);
    NumbersOf(s);
    var season, episode := s[1..3], s[4..6];
    ReadsBack(season, episode);
  }

  /** Characters 1-2 and 4-5 of the example stem. */
  lemma NumbersOf(s: string)
    requires s == "S01E02 - Episode 3"
    ensures s[1..3] == "01" && s[4..6] == "02"
  {
  }

  /** `S` and `E` around two zero-padded single digits give `S01E02`. */
  lemma ReadsBack(season: string, episode: string)
    requires season == "01" && episode == "02"
    ensures "S" + Pad2(DecimalValue(season)) + "E" + Pad2(DecimalValue(episode)) == "S01E02"
  {
    TwoDigits(season);
    TwoDigits(episode);
  }

  /** The two numbers of `S01E02 - Episode 3` are read from its characters 1-2 and 4-5. */
  lemma SeasonEpisodeRead(s: string)
    requires s == "S01E02 - Episode 3"
    ensures AllDigits(s[1..3]) && AllDigits(s[4..6])
    ensures ExtractEpisodeNumber(s) == Some("S" + Pad2(DecimalValue(s[1..3])) + "E" + Pad2(DecimalValue(s[4..6])))
  {
    SeasonEpisodeAtStart(s);
    SeasonEpisodeWins(s, 0);
    assert Text(s, Span(1, 3)) == s[1..3];
    assert Text(s, Span(4, 6)) == s[4..6];
  }

  /** The season/episode pattern matches `S01E02 - Episode 3` at its start. */
  lemma SeasonEpisodeAtStart(s: string)
    requires s == "S01E02 - Episode 3"
    ensures Search(SeasonEpisode, s, 0) == Some(Found(0, Capture(Some(Span(1, 3)), Span(4, 6))))
  {
    RunEndAt(s, 1, 3);
    RunEndAt(s, 4, 6);
    assert MatchAt(SeasonEpisode, s, 0) == Some(Capture(Some(Span(1, 3)), Span(4, 6)));
  }

  /** A two-digit numeral with a leading zero pads back to itself. */
  lemma TwoDigits(d: string)
    requires |d| == 2 && d[0] == '0' && IsDigit(d[1])
    ensures Pad2(DecimalValue(d)) == d
  {
    assert d[..1] == "0" && d[..1][..0] == [];
    assert DecimalValue(d[..1]) == 0;
    assert d[..|d| - 1] == d[..1];
    assert DecimalValue(d) == DigitValue(d[1]);
    assert d == [DigitChar(0), DigitChar(DigitValue(d[1]))];
  }

  /** `05-Pilot`: no `S..E..`, `..x..` or `EP..`, so the leading number and dash give season 1. */
  lemma LeadingNumberExample(s: string)
    requires s == "05-Pilot"
    ensures ExtractEpisodeNumber(s) == Some("S01E05")
  {
    PilotParts(s);
    NoLetterPattern(s);
    LeadingNumberDashWins(s, 2);
    var episode := s[..2];
    PilotReadsBack(episode);
  }

  /** Episode `05` with season 1 renders as `S01E05`. */
  lemma PilotReadsBack(episode: string)
    requires episode == "05"
    ensures "S01E" + Pad2(DecimalValue(episode)) == "S01E05"
  {
    TwoDigits(episode);
  }

  /** The letters `05-Pilot` lacks, and its number. */
  lemma PilotParts(s: string)
    requires s == "05-Pilot"
    ensures 's' !in s && 'S' !in s && 'x' !in s && 'X' !in s && 'e' !in s && 'E' !in s
    ensures s[2] == '-' && IsDigit(s[0]) && IsDigit(s[1]) && s[..2] == "05"
  {
  }

  /** Without the letters `s`, `x` and `e` in either case, none of the first three patterns occurs. */
  lemma NoLetterPattern(s: string)
    requires 's' !in s && 'S' !in s && 'x' !in s && 'X' !in s && 'e' !in s && 'E' !in s
    ensures forall j :: 0 <= j < 3 ==> Search(RuleOrder[j], s, 0).None?
  {
    assert s[0..] == s;
    SeasonEpisodeNeedsS(s, 0);
    SeasonCrossEpisodeNeedsX(s, 0);
    EpWordsNeedE(s, 0);
  }

  /**
   * `Show 1080p 3`: the `S` of `Show` starts no season/episode pair and no
   * other word pattern applies, so the first digit run, `1080`, is the
   * episode; a number of more than two digits is kept whole.
   */
  lemma BareNumberExample(s: string)
    requires s == "Show 1080p 3"
    ensures ExtractEpisodeNumber(s) == Some("E1080")
  {
    ShowParts(s);
    OnlyLeadingS(s);
    BareNumberFallback(s, 5);
    RunEndAt(s, 5, 9);
    var episode := s[5..9];
    BareReadsBack(episode);
  }

  /** Episode `1080` alone renders as `E1080`. */
  lemma BareReadsBack(episode: string)
    requires episode == "1080"
    ensures "E" + Pad2(DecimalValue(episode)) == "E1080"
  {
    PaddedValue(episode);
  }

  /** The letters of `Show 1080p 3` after its first, and where its first number lies. */
  lemma ShowParts(s: string)
    requires s == "Show 1080p 3"
    ensures !IsDigit(s[0]) && !IsDigit(s[1])
    ensures 's' !in s[1..] && 'S' !in s[1..] && 'x' !in s && 'X' !in s && 'e' !in s && 'E' !in s
    ensures forall j :: 0 <= j < 5 ==> !IsDigit(s[j])
    ensures forall j :: 5 <= j < 9 ==> IsDigit(s[j])
    ensures !IsDigit(s[9]) && s[5..9] == "1080"
  {
    assert s[1..] == "how 1080p 3";
  }

  /**
   * A stem whose only `s` or `S` is its first character, followed by a
   * non-digit, and that has no `x` or `e` in either case: none of the first
   * six patterns occurs.
   */
  lemma OnlyLeadingS(s: string)
    requires |s| > 1 && !IsDigit(s[0]) && !IsDigit(s[1])
    requires 's' !in s[1..] && 'S' !in s[1..] && 'x' !in s && 'X' !in s && 'e' !in s && 'E' !in s
    ensures forall j :: 0 <= j < 6 ==> Search(RuleOrder[j], s, 0).None?
  {
    LeadingSOnly(s);
    assert s[0..] == s;
    SeasonCrossEpisodeNeedsX(s, 0);
    EpWordsNeedE(s, 0);
  }

  /** An `s` or `S` followed by a non-digit starts no season/episode pair. */
  lemma LeadingSOnly(s: string)
    requires |s| > 1 && !IsDigit(s[1]) && 's' !in s[1..] && 'S' !in s[1..]
    ensures Search(SeasonEpisode, s, 0).None?
  {
    RunEndAt(s, 1, 1);
    assert MatchAt(SeasonEpisode, s, 0).None?;
    SeasonEpisodeNeedsS(s, 1);
  }

  /** `1920x1080`: the `NxM` pattern keeps both numbers whole, as season and episode. */
  lemma SeasonCrossEpisodeExample(s: string)
    requires s == "1920x1080"
    ensures ExtractEpisodeNumber(s) == Some("S1920E1080")
  {
    CrossParts(s);
    assert s[0..] == s;
    SeasonEpisodeNeedsS(s, 0);
    CrossStem(s, 4, 9);
    var season, episode := s[..4], s[5..9];
    CrossReadsBack(season, episode);
  }

  /** Season `1920` and episode `1080` render as `S1920E1080`. */
  lemma CrossReadsBack(season: string, episode: string)
    requires season == "1920" && episode == "1080"
    ensures "S" + Pad2(DecimalValue(season)) + "E" + Pad2(DecimalValue(episode)) == "S1920E1080"
  {
    PaddedValue(season);
    PaddedValue(episode);
  }

  /** The numbers of `1920x1080`, and that it has no `s` in either case. */
  lemma CrossParts(s: string)
    requires s == "1920x1080"
    ensures 's' !in s && 'S' !in s && s[4] == 'x'
    ensures forall k :: 0 <= k < 4 ==> IsDigit(s[k])
    ensures forall k :: 5 <= k < 9 ==> IsDigit(s[k])
    ensures s[..4] == "1920" && s[5..9] == "1080"
  {
  }

  /** A stem that starts `<digits>x<digits>`, with no season/episode pair anywhere, takes both numbers. */
  lemma CrossStem(s: string, a: nat, b: nat)
    requires 0 < a && a + 1 < b <= |s| && SameLetter(s[a], 'x')
    requires forall k :: 0 <= k < a ==> IsDigit(s[k])
    requires forall k :: a + 1 <= k < b ==> IsDigit(s[k])
    requires b == |s| || !IsDigit(s[b])
    requires Search(SeasonEpisode, s, 0).None?
    ensures AllDigits(s[..a]) && AllDigits(s[a + 1..b])
    ensures ExtractEpisodeNumber(s) == Some("S" + Pad2(DecimalValue(s[..a])) + "E" + Pad2(DecimalValue(s[a + 1..b])))
  {
    RunEndAt(s, 0, a);
    RunEndAt(s, a + 1, b);
    assert MatchAt(SeasonCrossEpisode, s, 0) == Some(Capture(Some(Span(0, a)), Span(a + 1, b)));
    SeasonCrossEpisodeWins(s, 0);
    assert Text(s, Span(0, a)) == s[..a];
    assert Text(s, Span(a + 1, b)) == s[a + 1..b];
  }

  /** A stem that starts `S<digits>E<digits>`, in either case, takes both numbers. */
  lemma SeasonEpisodeStem(s: string, a: nat, b: nat)
    requires 1 < a && a + 1 < b <= |s| && SameLetter(s[0], 's') && SameLetter(s[a], 'e')
    requires forall k :: 1 <= k < a ==> IsDigit(s[k])
    requires forall k :: a + 1 <= k < b ==> IsDigit(s[k])
    requires b == |s| || !IsDigit(s[b])
    ensures AllDigits(s[1..a]) && AllDigits(s[a + 1..b])
    ensures ExtractEpisodeNumber(s) == Some("S" + Pad2(DecimalValue(s[1..a])) + "E" + Pad2(DecimalValue(s[a + 1..b])))
  {
    RunEndAt(s, 1, a);
    RunEndAt(s, a + 1, b);
    assert MatchAt(SeasonEpisode, s, 0) == Some(Capture(Some(Span(1, a)), Span(a + 1, b)));
    SeasonEpisodeWins(s, 0);
    assert Text(s, Span(1, a)) == s[1..a];
    assert Text(s, Span(a + 1, b)) == s[a + 1..b];
  }

  /** `s001e2`: lower-case letters match too; `001` reads as 1, and both numbers are padded to two digits. */
  lemma LowerCaseExample(s: string)
    requires s == "s001e2"
    ensures ExtractEpisodeNumber(s) == Some("S01E02")
  {
    LowerCaseParts(s);
    SeasonEpisodeStem(s, 4, 6);
    var season, episode := s[1..4], s[5..6];
    LowerCaseReadsBack(season, episode);
  }

  /** Where the letters and numbers of `s001e2` lie. */
  lemma LowerCaseParts(s: string)
    requires s == "s001e2"
    ensures SameLetter(s[0], 's') && SameLetter(s[4], 'e')
    ensures forall k :: 1 <= k < 4 ==> IsDigit(s[k])
    ensures IsDigit(s[5]) && s[1..4] == "001" && s[5..6] == "2"
  {
  }

  /** Season `001` and episode `2` render as `S01E02`. */
  lemma LowerCaseReadsBack(season: string, episode: string)
    requires season == "001" && episode == "2"
    ensures "S" + Pad2(DecimalValue(season)) + "E" + Pad2(DecimalValue(episode)) == "S01E02"
  {
    var shorter, longer := season[1..], ['0'] + episode;
    assert season == ['0'] + shorter && shorter == "01" && longer == "02";
    LeadingZeroIgnored(shorter);
    LeadingZeroIgnored(episode);
    ReadsBack(shorter, longer);
  }

  /** `S123E4`: a three-digit season is kept whole, the episode is padded. */
  lemma WideSeasonExample(s: string)
    requires s == "S123E4"
    ensures ExtractEpisodeNumber(s) == Some("S123E04")
  {
    WideSeasonParts(s);
    SeasonEpisodeStem(s, 4, 6);
    var season, episode := s[1..4], s[5..6];
    WideSeasonReadsBack(season, episode);
  }

  /** Where the letters and numbers of `S123E4` lie. */
  lemma WideSeasonParts(s: string)
    requires s == "S123E4"
    ensures SameLetter(s[0], 's') && SameLetter(s[4], 'e')
    ensures forall k :: 1 <= k < 4 ==> IsDigit(s[k])
    ensures IsDigit(s[5]) && s[1..4] == "123" && s[5..6] == "4"
  {
  }

  /** Season `123` and episode `4` render as `S123E04`. */
  lemma WideSeasonReadsBack(season: string, episode: string)
    requires season == "123" && episode == "4"
    ensures "S" + Pad2(DecimalValue(season)) + "E" + Pad2(DecimalValue(episode)) == "S123E04"
  {
    PaddedValue(season);
    PaddedValue(episode);
  }
}
