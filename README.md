# PSP metadata writer, modelled in Dafny

The PSP metadata writer is a script. It gets MP4 videos in one directory ready for the PSP's XMB menu:

1. It picks a cover image and has ffmpeg scale it into `thumbnail.jpg`.
2. It remuxes every `*.mp4` with `title`/`album`/`show`/`episode_id` metadata, writing first to `<stem>.temp.mp4` and then moving that over the video.
3. It copies the thumbnail to a `<stem>.THM` sidecar for each video it tagged.
4. It deletes the thumbnail and the cover images.

For TV shows it reads an episode tag (`S01E02`, `E07`) from each file name, using seven search patterns tried in a fixed order.

The project models that core:

- **`Numerals`**: `int()` on ASCII digit strings, `str(n)` and `f"{n:02d}"`.
- **`EpisodeTags`**: `extract_episode_number`.
  - Each pattern is modelled as a match at one position (`MatchAt`) plus a leftmost search (`Search`, which is `re.search`).
  - The first pattern in `RuleOrder` that matches decides the tag.
  - The tag is rendered as `S{season:02d}E{episode:02d}` or `E{episode:02d}`.
  - `ParseTag` reads a rendered tag back.
- **`EpisodeExamples`**: worked stems: `S01E02 - Episode 3`, `05-Pilot`, `Show 1080p 3`, `1920x1080`, `s001e2` and `S123E4`.
- **`PathNames`**: `Path.stem`, `Path.with_suffix` and the `*.mp4` glob, on plain names. It also gives the `.temp.mp4` and `.THM` names derived from a video.
- **`Covers`**: `find_cover_image` over the set of names in the directory.
  - A specification function, `CoverImage`.
  - The source's loop, `FindCoverImage`, proved equal to it.
- **`Metadata`**: the metadata dicts as entry sequences in insertion order, and the ffmpeg argument vector.
  - `BuildRemuxCommand` grows the vector with a loop, as the source does.
  - `DecodeMetadataArgs` reads the `-metadata key=value` pairs back. The round trip shows that the command carries exactly the map.
- **`PspWriter`**: the class `MediaDirectory`.
  - Its state is the set of names in the directory (`files`) and, for each file, the metadata this run wrote into it (`written`).
  - Its methods are the source's steps: thumbnail, remux, sidecar copy, the per-video loop and cleanup. `ProcessDirectory` composes them.
  - Each method states the new directory exactly. The lemmas prove what a whole run leaves behind (`RunLeaves`).

External effects are parameters:

- `convertOk` is the cover conversion.
- `remuxOk[i]` and `copyOk[i]` are the remux and copy of the i-th video.
- `denied` is the set of names whose unlink fails.
- `videos` is the glob's result, in glob order.

A remux also fails when its input is gone, as ffmpeg does.

Two behaviours of the source show up in the model, and the contracts state them.

First, the remux output of `X.mp4` is `X.temp.mp4`, which is itself a name the glob selects.
- When both videos are in the batch, processing `X.mp4` overwrites `X.temp.mp4`, then moves it away or deletes it.
- So `X.temp.mp4` is tagged only when it comes before `X.mp4` in glob order, and it is gone after the run either way.
- When it is tagged with the thumbnail ready, its sidecar `X.temp.THM` stays behind without a video.
- `TagVideos` states which videos are tagged: those whose remux succeeds and whose name no earlier remux output took.
- Its written-metadata facts about videos cover only the videos whose names no remux output takes. Every name that is not a video keeps its metadata unless a sidecar, the thumbnail or the cleanup replaces or deletes it (`OthersKept`).

Second, the names `.mp4` and `.mp4.mp4` share the sidecar `.mp4.THM` (`ThmNamesDistinct` excludes that pair).

## Model

| member | source | states |
|---|---|---|
| Numerals.DecimalValue | psp_metadata_writer.py:128-129 | `int()` of a string of ASCII digits. It has no contract of its own: `Decimal` reads back through it, and `DecimalOfValue` proves the converse |
| Numerals.DecimalOfValue | psp_metadata_writer.py:128-130 | a numeral without leading zeros is `str(int(ds))` |
| Numerals.PaddedValue | psp_metadata_writer.py:128-130 | `int()` then `{:02d}` on a numeral without leading zeros gives it back, with a zero in front when it has one digit |
| Numerals.Decimal | psp_metadata_writer.py:130 | `str(n)` has only digits, has no leading zero unless it is `0`, and reads back as `n` under `int()` |
| Numerals.LeadingZeroIgnored | psp_metadata_writer.py:128-129 | `int()` ignores a leading zero |
| Numerals.Pad2 | psp_metadata_writer.py:130 | `{n:02d}` has only digits and reads back as `n`. It is two characters for n < 10 and otherwise the plain decimal, so it never truncates (`S123E4` gives `S123E04`) |
| EpisodeTags.RunEnd | psp_metadata_writer.py:126 | greedy `\d+` ends at the first non-digit after a digit run |
| EpisodeTags.RunEndAt | psp_metadata_writer.py:126 | any maximal digit run is the one `RunEnd` finds |
| EpisodeTags.SpaceEnd | psp_metadata_writer.py:152 | greedy `\s*` ends at the first non-space |
| EpisodeTags.MatchSeasonEpisode | psp_metadata_writer.py:126 | a match of `S(\d+)E(\d+)` captures two maximal digit runs after the `S`, season before episode |
| EpisodeTags.MatchSeasonCrossEpisode | psp_metadata_writer.py:133 | a match of `(\d+)x(\d+)` captures two maximal digit runs, the season starting at the match |
| EpisodeTags.MatchWordNumber | psp_metadata_writer.py:140 | a match of `EP(\d+)`, `Episode\s*(\d+)` or `Ep\s*(\d+)` captures one maximal digit run after the word and has no season |
| EpisodeTags.MatchLeadingNumberDash | psp_metadata_writer.py:146 | `^(\d+)-` matches only at position 0 |
| EpisodeTags.MatchBareNumber | psp_metadata_writer.py:164 | `(\d+)` matches at i exactly when s[i] is a digit, capturing the run from i |
| EpisodeTags.MatchAt | psp_metadata_writer.py:126-164 | every pattern's groups are well-placed maximal digit runs; only the first two patterns capture a season |
| EpisodeTags.Search | psp_metadata_writer.py:126 | `re.search` returns the leftmost position where the pattern matches: it matches there and nowhere before; None means it matches nowhere |
| EpisodeTags.FirstFiringFrom | psp_metadata_writer.py:125-169 | the deciding pattern is the first in order with a match; no earlier pattern matches anywhere |
| EpisodeTags.RunIsDigits | psp_metadata_writer.py:128-129 | a captured group is a digit string that `int()` accepts |
| EpisodeTags.Render | psp_metadata_writer.py:130 | a rendered tag is at least three characters long |
| EpisodeTags.ExtractEpisodeNumber | psp_metadata_writer.py:119-169 | a returned tag is never empty, so the caller's truth test is a None test |
| EpisodeTags.RenderRoundTrip | psp_metadata_writer.py:130 | reading a rendered tag back gives the season and episode numbers |
| EpisodeTags.RenderInjective | psp_metadata_writer.py:130 | different tags render as different text |
| EpisodeTags.MatchHasDigit | psp_metadata_writer.py:126-164 | every match contains a digit |
| EpisodeTags.NoTagIffNoDigit | psp_metadata_writer.py:119-169 | no tag exactly when the stem has no digit |
| EpisodeTags.Precedence | psp_metadata_writer.py:123-169 | when pattern j matches anywhere, the tag is decided by pattern j or an earlier one (`1920x1080` is caught by rule 2) |
| EpisodeTags.TagFrom | psp_metadata_writer.py:127-167 | the tag each pattern builds from its groups. It has no contract of its own: `FiringSeason` and `TagShape` state which patterns give a season and which give season 1 |
| EpisodeTags.Classify | psp_metadata_writer.py:125-169 | the tag of the first pattern in order that matches. It has no contract of its own: `ExtractFromFiring`, `Precedence` and `NoTagIffNoDigit` state it |
| EpisodeTags.SeasonEpisodeWins | psp_metadata_writer.py:126-130 | an `S<digits>E<digits>` anywhere, in either case, decides the tag from its leftmost occurrence, as `S`+pad(int(season))+`E`+pad(int(episode)) |
| EpisodeTags.SeasonCrossEpisodeWins | psp_metadata_writer.py:133-137 | with no `S<digits>E<digits>` anywhere, an `<digits>x<digits>` decides the tag from its leftmost occurrence, as `S`+pad(int(season))+`E`+pad(int(episode)) |
| EpisodeTags.SeasonEpisodeNeedsS | psp_metadata_writer.py:126 | `S(\d+)E(\d+)` is not found from i on when no `s` or `S` occurs there |
| EpisodeTags.SeasonCrossEpisodeNeedsX | psp_metadata_writer.py:133 | `(\d+)x(\d+)` is not found from i on when no `x` or `X` occurs there |
| EpisodeTags.EpWordsNeedE | psp_metadata_writer.py:140-158 | `EP(\d+)`, `Episode\s*(\d+)` and `Ep\s*(\d+)` are not found from i on when no `e` or `E` occurs there |
| EpisodeTags.LeadingNumberDashWins | psp_metadata_writer.py:145-149 | a stem `<digits>-…` that the first three patterns miss gets `S01E`+pad(int(digits)), so `05-Pilot` gives `S01E05`, not `E05` |
| EpisodeTags.LeadingNumberDashTag | psp_metadata_writer.py:145-149 | when the leading-number pattern decides with the run 0..a, the tag is `S01E`+pad(int(s[..a])) |
| EpisodeTags.LeadingNumberDashFires | psp_metadata_writer.py:145-146 | with the first three patterns missing, the leading-number pattern decides, matching at 0 |
| EpisodeTags.LeadingNumberDashMatches | psp_metadata_writer.py:146 | `^(\d+)-` finds the leading run up to the dash |
| EpisodeTags.LeadingNumberDashAtStartOnly | psp_metadata_writer.py:146 | the leading-number pattern decides only for stems that start with a digit |
| EpisodeTags.SeasonOneTag | psp_metadata_writer.py:139-149 | when `EP` or the leading `N-` decides, the tag is `S01E` and the episode group's value |
| EpisodeTags.UnseasonedTag | psp_metadata_writer.py:151-167 | when one of the last three patterns decides, the tag is `E` and the episode group's value |
| EpisodeTags.ExtractFromFiring | psp_metadata_writer.py:125-169 | the tag is the rendering of what the deciding pattern captured |
| EpisodeTags.RenderSeasonOne | psp_metadata_writer.py:143 | season 1 renders as `S01E` followed by the padded episode |
| EpisodeTags.BareNumberFallback | psp_metadata_writer.py:163-167 | when the first six patterns miss, the tag is `E` and the leftmost maximal digit run (`Show 1080p 3` gives `E1080`) |
| EpisodeTags.BareNumberTag | psp_metadata_writer.py:163-167 | when the bare number decides at k, the tag is `E` and the value of the run from k |
| EpisodeTags.BareNumberFires | psp_metadata_writer.py:163-164 | with the first six patterns missing, the bare-number pattern decides at the first digit |
| EpisodeTags.BareNumberFound | psp_metadata_writer.py:164 | `(\d+)` is found at the first digit, capturing its maximal run |
| EpisodeTags.LeftmostGroupsAreMaximal | psp_metadata_writer.py:126-167 | no group of a leftmost match has a digit on either side |
| EpisodeTags.TagShape | psp_metadata_writer.py:125-167 | rules 1-4 give `S..E..`, rules 3-4 give `S01E..`, rules 5-7 give `E..`; the text reads back as the classified tag |
| EpisodeTags.FiringSeason | psp_metadata_writer.py:125-167 | exactly the first four patterns give a season; the third and fourth give season 1 |
| EpisodeTags.RenderHead | psp_metadata_writer.py:130-167 | a rendered tag starts with `S` exactly when it has a season, and with `E` otherwise |
| EpisodeExamples.SeasonEpisodeBeatsEpisodeWord | psp_metadata_writer.py:126-130 | `S01E02 - Episode 3` gives `S01E02` |
| EpisodeExamples.SeasonEpisodeRead | psp_metadata_writer.py:126-130 | in that stem the numbers come from characters 1-2 and 4-5 |
| EpisodeExamples.SeasonEpisodeAtStart | psp_metadata_writer.py:126 | in that stem the season/episode pattern matches at position 0 |
| EpisodeExamples.LeadingNumberExample | psp_metadata_writer.py:145-149 | `05-Pilot` gives `S01E05` |
| EpisodeExamples.NoLetterPattern | psp_metadata_writer.py:126-143 | a stem without `s`, `x` and `e` in either case escapes the first three patterns |
| EpisodeExamples.BareNumberExample | psp_metadata_writer.py:163-167 | `Show 1080p 3` gives `E1080` |
| EpisodeExamples.OnlyLeadingS | psp_metadata_writer.py:126-161 | a stem whose only `s` is its first character, before a non-digit, and that has no `x` or `e`, escapes the first six patterns |
| EpisodeExamples.LeadingSOnly | psp_metadata_writer.py:126 | an `s` before a non-digit starts no season/episode pair |
| EpisodeExamples.SeasonCrossEpisodeExample | psp_metadata_writer.py:133-137 | `1920x1080` gives `S1920E1080` |
| EpisodeExamples.CrossStem | psp_metadata_writer.py:133-137 | a stem starting `<digits>x<digits>`, with no season/episode pair, takes both numbers |
| EpisodeExamples.SeasonEpisodeStem | psp_metadata_writer.py:126-130 | a stem starting `S<digits>E<digits>` in either case takes both numbers |
| EpisodeExamples.LowerCaseExample | psp_metadata_writer.py:126-130 | `s001e2` gives `S01E02` |
| EpisodeExamples.WideSeasonExample | psp_metadata_writer.py:126-130 | `S123E4` gives `S123E04` |
| EpisodeExamples.TwoDigits | psp_metadata_writer.py:128-130 | `0d` reads as d and pads back to `0d` |
| PathNames.LastDot | psp_metadata_writer.py:175 | the index of the last dot, or -1 |
| PathNames.LastDotIsLast | psp_metadata_writer.py:175 | no dot follows it |
| PathNames.Suffix | psp_metadata_writer.py:175 | `Path.suffix`, from the last dot of a name whose stem is not empty. It has no contract of its own: `StemThenSuffix` proves that stem and suffix make up the name |
| PathNames.Stem | psp_metadata_writer.py:237 | `Path.stem` of a non-empty name is non-empty |
| PathNames.StemThenSuffix | psp_metadata_writer.py:237 | the stem followed by the suffix is the name |
| PathNames.WithSuffix | psp_metadata_writer.py:175 | the new name ends as the new suffix does |
| PathNames.IsMp4Name | psp_metadata_writer.py:229 | what the glob `*.mp4` selects: names ending in `.mp4`, `.mp4` itself included. It has no contract of its own: `Mp4EndsInFour` and `Mp4Stem` state what follows |
| PathNames.TempName | psp_metadata_writer.py:175 | the remux output `with_suffix('.temp.mp4')` is itself a name the glob selects |
| PathNames.ThmName | psp_metadata_writer.py:202 | the sidecar `with_suffix('.THM')` is never a name the glob selects, and ends in `M` |
| PathNames.Mp4EndsInFour | psp_metadata_writer.py:229 | a name the glob selects ends in `4` |
| PathNames.Mp4Stem | psp_metadata_writer.py:237 | the stem of `X.mp4` is `X`; the stem of `.mp4` is `.mp4` |
| PathNames.ThmSharesStem | psp_metadata_writer.py:202 | the sidecar has the video's stem |
| PathNames.TempNameDiffers | psp_metadata_writer.py:175 | the remux output is never the video it reads |
| PathNames.ThmNamesDistinct | psp_metadata_writer.py:202 | distinct videos (other than `.mp4`) have distinct sidecars |
| Covers.FirstPresent | psp_metadata_writer.py:95-100 | the index of the first present name: it is present, none before it is, and None means none is |
| Covers.FirstPresentAt | psp_metadata_writer.py:95-98 | a present name with none present before it is the one found |
| Covers.CoverImage | psp_metadata_writer.py:86-100 | the chosen cover is a candidate that exists; `CoverImageIsFirst` proves it is the first such |
| Covers.CoverImageIsFirst | psp_metadata_writer.py:86-100 | the cover is a candidate that exists with no earlier candidate existing; None exactly when no candidate exists |
| Covers.CandidatesDistinct | psp_metadata_writer.py:89-93 | the fifteen candidate names differ |
| Covers.FindCoverImage | psp_metadata_writer.py:86-100 | the loop with early return computes `CoverImage` |
| Covers.EarlierCandidateWins | psp_metadata_writer.py:95-98 | an existing candidate blocks every later one (`cover.jpg` beats `Cover.png`) |
| Covers.OnlyCandidatesMatter | psp_metadata_writer.py:95-100 | other files never change the choice |
| Metadata.WriterKeys | psp_metadata_writer.py:236-239 | the four keys differ and hold no `=` |
| Metadata.Get | psp_metadata_writer.py:288-295 | a key has a value exactly when it is in the map |
| Metadata.Put | psp_metadata_writer.py:295 | assignment sets the key, keeps the others, appends a new key at the end and keeps keys distinct |
| Metadata.MovieMetadata | psp_metadata_writer.py:236-239 | a movie map has exactly `title` = stem and `album` = `Movies` |
| Metadata.TvMetadata | psp_metadata_writer.py:284-295 | a TV map has `title` = stem and `album` = `show` = show name. It has `episode_id` exactly when a tag is found, and then equal to it |
| Metadata.MetadataFor | psp_metadata_writer.py:284-295 | the map written for a stem has distinct keys, `title` = stem, and `album` = `Movies` for a movie or the show name for a show (the movie map is built at lines 236-239) |
| Metadata.MetadataArgs | psp_metadata_writer.py:181-182 | two arguments per entry, in insertion order: `-metadata` then `key=value` |
| Metadata.BuildRemuxCommand | psp_metadata_writer.py:178-184 | the command is input, stream copy, the metadata arguments, `-y`, then the `.temp.mp4` name |
| Metadata.FirstEquals | psp_metadata_writer.py:182 | the index of the first `=`, or the length |
| Metadata.SplitEntry | psp_metadata_writer.py:182 | `key=value` with a key free of `=` splits back into key and value |
| Metadata.MetadataArgsRoundTrip | psp_metadata_writer.py:181-182 | decoding the metadata arguments gives the map back |
| Metadata.WriterKeysArePlain | psp_metadata_writer.py:236-239 | the writer's maps have no `=` in any key, so the round trip applies |
| Metadata.KeyInKeys | psp_metadata_writer.py:236-239 | every entry's key is among the map's keys |
| PspWriter.CleanupListsThumbnailAndCovers | psp_metadata_writer.py:319-324 | the cleanup list is the thumbnail followed by the fifteen cover candidates |
| PspWriter.CleanupNamesAreImages | psp_metadata_writer.py:319-324 | every listed name ends in `g`, `p` or `f`, never like a video or a sidecar |
| PspWriter.TempNames | psp_metadata_writer.py:175 | every remux output ends in `4` |
| PspWriter.Sidecars | psp_metadata_writer.py:242-250 | every sidecar ends in `M` |
| PspWriter.TempNamesStep | psp_metadata_writer.py:232 | one more video adds its remux output |
| PspWriter.SidecarsStep | psp_metadata_writer.py:242-250 | one more video adds its sidecar exactly when it is tagged, the thumbnail is ready and the copy succeeds |
| PspWriter.TaggedPrefixStep | psp_metadata_writer.py:232-242 | the tagging record grows by one video |
| PspWriter.TaggedPrefixAt | psp_metadata_writer.py:232-242 | video i is tagged exactly when its remux succeeds and no earlier remux output took its name |
| PspWriter.WrittenStep | psp_metadata_writer.py:232-250 | processing one video writes its own metadata and no other video's |
| PspWriter.OthersStep | psp_metadata_writer.py:232-250 | processing one video keeps the metadata of every name that is not a video, except its remux output and its new sidecar |
| PspWriter.OthersAfterThumbnail | psp_metadata_writer.py:218-222 | making the thumbnail drops only the metadata of a file that was called `thumbnail.jpg` |
| PspWriter.OthersAfterCleanup | psp_metadata_writer.py:326-333 | the cleanup drops only the metadata of the files it deletes |
| PspWriter.LoopStep | psp_metadata_writer.py:232-250 | processing video k moves the loop state on by one video |
| PspWriter.LoopStart | psp_metadata_writer.py:229-232 | before the loop nothing is processed |
| PspWriter.LoopDone | psp_metadata_writer.py:232-250 | after the loop: the tagged record, the directory, each unclobbered video's metadata, and every other name's metadata except where a sidecar replaced it |
| PspWriter.TempNameIn | psp_metadata_writer.py:175 | every video's remux output is among the remux outputs |
| PspWriter.SidecarOf | psp_metadata_writer.py:246-247 | a tagged video whose copy succeeded, with the thumbnail ready, has its sidecar |
| PspWriter.SidecarFrom | psp_metadata_writer.py:246-247 | every sidecar belongs to such a video |
| PspWriter.ListedAll | psp_metadata_writer.py:327 | the loop handles every listed name |
| PspWriter.ListedStep | psp_metadata_writer.py:327 | each turn handles one more listed name |
| PspWriter.CleanupCount | psp_metadata_writer.py:329-333 | a turn deletes its name and counts it exactly when it exists and unlinking succeeds |
| PspWriter.CleanupWritten | psp_metadata_writer.py:329-333 | a deleted file's metadata goes with it |
| PspWriter.CleanupDone | psp_metadata_writer.py:326-335 | removing all handled names is removing `Deleted` |
| PspWriter.Deleted | psp_metadata_writer.py:326-333 | the listed names that exist and can be unlinked. It has no contract of its own: `CleanupForPsp` proves the loop deletes exactly these, and `CleanupSparesMedia` that none is a video, remux output or sidecar |
| PspWriter.CleanupSparesMedia | psp_metadata_writer.py:319-335 | cleanup never deletes a video, a remux output or a sidecar |
| PspWriter.CleanupIdempotent | psp_metadata_writer.py:326-335 | a second cleanup deletes nothing |
| PspWriter.RunRemovesTemps | psp_metadata_writer.py:175-197 | a set fact used by `RunOutcome`: when the final directory lies inside one that no longer holds any remux output, none of the videos' remux outputs is in it |
| PspWriter.RunKeepsVideos | psp_metadata_writer.py:229-255 | a set fact used by `RunOutcome`: a video no remux output overwrote is still there after the cleanup, which deletes no video |
| PspWriter.RunKeepsSidecars | psp_metadata_writer.py:242-255 | every sidecar made survives the cleanup |
| PspWriter.RunAddsOnlySidecars | psp_metadata_writer.py:209-255 | a run adds only the thumbnail and sidecars of tagged videos |
| PspWriter.RunOutcome | psp_metadata_writer.py:209-255 | a whole run leaves exactly what `RunLeaves` describes |
| PspWriter.VideosAreNotThumbnail | psp_metadata_writer.py:217-229 | no globbed video is `thumbnail.jpg` |
| PspWriter.CleanupKeepsVideos | psp_metadata_writer.py:255 | cleanup keeps each video's metadata |
| PspWriter.MediaDirectory.PrepareThumbnail | psp_metadata_writer.py:214-226 | the thumbnail is ready exactly when a cover exists and converting it succeeds, and it is then in the directory |
| PspWriter.MediaDirectory.AddMetadataToVideo | psp_metadata_writer.py:171-197 | success exactly when the remux succeeds on an existing video, which then holds the metadata; the `.temp.mp4` name is gone either way |
| PspWriter.MediaDirectory.CreatePspThumbnailFile | psp_metadata_writer.py:199-207 | the sidecar exists exactly when the copy succeeds from an existing thumbnail |
| PspWriter.MediaDirectory.ProcessVideo | psp_metadata_writer.py:232-250 | one video: remux with its stem's metadata; a sidecar only after success with the thumbnail ready and present; every other file keeps its metadata except the remux output and the new sidecar |
| PspWriter.MediaDirectory.TagNext | psp_metadata_writer.py:232-250 | one turn of the loop keeps the loop state |
| PspWriter.MediaDirectory.TagVideos | psp_metadata_writer.py:229-250 | the loop: which videos are tagged, the exact directory afterwards, each unclobbered video's metadata, and every other name's metadata unless a sidecar replaced it |
| PspWriter.MediaDirectory.CleanupForPsp | psp_metadata_writer.py:314-341 | deletes exactly the listed names that exist and can be unlinked; the count is how many; every other file and its metadata stays |
| PspWriter.MediaDirectory.TagDirectory | psp_metadata_writer.py:209-250 | thumbnail then loop: the directory after tagging, each unclobbered video's metadata, and every other name's metadata unless the thumbnail or a sidecar replaced it |
| PspWriter.MediaDirectory.ProcessDirectory | psp_metadata_writer.py:209-312 | a whole run of `process_movies` or `process_tv_show`: tagging, the exact final directory, the count, `RunLeaves`, and every other name's metadata unless the thumbnail, a sidecar or the cleanup replaced or deleted it |

## Left out

- The ffmpeg runs, in `_check_ffmpeg`, `convert_to_psp_thumbnail` and the remux, are external programs. Their outcomes are the flags `convertOk` and `remuxOk`. The remux also fails when its input is missing. The 160×120 scaling and the quality flag are not modelled.
- `shutil.move` is modelled as always succeeding. An error in it would escape `add_metadata_to_video`, which catches only `CalledProcessError`; this is not modelled.
- The copy in `create_psp_thumbnail_file` may fail; the flag `copyOk` stands for that.
- Glob order is a parameter: `videos` is the glob's result in whatever order the file system gives.
- Existence is membership in a set of names. Case-insensitive file systems, directories among the names and paths outside the one directory are not modelled.
- Unlink failures are the set `denied`. The error text that is printed is not modelled.
- A failed remux may leave a partial `.temp.mp4`. The model treats it as deleted, as the error branch does.
- Console prompts, the `run` dispatcher, argument parsing in `main`, `sys.exit`, all printing and `KeyboardInterrupt` handling are user interface.
- Python's `re` on Unicode text is restricted to ASCII. `\d` means ASCII digits only, `\s` means ASCII whitespace only (including 0x1c-0x1f), and IGNORECASE means ASCII case only. Non-ASCII digits and Unicode case folding such as `ſ` matching `S` are not modelled.
- EpisodeTags.NoTagIffNoDigit: holds for ASCII digits only, for the reason in the previous line.
- The written metadata records only what this run wrote. The contents of video files are otherwise not modelled.
