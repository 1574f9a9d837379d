/**
 * The writer's work on one directory: make the thumbnail from the cover,
 * remux every video with its metadata, copy the thumbnail next to each
 * tagged video as a `.THM` sidecar, and finally delete the thumbnail and the
 * cover images. The directory is the set of names it holds; for each file the
 * model also records the metadata this run wrote into it. The transcoder and
 * the file system are reduced to success flags.
 */
module PspWriter {
  import opened Wrappers
  import opened PathNames
  import opened Covers
  import opened Metadata

  /** The names `cleanup_for_psp` deletes, in its order. */
  const CleanupNames: seq<string> := [
    "thumbnail.jpg",
    "cover.jpg", "cover.jpeg", "cover.png", "cover.bmp", "cover.gif",
    "Cover.jpg", "Cover.jpeg", "Cover.png", "Cover.bmp", "Cover.gif",
    "COVER.jpg", "COVER.jpeg", "COVER.png", "COVER.bmp", "COVER.gif"
  ]

  /** The cleanup list as a set of names. */
  function CleanupSet(): set<string> {
    set n | n in CleanupNames
  }

  /** The list to delete is the thumbnail followed by every cover candidate. */
  lemma CleanupListsThumbnailAndCovers()
    ensures CleanupNames == [ThumbnailName] + CoverCandidates
  {
  }

  /**
   * Every listed name ends in an image extension: never in `4` (videos and
   * remux outputs) nor in `M` (sidecars).
   */
  lemma CleanupNamesAreImages()
    ensures forall n :: n in CleanupSet() ==> |n| > 0 && LastChar(n) in {'g', 'p', 'f'}
  {
    forall i | 0 <= i < |CleanupNames|
      ensures |CleanupNames[i]| > 0 && LastChar(CleanupNames[i]) in {'g', 'p', 'f'}
    {
    }
  }

  /** The remux outputs of the videos `vs`. */
  function TempNames(vs: seq<string>): (names: set<string>)
    ensures forall n :: n in names ==> |n| > 0 && LastChar(n) == '4'
  {
    if vs == [] then {} else TempNames(vs[..|vs| - 1]) + {TempName(vs[|vs| - 1])}
  }

  /** The sidecars made for the videos `vs`: for those tagged, when the thumbnail is ready and the copy succeeds. */
  function Sidecars(vs: seq<string>, tagged: seq<bool>, copyOk: seq<bool>, ready: bool): (names: set<string>)
    requires |tagged| == |vs| && |copyOk| == |vs|
    ensures forall n :: n in names ==> |n| > 0 && LastChar(n) == 'M'
  {
    if vs == [] then {}
    else
      var k := |vs| - 1;
      var earlier := Sidecars(vs[..k], tagged[..k], copyOk[..k], ready);
      if tagged[k] && ready && copyOk[k] then earlier + {ThmName(vs[k])} else earlier
  }

  /** Processing one more video adds its remux output to the names removed. */
  lemma TempNamesStep(vs: seq<string>, k: nat)
    requires k < |vs|
    ensures TempNames(vs[..k + 1]) == TempNames(vs[..k]) + {TempName(vs[k])}
  {
    assert vs[..k + 1][..k] == vs[..k];
  }

  /** Processing one more video adds its sidecar when one is made. */
  lemma SidecarsStep(vs: seq<string>, tagged: seq<bool>, copyOk: seq<bool>, ready: bool, k: nat, ok: bool)
    requires k < |vs| && |tagged| == k && |copyOk| == |vs|
    ensures Sidecars(vs[..k + 1], tagged + [ok], copyOk[..k + 1], ready)
            == Sidecars(vs[..k], tagged, copyOk[..k], ready)
               + (if ok && ready && copyOk[k] then {ThmName(vs[k])} else {})
  {
    assert vs[..k + 1][..k] == vs[..k];
    assert copyOk[..k + 1][..k] == copyOk[..k];
    assert (tagged + [ok])[..k] == tagged;
  }

  /** The directory after one more video, given the one before it. */
  lemma FilesStep(start: set<string>, files: set<string>, after: set<string>,
                  temps: set<string>, sidecars: set<string>, temp: string, extra: set<string>)
    requires files == (start - temps) + sidecars
    requires temp !in sidecars
    requires after == (files - {temp}) + extra
    ensures after == (start - (temps + {temp})) + (sidecars + extra)
  {
  }

  /**
   * `tagged` records, for the first videos of the batch, that a video is
   * tagged exactly when its remux succeeds and no earlier remux output took
   * its name.
   */
  predicate TaggedPrefix(videos: seq<string>, remuxOk: seq<bool>, tagged: seq<bool>)
    requires |tagged| <= |videos| && |remuxOk| == |videos|
  {
    if tagged == [] then true
    else
      var k := |tagged| - 1;
      TaggedPrefix(videos, remuxOk, tagged[..k]) && tagged[k] == (remuxOk[k] && videos[k] !in TempNames(videos[..k]))
  }

  /** One more video extends the record of which videos were tagged. */
  lemma TaggedPrefixStep(videos: seq<string>, remuxOk: seq<bool>, tagged: seq<bool>, ok: bool)
    requires |tagged| < |videos| && |remuxOk| == |videos|
    requires TaggedPrefix(videos, remuxOk, tagged)
    requires ok == (remuxOk[|tagged|] && videos[|tagged|] !in TempNames(videos[..|tagged|]))
    ensures TaggedPrefix(videos, remuxOk, tagged + [ok])
  {
    assert (tagged + [ok])[..|tagged|] == tagged;
  }

  /** The recursive record, read index by index. */
  lemma {:induction false} TaggedPrefixAt(videos: seq<string>, remuxOk: seq<bool>, tagged: seq<bool>, i: nat)
    requires |tagged| <= |videos| && |remuxOk| == |videos|
    requires TaggedPrefix(videos, remuxOk, tagged) && i < |tagged|
    ensures tagged[i] == (remuxOk[i] && videos[i] !in TempNames(videos[..i]))
  {
    var k := |tagged| - 1;
    if i < k {
      TaggedPrefixAt(videos, remuxOk, tagged[..k], i);
      assert tagged[..k][i] == tagged[i];
    }
  }

  /** Videos from index `from` on, whose names no remux output in `temps` took, keep what `w0` held. */
  predicate Untouched(videos: seq<string>, temps: set<string>, from: nat,
                      w: map<string, MetadataMap>, w0: map<string, MetadataMap>)
  {
    forall i :: from <= i < |videos| && videos[i] !in temps ==>
      (videos[i] in w <==> videos[i] in w0) && (videos[i] in w ==> w[videos[i]] == w0[videos[i]])
  }

  /**
   * Videos before index `upto`, whose names no remux output in `temps` took,
   * hold the metadata of their stem when their remux succeeded, and what
   * `w0` held otherwise.
   */
  predicate WrittenTagged(videos: seq<string>, remuxOk: seq<bool>, content: Content, temps: set<string>, upto: nat,
                          w: map<string, MetadataMap>, w0: map<string, MetadataMap>)
    requires |remuxOk| == |videos|
  {
    forall i :: 0 <= i < upto && i < |videos| && videos[i] !in temps ==>
      (videos[i] in w <==> remuxOk[i] || videos[i] in w0)
      && (videos[i] in w ==> w[videos[i]] == if remuxOk[i] then MetadataFor(content, Stem(videos[i])) else w0[videos[i]])
  }

  /** What processing video `k` does to the written metadata, in terms of the two predicates above. */
  lemma WrittenStep(videos: seq<string>, remuxOk: seq<bool>, content: Content, k: nat, temps: set<string>,
                    w0: map<string, MetadataMap>, wa: map<string, MetadataMap>, wb: map<string, MetadataMap>, ok: bool)
    requires k < |videos| && |remuxOk| == |videos|
    requires forall i :: 0 <= i < |videos| ==> IsMp4Name(videos[i])
    requires forall i, j :: 0 <= i < j < |videos| ==> videos[i] != videos[j]
    requires Untouched(videos, temps, k, wa, w0)
    requires WrittenTagged(videos, remuxOk, content, temps, k, wa, w0)
    requires videos[k] !in temps ==> ok == remuxOk[k]
    requires videos[k] in wb <==> ok || videos[k] in wa
    requires videos[k] in wb ==> wb[videos[k]] == if ok then MetadataFor(content, Stem(videos[k])) else wa[videos[k]]
    requires forall n :: n in wb && n != videos[k] ==> n in wa && wb[n] == wa[n]
    requires forall n :: n in wa && n != videos[k] && n != TempName(videos[k]) && n != ThmName(videos[k]) ==> n in wb
    ensures Untouched(videos, temps + {TempName(videos[k])}, k + 1, wb, w0)
    ensures WrittenTagged(videos, remuxOk, content, temps + {TempName(videos[k])}, k + 1, wb, w0)
  {
    var v := videos[k];
    forall i | 0 <= i < |videos| && i != k
      ensures videos[i] != v && videos[i] != ThmName(v)
    {
      assert LastChar(videos[i]) == '4';
    }
  }

  /**
   * A name that is not one of the videos keeps the metadata it had in `w0`
   * while it stays in `files`, unless it is among `dropped`, the names a copy
   * overwrote (the thumbnail and the sidecars); it gains none.
   */
  ghost predicate OthersKept(videos: seq<string>, dropped: set<string>, files: set<string>,
                             w: map<string, MetadataMap>, w0: map<string, MetadataMap>)
  {
    forall n :: n !in videos ==>
      (n in w <==> n in w0 && n in files && n !in dropped) && (n in w ==> w[n] == w0[n])
  }

  /** Processing video `k` keeps every other name's metadata, except what its remux output and sidecar replace. */
  lemma OthersStep(videos: seq<string>, k: nat, dropped: set<string>, made: bool,
                   fa: set<string>, wa: map<string, MetadataMap>, fb: set<string>, wb: map<string, MetadataMap>,
                   w0: map<string, MetadataMap>)
    requires k < |videos| && IsMp4Name(videos[k])
    requires OthersKept(videos, dropped, fa, wa, w0)
    requires fb == (fa - {TempName(videos[k])}) + (if made then {ThmName(videos[k])} else {})
    requires forall n :: n in wb && n != videos[k] ==> n in wa && wb[n] == wa[n]
    requires forall n :: n in wa && n != videos[k] ==>
               (n in wb <==> n != TempName(videos[k]) && !(made && n == ThmName(videos[k])))
    ensures OthersKept(videos, dropped + (if made then {ThmName(videos[k])} else {}), fb, wb, w0)
  {
    var v := videos[k];
    assert TempName(v) != ThmName(v) by {
      assert LastChar(TempName(v)) == '4' && LastChar(ThmName(v)) == 'M';
    }
    forall n | n !in videos
      ensures n != v
    {
      assert videos[k] in videos;
    }
  }

  /**
   * The directory `files` and the written metadata `written` after the loop
   * over the videos has processed the first `k` of them, starting from
   * `start` and `w0`: their remux outputs are gone, their sidecars exist,
   * `tagged` says which of them were tagged.
   */
  ghost predicate LoopState(files: set<string>, written: map<string, MetadataMap>,
                            videos: seq<string>, content: Content, remuxOk: seq<bool>, copyOk: seq<bool>,
                            thumbReady: bool, start: set<string>, w0: map<string, MetadataMap>,
                            k: nat, tagged: seq<bool>)
  {
    && k <= |videos| && |tagged| == k && |remuxOk| == |videos| && |copyOk| == |videos|
    && TaggedPrefix(videos, remuxOk, tagged)
    && files == (start - TempNames(videos[..k])) + Sidecars(videos[..k], tagged, copyOk[..k], thumbReady)
    && Untouched(videos, TempNames(videos[..k]), k, written, w0)
    && WrittenTagged(videos, remuxOk, content, TempNames(videos[..k]), k, written, w0)
    && OthersKept(videos, Sidecars(videos[..k], tagged, copyOk[..k], thumbReady), files, written, w0)
  }

  /** Processing video `k`, as `ProcessVideo` describes it, moves the loop state on by one video. */
  lemma LoopStep(videos: seq<string>, content: Content, remuxOk: seq<bool>, copyOk: seq<bool>,
                 thumbReady: bool, start: set<string>, w0: map<string, MetadataMap>,
                 k: nat, tagged: seq<bool>,
                 fa: set<string>, wa: map<string, MetadataMap>, fb: set<string>, wb: map<string, MetadataMap>, ok: bool)
    requires LoopState(fa, wa, videos, content, remuxOk, copyOk, thumbReady, start, w0, k, tagged)
    requires k < |videos|
    requires forall i :: 0 <= i < |videos| ==> IsMp4Name(videos[i]) && videos[i] in start
    requires forall i, j :: 0 <= i < j < |videos| ==> videos[i] != videos[j]
    requires thumbReady ==> ThumbnailName in start
    requires ok == (remuxOk[k] && videos[k] in fa)
    requires fb == (fa - {TempName(videos[k])})
                   + (if ok && thumbReady && ThumbnailName in fa && copyOk[k] then {ThmName(videos[k])} else {})
    requires videos[k] in wb <==> ok || videos[k] in wa
    requires videos[k] in wb ==> wb[videos[k]] == if ok then MetadataFor(content, Stem(videos[k])) else wa[videos[k]]
    requires forall n :: n in wb && n != videos[k] ==> n in wa && wb[n] == wa[n]
    requires forall n :: n in wa && n != videos[k] ==>
               (n in wb <==> n != TempName(videos[k])
                             && !(ok && thumbReady && ThumbnailName in fa && copyOk[k] && n == ThmName(videos[k])))
    ensures LoopState(fb, wb, videos, content, remuxOk, copyOk, thumbReady, start, w0, k + 1, tagged + [ok])
  {
    var v := videos[k];
    var temps := TempNames(videos[..k]);
    var sidecars := Sidecars(videos[..k], tagged, copyOk[..k], thumbReady);
    assert v in fa <==> v !in temps by {
      assert LastChar(v) == '4';
    }
    assert thumbReady ==> ThumbnailName in fa by {
      assert LastChar(ThumbnailName) == 'g';
    }
    TempNamesStep(videos, k);
    assert fb == (start - TempNames(videos[..k + 1]))
                 + Sidecars(videos[..k + 1], tagged + [ok], copyOk[..k + 1], thumbReady) by {
      SidecarsStep(videos, tagged, copyOk, thumbReady, k, ok);
      FilesStep(start, fa, fb, temps, sidecars, TempName(v),
                if ok && thumbReady && copyOk[k] then {ThmName(v)} else {});
    }
    TaggedPrefixStep(videos, remuxOk, tagged, ok);
    WrittenStep(videos, remuxOk, content, k, temps, w0, wa, wb, ok);
    var made := ok && thumbReady && copyOk[k];
    assert OthersKept(videos, Sidecars(videos[..k + 1], tagged + [ok], copyOk[..k + 1], thumbReady), fb, wb, w0) by {
      SidecarsStep(videos, tagged, copyOk, thumbReady, k, ok);
      OthersStep(videos, k, sidecars, made, fa, wa, fb, wb, w0);
    }
  }

  /** Every video's remux output is among the names removed. */
  lemma {:induction false} TempNameIn(vs: seq<string>, i: nat)
    requires i < |vs|
    ensures TempName(vs[i]) in TempNames(vs)
  {
    if i < |vs| - 1 {
      assert vs[..|vs| - 1][i] == vs[i];
      TempNameIn(vs[..|vs| - 1], i);
    }
  }

  /** A sidecar exists for exactly the tagged videos whose copy succeeded, when the thumbnail is ready. */
  lemma {:induction false} SidecarOf(vs: seq<string>, tagged: seq<bool>, copyOk: seq<bool>, ready: bool, i: nat)
    requires |tagged| == |vs| && |copyOk| == |vs| && i < |vs|
    requires tagged[i] && ready && copyOk[i]
    ensures ThmName(vs[i]) in Sidecars(vs, tagged, copyOk, ready)
  {
    var k := |vs| - 1;
    var earlier := Sidecars(vs[..k], tagged[..k], copyOk[..k], ready);
    var all := Sidecars(vs, tagged, copyOk, ready);
    if i == k {
      assert all == earlier + {ThmName(vs[k])};
    } else {
      assert vs[..k][i] == vs[i] && tagged[..k][i] && copyOk[..k][i];
      SidecarOf(vs[..k], tagged[..k], copyOk[..k], ready, i);
      assert earlier <= all;
    }
  }

  /** Every sidecar belongs to a tagged video whose copy succeeded. */
  lemma {:induction false} SidecarFrom(vs: seq<string>, tagged: seq<bool>, copyOk: seq<bool>, ready: bool, n: string)
    requires |tagged| == |vs| && |copyOk| == |vs|
    requires n in Sidecars(vs, tagged, copyOk, ready)
    ensures exists i :: 0 <= i < |vs| && tagged[i] && ready && copyOk[i] && n == ThmName(vs[i])
  {
    var k := |vs| - 1;
    if n !in Sidecars(vs[..k], tagged[..k], copyOk[..k], ready) {
      assert tagged[k] && ready && copyOk[k] && n == ThmName(vs[k]);
    } else {
      SidecarFrom(vs[..k], tagged[..k], copyOk[..k], ready, n);
      var i :| 0 <= i < k && tagged[..k][i] && ready && copyOk[..k][i] && n == ThmName(vs[..k][i]);
      assert tagged[i] && copyOk[i] && vs[..k][i] == vs[i];
    }
  }

  /** The names among the first `i` of the cleanup list. */
  function ListedBefore(i: nat): set<string>
    requires i <= |CleanupNames|
  {
    set n | n in CleanupNames[..i]
  }

  /** After the whole list, every listed name has been handled. */
  lemma ListedAll()
    ensures ListedBefore(|CleanupNames|) == CleanupSet()
  {
    assert CleanupNames[..|CleanupNames|] == CleanupNames;
  }

  /** Each turn of the cleanup loop handles one more listed name. */
  lemma ListedStep(i: nat)
    requires i < |CleanupNames|
    ensures ListedBefore(i + 1) == ListedBefore(i) + {CleanupNames[i]}
  {
    assert CleanupNames[..i + 1] == CleanupNames[..i] + [CleanupNames[i]];
  }

  /**
   * One turn of the cleanup loop, on sets: `done` names were handled, `name`
   * is next; it is deleted when it exists and is not denied.
   */
  lemma CleanupCount(start: set<string>, denied: set<string>, done: set<string>, files: set<string>, name: string)
    requires files == start - (done - denied)
    ensures name in files && name !in denied ==>
              name !in start * (done - denied)
              && start * ((done + {name}) - denied) == start * (done - denied) + {name}
              && files - {name} == start - ((done + {name}) - denied)
    ensures !(name in files && name !in denied) ==>
              start * ((done + {name}) - denied) == start * (done - denied)
              && files == start - ((done + {name}) - denied)
  {
  }

  /** The same turn, for the metadata of the files. */
  lemma CleanupWritten(w0: map<string, MetadataMap>, start: set<string>, denied: set<string>, done: set<string>,
                       w: map<string, MetadataMap>, files: set<string>, name: string)
    requires w0.Keys <= start && files == start - (done - denied) && w == w0 - (done - denied)
    ensures name in files && name !in denied ==> w - {name} == w0 - ((done + {name}) - denied)
    ensures !(name in files && name !in denied) ==> w == w0 - ((done + {name}) - denied)
  {
    if !(name in files && name !in denied) {
      assert (done + {name}) - denied == (done - denied) + ({name} - denied);
    }
  }

  /** Removing the deleted names is removing every listed name that was not denied. */
  lemma CleanupDone(w0: map<string, MetadataMap>, start: set<string>, denied: set<string>)
    requires w0.Keys <= start
    ensures start - (CleanupSet() - denied) == start - Deleted(start, denied)
    ensures w0 - (CleanupSet() - denied) == w0 - Deleted(start, denied)
  {
  }

  /** The names `cleanup_for_psp` deletes from `files` when unlinking the names in `denied` fails. */
  function Deleted(files: set<string>, denied: set<string>): set<string> {
    files * (CleanupSet() - denied)
  }

  /** Cleanup never touches a video, a remux output or a sidecar. */
  lemma CleanupSparesMedia(files: set<string>, denied: set<string>, n: string)
    requires |n| > 0 && (LastChar(n) == '4' || LastChar(n) == 'M')
    ensures n !in Deleted(files, denied)
  {
    CleanupNamesAreImages();
  }

  /** A second cleanup finds nothing left to delete. */
  lemma CleanupIdempotent(files: set<string>, denied: set<string>)
    ensures Deleted(files - Deleted(files, denied), denied) == {}
  {
    assert forall n :: n in Deleted(files - Deleted(files, denied), denied) ==> false;
  }

  /** Before the loop nothing is processed. */
  lemma LoopStart(files: set<string>, written: map<string, MetadataMap>,
                  videos: seq<string>, content: Content, remuxOk: seq<bool>, copyOk: seq<bool>, thumbReady: bool)
    requires |remuxOk| == |videos| && |copyOk| == |videos|
    requires written.Keys <= files
    ensures LoopState(files, written, videos, content, remuxOk, copyOk, thumbReady, files, written, 0, [])
  {
    assert videos[..0] == [];
  }

  /** After the loop, the state read off for the whole batch. */
  lemma LoopDone(files: set<string>, written: map<string, MetadataMap>,
                 videos: seq<string>, content: Content, remuxOk: seq<bool>, copyOk: seq<bool>,
                 thumbReady: bool, start: set<string>, w0: map<string, MetadataMap>, tagged: seq<bool>)
    requires LoopState(files, written, videos, content, remuxOk, copyOk, thumbReady, start, w0, |videos|, tagged)
    ensures forall i :: 0 <= i < |videos| ==> tagged[i] == (remuxOk[i] && videos[i] !in TempNames(videos[..i]))
    ensures files == (start - TempNames(videos)) + Sidecars(videos, tagged, copyOk, thumbReady)
    ensures forall i :: 0 <= i < |videos| && videos[i] !in TempNames(videos) ==>
              (videos[i] in written <==> remuxOk[i] || videos[i] in w0)
    ensures forall i :: 0 <= i < |videos| && videos[i] !in TempNames(videos) && videos[i] in written ==>
              written[videos[i]] == if remuxOk[i] then MetadataFor(content, Stem(videos[i])) else w0[videos[i]]
    ensures OthersKept(videos, Sidecars(videos, tagged, copyOk, thumbReady), files, written, w0)
  {
    assert videos[..|videos|] == videos;
    assert copyOk[..|videos|] == copyOk;
    forall i | 0 <= i < |videos|
      ensures tagged[i] == (remuxOk[i] && videos[i] !in TempNames(videos[..i]))
    {
      TaggedPrefixAt(videos, remuxOk, tagged, i);
    }
  }

  /** The directory after the loop over the videos, before cleanup. */
  function AfterTagging(prepared: set<string>, videos: seq<string>, tagged: seq<bool>, copyOk: seq<bool>, ready: bool): set<string>
    requires |tagged| == |videos| && |copyOk| == |videos|
  {
    (prepared - TempNames(videos)) + Sidecars(videos, tagged, copyOk, ready)
  }

  /**
   * What a whole run leaves behind in `final`, starting from `start`: no
   * remux output, every video no remux output overwrote, a sidecar for every
   * tagged video whose copy succeeded when the thumbnail was ready, no listed
   * image unless deleting it failed, and nothing new besides sidecars of
   * tagged videos and an undeletable thumbnail.
   */
  ghost predicate RunLeaves(start: set<string>, final: set<string>, videos: seq<string>, tagged: seq<bool>,
                            copyOk: seq<bool>, ready: bool, denied: set<string>)
    requires |tagged| == |videos| && |copyOk| == |videos|
  {
    && (forall i :: 0 <= i < |videos| ==> TempName(videos[i]) !in final)
    && (forall i :: 0 <= i < |videos| && videos[i] !in TempNames(videos) ==> videos[i] in final)
    && (forall i :: 0 <= i < |videos| && tagged[i] && ready && copyOk[i] ==> ThmName(videos[i]) in final)
    && (forall n :: n in CleanupNames && n in final ==> n in denied)
    && (forall n :: n in final && n !in start ==>
          n == ThumbnailName || exists i :: 0 <= i < |videos| && ready && tagged[i] && copyOk[i] && n == ThmName(videos[i]))
  }

  /** No remux output survives a run: each was moved over its video or deleted. */
  lemma RunRemovesTemps(t: set<string>, temps: set<string>, videos: seq<string>, final: set<string>)
    requires final <= t && t * temps == {}
    requires forall i :: 0 <= i < |videos| ==> TempName(videos[i]) in temps
    ensures forall i :: 0 <= i < |videos| ==> TempName(videos[i]) !in final
  {
    forall i | 0 <= i < |videos|
      ensures TempName(videos[i]) !in final
    {
      var n := TempName(videos[i]);
      assert n in temps;
      assert n !in t * temps;
    }
  }

  /** A video whose name no remux output took is still there after the cleanup. */
  lemma RunKeepsVideos(t: set<string>, temps: set<string>, videos: seq<string>, denied: set<string>, final: set<string>)
    requires final == t - Deleted(t, denied)
    requires forall i :: 0 <= i < |videos| && videos[i] !in temps ==> videos[i] in t
    requires forall i :: 0 <= i < |videos| ==> IsMp4Name(videos[i])
    ensures forall i :: 0 <= i < |videos| && videos[i] !in temps ==> videos[i] in final
  {
    forall i | 0 <= i < |videos| && videos[i] !in temps
      ensures videos[i] in final
    {
      Mp4EndsInFour(videos[i]);
      CleanupSparesMedia(t, denied, videos[i]);
    }
  }

  /** Every sidecar made survives the cleanup. */
  lemma RunKeepsSidecars(t: set<string>, videos: seq<string>, tagged: seq<bool>, copyOk: seq<bool>, ready: bool,
                         denied: set<string>, final: set<string>)
    requires |tagged| == |videos| && |copyOk| == |videos|
    requires final == t - Deleted(t, denied) && Sidecars(videos, tagged, copyOk, ready) <= t
    ensures forall i :: 0 <= i < |videos| && tagged[i] && ready && copyOk[i] ==> ThmName(videos[i]) in final
  {
    forall i | 0 <= i < |videos| && tagged[i] && ready && copyOk[i]
      ensures ThmName(videos[i]) in final
    {
      SidecarOf(videos, tagged, copyOk, ready, i);
      CleanupSparesMedia(t, denied, ThmName(videos[i]));
    }
  }

  /** A run adds no name besides the thumbnail and sidecars of tagged videos. */
  lemma RunAddsOnlySidecars(start: set<string>, t: set<string>, videos: seq<string>, tagged: seq<bool>, copyOk: seq<bool>,
                            ready: bool, final: set<string>)
    requires |tagged| == |videos| && |copyOk| == |videos|
    requires final <= t && t <= start + {ThumbnailName} + Sidecars(videos, tagged, copyOk, ready)
    ensures forall n :: n in final && n !in start ==>
              n == ThumbnailName || exists i :: 0 <= i < |videos| && ready && tagged[i] && copyOk[i] && n == ThmName(videos[i])
  {
    forall n | n in final && n !in start && n != ThumbnailName
      ensures exists i :: 0 <= i < |videos| && ready && tagged[i] && copyOk[i] && n == ThmName(videos[i])
    {
      SidecarFrom(videos, tagged, copyOk, ready, n);
    }
  }

  /** A whole run, from the state after the thumbnail step: see `RunLeaves`. */
  lemma RunOutcome(start: set<string>, prepared: set<string>, videos: seq<string>, tagged: seq<bool>, copyOk: seq<bool>,
                   ready: bool, denied: set<string>, final: set<string>)
    requires |tagged| == |videos| && |copyOk| == |videos|
    requires forall i :: 0 <= i < |videos| ==> IsMp4Name(videos[i]) && videos[i] in start
    requires prepared == if ready then start + {ThumbnailName} else start
    requires var t := AfterTagging(prepared, videos, tagged, copyOk, ready); final == t - Deleted(t, denied)
    ensures RunLeaves(start, final, videos, tagged, copyOk, ready, denied)
  {
    var t := AfterTagging(prepared, videos, tagged, copyOk, ready);
    var sidecars := Sidecars(videos, tagged, copyOk, ready);
    var temps := TempNames(videos);
    assert forall n :: n in temps ==> n !in sidecars;
    forall i | 0 <= i < |videos|
      ensures TempName(videos[i]) in temps
    {
      TempNameIn(videos, i);
    }
    RunRemovesTemps(t, temps, videos, final);
    RunKeepsVideos(t, temps, videos, denied, final);
    RunKeepsSidecars(t, videos, tagged, copyOk, ready, denied, final);
    RunAddsOnlySidecars(start, t, videos, tagged, copyOk, ready, final);
  }

  /** No video is the thumbnail: their names end differently. */
  lemma VideosAreNotThumbnail(videos: seq<string>)
    requires forall i :: 0 <= i < |videos| ==> IsMp4Name(videos[i])
    ensures forall i :: 0 <= i < |videos| ==> videos[i] != ThumbnailName
  {
    assert LastChar(ThumbnailName) == 'g';
    forall i | 0 <= i < |videos|
      ensures videos[i] != ThumbnailName
    {
      Mp4EndsInFour(videos[i]);
    }
  }

  /** The cleanup deletes no video, so it keeps each video's metadata. */
  lemma CleanupKeepsVideos(files: set<string>, w: map<string, MetadataMap>, denied: set<string>,
                           written: map<string, MetadataMap>, videos: seq<string>)
    requires written == w - Deleted(files, denied)
    requires forall i :: 0 <= i < |videos| ==> IsMp4Name(videos[i])
    ensures forall i :: 0 <= i < |videos| ==>
              (videos[i] in written <==> videos[i] in w) && (videos[i] in written ==> written[videos[i]] == w[videos[i]])
  {
    forall i | 0 <= i < |videos|
      ensures (videos[i] in written <==> videos[i] in w) && (videos[i] in written ==> written[videos[i]] == w[videos[i]])
    {
      Mp4EndsInFour(videos[i]);
      CleanupSparesMedia(files, denied, videos[i]);
    }
  }

  /** Making the thumbnail drops the metadata of whatever file `thumbnail.jpg` was before. */
  lemma OthersAfterThumbnail(videos: seq<string>, dropped: set<string>, ready: bool, files: set<string>,
                             w: map<string, MetadataMap>, pw: map<string, MetadataMap>, w0: map<string, MetadataMap>)
    requires pw == if ready then w0 - {ThumbnailName} else w0
    requires OthersKept(videos, dropped, files, w, pw)
    ensures OthersKept(videos, dropped + (if ready then {ThumbnailName} else {}), files, w, w0)
  {
  }

  /** A deletion drops the metadata of what it deletes and keeps everything else's. */
  lemma OthersAfterCleanup(videos: seq<string>, dropped: set<string>, files: set<string>,
                           w: map<string, MetadataMap>, gone: set<string>, w0: map<string, MetadataMap>)
    requires OthersKept(videos, dropped, files, w, w0)
    ensures OthersKept(videos, dropped, files - gone, w - gone, w0)
  {
  }

  class MediaDirectory {
    /** The names in the directory. */
    var files: set<string>
    /** The metadata this run wrote into each file it tagged. */
    var written: map<string, MetadataMap>

    ghost predicate Valid()
      reads this
    {
      written.Keys <= files
    }

    constructor (names: set<string>)
      ensures Valid() && files == names && written == map[]
    {
      files := names;
      written := map[];
    }

    /**
     * The cover step of `process_movies` and `process_tv_show`: find the cover
     * and have the transcoder scale it into `thumbnail.jpg`. The thumbnail is
     * ready exactly when a cover exists and the conversion succeeds.
     */
    method PrepareThumbnail(convertOk: bool) returns (ready: bool)
      requires Valid()
      modifies this
      ensures Valid()
      ensures ready == (CoverImage(old(files)).Some? && convertOk)
      ensures files == if ready then old(files) + {ThumbnailName} else old(files)
      ensures written == if ready then old(written) - {ThumbnailName} else old(written)
    {
      var cover := FindCoverImage(files);
      ready := false;
      if cover.Some? && convertOk {
        files := files + {ThumbnailName};
        written := written - {ThumbnailName};
        ready := true;
      }
    }

    /**
     * `add_metadata_to_video`: remux the video into its `.temp.mp4` name with
     * the metadata, then move that over the video. The transcoder succeeds
     * when `remuxOk` says so and its input exists. Either way the temporary
     * name is gone afterwards: moved over the video, or deleted after a failure.
     */
    method AddMetadataToVideo(video: string, metadata: MetadataMap, remuxOk: bool) returns (ok: bool)
      requires Valid()
      modifies this
      ensures Valid()
      ensures ok == (remuxOk && video in old(files))
      ensures files == old(files) - {TempName(video)}
      ensures written == if ok then (old(written) - {TempName(video)})[video := metadata]
                         else old(written) - {TempName(video)}
    {
      var temp := TempName(video);
      TempNameDiffers(video);
      var cmd := BuildRemuxCommand(video, metadata);
      // The transcoder reads back from the command exactly the metadata given, when no key holds `=`.
      assert PlainKeys(metadata) ==> DecodeMetadataArgs(cmd[5..|cmd| - 2]) == Some(metadata) by {
        assert cmd[5..|cmd| - 2] == MetadataArgs(metadata);
        if PlainKeys(metadata) {
          MetadataArgsRoundTrip(metadata);
        }
      }
      ok := remuxOk && video in files;
      if ok {
        // The transcoder writes the tagged copy to the temporary name ...
        files := files + {temp};
        written := written[temp := metadata];
        assert written - {temp} == old(written) - {temp};
        // ... which is then moved over the video.
        files := files - {temp};
        written := (written - {temp})[video := metadata];
      } else if temp in files {
        files := files - {temp};
        written := written - {temp};
      }
    }

    /** `create_psp_thumbnail_file`: copy the thumbnail to the video's `.THM` name. */
    method CreatePspThumbnailFile(video: string, thumbnail: string, copyOk: bool) returns (ok: bool)
      requires Valid()
      modifies this
      ensures Valid()
      ensures ok == (copyOk && thumbnail in old(files))
      ensures files == if ok then old(files) + {ThmName(video)} else old(files)
      ensures written == if ok then old(written) - {ThmName(video)} else old(written)
    {
      ok := copyOk && thumbnail in files;
      if ok {
        files := files + {ThmName(video)};
        written := written - {ThmName(video)};
      }
    }

    /**
     * The body of the per-video loop: build the metadata from the stem, tag
     * the video, and make its sidecar only when tagging succeeded and the
     * thumbnail is ready and still exists.
     */
    method ProcessVideo(video: string, content: Content, ready: bool, remuxOk: bool, copyOk: bool)
      returns (ok: bool)
      requires Valid() && IsMp4Name(video)
      modifies this
      ensures Valid()
      ensures ok == (remuxOk && video in old(files))
      ensures files == (old(files) - {TempName(video)})
                       + (if ok && ready && ThumbnailName in old(files) && copyOk then {ThmName(video)} else {})
      ensures video in written <==> ok || video in old(written)
      ensures video in written ==> written[video] == if ok then MetadataFor(content, Stem(video)) else old(written)[video]
      ensures forall n :: n in written && n != video ==> n in old(written) && written[n] == old(written)[n]
      ensures forall n :: n in old(written) && n != video ==>
                (n in written <==> n != TempName(video) && !(ok && ready && ThumbnailName in old(files) && copyOk && n == ThmName(video)))
    {
      TempNameDiffers(video);
      var metadata := MetadataFor(content, Stem(video));
      ok := AddMetadataToVideo(video, metadata, remuxOk);
      if ok && ready && ThumbnailName in files {
        var made := CreatePspThumbnailFile(video, ThumbnailName, copyOk);
      }
    }

    /** The loop over the videos has processed the first `k` of them. */
    ghost predicate Progress(videos: seq<string>, content: Content, remuxOk: seq<bool>, copyOk: seq<bool>,
                             thumbReady: bool, start: set<string>, w0: map<string, MetadataMap>,
                             k: nat, tagged: seq<bool>)
      reads this
    {
      Valid() && LoopState(files, written, videos, content, remuxOk, copyOk, thumbReady, start, w0, k, tagged)
    }

    /** One turn of the loop over the videos: process video `k`. */
    method TagNext(videos: seq<string>, content: Content, remuxOk: seq<bool>, copyOk: seq<bool>,
                   thumbReady: bool, ghost start: set<string>, ghost w0: map<string, MetadataMap>,
                   k: nat, tagged: seq<bool>)
      returns (ok: bool)
      requires Progress(videos, content, remuxOk, copyOk, thumbReady, start, w0, k, tagged)
      requires k < |videos|
      requires forall i :: 0 <= i < |videos| ==> IsMp4Name(videos[i]) && videos[i] in start
      requires forall i, j :: 0 <= i < j < |videos| ==> videos[i] != videos[j]
      requires thumbReady ==> ThumbnailName in start
      modifies this
      ensures Progress(videos, content, remuxOk, copyOk, thumbReady, start, w0, k + 1, tagged + [ok])
    {
      ghost var fa := files;
      ghost var wa := written;
      ok := ProcessVideo(videos[k], content, thumbReady, remuxOk[k], copyOk[k]);
      LoopStep(videos, content, remuxOk, copyOk, thumbReady, start, w0, k, tagged, fa, wa, files, written, ok);
    }

    /**
     * The loop over the globbed videos. A video is tagged when its remux
     * succeeds and no earlier video's remux output has taken its name (the
     * `.temp.mp4` of `X.mp4` is `X.temp.mp4`, itself a video of the batch).
     * Afterwards the remux outputs are gone, the sidecars of the tagged videos
     * exist, and every video whose name no remux output took holds the
     * metadata of its own stem when its remux succeeded.
     */
    method TagVideos(videos: seq<string>, content: Content, ready: bool, remuxOk: seq<bool>, copyOk: seq<bool>)
      returns (tagged: seq<bool>)
      requires Valid()
      requires |remuxOk| == |videos| && |copyOk| == |videos|
      requires forall i :: 0 <= i < |videos| ==> IsMp4Name(videos[i]) && videos[i] in files
      requires forall i, j :: 0 <= i < j < |videos| ==> videos[i] != videos[j]
      modifies this
      ensures Valid()
      ensures |tagged| == |videos|
      ensures forall i :: 0 <= i < |videos| ==> tagged[i] == (remuxOk[i] && videos[i] !in TempNames(videos[..i]))
      ensures files == (old(files) - TempNames(videos))
                       + Sidecars(videos, tagged, copyOk, ready && ThumbnailName in old(files))
      ensures forall i :: 0 <= i < |videos| && videos[i] !in TempNames(videos) ==>
                (videos[i] in written <==> remuxOk[i] || videos[i] in old(written))
      ensures forall i :: 0 <= i < |videos| && videos[i] !in TempNames(videos) && videos[i] in written ==>
                written[videos[i]] == if remuxOk[i] then MetadataFor(content, Stem(videos[i])) else old(written)[videos[i]]
      ensures OthersKept(videos, Sidecars(videos, tagged, copyOk, ready && ThumbnailName in old(files)), files, written, old(written))
    {
      var thumbReady := ready && ThumbnailName in files;
      ghost var start := files;
      ghost var w0 := written;
      tagged := [];
      LoopStart(files, written, videos, content, remuxOk, copyOk, thumbReady);
      for k := 0 to |videos|
        invariant Progress(videos, content, remuxOk, copyOk, thumbReady, start, w0, k, tagged)
      {
        var ok := TagNext(videos, content, remuxOk, copyOk, thumbReady, start, w0, k, tagged);
        tagged := tagged + [ok];
      }
      LoopDone(files, written, videos, content, remuxOk, copyOk, thumbReady, start, w0, tagged);
    }

    /**
     * `cleanup_for_psp`: delete each listed name that exists. Unlinking the
     * names in `denied` fails; the source reports that and goes on. The
     * result is the number of files deleted.
     */
    method CleanupForPsp(denied: set<string>) returns (removed: nat)
      requires Valid()
      modifies this
      ensures Valid()
      ensures files == old(files) - Deleted(old(files), denied)
      ensures written == old(written) - Deleted(old(files), denied)
      ensures removed == |Deleted(old(files), denied)|
      ensures forall n :: n in CleanupNames && n in files ==> n in denied
    {
      removed := 0;
      for i := 0 to |CleanupNames|
        invariant Valid()
        invariant files == old(files) - (ListedBefore(i) - denied)
        invariant written == old(written) - (ListedBefore(i) - denied)
        invariant removed == |old(files) * (ListedBefore(i) - denied)|
      {
        var name := CleanupNames[i];
        ListedStep(i);
        CleanupCount(old(files), denied, ListedBefore(i), files, name);
        CleanupWritten(old(written), old(files), denied, ListedBefore(i), written, files, name);
        if name in files && name !in denied {
          files := files - {name};
          written := written - {name};
          removed := removed + 1;
        }
      }
      ListedAll();
      CleanupDone(old(written), old(files), denied);
    }

    /**
     * The first two steps of `process_movies` and `process_tv_show`: make the
     * thumbnail, then tag every video. Afterwards the directory holds what the
     * tagging leaves, and no video lost or gained metadata except by its own
     * remux.
     */
    method TagDirectory(content: Content, videos: seq<string>, convertOk: bool,
                        remuxOk: seq<bool>, copyOk: seq<bool>)
      returns (ready: bool, tagged: seq<bool>)
      requires Valid()
      requires |remuxOk| == |videos| && |copyOk| == |videos|
      requires forall i :: 0 <= i < |videos| ==> IsMp4Name(videos[i]) && videos[i] in files
      requires forall i, j :: 0 <= i < j < |videos| ==> videos[i] != videos[j]
      modifies this
      ensures Valid()
      ensures ready == (CoverImage(old(files)).Some? && convertOk)
      ensures |tagged| == |videos|
      ensures forall i :: 0 <= i < |videos| ==> tagged[i] == (remuxOk[i] && videos[i] !in TempNames(videos[..i]))
      ensures files == AfterTagging(if ready then old(files) + {ThumbnailName} else old(files), videos, tagged, copyOk, ready)
      ensures forall i :: 0 <= i < |videos| && videos[i] !in TempNames(videos) ==>
                (videos[i] in written <==> remuxOk[i] || videos[i] in old(written))
      ensures forall i :: 0 <= i < |videos| && videos[i] !in TempNames(videos) && videos[i] in written ==>
                written[videos[i]] == if remuxOk[i] then MetadataFor(content, Stem(videos[i])) else old(written)[videos[i]]
      ensures OthersKept(videos, Sidecars(videos, tagged, copyOk, ready) + (if ready then {ThumbnailName} else {}),
                         files, written, old(written))
    {
      ready := PrepareThumbnail(convertOk);
      ghost var prepared := files;
      ghost var pw := written;
      tagged := TagVideos(videos, content, ready, remuxOk, copyOk);
      assert ready && ThumbnailName in prepared <==> ready;
      VideosAreNotThumbnail(videos);
      OthersAfterThumbnail(videos, Sidecars(videos, tagged, copyOk, ready), ready, files, written, pw, old(written));
    }

    /**
     * `process_movies` and `process_tv_show`: make the thumbnail, tag every
     * video the glob `*.mp4` lists (in `videos`, in glob order), then clean up.
     * The flags stand for the outcomes of the external steps: the cover
     * conversion, each remux, each sidecar copy and the deletions that fail.
     */
    method ProcessDirectory(content: Content, videos: seq<string>, convertOk: bool,
                            remuxOk: seq<bool>, copyOk: seq<bool>, denied: set<string>)
      returns (tagged: seq<bool>, removed: nat)
      requires Valid()
      requires |remuxOk| == |videos| && |copyOk| == |videos|
      requires forall v :: v in videos <==> v in files && IsMp4Name(v)
      requires forall i, j :: 0 <= i < j < |videos| ==> videos[i] != videos[j]
      modifies this
      ensures Valid()
      ensures |tagged| == |videos|
      ensures forall i :: 0 <= i < |videos| ==> tagged[i] == (remuxOk[i] && videos[i] !in TempNames(videos[..i]))
      ensures var ready := CoverImage(old(files)).Some? && convertOk;
              var t := AfterTagging(if ready then old(files) + {ThumbnailName} else old(files), videos, tagged, copyOk, ready);
              files == t - Deleted(t, denied) && removed == |Deleted(t, denied)|
      ensures forall i :: 0 <= i < |videos| && videos[i] !in TempNames(videos) ==>
                (videos[i] in written <==> remuxOk[i] || videos[i] in old(written))
      ensures forall i :: 0 <= i < |videos| && videos[i] !in TempNames(videos) && videos[i] in written ==>
                written[videos[i]] == if remuxOk[i] then MetadataFor(content, Stem(videos[i])) else old(written)[videos[i]]
      ensures RunLeaves(old(files), files, videos, tagged, copyOk, CoverImage(old(files)).Some? && convertOk, denied)
      ensures var ready := CoverImage(old(files)).Some? && convertOk;
              OthersKept(videos, Sidecars(videos, tagged, copyOk, ready) + (if ready then {ThumbnailName} else {}),
                         files, written, old(written))
    {
      ghost var start := files;
      assert forall i :: 0 <= i < |videos| ==> IsMp4Name(videos[i]) && videos[i] in files;
      var ready;
      ready, tagged := TagDirectory(content, videos, convertOk, remuxOk, copyOk);
      ghost var w := written;
      ghost var t0 := files;
      removed := CleanupForPsp(denied);
      CleanupKeepsVideos(t0, w, denied, written, videos);
      OthersAfterCleanup(videos, Sidecars(videos, tagged, copyOk, ready) + (if ready then {ThumbnailName} else {}),
                         t0, w, Deleted(t0, denied), old(written));
      RunOutcome(start, if ready then start + {ThumbnailName} else start, videos, tagged, copyOk, ready, denied, files);
    }
  }
}
