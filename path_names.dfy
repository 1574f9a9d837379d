/**
 * File names as the writer derives them with `pathlib`: the stem of a video
 * (its title and the text searched for an episode tag), the temporary
 * `.temp.mp4` output of the remux and the `.THM` thumbnail sidecar. Paths are
 * names inside the one directory being processed.
 */
module PathNames {

  /** The fixed name of the generated thumbnail inside the directory. */
  const ThumbnailName: string := "thumbnail.jpg"

  function LastChar(s: string): char
    requires |s| > 0
  {
    s[|s| - 1]
  }

  /** `name.rfind('.')`: the index of the last dot, or -1. */
  function LastDot(name: string): (i: int)
    ensures -1 <= i < |name|
    ensures i >= 0 ==> name[i] == '.'
  {
    if name == [] then -1
    else if name[|name| - 1] == '.' then |name| - 1
    else LastDot(name[..|name| - 1])
  }

  /** No dot follows the one `rfind` finds. */
  lemma {:induction false} LastDotIsLast(name: string, k: int)
    requires LastDot(name) < k < |name|
    ensures name[k] != '.'
  {
    if name != [] && name[|name| - 1] != '.' && k < |name| - 1 {
      LastDotIsLast(name[..|name| - 1], k);
    }
  }

  /** Whether the name has a `pathlib` suffix: a last dot that is neither first nor last. */
  predicate HasSuffix(name: string) {
    0 < LastDot(name) < |name| - 1
  }

  /** `Path.suffix`: from the last dot on, when there is a suffix. */
  function Suffix(name: string): string {
    if HasSuffix(name) then name[LastDot(name)..] else ""
  }

  /** `Path.stem`: the name without its suffix. */
  function Stem(name: string): (stem: string)
    ensures |name| > 0 ==> |stem| > 0
  {
    if HasSuffix(name) then name[..LastDot(name)] else name
  }

  /** Stem and suffix split the name. */
  lemma StemThenSuffix(name: string)
    ensures Stem(name) + Suffix(name) == name
  {
  }

  /** `Path.with_suffix(suffix)`: the stem followed by the new suffix. */
  function WithSuffix(name: string, suffix: string): (r: string)
    requires |suffix| > 0
    ensures |r| > 0 && LastChar(r) == LastChar(suffix)
  {
    Stem(name) + suffix
  }

  /** What the glob `*.mp4` selects: names ending in `.mp4` (`.mp4` itself included). */
  predicate IsMp4Name(name: string) {
    |name| >= 4 && name[|name| - 4..] == ".mp4"
  }

  /** A glob-selected name ends in `4`, like a remux output and unlike a sidecar. */
  lemma Mp4EndsInFour(name: string)
    requires IsMp4Name(name)
    ensures |name| > 0 && LastChar(name) == '4'
  {
    assert name[|name| - 4..][3] == '4';
  }

  /** The remux output: `video_path.with_suffix('.temp.mp4')`. It is itself a name the glob `*.mp4` selects. */
  function TempName(video: string): (r: string)
    ensures IsMp4Name(r) && LastChar(r) == '4'
  {
    var r := WithSuffix(video, ".temp.mp4");
    assert r[|r| - 4..] == ".mp4";
    r
  }

  /** The thumbnail sidecar: `video_path.with_suffix('.THM')`. The glob `*.mp4` never selects it. */
  function ThmName(video: string): (r: string)
    ensures !IsMp4Name(r) && |r| > 0 && LastChar(r) == 'M'
  {
    var r := WithSuffix(video, ".THM");
    assert r[|r| - 1] == 'M';
    r
  }

  /** The stem of a glob-selected video is its name without `.mp4`, except for the bare name `.mp4`. */
  lemma Mp4Stem(video: string)
    requires IsMp4Name(video)
    ensures Stem(video) == if |video| > 4 then video[..|video| - 4] else video
  {
    var n := |video|;
    assert video[n - 4] == '.' && video[n - 3] != '.' && video[n - 2] != '.' && video[n - 1] != '.'
      by { assert video[n - 4..] == ".mp4"; }
    if n > 4 {
      assert LastDot(video) == n - 4 by {
        assert LastDot(video) == LastDot(video[..n - 1]);
        assert LastDot(video[..n - 1]) == LastDot(video[..n - 2]) by { assert video[..n - 1][..n - 2] == video[..n - 2]; }
        assert LastDot(video[..n - 2]) == LastDot(video[..n - 3]) by { assert video[..n - 2][..n - 3] == video[..n - 3]; }
      }
    } else {
      assert LastDot(video) == 0 by {
        assert video[..n - 1][..n - 2] == video[..n - 2];
        assert video[..n - 2][..n - 3] == video[..n - 3];
      }
    }
  }

  /** The sidecar shares the video's base name: its stem is the video's stem. */
  lemma ThmSharesStem(video: string)
    requires |video| > 0
    ensures Stem(ThmName(video)) == Stem(video)
  {
    var s, t := Stem(video), ThmName(video);
    assert t == s + ".THM";
    var n := |t|;
    assert LastDot(t) == n - 4 by {
      assert t[n - 4..] == ".THM";
      assert LastDot(t) == LastDot(t[..n - 1]);
      assert LastDot(t[..n - 1]) == LastDot(t[..n - 2]) by { assert t[..n - 1][..n - 2] == t[..n - 2]; }
      assert LastDot(t[..n - 2]) == LastDot(t[..n - 3]) by { assert t[..n - 2][..n - 3] == t[..n - 3]; }
    }
    assert t[..n - 4] == s;
  }

  /** The remux never writes onto the video it reads. */
  lemma TempNameDiffers(video: string)
    ensures TempName(video) != video
  {
    if HasSuffix(video) {
      // The new name has a dot five places after the old last dot; the old name has none there.
      var i := LastDot(video);
      assert TempName(video)[i + 5] == '.';
      if i + 5 < |video| {
        LastDotIsLast(video, i + 5);
      }
    }
  }

  /** Distinct names selected by the glob have distinct sidecars, except `.mp4` and `.mp4.mp4`. */
  lemma ThmNamesDistinct(v: string, w: string)
    requires IsMp4Name(v) && IsMp4Name(w) && |v| > 4 && |w| > 4 && v != w
    ensures ThmName(v) != ThmName(w)
  {
    Mp4Stem(v);
    Mp4Stem(w);
    assert ThmName(v)[..|Stem(v)|] == Stem(v);
    assert ThmName(w)[..|Stem(w)|] == Stem(w);
  }
}
