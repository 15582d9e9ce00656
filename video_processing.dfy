/**
 * app/video_processing.py: the window plan of `split_video_into_clips` and its
 * per-clip failure skipping, and the range checks and output name of `trim_video`.
 * MoviePy is not modelled: a probed duration and the success of each clip write
 * are inputs.
 */
module VideoProcessing {
  import opened Wrappers
  import opened Strings
  import opened FileUtils

  /** A duration reported by MoviePy, in seconds; never negative. */
  type Seconds = r: real | 0.0 <= r

  /** `clip_duration`: 25 minutes. */
  const ClipDuration: real := 1500.0
  /** `overlap`: 3 minutes. */
  const Overlap: real := 180.0
  /** `step = clip_duration - overlap`: 22 minutes. */
  const Step: real := 1320.0

  /** A `{"start_time", "end_time"}` pair, in seconds of the original video. */
  datatype TimeRange = TimeRange(startTime: real, endTime: real)

  /** One entry of the `clips_info` dictionary: a clip's path and its range. */
  datatype ClipEntry = ClipEntry(path: string, range: TimeRange)

  function Min(a: real, b: real): real
  {
    if a <= b then a else b
  }

  // ---------------------------------------------------------------------------
  // The window plan

  /** The ranges the `while start_time < video_duration` loop visits from `start` on. */
  function WindowsFrom(start: real, duration: real): seq<TimeRange>
    decreases duration - start
  {
    if start < duration then
      [TimeRange(start, Min(start + ClipDuration, duration))] + WindowsFrom(start + Step, duration)
    else []
  }

  /**
   * The ranges `split_video_into_clips` tries to write, in order: one whole-video
   * range for a video shorter than a clip, else the overlapping windows from 0.
   */
  function PlannedWindows(duration: Seconds): (w: seq<TimeRange>)
    ensures |w| >= 1 && w[0].startTime == 0.0
  {
    if duration < ClipDuration then [TimeRange(0.0, duration)] else WindowsFrom(0.0, duration)
  }

  /** Window i from `start` begins i steps later, begins before the end, and is clamped to it. */
  lemma {:induction false} WindowsFromShape(start: real, duration: real)
    ensures var w := WindowsFrom(start, duration);
      && (forall i :: 0 <= i < |w| ==>
            && w[i].startTime == start + Step * (i as real)
            && w[i].startTime < duration
            && w[i].endTime == Min(w[i].startTime + ClipDuration, duration))
      && (start < duration ==>
            |w| >= 1 && start + Step * ((|w| - 1) as real) < duration <= start + Step * (|w| as real))
      && (start >= duration ==> w == [])
    decreases duration - start
  {
    if start < duration {
      var rest := WindowsFrom(start + Step, duration);
      WindowsFromShape(start + Step, duration);
      var w := WindowsFrom(start, duration);
      assert w == [TimeRange(start, Min(start + ClipDuration, duration))] + rest;
      forall i | 1 <= i < |w|
        ensures w[i].startTime == start + Step * (i as real)
      {
        assert w[i] == rest[i - 1];
        assert Step * ((i - 1) as real) + Step == Step * (i as real);
      }
      if |rest| > 0 {
        assert Step * ((|rest| - 1) as real) + Step == Step * ((|w| - 1) as real);
        assert Step * (|rest| as real) + Step == Step * (|w| as real);
      }
    }
  }

  /**
   * The plan: a short video is one range (0, duration); a longer one starts a window
   * every 1320 s while the start is before the end, each ending at start + 1500 or at
   * the end of the video, whichever is first; the number of windows is the number of
   * multiples of 1320 below the duration, and the last window always ends at the end.
   */
  lemma PlannedWindowsShape(duration: Seconds)
    ensures var w := PlannedWindows(duration);
      && |w| >= 1
      && (duration < ClipDuration ==> w == [TimeRange(0.0, duration)])
      && (duration >= ClipDuration ==>
            && (forall i :: 0 <= i < |w| ==>
                  && w[i].startTime == Step * (i as real)
                  && w[i].startTime < duration
                  && w[i].endTime == Min(w[i].startTime + ClipDuration, duration))
            && Step * ((|w| - 1) as real) < duration <= Step * (|w| as real))
      && w[|w| - 1].endTime == duration
  {
    var w := PlannedWindows(duration);
    if duration >= ClipDuration {
      WindowsFromShape(0.0, duration);
      var last := w[|w| - 1];
      assert last.startTime + Step >= duration;
    }
  }

  /**
   * Every planned range lies inside the video, is at most one clip long, and is
   * non-empty unless the video itself is empty.
   */
  lemma PlannedWindowsBounded(duration: Seconds)
    ensures var w := PlannedWindows(duration);
      forall i :: 0 <= i < |w| ==>
        && 0.0 <= w[i].startTime <= w[i].endTime <= duration
        && w[i].endTime - w[i].startTime <= ClipDuration
        && (duration > 0.0 ==> w[i].startTime < w[i].endTime)
  {
    PlannedWindowsShape(duration);
  }

  /**
   * Consecutive windows start 1320 s apart; a window either has its full 1500 s, so it
   * overlaps the next by exactly 180 s, or it already reaches the end, and then the next
   * window is the last one and lies wholly inside it.
   */
  lemma PlannedWindowsOverlap(duration: Seconds, i: nat)
    requires i + 1 < |PlannedWindows(duration)|
    ensures var w := PlannedWindows(duration);
      && w[i + 1].startTime == w[i].startTime + Step
      && (|| w[i].endTime - w[i + 1].startTime == Overlap
          || (w[i].endTime == duration && i + 2 == |w| && w[i + 1].endTime == duration))
  {
    var w := PlannedWindows(duration);
    PlannedWindowsShape(duration);
    if w[i].endTime != w[i].startTime + ClipDuration {
      assert w[i].endTime == duration;
    }
  }

  /** Some window contains the instant `t`. */
  predicate Covered(windows: seq<TimeRange>, t: real)
  {
    exists i :: 0 <= i < |windows| && windows[i].startTime <= t <= windows[i].endTime
  }

  /** Windows from `start` together cover every instant from `start` to the end. */
  lemma {:induction false} WindowsFromCover(start: real, duration: real, t: real)
    requires start <= t <= duration && start < duration
    ensures Covered(WindowsFrom(start, duration), t)
    decreases duration - start
  {
    var w := WindowsFrom(start, duration);
    if t <= Min(start + ClipDuration, duration) {
      assert w[0].startTime <= t <= w[0].endTime;
    } else {
      var rest := WindowsFrom(start + Step, duration);
      assert w == [w[0]] + rest;
      WindowsFromCover(start + Step, duration, t);
      var j :| 0 <= j < |rest| && rest[j].startTime <= t <= rest[j].endTime;
      assert w[j + 1] == rest[j];
      assert 0 <= j + 1 < |w| && w[j + 1].startTime <= t <= w[j + 1].endTime;
    }
  }

  /** The plan leaves no gap: every instant of the video is in some window. */
  lemma PlannedWindowsCover(duration: Seconds, t: real)
    requires 0.0 <= t <= duration
    ensures Covered(PlannedWindows(duration), t)
  {
    var w := PlannedWindows(duration);
    if duration < ClipDuration {
      assert w[0].startTime <= t <= w[0].endTime;
    } else {
      WindowsFromCover(0.0, duration, t);
    }
  }

  /** A 1500 s video gets a second window (1320, 1500) inside the first; 3600 s gets three. */
  lemma PlannedWindowsExamples()
    ensures PlannedWindows(1500.0) == [TimeRange(0.0, 1500.0), TimeRange(1320.0, 1500.0)]
    ensures PlannedWindows(3600.0) ==
      [TimeRange(0.0, 1500.0), TimeRange(1320.0, 2820.0), TimeRange(2640.0, 3600.0)]
    ensures PlannedWindows(600.0) == [TimeRange(0.0, 600.0)]
  {
    assert WindowsFrom(2640.0, 1500.0) == [];
    assert WindowsFrom(3960.0, 3600.0) == [];
    assert WindowsFrom(2640.0, 3600.0) == [TimeRange(2640.0, 3600.0)];
    assert WindowsFrom(1320.0, 3600.0) == [TimeRange(1320.0, 2820.0), TimeRange(2640.0, 3600.0)];
  }

  // ---------------------------------------------------------------------------
  // Writing the clips

  /** `f"clip_{clip_index}.mp4"`. */
  function ClipFileName(index: nat): string
  {
    "clip_" + Decimal(index) + ".mp4"
  }

  /** The path of clip `index` under `dir`. */
  function ClipPath(dir: string, index: nat): string
  {
    Join(dir, ClipFileName(index))
  }

  /** Different clip numbers give different paths, so `clips_info` never overwrites a key. */
  lemma ClipPathInjective(dir: string, a: nat, b: nat)
    ensures ClipPath(dir, a) == ClipPath(dir, b) ==> a == b
  {
    var x, y := ClipFileName(a), ClipFileName(b);
    JoinInjective(dir, x, y);
    if x == y {
      assert Decimal(a) == x[5..|x| - 4];
      assert Decimal(b) == y[5..|y| - 4];
      DecimalInjective(a, b);
    }
  }

  /**
   * The `clips_info` entries made for `windows`: window k (from 1) is saved as
   * clip_k.mp4 when its write succeeded, and is simply missing otherwise.
   */
  function SavedClips(dir: string, windows: seq<TimeRange>, written: nat -> bool): (saved: seq<ClipEntry>)
    ensures |saved| <= |windows|
  {
    if |windows| == 0 then []
    else
      SavedClips(dir, windows[..|windows| - 1], written) +
      (if written(|windows|) then [ClipEntry(ClipPath(dir, |windows|), windows[|windows| - 1])] else [])
  }

  /** The entry for window k (from 1) when its write succeeds. */
  function SavedEntry(dir: string, windows: seq<TimeRange>, k: nat): ClipEntry
    requires 1 <= k <= |windows|
  {
    ClipEntry(ClipPath(dir, k), windows[k - 1])
  }

  /**
   * What was saved: exactly the windows whose write succeeded, each under the path of
   * its own plan position, and no path twice.
   */
  lemma SavedClipsExactly(dir: string, windows: seq<TimeRange>, written: nat -> bool)
    ensures var saved := SavedClips(dir, windows, written);
      && (forall k :: 1 <= k <= |windows| ==> (written(k) <==> SavedEntry(dir, windows, k) in saved))
      && (forall e :: e in saved ==>
            exists k :: 1 <= k <= |windows| && written(k) && e == SavedEntry(dir, windows, k))
      && (forall i, j :: 0 <= i < j < |saved| ==> saved[i].path != saved[j].path)
  {
    SavedClipsMembers(dir, windows, written);
    SavedClipsDistinct(dir, windows, written);
  }

  /** The saved entries are those of the windows whose write succeeded. */
  lemma {:induction false} SavedClipsMembers(dir: string, windows: seq<TimeRange>, written: nat -> bool)
    ensures var saved := SavedClips(dir, windows, written);
      && (forall k :: 1 <= k <= |windows| ==> (written(k) <==> SavedEntry(dir, windows, k) in saved))
      && (forall e :: e in saved ==>
            exists k :: 1 <= k <= |windows| && written(k) && e == SavedEntry(dir, windows, k))
  {
    if |windows| > 0 {
      var n := |windows|;
      var prefix := windows[..n - 1];
      SavedClipsMembers(dir, prefix, written);
      var before := SavedClips(dir, prefix, written);
      var last := SavedEntry(dir, windows, n);
      var saved := before + (if written(n) then [last] else []);
      assert SavedClips(dir, windows, written) == saved;
      forall e | e in before
        ensures e.path != last.path
        ensures exists k :: 1 <= k <= n && written(k) && e == SavedEntry(dir, windows, k)
      {
        var k :| 1 <= k <= n - 1 && written(k) && e == SavedEntry(dir, prefix, k);
        ClipPathInjective(dir, k, n);
        assert e == SavedEntry(dir, windows, k);
      }
      forall k | 1 <= k <= n
        ensures written(k) <==> SavedEntry(dir, windows, k) in saved
      {
        if k < n {
          assert SavedEntry(dir, windows, k) == SavedEntry(dir, prefix, k);
          ClipPathInjective(dir, k, n);
        }
      }
    }
  }

  /** No two saved entries share a path: each carries its own clip number. */
  lemma {:induction false} SavedClipsDistinct(dir: string, windows: seq<TimeRange>, written: nat -> bool)
    ensures var saved := SavedClips(dir, windows, written);
      forall i, j :: 0 <= i < j < |saved| ==> saved[i].path != saved[j].path
  {
    if |windows| > 0 {
      var n := |windows|;
      var prefix := windows[..n - 1];
      SavedClipsDistinct(dir, prefix, written);
      SavedClipsMembers(dir, prefix, written);
      var before := SavedClips(dir, prefix, written);
      var last := SavedEntry(dir, windows, n);
      var saved := before + (if written(n) then [last] else []);
      assert SavedClips(dir, windows, written) == saved;
      forall e | e in before
        ensures e.path != last.path
      {
        var k :| 1 <= k <= n - 1 && written(k) && e == SavedEntry(dir, prefix, k);
        ClipPathInjective(dir, k, n);
      }
      forall i, j | 0 <= i < j < |saved|
        ensures saved[i].path != saved[j].path
      {
        if j >= |before| {
          assert saved[i] in before;
        } else {
          assert saved[i] == before[i] && saved[j] == before[j];
        }
      }
    }
  }

  /**
   * The clip map keeps plan order: of two entries, the earlier one carries the smaller
   * clip number, so the clips are visited in ascending start time.
   */
  lemma {:induction false} SavedClipsInPlanOrder(dir: string, windows: seq<TimeRange>, written: nat -> bool)
    ensures var saved := SavedClips(dir, windows, written);
      forall i, j, a: nat, b: nat ::
        0 <= i < j < |saved| && saved[i].path == ClipPath(dir, a) && saved[j].path == ClipPath(dir, b) ==> a < b
  {
    if |windows| > 0 {
      var n := |windows|;
      var prefix := windows[..n - 1];
      SavedClipsInPlanOrder(dir, prefix, written);
      SavedClipsMembers(dir, prefix, written);
      var before := SavedClips(dir, prefix, written);
      var saved := before + (if written(n) then [SavedEntry(dir, windows, n)] else []);
      assert SavedClips(dir, windows, written) == saved;
      forall i, j, a: nat, b: nat |
        0 <= i < j < |saved| && saved[i].path == ClipPath(dir, a) && saved[j].path == ClipPath(dir, b)
        ensures a < b
      {
        if j < |before| {
          assert saved[i] == before[i] && saved[j] == before[j];
        } else {
          assert saved[i] in before;
          var k :| 1 <= k <= n - 1 && written(k) && saved[i] == SavedEntry(dir, prefix, k);
          ClipPathInjective(dir, a, k);
          ClipPathInjective(dir, b, n);
        }
      }
    }
  }

  /** Write outcomes that agree on the first windows give the same saved clips. */
  lemma {:induction false} SavedClipsAgree(dir: string, windows: seq<TimeRange>, written: nat -> bool, written': nat -> bool)
    requires forall k :: 1 <= k <= |windows| ==> written(k) == written'(k)
    ensures SavedClips(dir, windows, written) == SavedClips(dir, windows, written')
  {
    if |windows| > 0 {
      SavedClipsAgree(dir, windows[..|windows| - 1], written, written');
    }
  }

  /** `ys` is `xs` with one occurrence of `x` taken out, the rest in order. */
  predicate RemovedOnce<T(==)>(xs: seq<T>, ys: seq<T>, x: T)
  {
    exists i :: 0 <= i < |xs| && xs[i] == x && ys == xs[..i] + xs[i + 1..]
  }

  /** Saving one more window appends at most its own entry. */
  lemma SavedClipsSnoc(dir: string, windows: seq<TimeRange>, r: TimeRange, written: nat -> bool)
    ensures SavedClips(dir, windows + [r], written) ==
      SavedClips(dir, windows, written) +
      (if written(|windows| + 1) then [ClipEntry(ClipPath(dir, |windows| + 1), r)] else [])
  {
    assert (windows + [r])[..|windows|] == windows;
  }

  /**
   * A failed write drops only its own clip: if clip k's write fails where it would
   * have succeeded, and every other write turns out the same, the saved clips lose
   * exactly clip k's entry and keep every other entry in order.
   */
  lemma {:induction false} WriteFailureDropsOnlyItsClip(dir: string, windows: seq<TimeRange>,
                                                        written: nat -> bool, written': nat -> bool, k: nat)
    requires 1 <= k <= |windows| && written(k) && !written'(k)
    requires forall j :: j != k ==> written(j) == written'(j)
    ensures RemovedOnce(SavedClips(dir, windows, written), SavedClips(dir, windows, written'),
                        SavedEntry(dir, windows, k))
  {
    var n := |windows|;
    var prefix := windows[..n - 1];
    var before, before' := SavedClips(dir, prefix, written), SavedClips(dir, prefix, written');
    if k == n {
      SavedClipsAgree(dir, prefix, written, written');
      RemovedLast(before, SavedEntry(dir, windows, k));
    } else {
      WriteFailureDropsOnlyItsClip(dir, prefix, written, written', k);
      assert SavedEntry(dir, prefix, k) == SavedEntry(dir, windows, k);
      var tail := if written(n) then [SavedEntry(dir, windows, n)] else [];
      RemovedBeforeTail(before, before', SavedEntry(dir, windows, k), tail);
    }
  }

  /** Taking the last element off. */
  lemma RemovedLast<T>(xs: seq<T>, x: T)
    ensures RemovedOnce(xs + [x], xs, x)
  {
    var ys := xs + [x];
    assert ys[|xs|] == x && ys[..|xs|] + ys[|xs| + 1..] == xs;
  }

  /** A removal still shows once the same tail is appended to both sides. */
  lemma RemovedBeforeTail<T>(xs: seq<T>, ys: seq<T>, x: T, tail: seq<T>)
    requires RemovedOnce(xs, ys, x)
    ensures RemovedOnce(xs + tail, ys + tail, x)
  {
    var i :| 0 <= i < |xs| && xs[i] == x && ys == xs[..i] + xs[i + 1..];
    var zs := xs + tail;
    assert zs[i] == x;
    calc {
      ys + tail;
      (xs[..i] + xs[i + 1..]) + tail;
      xs[..i] + (xs[i + 1..] + tail);
      { assert zs[..i] == xs[..i]; assert zs[i + 1..] == xs[i + 1..] + tail; }
      zs[..i] + zs[i + 1..];
    }
  }


  /**
   * What `split_video_into_clips` returns. It splits the workspace's current video
   * (`videoIn`), not the identifier it is given; `load` is the duration of that video,
   * or None when loading it raised.
   */
  function SplitResult(videoIn: Option<string>, uploadFolder: string, pathExists: string -> bool,
                       load: Option<Seconds>, outputDir: string, written: nat -> bool): (clips: seq<ClipEntry>)
    ensures clips != [] ==>
      && videoIn.Some? && videoIn.value != ""
      && GetVideoFile(uploadFolder, videoIn.value, pathExists).Found?
      && load.Some?
      && forall e :: e in clips ==> e.range in PlannedWindows(load.value)
  {
    if videoIn.None? || videoIn.value == "" then []
    else if GetVideoFile(uploadFolder, videoIn.value, pathExists).NotFound? then []
    else if load.None? then []
    else
      SavedRangesPlanned(outputDir, PlannedWindows(load.value), written);
      SavedClips(outputDir, PlannedWindows(load.value), written)
  }

  /** Every saved clip covers one of the windows it was cut from. */
  lemma SavedRangesPlanned(dir: string, windows: seq<TimeRange>, written: nat -> bool)
    ensures forall e :: e in SavedClips(dir, windows, written) ==> e.range in windows
  {
    SavedClipsExactly(dir, windows, written);
    forall e | e in SavedClips(dir, windows, written) ensures e.range in windows {
      var k :| 1 <= k <= |windows| && written(k) && e == SavedEntry(dir, windows, k);
      assert e.range == windows[k - 1];
    }
  }

  /**
   * `split_video_into_clips`: no current video, a missing file or a failed load give no
   * clips; a short video is written whole as clip_1.mp4; a longer one window by window.
   */
  method SplitVideoIntoClips(videoIn: Option<string>, uploadFolder: string, pathExists: string -> bool,
                             load: Option<Seconds>, outputDir: string, written: nat -> bool)
    returns (clipsInfo: seq<ClipEntry>)
    ensures clipsInfo == SplitResult(videoIn, uploadFolder, pathExists, load, outputDir, written)
  {
    clipsInfo := [];
    if videoIn.None? || videoIn.value == "" {
      return;
    }
    var lookup := GetVideoFile(uploadFolder, videoIn.value, pathExists);
    if lookup.NotFound? || load.None? {
      return;
    }
    var videoDuration := load.value;
    var clipIndex: nat := 1;
    if videoDuration < ClipDuration {
      SavedClipsSnoc(outputDir, [], TimeRange(0.0, videoDuration), written);
      assert [] + [TimeRange(0.0, videoDuration)] == PlannedWindows(videoDuration);
      if written(clipIndex) {
        clipsInfo := clipsInfo + [ClipEntry(ClipPath(outputDir, clipIndex), TimeRange(0.0, videoDuration))];
      }
      return;
    }
    clipsInfo := WriteWindows(videoDuration, outputDir, written);
  }

  /**
   * The `while start_time < video_duration` loop of `split_video_into_clips`: window k
   * is written to clip_k.mp4 and recorded only if `written(k)`; the loop goes on either way.
   */
  method WriteWindows(videoDuration: Seconds, outputDir: string, written: nat -> bool)
    returns (clipsInfo: seq<ClipEntry>)
    requires videoDuration >= ClipDuration
    ensures clipsInfo == SavedClips(outputDir, PlannedWindows(videoDuration), written)
  {
    clipsInfo := [];
    var clipIndex: nat := 1;
    var startTime := 0.0;
    ghost var visited: seq<TimeRange> := [];
    while startTime < videoDuration
      invariant clipIndex == |visited| + 1
      invariant visited + WindowsFrom(startTime, videoDuration) == WindowsFrom(0.0, videoDuration)
      invariant clipsInfo == SavedClips(outputDir, visited, written)
      decreases videoDuration - startTime
    {
      var endTime := Min(startTime + ClipDuration, videoDuration);
      if written(clipIndex) {
        clipsInfo := clipsInfo + [ClipEntry(ClipPath(outputDir, clipIndex), TimeRange(startTime, endTime))];
      }
      SavedClipsSnoc(outputDir, visited, TimeRange(startTime, endTime), written);
      VisitWindow(visited, startTime, videoDuration);
      visited := visited + [TimeRange(startTime, endTime)];
      startTime := startTime + Step;
      clipIndex := clipIndex + 1;
    }
    VisitedAll(visited, startTime, videoDuration);
  }

  /** Visiting the window at `start` moves it from the ranges still ahead to those visited. */
  lemma VisitWindow(visited: seq<TimeRange>, start: real, duration: real)
    requires start < duration
    ensures (visited + [TimeRange(start, Min(start + ClipDuration, duration))]) + WindowsFrom(start + Step, duration)
      == visited + WindowsFrom(start, duration)
  {
    var r := TimeRange(start, Min(start + ClipDuration, duration));
    calc {
      (visited + [r]) + WindowsFrom(start + Step, duration);
      visited + ([r] + WindowsFrom(start + Step, duration));
      visited + WindowsFrom(start, duration);
    }
  }

  /** Once the start reaches the duration, the visited ranges are the whole plan. */
  lemma VisitedAll(visited: seq<TimeRange>, start: real, duration: Seconds)
    requires !(start < duration) && duration >= ClipDuration
    requires visited + WindowsFrom(start, duration) == WindowsFrom(0.0, duration)
    ensures visited == PlannedWindows(duration)
  {
    calc {
      visited;
      visited + WindowsFrom(start, duration);
      WindowsFrom(0.0, duration);
      PlannedWindows(duration);
    }
  }

  // ---------------------------------------------------------------------------
  // Trimming

  /** Some character of `s` is not a '.'. */
  predicate HasNonDot(s: string)
  {
    exists i :: 0 <= i < |s| && s[i] != '.'
  }

  /**
   * `os.path.splitext` on POSIX: the extension runs from the last '.' of the last path
   * component, unless only dots precede that '.' in the component (".bashrc" has none).
   */
  function SplitExt(p: string): (r: (string, string))
    ensures r.0 + r.1 == p
    ensures r.1 == "" || (r.1[0] == '.' && '.' !in r.1[1..] && '/' !in r.1)
    ensures r.1 != "" <==>
      RFind(p, '.') > RFind(p, '/') && HasNonDot(p[RFind(p, '/') + 1..RFind(p, '.')])
    ensures r.1 != "" ==> r.1 == p[RFind(p, '.')..]
  {
    var sep := RFind(p, '/');
    var dot := RFind(p, '.');
    if dot > sep && HasNonDot(p[sep + 1..dot]) then
      ExtensionAtLastDot(p, dot);
      assert |p[dot..]| > 0;
      (p[..dot], p[dot..])
    else (p, "")
  }

  /** From the last '.' on, when no '/' follows it: a '.' and then neither '.' nor '/'. */
  lemma ExtensionAtLastDot(p: string, dot: int)
    requires 0 <= dot == RFind(p, '.') && RFind(p, '/') < dot
    ensures p[..dot] + p[dot..] == p
    ensures p[dot..][0] == '.' && '.' !in p[dot..][1..] && '/' !in p[dot..]
  {
    AfterRFind(p, '.', dot + 1);
    AfterRFind(p, '/', dot);
    assert p[dot..][1..] == p[dot + 1..];
  }

  /** `os.path.splitext` on a double suffix splits at the last '.'. */
  lemma SplitExtDoubleSuffix()
    ensures SplitExt("a.tar.mp4") == ("a.tar", ".mp4")
  {
    var p := "a.tar.mp4";
    RFindAt(p, '/', -1);
    RFindAt(p, '.', 5);
    assert p[0..5][0] == 'a';
    SplitExtAtDot(p);
    assert p[..5] == "a.tar" && p[5..] == ".mp4";
  }

  /** A leading '.' starts no extension, nor does a '.' in a directory name. */
  lemma SplitExtNoExtension()
    ensures SplitExt(".bashrc") == (".bashrc", "")
    ensures SplitExt("d.x/f") == ("d.x/f", "")
  {
    RFindAt(".bashrc", '.', 0);
    RFindAt("d.x/f", '/', 3);
    RFindAt("d.x/f", '.', 1);
  }

  /** A plain clip name splits at its one '.'. */
  lemma SplitExtPlain()
    ensures SplitExt("clip.mp4") == ("clip", ".mp4")
  {
    var p := "clip.mp4";
    RFindAt(p, '/', -1);
    RFindAt(p, '.', 4);
    assert p[0..4][0] == 'c';
    SplitExtAtDot(p);
    assert p[..4] == "clip" && p[4..] == ".mp4";
  }

  /** A plain clip name gets "_trimmed" before its extension. */
  lemma TrimmedNameExample()
    ensures TrimmedName("clip.mp4") == "clip_trimmed.mp4"
  {
    calc {
      TrimmedName("clip.mp4");
      { SplitExtPlain(); }
      "clip" + "_trimmed" + ".mp4";
      "clip_trimmed.mp4";
    }
  }

  /**
   * `f"{name}_trimmed{ext}"` with `name, ext = os.path.splitext(input_filename)`:
   * "_trimmed" goes in where the extension begins, and removing it gives the input back.
   */
  function TrimmedName(inputFilename: string): (r: string)
    ensures var stem := SplitExt(inputFilename).0;
      |r| == |inputFilename| + |"_trimmed"| &&
      r[..|stem|] + r[|stem| + |"_trimmed"|..] == inputFilename &&
      r[|stem|..|stem| + |"_trimmed"|] == "_trimmed"
  {
    var (name, ext) := SplitExt(inputFilename);
    InsertedBetween(name, "_trimmed", ext);
    name + "_trimmed" + ext
  }

  /** Text inserted between two parts sits right after the first and can be cut out again. */
  lemma InsertedBetween(a: string, m: string, b: string)
    ensures var r := a + m + b;
      |r| == |a| + |m| + |b| && r[..|a|] + r[|a| + |m|..] == a + b && r[|a|..|a| + |m|] == m
  {
    var r := a + m + b;
    assert r[..|a|] == a;
    assert r[|a| + |m|..] == b;
  }

  /**
   * The trimmed file keeps the input's extension: splitting its name again gives the
   * input's stem with "_trimmed" added, and the input's extension unchanged.
   */
  lemma TrimmedNameKeepsExtension(inputFilename: string)
    ensures SplitExt(TrimmedName(inputFilename)) ==
      (SplitExt(inputFilename).0 + "_trimmed", SplitExt(inputFilename).1)
  {
    if SplitExt(inputFilename).1 == "" {
      TrimmedNameWithoutExtension(inputFilename);
    } else {
      TrimmedNameWithExtension(inputFilename);
    }
  }

  /** A name without an extension gains "_trimmed" at the end, and still has none. */
  lemma TrimmedNameWithoutExtension(p: string)
    requires SplitExt(p).1 == ""
    ensures SplitExt(p + "_trimmed") == (p + "_trimmed", "")
  {
    var q := p + "_trimmed";
    assert '.' !in "_trimmed" && '/' !in "_trimmed";
    RFindAppend(p, "_trimmed", '.');
    RFindAppend(p, "_trimmed", '/');
    var sep, dot := RFind(p, '/'), RFind(p, '.');
    assert RFind(q, '/') == sep && RFind(q, '.') == dot;
    if dot > sep {
      assert q[sep + 1..dot] == p[sep + 1..dot];
    }
  }

  /** "_trimmed" goes between the stem and the extension, and the extension splits off again. */
  lemma TrimmedNameWithExtension(p: string)
    requires SplitExt(p).1 != ""
    ensures var (name, ext) := SplitExt(p);
      SplitExt(name + "_trimmed" + ext) == (name + "_trimmed", ext)
  {
    var (name, ext) := SplitExt(p);
    InsertBeforeExtension(name, ext);
  }

  /**
   * Any stem followed by "_trimmed" and an extension splits right before that extension:
   * its '.' is the last one, no '/' follows it, and the 'd' of "_trimmed" is a non-dot
   * before it in the last path component.
   */
  lemma InsertBeforeExtension(name: string, ext: string)
    requires |ext| > 0 && ext[0] == '.' && '.' !in ext[1..] && '/' !in ext
    ensures SplitExt(name + "_trimmed" + ext) == (name + "_trimmed", ext)
  {
    var stem := name + "_trimmed";
    var q := stem + ext;
    LastDotAfterStem(stem, ext);
    LastSlashBeforeStem(name, ext);
    var sep := RFind(q, '/');
    assert sep < |name| by {
      RFindAppend(name, ext, '/');
    }
    assert HasNonDot(q[sep + 1..|stem|]) by {
      assert q[sep + 1..|stem|][|stem| - 1 - (sep + 1)] == q[|stem| - 1] == 'd';
    }
    SplitExtAtDot(q);
    assert q[..|stem|] == stem && q[|stem|..] == ext;
  }

  /** When the last '.' follows the last '/' and some non-dot, the name splits there. */
  lemma SplitExtAtDot(p: string)
    requires RFind(p, '.') > RFind(p, '/')
    requires HasNonDot(p[RFind(p, '/') + 1..RFind(p, '.')])
    ensures SplitExt(p) == (p[..RFind(p, '.')], p[RFind(p, '.')..])
  {
  }

  /** An extension is the last '.' of the stem followed by it. */
  lemma LastDotAfterStem(stem: string, ext: string)
    requires |ext| > 0 && ext[0] == '.' && '.' !in ext[1..]
    ensures RFind(stem + ext, '.') == |stem|
  {
    assert RFind(ext, '.') == 0;
    RFindAppend(stem, ext, '.');
  }

  /** Inserting "_trimmed" before an extension moves no '/'. */
  lemma LastSlashBeforeStem(name: string, ext: string)
    requires '/' !in ext
    ensures RFind(name + "_trimmed" + ext, '/') == RFind(name + ext, '/')
  {
    assert '/' !in "_trimmed";
    RFindAppend(name + "_trimmed", ext, '/');
    RFindAppend(name, "_trimmed", '/');
    RFindAppend(name, ext, '/');
  }

  /** Why `trim_video` answers 400, in the order it checks. */
  datatype TrimError =
    | MissingTimes   // start or end not given
    | NegativeTime   // start or end below zero
    | OutOfBounds    // start at or past the end of the video, or end past it
    | EmptyRange     // start not before end

  /**
   * The range checks of `trim_video`, made after the video loaded: the first failing
   * check names the error. Only 0 <= start < end <= duration passes all four.
   */
  function TrimRangeError(startTime: Option<real>, endTime: Option<real>, duration: real): (e: Option<TrimError>)
    ensures e.None? <==>
      startTime.Some? && endTime.Some? && 0.0 <= startTime.value < endTime.value <= duration
    ensures e == Some(MissingTimes) <==> startTime.None? || endTime.None?
    ensures e == Some(NegativeTime) <==>
      startTime.Some? && endTime.Some? && (startTime.value < 0.0 || endTime.value < 0.0)
    ensures e == Some(OutOfBounds) <==>
      && startTime.Some? && endTime.Some? && 0.0 <= startTime.value && 0.0 <= endTime.value
      && (startTime.value >= duration || endTime.value > duration)
    ensures e == Some(EmptyRange) <==>
      && startTime.Some? && endTime.Some?
      && 0.0 <= startTime.value < duration && 0.0 <= endTime.value <= duration
      && endTime.value <= startTime.value
  {
    if startTime.None? || endTime.None? then Some(MissingTimes)
    else if startTime.value < 0.0 || endTime.value < 0.0 then Some(NegativeTime)
    else if startTime.value >= duration || endTime.value > duration then Some(OutOfBounds)
    else if startTime.value >= endTime.value then Some(EmptyRange)
    else None
  }

  /** What `trim_video` answers. */
  datatype TrimReply =
    | Trimmed(trimmedFilename: string)
    | TrimRejected(error: TrimError)
    | TrimNotFound(status: int)
    | TrimFailed

  function TrimStatus(reply: TrimReply): int
  {
    match reply
    case Trimmed(_) => 200
    case TrimRejected(_) => 400
    case TrimNotFound(status) => status
    case TrimFailed => 500
  }

  /**
   * `trim_video`: the input must exist (else the lookup's 404); loading it must work
   * (else 500, before the times are even looked at); then the range checks (400);
   * then the write (500 if it raises). `load` is the loaded clip's duration.
   */
  function TrimVideo(inputFilename: string, startTime: Option<real>, endTime: Option<real>,
                     uploadFolder: string, pathExists: string -> bool,
                     load: Option<Seconds>, writeSucceeds: bool): (r: TrimReply)
    ensures r.Trimmed? <==>
      && GetVideoFile(uploadFolder, inputFilename, pathExists).Found?
      && load.Some?
      && TrimRangeError(startTime, endTime, load.value).None?
      && writeSucceeds
    ensures r.Trimmed? ==>
      && r.trimmedFilename == TrimmedName(inputFilename)
      && 0.0 <= startTime.value < endTime.value <= load.value
    ensures r.TrimRejected? <==>
      && GetVideoFile(uploadFolder, inputFilename, pathExists).Found?
      && load.Some?
      && TrimRangeError(startTime, endTime, load.value).Some?
    ensures r.TrimRejected? ==> TrimRangeError(startTime, endTime, load.value) == Some(r.error)
    ensures r.TrimFailed? <==>
      && GetVideoFile(uploadFolder, inputFilename, pathExists).Found?
      && (load.None? || (TrimRangeError(startTime, endTime, load.value).None? && !writeSucceeds))
    ensures r.TrimNotFound? <==> !GetVideoFile(uploadFolder, inputFilename, pathExists).Found?
    ensures TrimStatus(r) == 404 <==> r.TrimNotFound?
  {
    var lookup := GetVideoFile(uploadFolder, inputFilename, pathExists);
    if lookup.NotFound? then TrimNotFound(lookup.status)
    else
      var trimmedFilename := TrimmedName(inputFilename);
      if load.None? then TrimFailed
      else match TrimRangeError(startTime, endTime, load.value)
        case Some(error) => TrimRejected(error)
        case None => if writeSucceeds then Trimmed(trimmedFilename) else TrimFailed
  }
}
