/**
 * The analysis pipeline of app/video_analysis.py: per-clip moments are moved from clip
 * time to video time, accumulated clip by clip, validated against the video's duration,
 * and the resulting report is written to the workspace and kept as a cache entry keyed
 * by the video's content hash.
 */
module VideoAnalysis {
  import opened Wrappers
  import opened Strings
  import opened FileUtils
  import opened VideoProcessing

  /** Videos at least this long are split before analysis (25 minutes). */
  const MinDurationForSplit: real := 1500.0
  /** Where the splitter writes the clips. */
  const TempClipsDir: string := "workspace/temp_clips"
  /** Where reports and cache entries are written. */
  const AnalysisOutputDir: string := "workspace"

  // ---------------------------------------------------------------------------
  // Moments

  /**
   * A time field of a moment as the JSON decoder hands it over: absent, a string, a value
   * `float()` reads back exactly as `x` (a JSON number, or the `str()` of a float the
   * pipeline wrote), or anything else (null, a list, an object), which `float()` rejects
   * with a TypeError.
   */
  datatype Field = Missing | Str(s: string) | Number(x: real) | Other

  /** One entry of "Momentos": the reason and the start ("Segundo_inicio") and end ("Segundo_termina") fields. */
  datatype Moment = Moment(reason: Option<string>, start: Field, end: Field)

  /** The outcome of `float(moment.get(key, 0))`. */
  datatype Conversion = Converted(x: real) | ValueError | TypeError

  /**
   * `float(moment.get(key, 0))`: an absent field defaults to 0; `parse` is what `float()`
   * makes of a string (None when it raises ValueError).
   */
  function ToFloat(f: Field, parse: string -> Option<real>): (c: Conversion)
    ensures c.TypeError? <==> f.Other?
    ensures c.ValueError? <==> f.Str? && parse(f.s).None?
    ensures f.Str? && c.Converted? ==> parse(f.s) == Some(c.x)
    ensures f.Missing? ==> c == Converted(0.0)
    ensures f.Number? ==> c == Converted(f.x)
  {
    match f
    case Missing => Converted(0.0)
    case Str(s) => if parse(s).Some? then Converted(parse(s).value) else ValueError
    case Number(x) => Converted(x)
    case Other => TypeError
  }

  /** What happens to one moment of a clip's answer. */
  datatype Rebasing =
    | Rebased(moment: Moment)  // both times moved by the clip's start
    | KeptAsIs                 // a ValueError: the moment is kept with its original fields
    | Abort                    // a TypeError: it escapes, and the rest of the clip is lost

  /**
   * Moving one moment to video time. The start is converted first: a ValueError there
   * keeps the moment unchanged whatever its end holds.
   */
  function RebaseMoment(m: Moment, clipStart: real, parse: string -> Option<real>): (r: Rebasing)
    ensures r.Rebased? <==> ToFloat(m.start, parse).Converted? && ToFloat(m.end, parse).Converted?
    ensures r.Rebased? ==>
      r.moment == Moment(m.reason, Number(ToFloat(m.start, parse).x + clipStart),
                         Number(ToFloat(m.end, parse).x + clipStart))
    ensures r.Abort? <==>
      m.start.Other? || (ToFloat(m.start, parse).Converted? && m.end.Other?)
    ensures r.KeptAsIs? ==> Unconvertible(m, parse)
  {
    match ToFloat(m.start, parse)
    case TypeError => Abort
    case ValueError => KeptAsIs
    case Converted(s) =>
      match ToFloat(m.end, parse)
      case TypeError => Abort
      case ValueError => KeptAsIs
      case Converted(e) => Rebased(Moment(m.reason, Number(s + clipStart), Number(e + clipStart)))
  }

  /** `float()` raises ValueError on the start, or converts the start and raises ValueError on the end. */
  predicate Unconvertible(m: Moment, parse: string -> Option<real>)
  {
    ToFloat(m.start, parse).ValueError? ||
    (ToFloat(m.start, parse).Converted? && ToFloat(m.end, parse).ValueError?)
  }

  /**
   * The moments a clip's "Momentos" list adds, in order: each rebased or kept as is,
   * up to the first one that raises a TypeError.
   */
  function RebaseAll(items: seq<Moment>, clipStart: real, parse: string -> Option<real>): (r: seq<Moment>)
    ensures |r| <= |items|
    ensures forall i :: 0 <= i < |r| ==> r[i] == Outcome(items[i], clipStart, parse)
  {
    if |items| == 0 then []
    else match RebaseMoment(items[0], clipStart, parse)
      case Abort => []
      case KeptAsIs => [items[0]] + RebaseAll(items[1..], clipStart, parse)
      case Rebased(m) => [m] + RebaseAll(items[1..], clipStart, parse)
  }

  /** The moment `RebaseAll` adds for an item that does not abort. */
  function Outcome(item: Moment, clipStart: real, parse: string -> Option<real>): Moment
  {
    match RebaseMoment(item, clipStart, parse)
    case Rebased(m) => m
    case _ => item
  }

  /** No item before `j` raises a TypeError. */
  predicate NoAbortBefore(items: seq<Moment>, j: int, clipStart: real, parse: string -> Option<real>)
    requires j <= |items|
  {
    forall i :: 0 <= i < j ==> !RebaseMoment(items[i], clipStart, parse).Abort?
  }

  /**
   * A clip's contribution is exactly its items up to the first TypeError, each rebased or
   * kept: when item `j` is the first to abort, only the `j` before it are added, in order.
   */
  lemma {:induction false} RebaseAllStopsAtAbort(items: seq<Moment>, clipStart: real, parse: string -> Option<real>, j: nat)
    requires j <= |items|
    requires NoAbortBefore(items, j, clipStart, parse)
    requires j < |items| ==> RebaseMoment(items[j], clipStart, parse).Abort?
    ensures |RebaseAll(items, clipStart, parse)| == j
    ensures forall i :: 0 <= i < j ==> RebaseAll(items, clipStart, parse)[i] == Outcome(items[i], clipStart, parse)
    decreases j
  {
    if j == 0 {
    } else {
      var rest := items[1..];
      assert NoAbortBefore(rest, j - 1, clipStart, parse) by {
        forall i | 0 <= i < j - 1 ensures !RebaseMoment(rest[i], clipStart, parse).Abort? {
          assert rest[i] == items[i + 1];
        }
      }
      assert j - 1 < |rest| ==> rest[j - 1] == items[j];
      RebaseAllStopsAtAbort(rest, clipStart, parse, j - 1);
      assert !RebaseMoment(items[0], clipStart, parse).Abort?;
      var r := RebaseAll(items, clipStart, parse);
      assert r == [Outcome(items[0], clipStart, parse)] + RebaseAll(rest, clipStart, parse);
      forall i | 1 <= i < j ensures r[i] == Outcome(items[i], clipStart, parse) {
        assert r[i] == RebaseAll(rest, clipStart, parse)[i - 1];
        assert rest[i - 1] == items[i];
      }
    }
  }

  /** What a clip's model call produced. */
  datatype ClipResponse =
    | CallFailed           // the upload or the call raised: the clip is skipped
    | BadJson              // the answer is not JSON
    | NoMomentos           // JSON without a "Momentos" key
    | Momentos(items: seq<Moment>)

  /** The moments one clip contributes. */
  function ClipMoments(response: ClipResponse, clipStart: real, parse: string -> Option<real>): seq<Moment>
  {
    if response.Momentos? then RebaseAll(response.items, clipStart, parse) else []
  }

  /** The moments each clip contributes, in the clip map's order; clip `k` is answered by `respond(k)`. */
  function Contributions(clips: seq<ClipEntry>, respond: nat -> ClipResponse,
                         parse: string -> Option<real>): seq<seq<Moment>>
  {
    seq(|clips|, k requires 0 <= k < |clips| => ClipMoments(respond(k), clips[k].range.startTime, parse))
  }

  /** The parts one after the other. */
  function Flatten<T>(parts: seq<seq<T>>): seq<T>
  {
    if |parts| == 0 then [] else Flatten(parts[..|parts| - 1]) + parts[|parts| - 1]
  }

  /** Everything the clip loop accumulates. */
  function Accumulated(clips: seq<ClipEntry>, respond: nat -> ClipResponse, parse: string -> Option<real>): seq<Moment>
  {
    Flatten(Contributions(clips, respond, parse))
  }

  /** Flattening distributes over concatenation. */
  lemma {:induction false} FlattenAppend<T>(a: seq<seq<T>>, b: seq<seq<T>>)
    ensures Flatten(a + b) == Flatten(a) + Flatten(b)
    decreases |b|
  {
    if |b| == 0 {
      assert a + b == a;
    } else {
      var b' := b[..|b| - 1];
      FlattenAppend(a, b');
      FlattenLast(a + b);
      FlattenLast(b);
      assert (a + b)[..|a + b| - 1] == a + b';
      assert (a + b)[|a + b| - 1] == b[|b| - 1];
    }
  }

  /** `x` is in one of the parts. */
  predicate InSomePart<T(==)>(parts: seq<seq<T>>, x: T)
  {
    exists k :: 0 <= k < |parts| && x in parts[k]
  }

  /** An element of the flattening comes from some part, and every part's elements are in it. */
  lemma {:induction false} FlattenMembers<T>(parts: seq<seq<T>>, x: T)
    ensures x in Flatten(parts) <==> InSomePart(parts, x)
  {
    if |parts| > 0 {
      var init := parts[..|parts| - 1];
      FlattenMembers(init, x);
      if InSomePart(init, x) {
        var k :| 0 <= k < |init| && x in init[k];
        assert parts[k] == init[k];
      }
      if InSomePart(parts, x) {
        var k :| 0 <= k < |parts| && x in parts[k];
        if k < |init| {
          assert x in init[k];
        }
      }
    }
  }

  /** The flattening around one part. */
  lemma FlattenAt<T>(parts: seq<seq<T>>, k: nat)
    requires k < |parts|
    ensures Flatten(parts) == Flatten(parts[..k]) + parts[k] + Flatten(parts[k + 1..])
  {
    var left, right := parts[..k + 1], parts[k + 1..];
    calc {
      Flatten(parts);
      { assert left + right == parts; }
      Flatten(left + right);
      { FlattenAppend(left, right); }
      Flatten(left) + Flatten(right);
      { FlattenLast(left); assert left[..k] == parts[..k]; }
      Flatten(parts[..k]) + parts[k] + Flatten(right);
    }
  }

  /** One step of `Flatten`: the last part comes last. */
  lemma FlattenLast<T>(parts: seq<seq<T>>)
    requires |parts| > 0
    ensures Flatten(parts) == Flatten(parts[..|parts| - 1]) + parts[|parts| - 1]
  {
  }

  /**
   * A clip whose call fails, or whose answer is not JSON or has no "Momentos", adds
   * nothing, and the other clips contribute exactly what they would have anyway.
   */
  lemma FailedClipContributesNothing(clips: seq<ClipEntry>, respond: nat -> ClipResponse,
                                     respond': nat -> ClipResponse, parse: string -> Option<real>, k: nat)
    requires k < |clips|
    requires forall i :: 0 <= i < |clips| && i != k ==> respond(i) == respond'(i)
    requires !respond'(k).Momentos?
    ensures var parts := Contributions(clips, respond, parse);
      && Accumulated(clips, respond, parse) == Flatten(parts[..k]) + parts[k] + Flatten(parts[k + 1..])
      && Accumulated(clips, respond', parse) == Flatten(parts[..k]) + Flatten(parts[k + 1..])
  {
    var parts := Contributions(clips, respond, parse);
    FlattenAt(parts, k);
    assert Contributions(clips, respond', parse) == parts[k := []];
    FlattenEmptied(parts, k);
  }

  /** Emptying one part removes exactly its elements. */
  lemma FlattenEmptied<T>(parts: seq<seq<T>>, k: nat)
    requires k < |parts|
    ensures Flatten(parts[k := []]) == Flatten(parts[..k]) + Flatten(parts[k + 1..])
  {
    var parts' := parts[k := []];
    FlattenAt(parts', k);
    assert parts'[..k] == parts[..k];
    assert parts'[k + 1..] == parts[k + 1..];
  }

  /** A moment is accumulated exactly when some clip contributes it. */
  lemma AccumulatedMembers(clips: seq<ClipEntry>, respond: nat -> ClipResponse,
                           parse: string -> Option<real>, m: Moment)
    ensures m in Accumulated(clips, respond, parse) <==>
      exists k :: 0 <= k < |clips| && m in ClipMoments(respond(k), clips[k].range.startTime, parse)
  {
    var parts := Contributions(clips, respond, parse);
    FlattenMembers(parts, m);
    if InSomePart(parts, m) {
      var k :| 0 <= k < |parts| && m in parts[k];
      assert m in ClipMoments(respond(k), clips[k].range.startTime, parse);
    }
    if exists k :: 0 <= k < |clips| && m in ClipMoments(respond(k), clips[k].range.startTime, parse) {
      var k :| 0 <= k < |clips| && m in ClipMoments(respond(k), clips[k].range.startTime, parse);
      assert m in parts[k];
    }
  }

  /**
   * Every accumulated moment either had both times moved (both fields are then numbers
   * `float()` reads back) or is an unconvertible moment kept as it came.
   */
  predicate Screened(m: Moment, parse: string -> Option<real>)
  {
    (m.start.Number? && m.end.Number?) || Unconvertible(m, parse)
  }

  lemma {:induction false} RebaseAllScreened(items: seq<Moment>, clipStart: real, parse: string -> Option<real>)
    ensures forall m :: m in RebaseAll(items, clipStart, parse) ==> Screened(m, parse)
  {
    if |items| > 0 {
      RebaseAllScreened(items[1..], clipStart, parse);
    }
  }

  /**
   * Nothing the clip loop accumulates can make validation's `float()` raise a TypeError,
   * which validation would not catch.
   */
  lemma AccumulatedScreened(clips: seq<ClipEntry>, respond: nat -> ClipResponse, parse: string -> Option<real>)
    ensures forall m :: m in Accumulated(clips, respond, parse) ==> Screened(m, parse)
  {
    forall m | m in Accumulated(clips, respond, parse) ensures Screened(m, parse) {
      AccumulatedMembers(clips, respond, parse, m);
      var k :| 0 <= k < |clips| && m in ClipMoments(respond(k), clips[k].range.startTime, parse);
      if respond(k).Momentos? {
        RebaseAllScreened(respond(k).items, clips[k].range.startTime, parse);
      }
    }
  }

  /**
   * The clip loop of `analyze_video`: clips in order, and within a clip's "Momentos"
   * each moment rebased by the clip's start, kept as is on a ValueError, and the rest
   * of the clip dropped on a TypeError.
   */
  method CollectMoments(clips: seq<ClipEntry>, respond: nat -> ClipResponse, parse: string -> Option<real>)
    returns (allMoments: seq<Moment>)
    ensures allMoments == Accumulated(clips, respond, parse)
  {
    allMoments := [];
    ghost var parts := Contributions(clips, respond, parse);
    for i := 0 to |clips|
      invariant allMoments == Flatten(parts[..i])
    {
      var response := respond(i);
      if response.Momentos? {
        var added := RebaseMomentos(response.items, clips[i].range.startTime, parse);
        allMoments := allMoments + added;
      }
      FlattenLast(parts[..i + 1]);
      assert parts[..i + 1][..i] == parts[..i];
    }
    assert parts[..|clips|] == parts;
  }

  /**
   * The inner `for moment in analysis_result["Momentos"]` loop: each moment is rebased or
   * kept as is, until one raises a TypeError, which ends the loop; the moments appended
   * before it stay appended.
   */
  method RebaseMomentos(items: seq<Moment>, clipStart: real, parse: string -> Option<real>)
    returns (added: seq<Moment>)
    ensures added == RebaseAll(items, clipStart, parse)
  {
    added := [];
    var j := 0;
    while j < |items|
      invariant 0 <= j <= |items|
      invariant RebaseAll(items, clipStart, parse) == added + RebaseAll(items[j..], clipStart, parse)
    {
      var moment := items[j];
      var rebasing := RebaseMoment(moment, clipStart, parse);
      RebaseAllStep(items, j, added, clipStart, parse);
      if rebasing.Abort? {
        break;
      }
      added := added + [if rebasing.Rebased? then rebasing.moment else moment];
      j := j + 1;
    }
    assert j == |items| ==> items[j..] == [];
  }

  /**
   * One item of the loop: an abort ends the contribution with what was added so far;
   * anything else adds its outcome and the loop goes on with the next item.
   */
  lemma RebaseAllStep(items: seq<Moment>, j: nat, added: seq<Moment>, clipStart: real, parse: string -> Option<real>)
    requires j < |items|
    requires RebaseAll(items, clipStart, parse) == added + RebaseAll(items[j..], clipStart, parse)
    ensures RebaseMoment(items[j], clipStart, parse).Abort? ==> RebaseAll(items, clipStart, parse) == added
    ensures !RebaseMoment(items[j], clipStart, parse).Abort? ==>
      RebaseAll(items, clipStart, parse) ==
        (added + [Outcome(items[j], clipStart, parse)]) + RebaseAll(items[j + 1..], clipStart, parse)
  {
    RebaseAllAt(items, j, clipStart, parse);
    if !RebaseMoment(items[j], clipStart, parse).Abort? {
      var o := Outcome(items[j], clipStart, parse);
      var rest := RebaseAll(items[j + 1..], clipStart, parse);
      calc {
        RebaseAll(items, clipStart, parse);
        added + ([o] + rest);
        (added + [o]) + rest;
      }
    }
  }

  /** `RebaseAll` from item `j` on, unfolded once. */
  lemma RebaseAllAt(items: seq<Moment>, j: nat, clipStart: real, parse: string -> Option<real>)
    requires j < |items|
    ensures RebaseAll(items[j..], clipStart, parse) ==
      if RebaseMoment(items[j], clipStart, parse).Abort? then []
      else [Outcome(items[j], clipStart, parse)] + RebaseAll(items[j + 1..], clipStart, parse)
  {
    assert items[j..][0] == items[j];
    assert items[j..][1..] == items[j + 1..];
  }

  // ---------------------------------------------------------------------------
  // Validation

  /**
   * Validation keeps a moment when both times convert and 0 <= start <= end <= duration.
   */
  predicate Keep(m: Moment, duration: real, parse: string -> Option<real>)
  {
    var s := ToFloat(m.start, parse);
    var e := ToFloat(m.end, parse);
    s.Converted? && e.Converted? &&
    0.0 <= s.x <= duration && 0.0 <= e.x <= duration && s.x <= e.x
  }

  /** The moments validation keeps, in their accumulated order. */
  function ValidMoments(moments: seq<Moment>, duration: real, parse: string -> Option<real>): (v: seq<Moment>)
    ensures |v| <= |moments|
    ensures forall i :: 0 <= i < |v| ==> Keep(v[i], duration, parse)
  {
    if |moments| == 0 then []
    else
      var last := moments[|moments| - 1];
      ValidMoments(moments[..|moments| - 1], duration, parse) + (if Keep(last, duration, parse) then [last] else [])
  }

  /** A moment survives validation exactly when it was accumulated and passes the check. */
  lemma {:induction false} ValidMomentsMembers(moments: seq<Moment>, duration: real, parse: string -> Option<real>)
    ensures forall m :: m in ValidMoments(moments, duration, parse) <==> m in moments && Keep(m, duration, parse)
    ensures |ValidMoments(moments, duration, parse)| <= |moments|
  {
    if |moments| > 0 {
      var init := moments[..|moments| - 1];
      ValidMomentsMembers(init, duration, parse);
      assert moments == init + [moments[|moments| - 1]];
    }
  }

  /** Validating again changes nothing. */
  lemma {:induction false} ValidMomentsIdempotent(moments: seq<Moment>, duration: real, parse: string -> Option<real>)
    ensures ValidMoments(ValidMoments(moments, duration, parse), duration, parse) == ValidMoments(moments, duration, parse)
  {
    if |moments| > 0 {
      var init := moments[..|moments| - 1];
      var last := moments[|moments| - 1];
      ValidMomentsIdempotent(init, duration, parse);
      var v := ValidMoments(init, duration, parse);
      if Keep(last, duration, parse) {
        var w := v + [last];
        assert ValidMoments(moments, duration, parse) == w;
        assert w[..|w| - 1] == v && w[|w| - 1] == last;
        assert ValidMoments(w, duration, parse) == ValidMoments(v, duration, parse) + [last];
      } else {
        assert ValidMoments(moments, duration, parse) == v;
      }
    }
  }

  /**
   * Validation filters each stretch on its own and keeps the order: the survivors of an
   * earlier stretch of moments all come before those of a later one.
   */
  lemma {:induction false} ValidMomentsAppend(a: seq<Moment>, b: seq<Moment>, duration: real, parse: string -> Option<real>)
    ensures ValidMoments(a + b, duration, parse) == ValidMoments(a, duration, parse) + ValidMoments(b, duration, parse)
    decreases |b|
  {
    if |b| == 0 {
      assert a + b == a;
    } else {
      var b' := b[..|b| - 1];
      var last := b[|b| - 1];
      ValidMomentsAppend(a, b', duration, parse);
      assert (a + b)[..|a + b| - 1] == a + b';
      assert (a + b)[|a + b| - 1] == last;
    }
  }

  /**
   * The validation loop of `analyze_video`. A ValueError skips the moment; a TypeError
   * would escape the function, which no accumulated moment can cause (`AccumulatedScreened`).
   */
  method ValidateMoments(allMoments: seq<Moment>, duration: real, parse: string -> Option<real>)
    returns (validMoments: seq<Moment>)
    requires forall m :: m in allMoments ==> Screened(m, parse)
    ensures validMoments == ValidMoments(allMoments, duration, parse)
  {
    validMoments := [];
    for i := 0 to |allMoments|
      invariant validMoments == ValidMoments(allMoments[..i], duration, parse)
    {
      assert allMoments[..i + 1][..i] == allMoments[..i];
      var moment := allMoments[i];
      assert Screened(moment, parse);
      var s := ToFloat(moment.start, parse);
      if s.Converted? {
        var e := ToFloat(moment.end, parse);
        assert !e.TypeError?;
        if e.Converted? {
          if 0.0 <= s.x <= duration && 0.0 <= e.x <= duration && s.x <= e.x {
            validMoments := validMoments + [moment];
          }
        }
      }
    }
    assert allMoments[..|allMoments|] == allMoments;
  }

  /**
   * Every moment of a report was moved to video time: both its times are numbers, with
   * 0 <= start <= end <= duration. An unconvertible moment, kept during accumulation,
   * never survives validation.
   */
  lemma ReportMomentsRebased(clips: seq<ClipEntry>, respond: nat -> ClipResponse,
                             parse: string -> Option<real>, duration: real)
    ensures forall m :: m in ValidMoments(Accumulated(clips, respond, parse), duration, parse) ==>
      m.start.Number? && m.end.Number? && 0.0 <= m.start.x <= m.end.x <= duration
  {
    var all := Accumulated(clips, respond, parse);
    AccumulatedScreened(clips, respond, parse);
    ValidMomentsMembers(all, duration, parse);
  }

  /**
   * A moment the model places at [s, e] inside its clip, with 0 <= s <= e, lands at
   * [clipStart + s, clipStart + e] and is kept when that ends within the video.
   */
  lemma RebasedMomentKept(m: Moment, clipStart: real, duration: real, parse: string -> Option<real>)
    requires ToFloat(m.start, parse).Converted? && ToFloat(m.end, parse).Converted?
    requires 0.0 <= clipStart
    requires 0.0 <= ToFloat(m.start, parse).x <= ToFloat(m.end, parse).x
    requires clipStart + ToFloat(m.end, parse).x <= duration
    ensures RebaseMoment(m, clipStart, parse).Rebased?
    ensures Keep(RebaseMoment(m, clipStart, parse).moment, duration, parse)
  {
  }

  /**
   * A moment at 5 to 10 seconds of the clip starting at 1320 becomes 1325 to 1330; one at
   * 30 to 40 lands at 1350 to 1360 and passes validation for a one-hour video; validation's
   * bounds are inclusive at 0 and at the duration, and it rejects a reversed range.
   */
  lemma MomentExamples(parse: string -> Option<real>)
    requires parse("5") == Some(5.0) && parse("10") == Some(10.0)
    requires parse("30") == Some(30.0) && parse("40") == Some(40.0)
    ensures RebaseMoment(Moment(None, Str("5"), Str("10")), 1320.0, parse) ==
      Rebased(Moment(None, Number(1325.0), Number(1330.0)))
    ensures Keep(RebaseMoment(Moment(None, Str("30"), Str("40")), 1320.0, parse).moment, 3600.0, parse)
    ensures Keep(Moment(None, Number(0.0), Number(3600.0)), 3600.0, parse)
    ensures !Keep(Moment(None, Number(10.0), Number(5.0)), 3600.0, parse)
    ensures !Keep(Moment(None, Number(3599.0), Number(3600.5)), 3600.0, parse)
    ensures Keep(Moment(None, Missing, Missing), 3600.0, parse)
  {
  }

  // ---------------------------------------------------------------------------
  // Report and workspace

  /**
   * The final analysis: its "Momentos" and its "metadata". `cached` stands for the
   * metadata's "cached" key, which only a report read back from the cache carries.
   */
  datatype Report = Report(moments: seq<Moment>, totalMomentsIdentified: int, processingTimestamp: string,
                           clipSegmentationInfo: seq<ClipEntry>, originalVideoDuration: real,
                           videoIdentifier: string, cached: bool)

  /** A file of the workspace directory: a report `json.load` reads back, or anything else. */
  datatype StoredFile = ReportFile(report: Report) | Unreadable

  /** How writing a report goes: `open` fails and nothing is written, or `json.dump` fails part way. */
  datatype WriteOutcome = Written | OpenFailed | DumpFailed

  /** `if video_hash:` is false for None and for the empty string. */
  predicate HashEnabled(hash: Option<string>)
  {
    hash.Some? && hash.value != ""
  }

  /** The cache entry of a video: "{hash}.json" in the workspace. */
  function CachePath(hash: string): string
  {
    Join(AnalysisOutputDir, hash + ".json")
  }

  /** The report of a run: "analizys-{hash}.json", or "analizys-no-hash.json" without a hash. */
  function OutputPath(hash: Option<string>): string
  {
    Join(AnalysisOutputDir, "analizys-" + (if HashEnabled(hash) then hash.value else "no-hash") + ".json")
  }

  /** The report of a run never lands on its own cache entry. */
  lemma OutputPathIsNotCachePath(hash: Option<string>)
    requires HashEnabled(hash)
    ensures OutputPath(hash) != CachePath(hash.value)
  {
    var h := hash.value;
    var out := "analizys-" + h + ".json";
    assert OutputPath(hash) == "workspace/" + out;
    if h[0] == '/' {
      assert CachePath(h) == h + ".json";
      assert OutputPath(hash)[0] != CachePath(h)[0];
    } else {
      assert CachePath(h) == "workspace/" + h + ".json";
    }
  }

  /** The workspace after writing `report` to `path`. */
  function Stored(files: map<string, StoredFile>, path: string, report: Report, outcome: WriteOutcome): map<string, StoredFile>
  {
    match outcome
    case Written => files[path := ReportFile(report)]
    case OpenFailed => files
    case DumpFailed => files[path := Unreadable]
  }

  /**
   * A cache hit: the video has a hash and its cache entry reads back as a report, which
   * is returned marked as cached. A missing or unreadable entry is a miss.
   */
  function CachedReport(files: map<string, StoredFile>, hash: Option<string>): (r: Option<Report>)
    ensures r.Some? <==>
      HashEnabled(hash) && CachePath(hash.value) in files && files[CachePath(hash.value)].ReportFile?
    ensures r.Some? ==> r.value == files[CachePath(hash.value)].report.(cached := true)
    ensures r.Some? ==> r.value.cached
  {
    if HashEnabled(hash) && CachePath(hash.value) in files && files[CachePath(hash.value)].ReportFile?
    then Some(files[CachePath(hash.value)].report.(cached := true))
    else None
  }

  /**
   * Everything outside the workspace that `analyze_video` consults: the upload folder and
   * which paths exist, the video's SHA-256 (None when it cannot be read), the probed
   * duration, the workspace's current video and the duration the splitter loads, which
   * clip writes succeed, the model's answer for each clip, `float()` on strings, the
   * clock, and how the two report writes go.
   */
  datatype Environment = Environment(
    uploadFolder: string,
    pathExists: string -> bool,
    fileHash: Option<string>,
    probe: Option<Seconds>,
    workspaceVideo: Option<string>,
    splitLoad: Option<Seconds>,
    written: nat -> bool,
    respond: nat -> ClipResponse,
    parse: string -> Option<real>,
    now: string,
    outputWrite: WriteOutcome,
    cacheWrite: WriteOutcome)

  /**
   * The clips to analyse: a video shorter than 25 minutes is one clip, the input itself;
   * a longer one is what the splitter saved.
   */
  function ClipPlan(inputPath: string, duration: Seconds, env: Environment): (clips: seq<ClipEntry>)
    ensures duration < MinDurationForSplit ==> clips == [ClipEntry(inputPath, TimeRange(0.0, duration))]
    ensures duration >= MinDurationForSplit ==>
      clips == SplitResult(env.workspaceVideo, env.uploadFolder, env.pathExists, env.splitLoad, TempClipsDir, env.written)
  {
    if duration < MinDurationForSplit then [ClipEntry(inputPath, TimeRange(0.0, duration))]
    else SplitResult(env.workspaceVideo, env.uploadFolder, env.pathExists, env.splitLoad, TempClipsDir, env.written)
  }

  /**
   * When the splitter loads the same duration that was probed, every clip of the plan
   * lies within the video: 0 <= start <= end <= duration, at most 25 minutes long.
   */
  lemma ClipPlanWithinVideo(inputPath: string, duration: Seconds, env: Environment)
    requires duration >= MinDurationForSplit ==> env.splitLoad == Some(duration)
    ensures forall e :: e in ClipPlan(inputPath, duration, env) ==>
      && 0.0 <= e.range.startTime <= e.range.endTime <= duration
      && e.range.endTime - e.range.startTime <= ClipDuration
  {
    if duration >= MinDurationForSplit {
      var video := env.workspaceVideo;
      if video.Some? && video.value != "" && GetVideoFile(env.uploadFolder, video.value, env.pathExists).Found? {
        var windows := PlannedWindows(duration);
        SavedClipsExactly(TempClipsDir, windows, env.written);
        PlannedWindowsBounded(duration);
        forall e | e in ClipPlan(inputPath, duration, env)
          ensures 0.0 <= e.range.startTime <= e.range.endTime <= duration
          ensures e.range.endTime - e.range.startTime <= ClipDuration
        {
          var k :| 1 <= k <= |windows| && env.written(k) && e == SavedEntry(TempClipsDir, windows, k);
          assert e.range == windows[k - 1];
        }
      }
    }
  }

  /** The report of a run over `clips`: the moments that survive validation, and the metadata. */
  function BuildReport(clips: seq<ClipEntry>, duration: Seconds, videoIdentifier: string, env: Environment): (r: Report)
    ensures r.totalMomentsIdentified == |r.moments| && !r.cached
    ensures r.clipSegmentationInfo == clips && r.originalVideoDuration == duration
    ensures forall i :: 0 <= i < |r.moments| ==> Keep(r.moments[i], duration, env.parse)
  {
    var validMoments := ValidMoments(Accumulated(clips, env.respond, env.parse), duration, env.parse);
    Report(validMoments, |validMoments|, env.now, clips, duration, videoIdentifier, false)
  }

  /** Why `analyze_video` failed. */
  datatype AnalysisError = InputNotFound | NoDuration | SplitFailed | SaveFailed

  /** What `analyze_video` answers. */
  datatype AnalysisResponse =
    | Failed(error: AnalysisError, status: int)
    | FromCache(report: Report)
    | Saved(outputPath: string)

  function Status(response: AnalysisResponse): int
  {
    match response
    case Failed(_, status) => status
    case _ => 200
  }

  /**
   * Saving a report: the report file first, a failure there being a 500; then, with a
   * hash, the cache entry, whose failure is only logged.
   */
  function Persist(files: map<string, StoredFile>, report: Report, env: Environment): (res: (AnalysisResponse, map<string, StoredFile>))
    ensures res.0.Saved? <==> env.outputWrite.Written?
    ensures !res.0.Saved? ==> res.0 == Failed(SaveFailed, 500)
    ensures !env.outputWrite.Written? ==> res.1 == Stored(files, OutputPath(env.fileHash), report, env.outputWrite)
    ensures forall p :: p != OutputPath(env.fileHash) && !(HashEnabled(env.fileHash) && p == CachePath(env.fileHash.value)) ==>
      (p in res.1 <==> p in files) && (p in files ==> res.1[p] == files[p])
  {
    var outputPath := OutputPath(env.fileHash);
    var files' := Stored(files, outputPath, report, env.outputWrite);
    if !env.outputWrite.Written? then (Failed(SaveFailed, 500), files')
    else if HashEnabled(env.fileHash) then (Saved(outputPath), Stored(files', CachePath(env.fileHash.value), report, env.cacheWrite))
    else (Saved(outputPath), files')
  }

  /** `analyze_video`: the answer and the workspace files afterwards. */
  function Analysis(files: map<string, StoredFile>, videoIdentifier: string, env: Environment): (res: (AnalysisResponse, map<string, StoredFile>))
    ensures res.0.Failed? ==> res.0.status == 404 || res.0.status == 500
    ensures Status(res.0) == 200 <==> !res.0.Failed?
    ensures res.0.Failed? && res.0.error != SaveFailed ==> res.1 == files
    ensures res.0.FromCache? ==> res.1 == files && res.0.report.cached
  {
    var lookup := GetVideoFile(env.uploadFolder, videoIdentifier, env.pathExists);
    if lookup.NotFound? then (Failed(InputNotFound, lookup.status), files)
    else if CachedReport(files, env.fileHash).Some? then (FromCache(CachedReport(files, env.fileHash).value), files)
    else if env.probe.None? then (Failed(NoDuration, 500), files)
    else
      var duration := env.probe.value;
      var clips := ClipPlan(lookup.path, duration, env);
      if |clips| == 0 then (Failed(SplitFailed, 500), files)
      else Persist(files, BuildReport(clips, duration, videoIdentifier, env), env)
  }

  /** The workspace directory holding reports and cache entries. */
  class AnalysisStore {
    var files: map<string, StoredFile>

    constructor(files0: map<string, StoredFile>)
      ensures files == files0
    {
      files := files0;
    }

    /** `open(path, 'w')` and `json.dump(report, f)`; `ok` is false when either raised. */
    method WriteReport(path: string, report: Report, outcome: WriteOutcome) returns (ok: bool)
      modifies this
      ensures files == Stored(old(files), path, report, outcome)
      ensures ok <==> outcome.Written?
    {
      ok := outcome.Written?;
      match outcome
      case Written =>
        files := files[path := ReportFile(report)];
      case OpenFailed =>
      case DumpFailed =>
        files := files[path := Unreadable];
    }

    /** `analyze_video`, step by step. */
    method AnalyzeVideo(videoIdentifier: string, env: Environment) returns (response: AnalysisResponse)
      modifies this
      ensures (response, files) == Analysis(old(files), videoIdentifier, env)
    {
      var lookup := GetVideoFile(env.uploadFolder, videoIdentifier, env.pathExists);
      if lookup.NotFound? {
        return Failed(InputNotFound, lookup.status);
      }
      var inputFilepath := lookup.path;

      var videoHash := env.fileHash;
      if HashEnabled(videoHash) {
        var cacheFilePath := CachePath(videoHash.value);
        if cacheFilePath in files && files[cacheFilePath].ReportFile? {
          var cachedAnalysis := files[cacheFilePath].report.(cached := true);
          return FromCache(cachedAnalysis);
        }
      }

      if env.probe.None? {
        return Failed(NoDuration, 500);
      }
      var videoDuration := env.probe.value;

      var clipsInfo: seq<ClipEntry>;
      if videoDuration < MinDurationForSplit {
        clipsInfo := [ClipEntry(inputFilepath, TimeRange(0.0, videoDuration))];
      } else {
        clipsInfo := SplitVideoIntoClips(env.workspaceVideo, env.uploadFolder, env.pathExists,
                                         env.splitLoad, TempClipsDir, env.written);
        if |clipsInfo| == 0 {
          return Failed(SplitFailed, 500);
        }
      }

      var allMoments := CollectMoments(clipsInfo, env.respond, env.parse);
      AccumulatedScreened(clipsInfo, env.respond, env.parse);
      var validMoments := ValidateMoments(allMoments, videoDuration, env.parse);
      var finalAnalysis := Report(validMoments, |validMoments|, env.now, clipsInfo, videoDuration, videoIdentifier, false);

      var outputFilepath := OutputPath(videoHash);
      var ok := WriteReport(outputFilepath, finalAnalysis, env.outputWrite);
      if !ok {
        return Failed(SaveFailed, 500);
      }
      if HashEnabled(videoHash) {
        var _ := WriteReport(CachePath(videoHash.value), finalAnalysis, env.cacheWrite);
      }
      return Saved(outputFilepath);
    }
  }

  // ---------------------------------------------------------------------------
  // Properties of a run

  /** A missing input answers the lookup's 404 and leaves the workspace alone. */
  lemma AnalysisInputNotFound(files: map<string, StoredFile>, videoIdentifier: string, env: Environment)
    requires !env.pathExists(Join(env.uploadFolder, videoIdentifier))
    ensures Analysis(files, videoIdentifier, env) == (Failed(InputNotFound, 404), files)
  {
  }

  /**
   * A cache hit returns the stored report marked as cached, leaves the workspace alone,
   * and depends on nothing but the workspace and the hash: no duration probe, split or
   * model call is consulted.
   */
  lemma AnalysisCacheHit(files: map<string, StoredFile>, videoIdentifier: string, env: Environment, env': Environment)
    requires env.pathExists(Join(env.uploadFolder, videoIdentifier))
    requires HashEnabled(env.fileHash)
    requires CachePath(env.fileHash.value) in files && files[CachePath(env.fileHash.value)].ReportFile?
    requires env'.uploadFolder == env.uploadFolder && env'.pathExists == env.pathExists && env'.fileHash == env.fileHash
    ensures Analysis(files, videoIdentifier, env) ==
      (FromCache(files[CachePath(env.fileHash.value)].report.(cached := true)), files)
    ensures Analysis(files, videoIdentifier, env') == Analysis(files, videoIdentifier, env)
  {
  }

  /** An unreadable cache entry is a miss: the run answers as if there were no entry at all. */
  lemma AnalysisUnreadableCacheIsMiss(files: map<string, StoredFile>, videoIdentifier: string, env: Environment)
    requires HashEnabled(env.fileHash)
    requires CachePath(env.fileHash.value) in files && files[CachePath(env.fileHash.value)] == Unreadable
    ensures Analysis(files, videoIdentifier, env).0 ==
      Analysis(files - {CachePath(env.fileHash.value)}, videoIdentifier, env).0
  {
  }

  /** Without a duration the run fails with 500 before anything is written. */
  lemma AnalysisNoDuration(files: map<string, StoredFile>, videoIdentifier: string, env: Environment)
    requires env.pathExists(Join(env.uploadFolder, videoIdentifier))
    requires CachedReport(files, env.fileHash).None?
    requires env.probe.None?
    ensures Analysis(files, videoIdentifier, env) == (Failed(NoDuration, 500), files)
  {
  }

  /**
   * A video of 25 minutes or more whose split saves no clip fails with 500 before anything
   * is written; a shorter video is never split and never fails this way.
   */
  lemma AnalysisSplitFailed(files: map<string, StoredFile>, videoIdentifier: string, env: Environment)
    requires env.pathExists(Join(env.uploadFolder, videoIdentifier))
    requires CachedReport(files, env.fileHash).None?
    requires env.probe.Some?
    ensures Analysis(files, videoIdentifier, env).0 == Failed(SplitFailed, 500) <==>
      && env.probe.value >= MinDurationForSplit
      && SplitResult(env.workspaceVideo, env.uploadFolder, env.pathExists, env.splitLoad, TempClipsDir, env.written) == []
    ensures Analysis(files, videoIdentifier, env).0 == Failed(SplitFailed, 500) ==>
      Analysis(files, videoIdentifier, env).1 == files
  {
  }

  /** A run changes no workspace file other than its report and its cache entry. */
  lemma AnalysisTouchesOnlyItsFiles(files: map<string, StoredFile>, videoIdentifier: string, env: Environment, p: string)
    requires p != OutputPath(env.fileHash)
    requires HashEnabled(env.fileHash) ==> p != CachePath(env.fileHash.value)
    ensures var files' := Analysis(files, videoIdentifier, env).1;
      (p in files' <==> p in files) && (p in files ==> files'[p] == files[p])
  {
  }

  /**
   * Without a hash (the file could not be read, or the digest is empty) there is no cache:
   * the run never answers from it, writes only "analizys-no-hash.json", and leaves every
   * other file alone.
   */
  lemma AnalysisWithoutHash(files: map<string, StoredFile>, videoIdentifier: string, env: Environment, p: string)
    requires !HashEnabled(env.fileHash)
    requires p != "workspace/analizys-no-hash.json"
    ensures !Analysis(files, videoIdentifier, env).0.FromCache?
    ensures OutputPath(env.fileHash) == "workspace/analizys-no-hash.json"
    ensures var files' := Analysis(files, videoIdentifier, env).1;
      (p in files' <==> p in files) && (p in files ==> files'[p] == files[p])
  {
    assert OutputPath(env.fileHash) == "workspace/analizys-no-hash.json";
    AnalysisTouchesOnlyItsFiles(files, videoIdentifier, env, p);
  }

  /**
   * A run that reaches the save answers 200 exactly when the report file was written,
   * and the report file then holds the report; a failed dump leaves an unreadable file.
   * With a hash, the cache entry holds the same report when its write succeeds.
   */
  lemma AnalysisSaves(files: map<string, StoredFile>, videoIdentifier: string, env: Environment)
    requires env.pathExists(Join(env.uploadFolder, videoIdentifier))
    requires CachedReport(files, env.fileHash).None?
    requires env.probe.Some?
    requires |ClipPlan(Join(env.uploadFolder, videoIdentifier), env.probe.value, env)| > 0
    ensures var (response, files') := Analysis(files, videoIdentifier, env);
      var report := BuildReport(ClipPlan(Join(env.uploadFolder, videoIdentifier), env.probe.value, env),
                                env.probe.value, videoIdentifier, env);
      && (response.Saved? <==> env.outputWrite.Written?)
      && (!response.Saved? ==> response == Failed(SaveFailed, 500))
      && (response.Saved? ==> response.outputPath == OutputPath(env.fileHash)
                              && files'[OutputPath(env.fileHash)] == ReportFile(report))
      && (env.outputWrite.DumpFailed? ==> files'[OutputPath(env.fileHash)] == Unreadable)
      && (response.Saved? && HashEnabled(env.fileHash) && env.cacheWrite.Written? ==>
            files'[CachePath(env.fileHash.value)] == ReportFile(report))
      && (!response.Saved? && HashEnabled(env.fileHash) ==>
            && (CachePath(env.fileHash.value) in files' <==> CachePath(env.fileHash.value) in files)
            && (CachePath(env.fileHash.value) in files ==>
                  files'[CachePath(env.fileHash.value)] == files[CachePath(env.fileHash.value)]))
      && (env.outputWrite.OpenFailed? ==> files' == files)
  {
    if HashEnabled(env.fileHash) {
      OutputPathIsNotCachePath(env.fileHash);
    }
  }

  /**
   * What a saved report says: the count is the number of moments, the duration is the
   * probed one, the clip map is the plan, it is not marked cached, and every moment lies
   * within the video with its start not after its end.
   */
  lemma AnalysisReportFacts(clips: seq<ClipEntry>, duration: Seconds, videoIdentifier: string, env: Environment)
    ensures var report := BuildReport(clips, duration, videoIdentifier, env);
      && report.totalMomentsIdentified == |report.moments|
      && report.originalVideoDuration == duration
      && report.clipSegmentationInfo == clips
      && report.videoIdentifier == videoIdentifier
      && !report.cached
      && (forall m :: m in report.moments ==>
            m.start.Number? && m.end.Number? && 0.0 <= m.start.x <= m.end.x <= duration)
      && (forall m :: m in report.moments ==> m in Accumulated(clips, env.respond, env.parse))
  {
    var all := Accumulated(clips, env.respond, env.parse);
    ReportMomentsRebased(clips, env.respond, env.parse, duration);
    ValidMomentsMembers(all, duration, env.parse);
  }

  /**
   * Running again on the same video answers from the cache once the first run stored its
   * report there: the second run returns that very report, marked as cached, and leaves
   * the workspace as the first run left it.
   */
  lemma AnalysisSecondRunHitsCache(files: map<string, StoredFile>, videoIdentifier: string,
                                   env: Environment, env': Environment)
    requires Analysis(files, videoIdentifier, env).0.Saved?
    requires HashEnabled(env.fileHash) && env.cacheWrite.Written?
    requires env'.pathExists(Join(env'.uploadFolder, videoIdentifier))
    requires env'.fileHash == env.fileHash
    ensures var files' := Analysis(files, videoIdentifier, env).1;
      var report := BuildReport(ClipPlan(Join(env.uploadFolder, videoIdentifier), env.probe.value, env),
                                env.probe.value, videoIdentifier, env);
      Analysis(files', videoIdentifier, env') == (FromCache(report.(cached := true)), files')
  {
  }
}
