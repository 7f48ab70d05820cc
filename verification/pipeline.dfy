/**
 The per-detection decision logic of both entry scripts, written once and
 parameterised by a configuration. For each detection box it decides
 whether to skip the box, which recognised spans to keep, what text they
 combine to, and whether and where to draw and log that text.
 The detector and the recognition engine are inputs: detections arrive as
 a sequence, and the engine is a function from the region it is shown to
 the ordered spans it returns.
 */
module Pipeline {

  import opened Options
  import opened Geometry
  import opened Text
  import opened Recognition

  /** Raw passes the colour crop to the engine; Enhanced first applies grayscale, 2x cubic upscale, 5x5 blur and Otsu binarisation. */
  datatype Mode = Raw | Enhanced

  /** The order of the two overlay draws for one detection. */
  datatype DrawOrder = BoxThenLabel | LabelThenBox

  /**
   Everything in which the two scripts differ:
   `sizeFilter` drops boxes smaller than 50 by 20, `threshold` is the
   span-confidence filter (None: keep every span), `strip` trims the joined
   text, `requireText` draws and logs only text that is non-empty after
   stripping, `logRows` appends a log row for each drawn text.
   */
  datatype Config = Config(
    mode: Mode,
    sizeFilter: bool,
    threshold: Option<real>,
    strip: bool,
    requireText: bool,
    order: DrawOrder,
    logRows: bool)

  /** The video script's behaviour. */
  const VideoConfig: Config := Config(Enhanced, true, Some(VideoSpanThreshold), true, true, BoxThenLabel, true)

  /** The still-image script's behaviour. */
  const StillConfig: Config := Config(Raw, false, None, false, false, LabelThenBox, false)

  /** One detector output row `[x1, y1, x2, y2, conf, cls]`, box already truncated to integers. */
  datatype Detection = Detection(box: Box, conf: real, cls: int)

  /**
   The image shown to the recognition engine: the crop at `box` of frame
   `frame`, preprocessed when `mode` is Enhanced. Both scripts draw into the
   frame they crop from, so the crop also shows `drawn`, the overlays already
   drawn into this frame for the detections processed before this one.
   */
  datatype Region = Region(frame: nat, box: Box, mode: Mode, drawn: seq<Draw>)

  /** The recognition engine: the ordered spans it reads in a region. */
  type Engine = Region -> seq<Span>

  /**
   What becomes of one detection: skipped before recognition, recognised
   but not shown, or shown with its text at an anchor point.
   */
  datatype Outcome = Skipped | Blank | Shown(box: Box, text: string, anchor: Point)

  /** One overlay primitive drawn onto the frame. */
  datatype Draw = Rect(box: Box) | Label(text: string, at: Point)

  /** One row of the plate log; the wall-clock timestamp is not modelled. */
  datatype LogRow = LogRow(frame: nat, text: string)

  /** What one frame produces: overlay draws in drawing order and log rows in writing order. */
  datatype FrameOutput = FrameOutput(draws: seq<Draw>, rows: seq<LogRow>)

  function RegionOf(cfg: Config, frame: nat, drawn: seq<Draw>, d: Detection): Region
  {
    Region(frame, d.box, cfg.mode, drawn)
  }

  /**
   The decision for one detection of frame `frame`, which already carries
   the overlays `drawn`. The emptiness gate
   `if all_text.strip():` is written as "contains a non-whitespace
   character", which `Text.StripEmptyIff` shows to be the same test.
   */
  function ProcessDetection(cfg: Config, frame: nat, drawn: seq<Draw>, d: Detection, read: Engine): (o: Outcome)
    ensures o.Skipped? <==> cfg.sizeFilter && TooSmall(d.box)
    ensures o.Shown? ==> o.box == d.box && o.anchor == Anchor(d.box)
    ensures o.Shown? ==> o.text == Combine(read(RegionOf(cfg, frame, drawn, d)), cfg.threshold, cfg.strip)
    ensures o.Shown? && cfg.requireText ==> !AllSpace(o.text)
    ensures o.Blank? ==> cfg.requireText && AllSpace(Combine(read(RegionOf(cfg, frame, drawn, d)), cfg.threshold, cfg.strip))
  {
    if cfg.sizeFilter && TooSmall(d.box) then Skipped
    else
      var text := Combine(read(RegionOf(cfg, frame, drawn, d)), cfg.threshold, cfg.strip);
      if cfg.requireText && AllSpace(text) then Blank
      else Shown(d.box, text, Anchor(d.box))
  }

  /** The overlay draws one outcome contributes, in drawing order. */
  function DrawsOf(cfg: Config, o: Outcome): (ds: seq<Draw>)
    ensures o.Shown? ==> |ds| == 2
    ensures !o.Shown? ==> ds == []
  {
    match o
    case Shown(box, text, at) =>
      if cfg.order == BoxThenLabel then [Rect(box), Label(text, at)] else [Label(text, at), Rect(box)]
    case _ => []
  }

  /**
   A shown outcome draws exactly one rectangle on its box and one label of
   its text at its anchor, the rectangle first exactly when the
   configuration says so (the video script's order); the still script
   draws the label first.
   */
  lemma ShownDraws(cfg: Config, o: Outcome)
    requires o.Shown?
    ensures multiset(DrawsOf(cfg, o)) == multiset{Rect(o.box), Label(o.text, o.anchor)}
    ensures DrawsOf(cfg, o)[0].Rect? <==> cfg.order == BoxThenLabel
  {
  }

  /** The log rows one outcome contributes: one row with the frame index and the shown text, when rows are logged. */
  function RowsOf(cfg: Config, frame: nat, o: Outcome): seq<LogRow>
  {
    if cfg.logRows && o.Shown? then [LogRow(frame, o.text)] else []
  }

  /** The draws and log rows one outcome contributes. */
  function Effects(cfg: Config, frame: nat, o: Outcome): FrameOutput
  {
    FrameOutput(DrawsOf(cfg, o), RowsOf(cfg, frame, o))
  }

  /**
   A left-to-right pass over `dets` in which each detection's outcome is
   decided by `step` from the overlays present at that point: `drawn` plus
   the draws of the outcomes before it.
   */
  function Thread(cfg: Config, step: (seq<Draw>, Detection) -> Outcome, drawn: seq<Draw>, dets: seq<Detection>): (os: seq<Outcome>)
    ensures |os| == |dets|
    decreases |dets|
  {
    if |dets| == 0 then []
    else
      var prev := Thread(cfg, step, drawn, dets[..|dets| - 1]);
      prev + [step(drawn + AllDraws(cfg, prev), dets[|dets| - 1])]
  }

  /** The decision for one detection of frame `frame`, as a function of the overlays present and the detection. */
  function StepOf(cfg: Config, frame: nat, read: Engine): (seq<Draw>, Detection) -> Outcome
  {
    (dr, d) => ProcessDetection(cfg, frame, dr, d, read)
  }

  /**
   The outcome of every detection of a frame that already carries the
   overlays `drawn`, in input order. Each detection is read from the frame as
   the detections before it left it: with their draws added to `drawn`.
   */
  function Outcomes(cfg: Config, frame: nat, drawn: seq<Draw>, dets: seq<Detection>, read: Engine): (os: seq<Outcome>)
    ensures |os| == |dets|
  {
    Thread(cfg, StepOf(cfg, frame, read), drawn, dets)
  }

  /** The draws of a run of outcomes, concatenated in order. */
  function AllDraws(cfg: Config, os: seq<Outcome>): (ds: seq<Draw>)
    ensures |ds| <= 2 * |os|
  {
    if |os| == 0 then [] else DrawsOf(cfg, os[0]) + AllDraws(cfg, os[1..])
  }

  /** The log rows of a run of outcomes, concatenated in order. */
  function AllRows(cfg: Config, frame: nat, os: seq<Outcome>): (rows: seq<LogRow>)
    ensures !cfg.logRows ==> rows == []
  {
    if |os| == 0 then [] else RowsOf(cfg, frame, os[0]) + AllRows(cfg, frame, os[1..])
  }

  function AllEffects(cfg: Config, frame: nat, os: seq<Outcome>): FrameOutput
  {
    FrameOutput(AllDraws(cfg, os), AllRows(cfg, frame, os))
  }

  /** When rows are logged, every shown outcome gives exactly two draws and one row. */
  lemma {:induction false} TwoDrawsPerRow(cfg: Config, frame: nat, os: seq<Outcome>)
    requires cfg.logRows
    ensures |AllDraws(cfg, os)| == 2 * |AllRows(cfg, frame, os)|
  {
    if |os| > 0 {
      TwoDrawsPerRow(cfg, frame, os[1..]);
    }
  }

  /** Every row produced while processing a frame carries that frame's index. */
  lemma {:induction false} RowsCarryFrame(cfg: Config, frame: nat, os: seq<Outcome>)
    ensures forall k :: 0 <= k < |AllRows(cfg, frame, os)| ==> AllRows(cfg, frame, os)[k].frame == frame
  {
    if |os| > 0 {
      RowsCarryFrame(cfg, frame, os[1..]);
      var e: seq<LogRow> := RowsOf(cfg, frame, os[0]);
      var rest := AllRows(cfg, frame, os[1..]);
      forall k | 0 <= k < |e + rest|
        ensures (e + rest)[k].frame == frame
      {
        if k >= |e| {
          assert (e + rest)[k] == rest[k - |e|];
        }
      }
    }
  }

  /**
   The detections of one frame, processed in order on a frame that already
   carries `drawn` (nothing, for a freshly read frame); the new draws and
   rows are concatenated in that order.
   */
  function ProcessFrame(cfg: Config, frame: nat, drawn: seq<Draw>, dets: seq<Detection>, read: Engine): (out: FrameOutput)
    ensures |out.draws| <= 2 * |dets|
    ensures forall k :: 0 <= k < |out.rows| ==> out.rows[k].frame == frame
    ensures cfg.logRows ==> |out.draws| == 2 * |out.rows|
    ensures !cfg.logRows ==> out.rows == []
  {
    var os := Outcomes(cfg, frame, drawn, dets, read);
    RowsCarryFrame(cfg, frame, os);
    if cfg.logRows then TwoDrawsPerRow(cfg, frame, os); AllEffects(cfg, frame, os)
    else AllEffects(cfg, frame, os)
  }

  /** The texts of the label draws, in drawing order. */
  function Labels(draws: seq<Draw>): seq<string>
  {
    if |draws| == 0 then []
    else (if draws[0].Label? then [draws[0].text] else []) + Labels(draws[1..])
  }

  /** The texts of the log rows, in log order. */
  function RowTexts(rows: seq<LogRow>): seq<string>
  {
    seq(|rows|, k requires 0 <= k < |rows| => rows[k].text)
  }

  lemma {:induction false} LabelsAppend(a: seq<Draw>, b: seq<Draw>)
    ensures Labels(a + b) == Labels(a) + Labels(b)
  {
    if |a| == 0 {
      assert a + b == b;
    } else {
      var head := if a[0].Label? then [a[0].text] else [];
      assert (a + b)[1..] == a[1..] + b;
      assert (a + b)[0] == a[0];
      LabelsAppend(a[1..], b);
      calc {
        Labels(a + b);
        head + Labels(a[1..] + b);
        head + (Labels(a[1..]) + Labels(b));
        (head + Labels(a[1..])) + Labels(b);
      }
    }
  }

  lemma {:induction false} AllDrawsAppend(cfg: Config, a: seq<Outcome>, b: seq<Outcome>)
    ensures AllDraws(cfg, a + b) == AllDraws(cfg, a) + AllDraws(cfg, b)
  {
    if |a| == 0 {
      assert a + b == b;
    } else {
      var head := DrawsOf(cfg, a[0]);
      assert (a + b)[1..] == a[1..] + b;
      assert (a + b)[0] == a[0];
      AllDrawsAppend(cfg, a[1..], b);
      calc {
        AllDraws(cfg, a + b);
        head + AllDraws(cfg, a[1..] + b);
        head + (AllDraws(cfg, a[1..]) + AllDraws(cfg, b));
        (head + AllDraws(cfg, a[1..])) + AllDraws(cfg, b);
      }
    }
  }

  lemma {:induction false} AllRowsAppend(cfg: Config, frame: nat, a: seq<Outcome>, b: seq<Outcome>)
    ensures AllRows(cfg, frame, a + b) == AllRows(cfg, frame, a) + AllRows(cfg, frame, b)
  {
    if |a| == 0 {
      assert a + b == b;
    } else {
      var head := RowsOf(cfg, frame, a[0]);
      assert (a + b)[1..] == a[1..] + b;
      assert (a + b)[0] == a[0];
      AllRowsAppend(cfg, frame, a[1..], b);
      calc {
        AllRows(cfg, frame, a + b);
        head + AllRows(cfg, frame, a[1..] + b);
        head + (AllRows(cfg, frame, a[1..]) + AllRows(cfg, frame, b));
        (head + AllRows(cfg, frame, a[1..])) + AllRows(cfg, frame, b);
      }
    }
  }

  lemma AllEffectsAppend(cfg: Config, frame: nat, a: seq<Outcome>, b: seq<Outcome>)
    ensures AllEffects(cfg, frame, a + b).draws == AllEffects(cfg, frame, a).draws + AllEffects(cfg, frame, b).draws
    ensures AllEffects(cfg, frame, a + b).rows == AllEffects(cfg, frame, a).rows + AllEffects(cfg, frame, b).rows
  {
    AllDrawsAppend(cfg, a, b);
    AllRowsAppend(cfg, frame, a, b);
  }

  lemma {:induction false} ThreadAt(cfg: Config, step: (seq<Draw>, Detection) -> Outcome, drawn: seq<Draw>, dets: seq<Detection>, i: nat)
    requires i < |dets|
    ensures var os := Thread(cfg, step, drawn, dets);
      os[i] == step(drawn + AllDraws(cfg, os[..i]), dets[i])
    decreases |dets|
  {
    var n := |dets| - 1;
    var os := Thread(cfg, step, drawn, dets);
    var prev := Thread(cfg, step, drawn, dets[..n]);
    assert os[..n] == prev;
    if i < n {
      ThreadAt(cfg, step, drawn, dets[..n], i);
      assert os[..i] == prev[..i];
      assert dets[..n][i] == dets[i];
    }
  }

  /**
   Detection i of a frame is read from the frame as the detections before it
   left it: the overlays already there plus the draws of outcomes 0..i-1.
   */
  lemma OutcomeAt(cfg: Config, frame: nat, drawn: seq<Draw>, dets: seq<Detection>, read: Engine, i: nat)
    requires i < |dets|
    ensures var os := Outcomes(cfg, frame, drawn, dets, read);
      os[i] == ProcessDetection(cfg, frame, drawn + AllDraws(cfg, os[..i]), dets[i], read)
  {
    ThreadAt(cfg, StepOf(cfg, frame, read), drawn, dets, i);
  }

  /** The outcomes of a frame are those of all but its last detection, then the last one's, read against their draws. */
  lemma OutcomesLast(cfg: Config, frame: nat, drawn: seq<Draw>, dets: seq<Detection>, read: Engine)
    requires |dets| > 0
    ensures var prev := Outcomes(cfg, frame, drawn, dets[..|dets| - 1], read);
      Outcomes(cfg, frame, drawn, dets, read) ==
        prev + [ProcessDetection(cfg, frame, drawn + AllDraws(cfg, prev), dets[|dets| - 1], read)]
  {
    ThreadLast(cfg, StepOf(cfg, frame, read), drawn, dets);
  }

  /** Appending one outcome appends its draws and rows. */
  lemma EffectsSnoc(cfg: Config, frame: nat, prev: seq<Outcome>, o: Outcome)
    ensures AllEffects(cfg, frame, prev + [o]) == FrameOutput(AllDraws(cfg, prev) + DrawsOf(cfg, o), AllRows(cfg, frame, prev) + RowsOf(cfg, frame, o))
  {
    AllEffectsAppend(cfg, frame, prev, [o]);
    assert [o][1..] == [];
    assert AllDraws(cfg, [o]) == DrawsOf(cfg, o) + [];
    assert AllRows(cfg, frame, [o]) == RowsOf(cfg, frame, o) + [];
  }

  /**
   One step of a frame: the last detection is read against the overlays
   already there plus everything drawn for the detections before it, and its
   draws and rows are appended after theirs.
   */
  lemma FrameStep(cfg: Config, frame: nat, drawn: seq<Draw>, dets: seq<Detection>, read: Engine)
    requires |dets| > 0
    ensures var before := ProcessFrame(cfg, frame, drawn, dets[..|dets| - 1], read);
      var o := ProcessDetection(cfg, frame, drawn + before.draws, dets[|dets| - 1], read);
      ProcessFrame(cfg, frame, drawn, dets, read) == FrameOutput(before.draws + DrawsOf(cfg, o), before.rows + RowsOf(cfg, frame, o))
  {
    OutcomesLast(cfg, frame, drawn, dets, read);
    var prev := Outcomes(cfg, frame, drawn, dets[..|dets| - 1], read);
    EffectsSnoc(cfg, frame, prev, ProcessDetection(cfg, frame, drawn + AllDraws(cfg, prev), dets[|dets| - 1], read));
  }

  lemma {:induction false} ThreadAppend(cfg: Config, step: (seq<Draw>, Detection) -> Outcome, drawn: seq<Draw>, a: seq<Detection>, b: seq<Detection>)
    ensures var oa := Thread(cfg, step, drawn, a);
      Thread(cfg, step, drawn, a + b) == oa + Thread(cfg, step, drawn + AllDraws(cfg, oa), b)
    decreases |b|
  {
    var oa := Thread(cfg, step, drawn, a);
    if |b| == 0 {
      assert a + b == a;
    } else {
      var n := |b| - 1;
      var ab := a + b;
      var drawn' := drawn + AllDraws(cfg, oa);
      ThreadAppend(cfg, step, drawn, a, b[..n]);
      var ob' := Thread(cfg, step, drawn', b[..n]);
      DropLastOfAppend(a, b);
      var prev := Thread(cfg, step, drawn, ab[..|ab| - 1]);
      assert prev == oa + ob';
      AllDrawsAppend(cfg, oa, ob');
      ConcatAssoc(drawn, AllDraws(cfg, oa), AllDraws(cfg, ob'));
      var o := step(drawn' + AllDraws(cfg, ob'), b[n]);
      ThreadLast(cfg, step, drawn, ab);
      ThreadLast(cfg, step, drawn', b);
      ConcatAssoc(oa, ob', [o]);
    }
  }

  lemma ConcatAssoc<T>(x: seq<T>, y: seq<T>, z: seq<T>)
    ensures (x + y) + z == x + (y + z)
  {
  }

  lemma DropLastOfAppend<T>(a: seq<T>, b: seq<T>)
    requires |b| > 0
    ensures (a + b)[..|a + b| - 1] == a + b[..|b| - 1]
    ensures (a + b)[|a + b| - 1] == b[|b| - 1]
  {
  }

  /** The last step of `Thread`, spelled out. */
  lemma ThreadLast(cfg: Config, step: (seq<Draw>, Detection) -> Outcome, drawn: seq<Draw>, dets: seq<Detection>)
    requires |dets| > 0
    ensures var prev := Thread(cfg, step, drawn, dets[..|dets| - 1]);
      Thread(cfg, step, drawn, dets) == prev + [step(drawn + AllDraws(cfg, prev), dets[|dets| - 1])]
  {
  }

  /**
   The outcomes of two runs of detections processed one after the other: the
   second run is read from the frame as the first run left it.
   */
  lemma OutcomesAppend(cfg: Config, frame: nat, drawn: seq<Draw>, a: seq<Detection>, b: seq<Detection>, read: Engine)
    ensures var oa := Outcomes(cfg, frame, drawn, a, read);
      Outcomes(cfg, frame, drawn, a + b, read) == oa + Outcomes(cfg, frame, drawn + AllDraws(cfg, oa), b, read)
  {
    ThreadAppend(cfg, StepOf(cfg, frame, read), drawn, a, b);
  }

  /**
   Processing two runs of detections one after the other is processing their
   concatenation, the second run being read from the frame as the first run
   left it.
   */
  lemma ProcessFrameAppend(cfg: Config, frame: nat, drawn: seq<Draw>, a: seq<Detection>, b: seq<Detection>, read: Engine)
    ensures var whole := ProcessFrame(cfg, frame, drawn, a + b, read);
      var fa := ProcessFrame(cfg, frame, drawn, a, read);
      var fb := ProcessFrame(cfg, frame, drawn + fa.draws, b, read);
      whole.draws == fa.draws + fb.draws && whole.rows == fa.rows + fb.rows
  {
    var oa := Outcomes(cfg, frame, drawn, a, read);
    var ob := Outcomes(cfg, frame, drawn + AllDraws(cfg, oa), b, read);
    OutcomesAppend(cfg, frame, drawn, a, b, read);
    AllEffectsAppend(cfg, frame, oa, ob);
  }

  /** A skipped box never reaches the recognition engine: its outcome is the same whatever the engine returns. */
  lemma SkippedIgnoresEngine(cfg: Config, frame: nat, drawn: seq<Draw>, d: Detection, read1: Engine, read2: Engine)
    requires cfg.sizeFilter && TooSmall(d.box)
    ensures ProcessDetection(cfg, frame, drawn, d, read1) == ProcessDetection(cfg, frame, drawn, d, read2) == Skipped
    ensures Effects(cfg, frame, ProcessDetection(cfg, frame, drawn, d, read1)) == FrameOutput([], [])
  {
  }

  /**
   The video script's decision for one detection: a box narrower than 50 or
   shorter than 20 is skipped; otherwise the spans above 0.4 are joined with
   single spaces and stripped, and the result is shown, at the anchor, exactly
   when it is non-empty.
   */
  lemma VideoDetection(frame: nat, drawn: seq<Draw>, d: Detection, read: Engine)
    ensures var o := ProcessDetection(VideoConfig, frame, drawn, d, read);
      var text := Strip(Join(Kept(read(Region(frame, d.box, Enhanced, drawn)), Some(0.4))));
      && (TooSmall(d.box) ==> o == Skipped)
      && (!TooSmall(d.box) && text == "" ==> o == Blank)
      && (!TooSmall(d.box) && text != "" ==> o == Shown(d.box, text, Anchor(d.box)))
  {
  }

  /**
   The video script's effects for one detection: a shown text yields the
   rectangle, then the label, and one log row with the frame index and that
   same text; any other outcome yields nothing at all.
   */
  lemma VideoEffects(frame: nat, o: Outcome)
    ensures o.Shown? ==>
      Effects(VideoConfig, frame, o) == FrameOutput([Rect(o.box), Label(o.text, o.anchor)], [LogRow(frame, o.text)])
    ensures !o.Shown? ==> Effects(VideoConfig, frame, o) == FrameOutput([], [])
  {
  }

  /** Every shown video text is non-empty and carries no whitespace at either end. */
  lemma VideoShownTextIsClean(frame: nat, drawn: seq<Draw>, d: Detection, read: Engine)
    requires ProcessDetection(VideoConfig, frame, drawn, d, read).Shown?
    ensures var t := ProcessDetection(VideoConfig, frame, drawn, d, read).text;
      t != "" && NoEdgeSpace(t) && Strip(t) == t
  {
  }

  lemma {:induction false} VideoEffectsClean(frame: nat, os: seq<Outcome>)
    requires forall i :: 0 <= i < |os| && os[i].Shown? ==> os[i].text != "" && NoEdgeSpace(os[i].text)
    ensures forall k :: 0 <= k < |AllEffects(VideoConfig, frame, os).rows| ==>
      AllEffects(VideoConfig, frame, os).rows[k].text != "" && NoEdgeSpace(AllEffects(VideoConfig, frame, os).rows[k].text)
  {
    if |os| > 0 {
      assert forall i :: 0 <= i < |os| - 1 ==> os[1..][i] == os[i + 1];
      VideoEffectsClean(frame, os[1..]);
      VideoEffects(frame, os[0]);
      var e := Effects(VideoConfig, frame, os[0]);
      var rest := AllEffects(VideoConfig, frame, os[1..]).rows;
      forall k | 0 <= k < |e.rows + rest|
        ensures (e.rows + rest)[k].text != "" && NoEdgeSpace((e.rows + rest)[k].text)
      {
        if k >= |e.rows| {
          var r := rest[k - |e.rows|];
          assert (e.rows + rest)[k] == r;
          assert r.text != "" && NoEdgeSpace(r.text);
        } else {
          assert os[0].Shown? && (e.rows + rest)[k] == LogRow(frame, os[0].text);
        }
      }
    }
  }

  /** Every text the video script logs for a frame is non-empty and already stripped. */
  lemma VideoLoggedTextIsClean(frame: nat, drawn: seq<Draw>, dets: seq<Detection>, read: Engine)
    ensures var rows := ProcessFrame(VideoConfig, frame, drawn, dets, read).rows;
      forall k :: 0 <= k < |rows| ==> rows[k].text != "" && NoEdgeSpace(rows[k].text)
  {
    var os := Outcomes(VideoConfig, frame, drawn, dets, read);
    forall i | 0 <= i < |os| && os[i].Shown?
      ensures os[i].text != "" && NoEdgeSpace(os[i].text)
    {
      OutcomeAt(VideoConfig, frame, drawn, dets, read, i);
      VideoShownTextIsClean(frame, drawn + AllDraws(VideoConfig, os[..i]), dets[i], read);
    }
    VideoEffectsClean(frame, os);
    assert ProcessFrame(VideoConfig, frame, drawn, dets, read) == AllEffects(VideoConfig, frame, os);
  }

  lemma {:induction false} VideoEffectsMatch(frame: nat, os: seq<Outcome>)
    ensures RowTexts(AllEffects(VideoConfig, frame, os).rows) == Labels(AllEffects(VideoConfig, frame, os).draws)
  {
    if |os| > 0 {
      var o := os[0];
      var e := Effects(VideoConfig, frame, o);
      var rest := AllEffects(VideoConfig, frame, os[1..]);
      VideoEffectsMatch(frame, os[1..]);
      LabelsAppend(e.draws, rest.draws);
      VideoEffects(frame, o);
      if o.Shown? {
        assert Labels(e.draws) == [o.text] by {
          assert e.draws[1..] == [Label(o.text, o.anchor)];
          assert e.draws[1..][1..] == [];
        }
      }
      assert RowTexts(e.rows + rest.rows) == RowTexts(e.rows) + RowTexts(rest.rows);
    }
  }

  /**
   On the video path log rows and labels always come together: the texts
   of a frame's log rows are, in order, the texts of its label draws.
   */
  lemma VideoRowsMatchLabels(frame: nat, drawn: seq<Draw>, dets: seq<Detection>, read: Engine)
    ensures RowTexts(ProcessFrame(VideoConfig, frame, drawn, dets, read).rows) ==
            Labels(ProcessFrame(VideoConfig, frame, drawn, dets, read).draws)
  {
    VideoEffectsMatch(frame, Outcomes(VideoConfig, frame, drawn, dets, read));
  }

  /**
   The still script's decision for one detection: never skipped, every span
   joined with single spaces in engine order, no strip, and always shown at
   the anchor, even when the text is empty.
   */
  lemma StillDetection(frame: nat, drawn: seq<Draw>, d: Detection, read: Engine)
    ensures ProcessDetection(StillConfig, frame, drawn, d, read) ==
      Shown(d.box, Join(Texts(read(Region(frame, d.box, Raw, drawn)))), Anchor(d.box))
  {
    KeptWithoutThreshold(read(Region(frame, d.box, Raw, drawn)));
  }

  /**
   `draws` is what the still script draws for `dets` on an image already
   carrying `drawn`: for detection i, its label at position 2i, read from the
   image as the first 2i draws left it, then its rectangle at 2i+1.
   */
  ghost predicate StillDrawn(frame: nat, drawn: seq<Draw>, dets: seq<Detection>, read: Engine, draws: seq<Draw>)
  {
    && |draws| == 2 * |dets|
    && forall i :: 0 <= i < |dets| ==>
         && draws[2 * i] == Label(Join(Texts(read(Region(frame, dets[i].box, Raw, drawn + draws[..2 * i])))), Anchor(dets[i].box))
         && draws[2 * i + 1] == Rect(dets[i].box)
  }

  /** Drawing one more detection, read from the image as the earlier draws left it, extends `StillDrawn`. */
  lemma StillDrawnExtend(frame: nat, drawn: seq<Draw>, dets: seq<Detection>, read: Engine, before: seq<Draw>)
    requires |dets| > 0
    requires StillDrawn(frame, drawn, dets[..|dets| - 1], read, before)
    ensures var d := dets[|dets| - 1];
      StillDrawn(frame, drawn, dets, read,
        before + [Label(Join(Texts(read(Region(frame, d.box, Raw, drawn + before)))), Anchor(d.box)), Rect(d.box)])
  {
    var n := |dets| - 1;
    var d := dets[n];
    var out := before + [Label(Join(Texts(read(Region(frame, d.box, Raw, drawn + before)))), Anchor(d.box)), Rect(d.box)];
    forall i | 0 <= i < |dets|
      ensures out[2 * i] == Label(Join(Texts(read(Region(frame, dets[i].box, Raw, drawn + out[..2 * i])))), Anchor(dets[i].box))
      ensures out[2 * i + 1] == Rect(dets[i].box)
    {
      if i < n {
        assert dets[..n][i] == dets[i];
        assert out[..2 * i] == before[..2 * i];
      } else {
        assert out[..2 * i] == before;
      }
    }
  }

  /**
   The still script draws, for every detection in input order, its label
   and then its rectangle, and logs nothing. Detection i is read from the
   image carrying the overlays already there and the first 2i draws.
   */
  lemma {:induction false} StillFrame(frame: nat, drawn: seq<Draw>, dets: seq<Detection>, read: Engine)
    ensures StillDrawn(frame, drawn, dets, read, ProcessFrame(StillConfig, frame, drawn, dets, read).draws)
    ensures ProcessFrame(StillConfig, frame, drawn, dets, read).rows == []
    decreases |dets|
  {
    if |dets| > 0 {
      var n := |dets| - 1;
      var before := ProcessFrame(StillConfig, frame, drawn, dets[..n], read);
      StillFrame(frame, drawn, dets[..n], read);
      FrameStep(StillConfig, frame, drawn, dets, read);
      StillDetection(frame, drawn + before.draws, dets[n], read);
      StillDrawnExtend(frame, drawn, dets, read, before.draws);
    }
  }

}
