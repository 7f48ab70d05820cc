/**
 Worked examples of the video and still decisions on concrete boxes and
 recognition results, each derived from the general lemmas.
 */
module Scenarios {

  import opened Options
  import opened Geometry
  import opened Text
  import opened Recognition
  import opened Pipeline

  /** An engine that returns the same spans for every region. */
  function Constant(spans: seq<Span>): Engine
  {
    (r: Region) => spans
  }

  /** A wide box well below the top edge with one confident span: the text is drawn 20 pixels above the box. */
  lemma VideoPlateAboveBox()
    ensures ProcessDetection(VideoConfig, 0, [], Detection(Box(100, 200, 400, 260), 0.9, 0), Constant([Span("AB12CD", 0.8)]))
         == Shown(Box(100, 200, 400, 260), "AB12CD", Point(100, 180))
  {
    var spans := [Span("AB12CD", 0.8)];
    var d := Detection(Box(100, 200, 400, 260), 0.9, 0);
    VideoDetection(0, [], d, Constant(spans));
    KeptSingle(spans[0], Some(0.4));
    StripFixesNoEdgeSpace("AB12CD");
  }

  /** A box 30 pixels wide is skipped before recognition. */
  lemma VideoNarrowBoxSkipped(read: Engine)
    ensures ProcessDetection(VideoConfig, 0, [], Detection(Box(10, 10, 40, 25), 0.9, 0), read) == Skipped
  {
  }

  /** A box starting 20 pixels from the top gets its label 50 pixels below its bottom edge. */
  lemma VideoPlateBelowBox()
    ensures ProcessDetection(VideoConfig, 3, [], Detection(Box(50, 20, 200, 80), 0.7, 0), Constant([Span("34XY", 0.9)]))
         == Shown(Box(50, 20, 200, 80), "34XY", Point(50, 130))
  {
    var spans := [Span("34XY", 0.9)];
    VideoDetection(3, [], Detection(Box(50, 20, 200, 80), 0.7, 0), Constant(spans));
    KeptSingle(spans[0], Some(0.4));
    StripFixesNoEdgeSpace("34XY");
  }

  /** Of two spans at 0.5 and 0.3 only the first survives the 0.4 filter. */
  lemma VideoLowSpanFiltered()
    ensures ProcessDetection(VideoConfig, 0, [], Detection(Box(100, 200, 400, 260), 0.9, 0), Constant([Span("AB", 0.5), Span("12", 0.3)]))
         == Shown(Box(100, 200, 400, 260), "AB", Point(100, 180))
  {
    var spans := [Span("AB", 0.5), Span("12", 0.3)];
    VideoDetection(0, [], Detection(Box(100, 200, 400, 260), 0.9, 0), Constant(spans));
    KeptAppend([spans[0]], [spans[1]], Some(0.4));
    assert spans == [spans[0]] + [spans[1]];
    KeptSingle(spans[0], Some(0.4));
    KeptSingle(spans[1], Some(0.4));
    StripFixesNoEdgeSpace("AB");
  }

  /** A span at exactly 0.4 is dropped, so nothing is shown or logged. */
  lemma VideoBoundarySpanDropped()
    ensures ProcessDetection(VideoConfig, 0, [], Detection(Box(100, 200, 400, 260), 0.9, 0), Constant([Span("AB", 0.4)])) == Blank
  {
    var spans := [Span("AB", 0.4)];
    VideoDetection(0, [], Detection(Box(100, 200, 400, 260), 0.9, 0), Constant(spans));
    KeptSingle(spans[0], Some(0.4));
  }

  /** No spans at all: nothing is shown and nothing is logged. */
  lemma VideoNoSpans()
    ensures ProcessDetection(VideoConfig, 0, [], Detection(Box(100, 200, 400, 260), 0.9, 0), Constant([])) == Blank
  {
    VideoDetection(0, [], Detection(Box(100, 200, 400, 260), 0.9, 0), Constant([]));
  }

  /** The still path draws even an empty text, on a box the video path would skip. */
  lemma StillDrawsEmptyText()
    ensures ProcessDetection(StillConfig, 0, [], Detection(Box(10, 10, 40, 25), 0.9, 0), Constant([]))
         == Shown(Box(10, 10, 40, 25), "", Point(10, 75))
  {
    StillDetection(0, [], Detection(Box(10, 10, 40, 25), 0.9, 0), Constant([]));
  }

  /** The still path keeps a low-confidence span and does not strip: " AB" and "12" join to " AB 12". */
  lemma StillKeepsEverySpan()
    ensures ProcessDetection(StillConfig, 0, [], Detection(Box(100, 200, 400, 260), 0.9, 0), Constant([Span(" AB", 0.5), Span("12", 0.1)]))
         == Shown(Box(100, 200, 400, 260), " AB 12", Point(100, 180))
  {
    var spans := [Span(" AB", 0.5), Span("12", 0.1)];
    StillDetection(0, [], Detection(Box(100, 200, 400, 260), 0.9, 0), Constant(spans));
    assert Texts(spans) == [" AB", "12"];
    assert Join([" AB", "12"]) == " AB" + [' '] + Join(["12"]);
  }

  /** An engine that also reads a stray mark once anything has been drawn into the frame. */
  const Smudged: Engine :=
    (r: Region) => if r.drawn == [] then [Span("AB12", 0.9)] else [Span("AB12", 0.9), Span("|", 0.2)]

  /** On a clean frame the smudged engine reads only the plate. */
  lemma SmudgedCleanRead(b: Box)
    ensures Join(Texts(Smudged(Region(0, b, Raw, [])))) == "AB12"
  {
    assert Texts([Span("AB12", 0.9)]) == ["AB12"];
  }

  /** Once something is drawn the smudged engine also reads the stray mark. */
  lemma SmudgedDirtyRead(b: Box, drawn: seq<Draw>)
    requires drawn != []
    ensures Join(Texts(Smudged(Region(0, b, Raw, drawn)))) == "AB12 |"
  {
    assert Texts([Span("AB12", 0.9), Span("|", 0.2)]) == ["AB12", "|"];
    assert Join(["AB12", "|"]) == "AB12" + [' '] + Join(["|"]);
  }

  /**
   Two detections with the same box on the still path: the second is read
   from the image after the first one's label and rectangle were drawn into
   it, so the two labels can differ.
   */
  lemma StillSecondReadSeesFirstOverlay()
    ensures var b := Box(100, 200, 400, 260);
      var d := Detection(b, 0.9, 0);
      ProcessFrame(StillConfig, 0, [], [d, d], Smudged).draws ==
        [Label("AB12", Point(100, 180)), Rect(b), Label("AB12 |", Point(100, 180)), Rect(b)]
  {
    var b := Box(100, 200, 400, 260);
    var d := Detection(b, 0.9, 0);
    var dets := [d, d];
    var draws := ProcessFrame(StillConfig, 0, [], dets, Smudged).draws;
    StillFrame(0, [], dets, Smudged);
    assert StillDrawn(0, [], dets, Smudged, draws);
    var first := [] + draws[..0];
    var second := [] + draws[..2];
    assert first == [];
    assert |second| == 2;
    SmudgedCleanRead(b);
    SmudgedDirtyRead(b, second);
    assert draws[0] == Label(Join(Texts(Smudged(Region(0, b, Raw, first)))), Anchor(b));
    assert draws[2] == Label(Join(Texts(Smudged(Region(0, b, Raw, second)))), Anchor(b));
  }

}
