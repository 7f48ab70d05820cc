/**
 The still-image script: one image, its detections processed with the
 still configuration, then the annotated image shown at 1.5 times its size.
 When the detector finds nothing the script reports it and exits before
 loading the recognition engine or drawing anything.
 */
module StillOcr {

  import opened Geometry
  import opened Text
  import opened Recognition
  import opened Pipeline

  /** The single image plays the part of frame 0. */
  const ImageIndex: nat := 0

  /** Either the early exit, or the overlay draws and the size of the displayed image. */
  datatype StillOutput = NoObjects | Displayed(draws: seq<Draw>, width: nat, height: nat)

  /** The script run on an image of width `w` and height `h` whose detector output is `dets`. */
  function RunStill(dets: seq<Detection>, read: Engine, w: nat, h: nat): (r: StillOutput)
    ensures r.NoObjects? <==> |dets| == 0
    ensures r.Displayed? ==> |r.draws| == 2 * |dets|
    ensures r.Displayed? ==> (r.width as real) <= (w as real) * 1.5 < (r.width as real) + 1.0
    ensures r.Displayed? ==> (r.height as real) <= (h as real) * 1.5 < (r.height as real) + 1.0
  {
    if |dets| == 0 then NoObjects
    else
      StillFrame(ImageIndex, [], dets, read);
      Displayed(ProcessFrame(StillConfig, ImageIndex, [], dets, read).draws, ScaledDim(w), ScaledDim(h))
  }

  /** With no detections the recognition engine is never consulted: any two engines give the same early exit. */
  lemma NoDetectionsNoRecognition(read1: Engine, read2: Engine, w: nat, h: nat)
    ensures RunStill([], read1, w, h) == RunStill([], read2, w, h) == NoObjects
  {
  }

  /**
   Every detection, whatever its size and whatever its text (the empty text
   included), gets its label at the anchor and then its rectangle, in input
   order; the label is every recognised span joined by single spaces, read
   from the image as the labels and rectangles of the earlier detections left it.
   */
  lemma StillDrawsEveryDetection(dets: seq<Detection>, read: Engine, w: nat, h: nat)
    requires |dets| > 0
    ensures var r := RunStill(dets, read, w, h);
      && r.Displayed?
      && forall i :: 0 <= i < |dets| ==>
           && r.draws[2 * i] == Label(Join(Texts(read(Region(ImageIndex, dets[i].box, Raw, r.draws[..2 * i])))), Anchor(dets[i].box))
           && r.draws[2 * i + 1] == Rect(dets[i].box)
  {
    var draws := ProcessFrame(StillConfig, ImageIndex, [], dets, read).draws;
    StillFrame(ImageIndex, [], dets, read);
    forall i | 0 <= i < |dets|
      ensures [] + draws[..2 * i] == draws[..2 * i]
    {
    }
  }

  /** The displayed size is three halves of the image size, rounded down. */
  lemma DisplaySize(dets: seq<Detection>, read: Engine, w: nat, h: nat)
    requires |dets| > 0
    ensures RunStill(dets, read, w, h).width == (3 * w) / 2
    ensures RunStill(dets, read, w, h).height == (3 * h) / 2
  {
  }

}
