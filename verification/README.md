# License-plate recognition: per-detection decision logic

This project models the decision logic of the jetson-lpr scripts. Two entry scripts share it:

- `lpr_app/video_ocr.py` reads a video frame by frame.
- `lpr_app/ocr_pipeline.py` reads one still image.

For every detection box the detector reports, each script decides four things:

- whether to skip the box;
- which recognised text spans to keep;
- how the kept spans combine into one string;
- whether to draw the box and label and log the text, and where the label goes.

The video script also numbers its frames and logs each recognised text with the frame index.

The logic is written once, in `Pipeline`, and parameterised by a `Config`. The two constants `VideoConfig` and `StillConfig` hold the concrete behaviour of the two scripts. The lemmas `Pipeline.VideoDetection` and `Pipeline.StillDetection` check each constant against its script.

The object detector and the text-recognition engine are inputs:

- The detector's output for a frame is a sequence of `Detection`s.
- The engine is a total function `Engine = Region -> seq<Span>`. A `Region` names what the engine is shown: the crop of a frame at a box, preprocessed when the mode is `Enhanced`. Both scripts draw their rectangles and labels into the same image they crop from (`lpr_app/video_ocr.py:52,80-90`, `lpr_app/ocr_pipeline.py:40,51-63`). So a `Region` also records the overlays already drawn into that frame, and the detection processed j-th is read from a crop that may show the overlays of the j detections before it.
- "No recognition call" is stated as independence from the engine. Two different engines give the same result (`SkippedIgnoresEngine`, `NoDetectionsNoRecognition`).

Modules and files:

- `options.dfy` (`Options`): the optional threshold.
- `geometry.dfy` (`Geometry`): boxes, the 50×20 size filter, label placement, and the 1.5× display size.
- `text.dfy` (`Text`): Python's `" ".join` and `str.strip()`, plus a split that inverts the join.
- `recognition.dfy` (`Recognition`): spans, the confidence filter, and the combined text.
- `pipeline.dfy` (`Pipeline`): the configurable per-detection and per-frame logic.
- `video.dfy` (`VideoOcr`): the frame loop and the log.
- `still.dfy` (`StillOcr`): the still-image run.
- `scenarios.dfy` (`Scenarios`): concrete worked examples.

Two behaviours of the code worth stating up front, both modelled as written:

- Boxes are not clamped to the frame before cropping. The size filter looks only at the box's width and height, not at whether the box lies inside the frame. A box that passes the filter can still give an empty crop. On the video path the grayscale conversion then raises and the run stops; the model does not follow it there (see Left out).
- The still script draws the recognised text even when it is empty.

## Model

| member | source | states |
|---|---|---|
| Geometry.KeptBoxIsNonDegenerate | lpr_app/video_ocr.py:48 | a box that passes the size filter spans at least 50 by 20 pixels, so x1 < x2 and y1 < y2 |
| Geometry.SizeFilterBoundary | lpr_app/video_ocr.py:48 | a 50×20 box is kept; one pixel less in either axis is skipped |
| Geometry.Anchor | lpr_app/video_ocr.py:77 | the label goes at (x1, y1−20) when y1 > 40 and at (x1, y2+50) when y1 ≤ 40 |
| Geometry.AnchorOutsideBox | lpr_app/video_ocr.py:76-77 | for a box with y1 ≤ y2 the label row is strictly above or strictly below the box; it is above exactly when y1 > 40 |
| Geometry.AnchorHasHeadroom | lpr_app/ocr_pipeline.py:47-48 | for a box inside the frame the label baseline is more than 20 pixels below the frame's top edge |
| Geometry.ScaledDim | lpr_app/ocr_pipeline.py:66-67 | the display dimension is the largest integer not above n·1.5, which is `int(n * 1.5)` while the double product is exact (see Left out) |
| Geometry.ScaledDimMonotone | lpr_app/ocr_pipeline.py:66-67 | the 1.5× resize never shrinks a dimension and is monotone in it |
| Text.JoinAddsSeparators | lpr_app/ocr_pipeline.py:44 | joining n ≥ 1 texts adds exactly n−1 spaces: the count of spaces and the length both grow by n−1 |
| Text.JoinAppend | lpr_app/video_ocr.py:64 | joining two non-empty runs of texts puts exactly one space between their joins |
| Text.SplitJoin | lpr_app/ocr_pipeline.py:44 | when no text contains a space, splitting the join on spaces gives back the texts |
| Text.Strip | lpr_app/video_ocr.py:64 | the stripped text has no whitespace at either end and is no longer than its input |
| Text.StripWindow | lpr_app/video_ocr.py:64 | strip keeps one contiguous window of the input; everything removed before and after it is whitespace |
| Text.StripIdempotent | lpr_app/video_ocr.py:64-66 | stripping an already stripped text changes nothing |
| Text.StripEmptyIff | lpr_app/video_ocr.py:66 | `s.strip()` is empty exactly when s is all whitespace, so the gate `if all_text.strip():` tests for a non-whitespace character |
| Recognition.Kept | lpr_app/video_ocr.py:63 | the texts kept by the confidence filter are at most as many as the spans; KeptContains and KeptAppend below pin down which texts and in what order |
| Recognition.KeptSingle | lpr_app/video_ocr.py:63 | a single span is kept exactly when its confidence is strictly above the threshold |
| Recognition.KeptContains | lpr_app/video_ocr.py:63 | a text is kept iff some span carrying it passes the filter (both directions) |
| Recognition.KeptAppend | lpr_app/video_ocr.py:63 | the filter distributes over concatenation, so kept texts stay in engine order |
| Recognition.LowConfidenceTextDropped | lpr_app/video_ocr.py:63 | a text whose spans are all at or below the threshold does not appear among the kept texts |
| Recognition.KeptWithoutThreshold | lpr_app/ocr_pipeline.py:44 | with no threshold every span's text is kept, in engine order |
| Recognition.Combine | lpr_app/video_ocr.py:63-64 | with strip set, the combined text has no whitespace at either end |
| Pipeline.ProcessDetection | lpr_app/video_ocr.py:44-90 | a box is skipped iff the size filter is on and the box is too small; a shown result carries the detection's box, the anchor and the combined text; a blank result has an all-whitespace text |
| Pipeline.ProcessFrame | lpr_app/video_ocr.py:44-90 | a frame's detections give at most two draws each; every log row carries the frame index; when rows are logged there are exactly two draws per row; otherwise no rows |
| Pipeline.DrawsOf | lpr_app/video_ocr.py:80-90 | a shown outcome draws exactly two overlays and any other outcome draws none |
| Pipeline.ShownDraws | lpr_app/ocr_pipeline.py:51-63 | a shown outcome draws one rectangle on its box and one label of its text at its anchor; the rectangle comes first exactly in the video order (video_ocr.py:80-90), and the still script draws the label first |
| Pipeline.TwoDrawsPerRow | lpr_app/video_ocr.py:66-90 | when rows are logged, the number of draws is twice the number of rows |
| Pipeline.RowsCarryFrame | lpr_app/video_ocr.py:74 | every row produced for a frame holds that frame's index |
| Pipeline.OutcomeAt | lpr_app/video_ocr.py:44-90 | detection i is read from the frame carrying the overlays already there plus the draws of detections 0..i−1 (the crop is a view of the image being drawn into) |
| Pipeline.FrameStep | lpr_app/video_ocr.py:44-90 | the last detection of a frame is read against everything drawn before it, and its draws and rows are appended after those of the earlier detections |
| Pipeline.OutcomesAppend | lpr_app/video_ocr.py:44-90 | the outcomes of detections a then b are a's outcomes followed by b's, where b is read from the frame carrying a's draws |
| Pipeline.ProcessFrameAppend | lpr_app/ocr_pipeline.py:37-63 | processing detections a then b yields a's draws and rows followed by b's, where b is read from the image as a's overlays left it |
| Pipeline.SkippedIgnoresEngine | lpr_app/video_ocr.py:48-49 | a skipped box gives the same outcome whatever the engine returns (no recognition call), and contributes no draw and no row |
| Pipeline.VideoDetection | lpr_app/video_ocr.py:44-77 | on the video path a too-small box is skipped; otherwise t = strip(join(spans above 0.4)) is shown at the anchor when t is non-empty, and blank when t is empty |
| Pipeline.VideoEffects | lpr_app/video_ocr.py:66-90 | a shown video text yields the rectangle, then the label, and one log row with the frame index and that text; any other outcome yields nothing |
| Pipeline.VideoShownTextIsClean | lpr_app/video_ocr.py:64-66 | every shown video text is non-empty, has no edge whitespace, and is its own strip |
| Pipeline.VideoLoggedTextIsClean | lpr_app/video_ocr.py:64-74 | every text logged for a frame is non-empty and already stripped |
| Pipeline.VideoRowsMatchLabels | lpr_app/video_ocr.py:66-90 | the texts of a frame's log rows are, in order, the texts of its label draws: rows and overlays always come together |
| Pipeline.StillDetection | lpr_app/ocr_pipeline.py:37-54 | on the still path every detection is shown, whatever its size, with all span texts joined by single spaces (no filter, no strip), even when the text is empty |
| Pipeline.StillFrame | lpr_app/ocr_pipeline.py:37-63 | the still path draws, for detection i in input order, its label at position 2i, with the text read from the image carrying the first 2i draws, and its rectangle at 2i+1; it logs nothing |
| VideoOcr.CollectOrdered | lpr_app/video_ocr.py:35-99 | when every row of frame i carries index start+i, the collected log lies in the run's index range and is in non-decreasing frame order |
| VideoOcr.Run | lpr_app/video_ocr.py:35-99 | one output frame is written per input frame; every logged index is below the number of frames; log rows are in non-decreasing frame order |
| VideoOcr.FrameRowsInLog | lpr_app/video_ocr.py:35-99 | processing frame i appends exactly that frame's rows, with index i, after the log of frames 0..i−1, and appends its overlays as output frame i |
| VideoOcr.StoppedRunIsPrefix | lpr_app/video_ocr.py:96-97 | stopping after k frames leaves a log and an output video that are prefixes of the full run's |
| VideoOcr.ProcessDetections | lpr_app/video_ocr.py:44-90 | the script's inner loop, reading each detection from the frame with the overlays drawn so far, computes the frame's draws and rows; there are two draws per row and every row holds the current frame index |
| VideoOcr.RunVideo | lpr_app/video_ocr.py:35-99 | the script's loop, with `frame_idx` starting at 0 and incremented after each frame, computes the run; rows are frame-ordered with indices below the frame count |
| StillOcr.RunStill | lpr_app/ocr_pipeline.py:27-67 | the run ends early exactly when there are no detections; otherwise there are two draws per detection and the display size is `int(W*1.5)` × `int(H*1.5)` |
| StillOcr.NoDetectionsNoRecognition | lpr_app/ocr_pipeline.py:31-35 | with no detections the result does not depend on the engine and nothing is drawn |
| StillOcr.StillDrawsEveryDetection | lpr_app/ocr_pipeline.py:37-63 | every detection gets its label at the anchor and then its rectangle, in input order; detection i's text is read from the image carrying the first 2i draws |
| StillOcr.DisplaySize | lpr_app/ocr_pipeline.py:66-67 | the displayed width and height are (3W)/2 and (3H)/2 under floor division |
| Scenarios.VideoPlateAboveBox | lpr_app/video_ocr.py:63-77 | box (100,200,400,260) with span ("AB12CD", 0.8) shows "AB12CD" at (100,180) |
| Scenarios.VideoNarrowBoxSkipped | lpr_app/video_ocr.py:48-49 | box (10,10,40,25), 30 pixels wide, is skipped |
| Scenarios.VideoPlateBelowBox | lpr_app/video_ocr.py:77 | box (50,20,200,80) gets its label at (50,130) |
| Scenarios.VideoLowSpanFiltered | lpr_app/video_ocr.py:63-64 | spans ("AB", 0.5) and ("12", 0.3) combine to "AB" |
| Scenarios.VideoBoundarySpanDropped | lpr_app/video_ocr.py:63-66 | a span at exactly 0.4 is dropped, and nothing is shown or logged |
| Scenarios.VideoNoSpans | lpr_app/video_ocr.py:66 | no spans: nothing is shown or logged |
| Scenarios.StillDrawsEmptyText | lpr_app/ocr_pipeline.py:44-54 | the still path draws the empty text at (10,75) on a box the video path would skip |
| Scenarios.StillKeepsEverySpan | lpr_app/ocr_pipeline.py:44 | spans (" AB", 0.5) and ("12", 0.1) combine to " AB 12": no filter and no strip |
| Scenarios.StillSecondReadSeesFirstOverlay | lpr_app/ocr_pipeline.py:40-63 | two detections with the same box get different labels when the engine reads the first one's overlay in the second crop |

## Left out

- The YOLOv5 detector: model loading, inference, and its internal 0.4 confidence threshold. Its output is an input sequence of detections.
- The EasyOCR engine and its language lists (English; English and Turkish). The engine is an input function.
- The preprocessing chain: grayscale, 2× cubic resize, 5×5 Gaussian blur, Otsu threshold. This is image numerics. Only the fact that it is applied is recorded, as the `Enhanced` mode of the region shown to the engine.
- Pixel cropping `frame[y1:y2, x1:x2]`, including its negative-index and out-of-range slicing. There is no pixel data in the model, and the code does no clamping.
- Pipeline.ProcessDetection: an empty crop is not detected. This happens with a box that lies partly outside the frame, such as Box(-1, 0, 60, 30), or with a zero-size box on the still path. The video script's `cv2.cvtColor` then raises on the empty array, and the run ends without releasing the writer. The still script hands the empty array to the engine. The model has no pixel data, so it cannot tell an empty crop from any other. Its `Engine` is total, and processing carries on with whatever spans the engine returns.
- What an earlier detection's overlay does to the pixels of a later crop. A `Region` records which overlays are already drawn, and the engine function decides what it reads from that. The model does not say whether an overlay actually falls inside the crop.
- Float-to-int truncation of box coordinates (`map(int, box)`). Boxes are integers. Confidences are reals, compared only against 0.4.
- Timestamps in log rows (`datetime.now()`), the CSV file format, and the console prints. The clock and the files are I/O. A log row holds the frame index and the text.
- File pickers, the errors raised when no file is chosen or it cannot be opened, `cv2.imread`, `VideoCapture`, `VideoWriter` and the frame rate. These are I/O outside the pipeline.
- `imshow`, `waitKey` and the 'q' key. The key itself is not modelled. Its effect, ending the run after some frame, is covered by `VideoOcr.StoppedRunIsPrefix`.
- A frame that fails to decode. In the code, `cap.read()` returning no frame ends the loop. The model's frame sequence is the frames actually read.
- Font, font scale, colours, stroke widths and line type of the overlays. These are rendering constants.
- Geometry.ScaledDim: the float product `n * 1.5` is taken as exact. In IEEE-754 doubles this holds while 3n < 2^53, that is for n ≤ 3002399751580330. Above that the product can round up: for n = 3002399751580333, `int(n * 1.5)` is 4503599627370500, one more than the model's 4503599627370499.
