/**
 The video script's frame loop: every frame is read, its detections are
 processed with the video configuration, the annotated frame is written
 out, and each shown text is logged with the index of its frame. The index
 starts at 0 and rises by one per frame.
 */
module VideoOcr {

  import opened Pipeline

  /** The annotated frames in writing order (each as its overlay draws) and the log rows in writing order. */
  datatype VideoOutput = VideoOutput(frames: seq<seq<Draw>>, rows: seq<LogRow>)

  /** Log rows appear in non-decreasing frame order. */
  predicate RowsOrdered(rows: seq<LogRow>)
  {
    forall a, b :: 0 <= a < b < |rows| ==> rows[a].frame <= rows[b].frame
  }

  /** Every row of the i-th frame output carries frame index start + i. */
  predicate Indexed(outs: seq<FrameOutput>, start: nat)
  {
    forall i, k :: 0 <= i < |outs| && 0 <= k < |outs[i].rows| ==> outs[i].rows[k].frame == start + i
  }

  /** The output of each frame in turn, the first frame having index `start`. */
  function FrameResults(frames: seq<seq<Detection>>, start: nat, read: Engine): (outs: seq<FrameOutput>)
    ensures |outs| == |frames|
  {
    seq(|frames|, i requires 0 <= i < |frames| => ProcessFrame(VideoConfig, start + i, [], frames[i], read))
  }

  /** Every row of the i-th frame's output carries index start + i. */
  lemma FrameResultsIndexed(frames: seq<seq<Detection>>, start: nat, read: Engine)
    ensures Indexed(FrameResults(frames, start, read), start)
  {
    var outs := FrameResults(frames, start, read);
    forall i, k | 0 <= i < |outs| && 0 <= k < |outs[i].rows|
      ensures outs[i].rows[k].frame == start + i
    {
      assert outs[i] == ProcessFrame(VideoConfig, start + i, [], frames[i], read);
    }
  }

  /** The results of a run are those of all but its last frame, then the last frame's. */
  lemma FrameResultsSnoc(frames: seq<seq<Detection>>, read: Engine)
    requires |frames| > 0
    ensures var n := |frames| - 1;
      FrameResults(frames, 0, read) == FrameResults(frames[..n], 0, read) + [ProcessFrame(VideoConfig, n, [], frames[n], read)]
  {
  }

  /** Write each frame's draws as one output frame and append each frame's rows to the log, in frame order. */
  function Collect(outs: seq<FrameOutput>): (out: VideoOutput)
    ensures |out.frames| == |outs|
  {
    if |outs| == 0 then VideoOutput([], [])
    else
      var rest := Collect(outs[1..]);
      VideoOutput([outs[0].draws] + rest.frames, outs[0].rows + rest.rows)
  }

  /** Collecting indexed frame outputs gives a log in frame order whose indices lie in the run's range. */
  lemma {:induction false} CollectOrdered(outs: seq<FrameOutput>, start: nat)
    requires Indexed(outs, start)
    ensures var rows := Collect(outs).rows;
      && (forall k :: 0 <= k < |rows| ==> start <= rows[k].frame < start + |outs|)
      && RowsOrdered(rows)
  {
    if |outs| > 0 {
      var tail := outs[1..];
      assert Indexed(tail, start + 1) by {
        forall i, k | 0 <= i < |tail| && 0 <= k < |tail[i].rows|
          ensures tail[i].rows[k].frame == start + 1 + i
        {
          assert tail[i] == outs[i + 1];
        }
      }
      CollectOrdered(tail, start + 1);
      var head := outs[0].rows;
      var rest := Collect(tail).rows;
      var rows := head + rest;
      assert forall k :: 0 <= k < |head| ==> head[k].frame == start;
      forall a, b | 0 <= a < b < |rows|
        ensures rows[a].frame <= rows[b].frame
      {
        if b < |head| {
          assert rows[a] == head[a] && rows[b] == head[b];
        } else if a < |head| {
          assert rows[a] == head[a] && rows[b] == rest[b - |head|];
        } else {
          assert rows[a] == rest[a - |head|] && rows[b] == rest[b - |head|];
        }
      }
      forall k | 0 <= k < |rows|
        ensures start <= rows[k].frame < start + |outs|
      {
        if k >= |head| {
          assert rows[k] == rest[k - |head|];
        }
      }
    }
  }

  /** Collecting two runs of frame outputs one after the other is collecting their concatenation. */
  lemma {:induction false} CollectAppend(a: seq<FrameOutput>, b: seq<FrameOutput>)
    ensures Collect(a + b).frames == Collect(a).frames + Collect(b).frames
    ensures Collect(a + b).rows == Collect(a).rows + Collect(b).rows
  {
    if |a| == 0 {
      assert a + b == b;
    } else {
      assert (a + b)[1..] == a[1..] + b;
      assert (a + b)[0] == a[0];
      CollectAppend(a[1..], b);
      var ra := Collect(a[1..]);
      var rb := Collect(b);
      assert [a[0].draws] + (ra.frames + rb.frames) == ([a[0].draws] + ra.frames) + rb.frames;
      assert a[0].rows + (ra.rows + rb.rows) == (a[0].rows + ra.rows) + rb.rows;
    }
  }

  /** Collecting one more frame output appends its draws as one more frame and its rows to the log. */
  lemma CollectSnoc(outs: seq<FrameOutput>, x: FrameOutput)
    ensures Collect(outs + [x]).frames == Collect(outs).frames + [x.draws]
    ensures Collect(outs + [x]).rows == Collect(outs).rows + x.rows
  {
    CollectAppend(outs, [x]);
    assert Collect([x]) == VideoOutput([x.draws], x.rows) by {
      assert [x][1..] == [];
    }
  }

  /** The whole video: the frame index starts at 0 and rises by one per frame. */
  function Run(frames: seq<seq<Detection>>, read: Engine): (out: VideoOutput)
    ensures |out.frames| == |frames|
    ensures forall k :: 0 <= k < |out.rows| ==> out.rows[k].frame < |frames|
    ensures RowsOrdered(out.rows)
  {
    var outs := FrameResults(frames, 0, read);
    FrameResultsIndexed(frames, 0, read);
    CollectOrdered(outs, 0);
    Collect(outs)
  }

  /** The results of the first k frames are the first k results of the whole run. */
  lemma FrameResultsPrefix(frames: seq<seq<Detection>>, k: nat, read: Engine)
    requires k <= |frames|
    ensures FrameResults(frames[..k], 0, read) == FrameResults(frames, 0, read)[..k]
  {
  }

  /**
   Stopping the loop early (the stop key) after k frames leaves a log that is
   a prefix of the log of the full run, and the same first k output frames.
   */
  lemma StoppedRunIsPrefix(frames: seq<seq<Detection>>, k: nat, read: Engine)
    requires k <= |frames|
    ensures Run(frames[..k], read).rows <= Run(frames, read).rows
    ensures Run(frames[..k], read).frames <= Run(frames, read).frames
  {
    var outs := FrameResults(frames, 0, read);
    FrameResultsPrefix(frames, k, read);
    assert outs == outs[..k] + outs[k..];
    CollectAppend(outs[..k], outs[k..]);
  }

  /**
   The log is the rows of frame 0, then of frame 1, and so on: the rows
   logged while frame i is processed are exactly that frame's rows with
   index i, preceded by the log of the earlier frames.
   */
  lemma FrameRowsInLog(frames: seq<seq<Detection>>, i: nat, read: Engine)
    requires i < |frames|
    ensures Run(frames[..i + 1], read).rows ==
      Run(frames[..i], read).rows + ProcessFrame(VideoConfig, i, [], frames[i], read).rows
    ensures Run(frames[..i + 1], read).frames ==
      Run(frames[..i], read).frames + [ProcessFrame(VideoConfig, i, [], frames[i], read).draws]
  {
    var fs := frames[..i + 1];
    assert fs[..i] == frames[..i];
    assert fs[i] == frames[i];
    FrameResultsSnoc(fs, read);
    CollectSnoc(FrameResults(frames[..i], 0, read), ProcessFrame(VideoConfig, i, [], frames[i], read));
  }

  /**
   The inner loop of the script: the detections of frame `frameIdx` in order,
   each read from the frame as the overlays drawn so far left it.
   */
  method ProcessDetections(frameIdx: nat, dets: seq<Detection>, read: Engine) returns (draws: seq<Draw>, rows: seq<LogRow>)
    ensures FrameOutput(draws, rows) == ProcessFrame(VideoConfig, frameIdx, [], dets, read)
    ensures |draws| == 2 * |rows|
    ensures forall k :: 0 <= k < |rows| ==> rows[k].frame == frameIdx
  {
    draws, rows := [], [];
    var j := 0;
    while j < |dets|
      invariant j <= |dets|
      invariant FrameOutput(draws, rows) == ProcessFrame(VideoConfig, frameIdx, [], dets[..j], read)
    {
      var o := ProcessDetection(VideoConfig, frameIdx, draws, dets[j], read);
      var e := Effects(VideoConfig, frameIdx, o);
      assert dets[..j + 1][..j] == dets[..j] && dets[..j + 1][j] == dets[j];
      assert [] + draws == draws;
      FrameStep(VideoConfig, frameIdx, [], dets[..j + 1], read);
      draws := draws + e.draws;
      rows := rows + e.rows;
      j := j + 1;
    }
    assert dets[..j] == dets;
  }

  /** The script's frame loop: `frame_idx` starts at 0 and is incremented once after each frame. */
  method RunVideo(frames: seq<seq<Detection>>, read: Engine) returns (written: seq<seq<Draw>>, rows: seq<LogRow>)
    ensures VideoOutput(written, rows) == Run(frames, read)
    ensures |written| == |frames|
    ensures RowsOrdered(rows)
    ensures forall k :: 0 <= k < |rows| ==> rows[k].frame < |frames|
  {
    written, rows := [], [];
    var frameIdx: nat := 0;
    while frameIdx < |frames|
      invariant frameIdx <= |frames|
      invariant VideoOutput(written, rows) == Run(frames[..frameIdx], read)
    {
      var draws, frameRows := ProcessDetections(frameIdx, frames[frameIdx], read);
      FrameRowsInLog(frames, frameIdx, read);
      written := written + [draws];
      rows := rows + frameRows;
      frameIdx := frameIdx + 1;
    }
    assert frames[..frameIdx] == frames;
  }

}
