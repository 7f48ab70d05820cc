/**
 What happens to the spans the text-recognition engine returns for one
 region: the optional confidence filter, then the single-space join and
 (on the video path) the strip.
 */
module Recognition {

  import opened Options
  import opened Text

  /** One recognised piece of text and the engine's confidence in it. */
  datatype Span = Span(text: string, conf: real)

  /** The video script's span threshold: a span is kept only above it. */
  const VideoSpanThreshold: real := 0.4

  /** A span survives the filter when there is no threshold or its confidence is strictly above it. */
  predicate Passes(s: Span, threshold: Option<real>)
  {
    threshold.None? || s.conf > threshold.value
  }

  /** The texts of all spans, in engine order. */
  function Texts(spans: seq<Span>): seq<string>
  {
    seq(|spans|, i requires 0 <= i < |spans| => spans[i].text)
  }

  /** `[d[1] for d in result if d[2] > threshold]`, or every text when there is no threshold. */
  function Kept(spans: seq<Span>, threshold: Option<real>): (ts: seq<string>)
    ensures |ts| <= |spans|
  {
    if |spans| == 0 then []
    else (if Passes(spans[0], threshold) then [spans[0].text] else []) + Kept(spans[1..], threshold)
  }

  /** On a single span the filter keeps its text exactly when the span passes. */
  lemma KeptSingle(s: Span, threshold: Option<real>)
    ensures Passes(s, threshold) ==> Kept([s], threshold) == [s.text]
    ensures !Passes(s, threshold) ==> Kept([s], threshold) == []
  {
    assert [s][1..] == [];
  }

  /**
   A text is kept exactly when some span carrying it passes the filter:
   every passing span's text is present and nothing else is.
   */
  lemma {:induction false} KeptContains(spans: seq<Span>, threshold: Option<real>, x: string)
    ensures x in Kept(spans, threshold) <==>
      exists i :: 0 <= i < |spans| && Passes(spans[i], threshold) && spans[i].text == x
  {
    if |spans| > 0 {
      var tail := spans[1..];
      KeptContains(tail, threshold, x);
      if exists i :: 0 <= i < |tail| && Passes(tail[i], threshold) && tail[i].text == x {
        var i :| 0 <= i < |tail| && Passes(tail[i], threshold) && tail[i].text == x;
        assert spans[i + 1] == tail[i];
      }
      if exists i :: 0 <= i < |spans| && Passes(spans[i], threshold) && spans[i].text == x {
        var i :| 0 <= i < |spans| && Passes(spans[i], threshold) && spans[i].text == x;
        if i > 0 {
          assert tail[i - 1] == spans[i];
        }
      }
    }
  }

  /** With no threshold every span is kept, in order. */
  lemma {:induction false} KeptWithoutThreshold(spans: seq<Span>)
    ensures Kept(spans, None) == Texts(spans)
  {
    if |spans| > 0 {
      KeptWithoutThreshold(spans[1..]);
      assert Texts(spans) == [spans[0].text] + Texts(spans[1..]);
    }
  }

  /** Filtering distributes over concatenation of span lists, so relative order is kept. */
  lemma {:induction false} KeptAppend(a: seq<Span>, b: seq<Span>, threshold: Option<real>)
    ensures Kept(a + b, threshold) == Kept(a, threshold) + Kept(b, threshold)
  {
    if |a| == 0 {
      assert a + b == b;
    } else {
      var head := if Passes(a[0], threshold) then [a[0].text] else [];
      assert (a + b)[1..] == a[1..] + b;
      assert (a + b)[0] == a[0];
      KeptAppend(a[1..], b, threshold);
      calc {
        Kept(a + b, threshold);
        head + Kept(a[1..] + b, threshold);
        head + (Kept(a[1..], threshold) + Kept(b, threshold));
        (head + Kept(a[1..], threshold)) + Kept(b, threshold);
        Kept(a, threshold) + Kept(b, threshold);
      }
    }
  }

  /**
   A text none of whose spans is above the threshold does not appear among
   the kept texts.
   */
  lemma {:induction false} LowConfidenceTextDropped(spans: seq<Span>, t: real, x: string)
    requires forall k :: 0 <= k < |spans| && spans[k].text == x ==> spans[k].conf <= t
    ensures x !in Kept(spans, Some(t))
  {
    if |spans| > 0 {
      LowConfidenceTextDropped(spans[1..], t, x);
    }
  }

  /**
   The text recognised for one region: kept texts joined by single spaces,
   then stripped of surrounding whitespace when `strip` is set.
   */
  function Combine(spans: seq<Span>, threshold: Option<real>, strip: bool): (text: string)
    ensures strip ==> NoEdgeSpace(text)
  {
    var joined := Join(Kept(spans, threshold));
    if strip then Strip(joined) else joined
  }

}
