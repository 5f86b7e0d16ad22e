/** Assembly of the transcription result from the speech model's segments:
    one record per segment with stripped text, the non-empty texts joined by
    spaces, and the two confidence averages, absent when nothing was reported. */
module Asr {
  import opened Basics
  import opened Text

  /** One segment as the speech model reports it; either metric may be missing. */
  datatype WhisperSegment = WhisperSegment(start: real, end: real, text: string,
                                           avgLogprob: Option<real>, noSpeechProb: Option<real>)

  datatype SegmentRecord = SegmentRecord(start: real, end: real, text: string)

  datatype AsrResult = AsrResult(text: string, language: Option<string>, segments: seq<SegmentRecord>,
                                 avgLogprob: Option<real>, noSpeechProb: Option<real>)

  function Record(s: WhisperSegment): SegmentRecord {
    SegmentRecord(s.start, s.end, Strip(s.text))
  }

  /** The non-empty strings among `texts`, in order. */
  function NonEmpty(texts: seq<string>): seq<string> {
    if texts == [] then []
    else NonEmpty(texts[..|texts| - 1]) + (if texts[|texts| - 1] != "" then [texts[|texts| - 1]] else [])
  }

  function Sum(xs: seq<real>): real {
    if xs == [] then 0.0 else Sum(xs[..|xs| - 1]) + xs[|xs| - 1]
  }

  /** `sum(vals) / len(vals) if vals else None`. */
  function Mean(xs: seq<real>): (m: Option<real>)
    ensures m.None? <==> xs == []
  {
    if xs == [] then None else Some(Sum(xs) / (|xs| as real))
  }

  function Records(segments: seq<WhisperSegment>): (r: seq<SegmentRecord>)
    ensures |r| == |segments|
  {
    if segments == [] then []
    else Records(segments[..|segments| - 1]) + [Record(segments[|segments| - 1])]
  }

  function Texts(segments: seq<WhisperSegment>): seq<string> {
    if segments == [] then []
    else Texts(segments[..|segments| - 1]) + [Strip(segments[|segments| - 1].text)]
  }

  /** The log-probabilities the segments report, in order. */
  function LogProbs(segments: seq<WhisperSegment>): seq<real> {
    if segments == [] then []
    else
      var last := segments[|segments| - 1].avgLogprob;
      LogProbs(segments[..|segments| - 1]) + (if last.Some? then [last.value] else [])
  }

  /** The no-speech probabilities the segments report, in order. */
  function NoSpeechProbs(segments: seq<WhisperSegment>): seq<real> {
    if segments == [] then []
    else
      var last := segments[|segments| - 1].noSpeechProb;
      NoSpeechProbs(segments[..|segments| - 1]) + (if last.Some? then [last.value] else [])
  }

  /** The result `transcribe` assembles from the model's segments and detected language. */
  function TranscriptOf(segments: seq<WhisperSegment>, language: Option<string>): (r: AsrResult)
    ensures r.language == language && |r.segments| == |segments|
  {
    AsrResult(Join(NonEmpty(Texts(segments)), " "), language, Records(segments),
              Mean(LogProbs(segments)), Mean(NoSpeechProbs(segments)))
  }

  /** The segment loop of `transcribe`, collecting records, texts and the reported metrics. */
  method Transcribe(segments: seq<WhisperSegment>, language: Option<string>) returns (r: AsrResult)
    ensures r == TranscriptOf(segments, language)
  {
    var segList: seq<SegmentRecord> := [];
    var texts: seq<string> := [];
    var avgLogprobVals: seq<real> := [];
    var noSpeechVals: seq<real> := [];
    var i := 0;
    while i < |segments|
      invariant 0 <= i <= |segments|
      invariant segList == Records(segments[..i])
      invariant texts == Texts(segments[..i])
      invariant avgLogprobVals == LogProbs(segments[..i])
      invariant noSpeechVals == NoSpeechProbs(segments[..i])
    {
      var seg := segments[i];
      var stripped := Strip(seg.text);
      segList := segList + [SegmentRecord(seg.start, seg.end, stripped)];
      texts := texts + [stripped];
      if seg.avgLogprob.Some? {
        avgLogprobVals := avgLogprobVals + [seg.avgLogprob.value];
      }
      if seg.noSpeechProb.Some? {
        noSpeechVals := noSpeechVals + [seg.noSpeechProb.value];
      }
      assert segments[..i + 1][..i] == segments[..i];
      i := i + 1;
    }
    assert segments[..i] == segments;
    var text := Join(NonEmpty(texts), " ");
    r := AsrResult(text, language, segList, Mean(avgLogprobVals), Mean(noSpeechVals));
  }

  /** `LogProbs` keeps exactly the reported values: it is empty exactly when none was
      reported, every value in it was reported by some segment, and every reported
      value is in it. */
  lemma {:induction false} LogProbsReported(segments: seq<WhisperSegment>)
    ensures LogProbs(segments) == [] <==> forall k :: 0 <= k < |segments| ==> segments[k].avgLogprob.None?
    ensures |LogProbs(segments)| <= |segments|
    ensures forall x :: x in LogProbs(segments) ==> exists k :: 0 <= k < |segments| && segments[k].avgLogprob == Some(x)
    ensures forall k :: 0 <= k < |segments| && segments[k].avgLogprob.Some? ==> segments[k].avgLogprob.value in LogProbs(segments)
  {
    if segments != [] {
      var n := |segments| - 1;
      LogProbsReported(segments[..n]);
      if LogProbs(segments[..n]) != [] {
        var k :| 0 <= k < n && segments[..n][k].avgLogprob.Some?;
        assert segments[k] == segments[..n][k];
      } else {
        forall k | 0 <= k < n ensures segments[k].avgLogprob.None? {
          assert segments[k] == segments[..n][k];
        }
      }
      forall x | x in LogProbs(segments)
        ensures exists k :: 0 <= k < |segments| && segments[k].avgLogprob == Some(x)
      {
        if x in LogProbs(segments[..n]) {
          var k :| 0 <= k < n && segments[..n][k].avgLogprob == Some(x);
          assert segments[k] == segments[..n][k];
        } else {
          assert segments[n].avgLogprob == Some(x);
        }
      }
      forall k | 0 <= k < |segments| && segments[k].avgLogprob.Some?
        ensures segments[k].avgLogprob.value in LogProbs(segments)
      {
        if k < n {
          assert segments[k] == segments[..n][k];
        }
      }
    }
  }

  /** The same for the no-speech probabilities. */
  lemma {:induction false} NoSpeechProbsReported(segments: seq<WhisperSegment>)
    ensures NoSpeechProbs(segments) == [] <==> forall k :: 0 <= k < |segments| ==> segments[k].noSpeechProb.None?
    ensures |NoSpeechProbs(segments)| <= |segments|
    ensures forall x :: x in NoSpeechProbs(segments) ==> exists k :: 0 <= k < |segments| && segments[k].noSpeechProb == Some(x)
    ensures forall k :: 0 <= k < |segments| && segments[k].noSpeechProb.Some? ==> segments[k].noSpeechProb.value in NoSpeechProbs(segments)
  {
    if segments != [] {
      var n := |segments| - 1;
      NoSpeechProbsReported(segments[..n]);
      if NoSpeechProbs(segments[..n]) != [] {
        var k :| 0 <= k < n && segments[..n][k].noSpeechProb.Some?;
        assert segments[k] == segments[..n][k];
      } else {
        forall k | 0 <= k < n ensures segments[k].noSpeechProb.None? {
          assert segments[k] == segments[..n][k];
        }
      }
      forall x | x in NoSpeechProbs(segments)
        ensures exists k :: 0 <= k < |segments| && segments[k].noSpeechProb == Some(x)
      {
        if x in NoSpeechProbs(segments[..n]) {
          var k :| 0 <= k < n && segments[..n][k].noSpeechProb == Some(x);
          assert segments[k] == segments[..n][k];
        } else {
          assert segments[n].noSpeechProb == Some(x);
        }
      }
      forall k | 0 <= k < |segments| && segments[k].noSpeechProb.Some?
        ensures segments[k].noSpeechProb.value in NoSpeechProbs(segments)
      {
        if k < n {
          assert segments[k] == segments[..n][k];
        }
      }
    }
  }

  /** One record per segment, in order, each carrying its segment's times and stripped text. */
  lemma {:induction false} RecordsPerSegment(segments: seq<WhisperSegment>)
    ensures |Records(segments)| == |segments|
    ensures forall k :: 0 <= k < |segments| ==> Records(segments)[k] == Record(segments[k])
  {
    if segments != [] {
      var n := |segments| - 1;
      var prev := Records(segments[..n]);
      RecordsPerSegment(segments[..n]);
      assert Records(segments) == prev + [Record(segments[n])];
      forall k | 0 <= k < n ensures Records(segments)[k] == Record(segments[k]) {
        assert segments[k] == segments[..n][k];
        assert Records(segments)[k] == prev[k];
      }
    }
  }

  /** `Texts` lists the stripped segment texts, one per segment, in order. */
  lemma {:induction false} TextsPerSegment(segments: seq<WhisperSegment>)
    ensures |Texts(segments)| == |segments|
    ensures forall k :: 0 <= k < |segments| ==> Texts(segments)[k] == Strip(segments[k].text)
  {
    if segments != [] {
      var n := |segments| - 1;
      var prev := Texts(segments[..n]);
      TextsPerSegment(segments[..n]);
      assert Texts(segments) == prev + [Strip(segments[n].text)];
      forall k | 0 <= k < n ensures Texts(segments)[k] == Strip(segments[k].text) {
        assert segments[k] == segments[..n][k];
        assert Texts(segments)[k] == prev[k];
      }
    }
  }

  /** Every kept text is non-empty, and one is kept exactly when some text is non-empty. */
  lemma {:induction false} NonEmptyTexts(texts: seq<string>)
    ensures forall k :: 0 <= k < |NonEmpty(texts)| ==> NonEmpty(texts)[k] != ""
    ensures NonEmpty(texts) == [] <==> forall k :: 0 <= k < |texts| ==> texts[k] == ""
  {
    if texts != [] {
      NonEmptyTexts(texts[..|texts| - 1]);
      if NonEmpty(texts[..|texts| - 1]) != [] {
        var k :| 0 <= k < |texts| - 1 && texts[..|texts| - 1][k] != "";
        assert texts[k] != "";
      }
    }
  }

  /** If all reported values lie in [lo, hi], so does their sum's share per value. */
  lemma {:induction false} SumBounds(xs: seq<real>, lo: real, hi: real)
    requires forall k :: 0 <= k < |xs| ==> lo <= xs[k] <= hi
    ensures (|xs| as real) * lo <= Sum(xs) <= (|xs| as real) * hi
  {
    if xs != [] {
      var n := |xs| - 1;
      SumBounds(xs[..n], lo, hi);
      assert Sum(xs) == Sum(xs[..n]) + xs[n];
      assert (|xs| as real) * lo == (n as real) * lo + lo;
      assert (|xs| as real) * hi == (n as real) * hi + hi;
    }
  }

  lemma PositiveFactor(a: real, n: real)
    requires n > 0.0 && a * n >= 0.0
    ensures a >= 0.0
  {
  }

  lemma MeanWithin(xs: seq<real>, lo: real, hi: real)
    requires forall k :: 0 <= k < |xs| ==> lo <= xs[k] <= hi
    ensures Mean(xs).Some? ==> lo <= Mean(xs).value <= hi
  {
    SumBounds(xs, lo, hi);
    if xs != [] {
      var n := |xs| as real;
      var m := Sum(xs) / n;
      assert m * n == Sum(xs);
      assert (m - lo) * n >= 0.0 && (hi - m) * n >= 0.0;
      PositiveFactor(m - lo, n);
      PositiveFactor(hi - m, n);
    }
  }

  /** The text is empty exactly when every stripped segment text is empty. */
  lemma TranscriptTextEmpty(segments: seq<WhisperSegment>, language: Option<string>)
    ensures TranscriptOf(segments, language).text == ""
            <==> forall k :: 0 <= k < |segments| ==> Strip(segments[k].text) == ""
  {
    var texts := Texts(segments);
    TextsPerSegment(segments);
    NonEmptyTexts(texts);
    JoinEmpty(NonEmpty(texts), " ");
  }

  /** Each average is absent exactly when no segment reported that metric. */
  lemma TranscriptAverages(segments: seq<WhisperSegment>, language: Option<string>)
    ensures var r := TranscriptOf(segments, language);
            (r.avgLogprob.None? <==> forall k :: 0 <= k < |segments| ==> segments[k].avgLogprob.None?)
            && (r.noSpeechProb.None? <==> forall k :: 0 <= k < |segments| ==> segments[k].noSpeechProb.None?)
  {
    LogProbsReported(segments);
    NoSpeechProbsReported(segments);
  }

  /** When every segment reports its no-speech probability within [0, 1], the
      average does too. */
  lemma TranscriptNoSpeechWithin(segments: seq<WhisperSegment>, language: Option<string>)
    requires forall k :: 0 <= k < |segments| && segments[k].noSpeechProb.Some? ==>
               0.0 <= segments[k].noSpeechProb.value <= 1.0
    ensures var r := TranscriptOf(segments, language);
            r.noSpeechProb.Some? ==> 0.0 <= r.noSpeechProb.value <= 1.0
  {
    var xs := NoSpeechProbs(segments);
    NoSpeechProbsReported(segments);
    forall j | 0 <= j < |xs| ensures 0.0 <= xs[j] <= 1.0 {
      assert xs[j] in xs;
    }
    MeanWithin(xs, 0.0, 1.0);
  }

  /** No segments: empty text and both averages absent. */
  lemma TranscriptOfNothing(language: Option<string>)
    ensures TranscriptOf([], language) == AsrResult("", language, [], None, None)
  {
  }
}
