/** The live-microphone session: PCM blocks are buffered as they arrive, and once
    the buffered audio lasts at least the chunk length the whole buffer is written
    out as one chunk and cleared. The running transcript grows by the stripped text
    of each transcribed chunk. Audio blocks are sequences of 16-bit samples; the WAV
    file writes are the session's sequence of emitted chunks. */
module StreamingAsr {
  import opened Basics
  import opened Text

  /** One written WAV chunk: where it went, what it holds, at which sample rate. */
  datatype WavChunk = WavChunk(path: string, samples: seq<int>, sampleRate: int)

  /** `sum(x.shape[0] for x in blocks)`. */
  function TotalSamples<T>(blocks: seq<seq<T>>): nat {
    if blocks == [] then 0 else TotalSamples(blocks[..|blocks| - 1]) + |blocks[|blocks| - 1]|
  }

  /** `np.concatenate(blocks, axis=0)`: the blocks' samples in arrival order. */
  function Concat<T>(blocks: seq<seq<T>>): seq<T> {
    if blocks == [] then [] else Concat(blocks[..|blocks| - 1]) + blocks[|blocks| - 1]
  }

  /** All samples of the emitted chunks, in emission order. */
  function EmittedSamples(chunks: seq<WavChunk>): seq<int> {
    if chunks == [] then [] else EmittedSamples(chunks[..|chunks| - 1]) + chunks[|chunks| - 1].samples
  }

  /** `_buffer_duration_seconds`: buffered samples over the sample rate, 0 for an empty buffer. */
  function Duration(blocks: seq<seq<int>>, sampleRate: int): (d: real)
    requires sampleRate > 0
    ensures d >= 0.0
    ensures d == 0.0 <==> TotalSamples(blocks) == 0
  {
    if blocks == [] then 0.0 else (TotalSamples(blocks) as real) / (sampleRate as real)
  }

  /** The concatenation holds exactly the counted samples. */
  lemma {:induction false} ConcatLength<T>(blocks: seq<seq<T>>)
    ensures |Concat(blocks)| == TotalSamples(blocks)
  {
    if blocks != [] {
      ConcatLength(blocks[..|blocks| - 1]);
    }
  }

  /** Appending one block appends its samples. */
  lemma ConcatAppend<T>(blocks: seq<seq<T>>, block: seq<T>)
    ensures Concat(blocks + [block]) == Concat(blocks) + block
    ensures TotalSamples(blocks + [block]) == TotalSamples(blocks) + |block|
  {
    assert (blocks + [block])[..|blocks|] == blocks;
  }

  /** Emitting one more chunk appends its samples. */
  lemma EmittedAppend(chunks: seq<WavChunk>, chunk: WavChunk)
    ensures EmittedSamples(chunks + [chunk]) == EmittedSamples(chunks) + chunk.samples
  {
    assert (chunks + [chunk])[..|chunks|] == chunks;
  }

  /** The empty-buffer case of the duration agrees with the general formula. */
  lemma DurationIsRate(blocks: seq<seq<int>>, sampleRate: int)
    requires sampleRate > 0
    ensures Duration(blocks, sampleRate) == (TotalSamples(blocks) as real) / (sampleRate as real)
  {
  }

  /** A zero-sample block changes neither the sample count nor the duration. */
  lemma EmptyBlockKeepsDuration(blocks: seq<seq<int>>, sampleRate: int)
    requires sampleRate > 0
    ensures TotalSamples(blocks + [[]]) == TotalSamples(blocks)
    ensures Duration(blocks + [[]], sampleRate) == Duration(blocks, sampleRate)
  {
    ConcatAppend(blocks, []);
  }

  /** The buffer is ready exactly when it holds at least `chunkSeconds * sampleRate` samples. */
  lemma ReadyIffSamples(blocks: seq<seq<int>>, sampleRate: int, chunkSeconds: real)
    requires sampleRate > 0
    ensures Duration(blocks, sampleRate) >= chunkSeconds
            <==> (TotalSamples(blocks) as real) >= chunkSeconds * (sampleRate as real)
  {
    var d := Duration(blocks, sampleRate);
    DurationIsRate(blocks, sampleRate);
    assert d * (sampleRate as real) == TotalSamples(blocks) as real;
    QuotientOrder(d, chunkSeconds, sampleRate as real, TotalSamples(blocks) as real);
  }

  /** When `d * k == n` for a positive `k`, `d` reaches `c` exactly when `n` reaches `c * k`. */
  lemma QuotientOrder(d: real, c: real, k: real, n: real)
    requires k > 0.0 && d * k == n
    ensures d >= c <==> n >= c * k
  {
    assert (d - c) * k == n - c * k;
    if d >= c {
      assert (d - c) * k >= 0.0;
    } else {
      assert (c - d) * k > 0.0;
    }
  }

  /** `(full_text + " " + text.strip()).strip()` when the stripped chunk text is non-empty
      (the live path's rule); an empty chunk text leaves the transcript as it is. */
  function AppendTranscript(fullText: string, text: string): (r: string)
    ensures Stripped(r) || r == fullText
  {
    var partial := Strip(text);
    if partial != "" then Strip(fullText + " " + partial) else fullText
  }

  /** On a stripped transcript, appending only ever adds the new text after one space. */
  lemma AppendTranscriptExtends(fullText: string, text: string)
    requires Stripped(fullText)
    ensures Stripped(AppendTranscript(fullText, text))
    ensures Strip(text) == "" ==> AppendTranscript(fullText, text) == fullText
    ensures Strip(text) != "" && fullText == "" ==> AppendTranscript(fullText, text) == Strip(text)
    ensures Strip(text) != "" && fullText != "" ==> AppendTranscript(fullText, text) == fullText + " " + Strip(text)
  {
    var partial := Strip(text);
    if partial != "" {
      if fullText == "" {
        assert fullText + " " + partial == " " + partial;
        StripSpaceBefore(partial);
      } else {
        SpaceJoinStripped(fullText, partial);
        StrippedIsFixed(fullText + " " + partial);
      }
    }
  }

  /** What `pop_chunk_if_ready` can end in: no chunk yet, a chunk written to a path,
      or the `ValueError` that `np.concatenate` raises on an empty list of blocks. */
  datatype PopResult = NotReady | Written(path: string) | EmptyConcatError

  class StreamingAsrSession {
    const sampleRate: int
    /** Reassigned from the chunk-size slider on every rerun of the page. */
    var chunkSeconds: real
    var bufferPcm: seq<seq<int>>
    var partialText: string
    var fullText: string
    var lastChunkWav: Option<string>
    /** The chunk files written so far, in order. */
    var emitted: seq<WavChunk>
    /** Every sample pushed since the session began. */
    ghost var pushed: seq<int>

    /** No sample is lost or duplicated: the written chunks followed by the buffer are
        exactly the pushed samples; the running transcript is kept stripped. */
    ghost predicate Valid()
      reads this
    {
      && sampleRate > 0
      && EmittedSamples(emitted) + Concat(bufferPcm) == pushed
      && Stripped(fullText)
    }

    constructor (sampleRate: int := 48000, chunkSeconds: real := 2.5)
      requires sampleRate > 0
      ensures this.sampleRate == sampleRate && this.chunkSeconds == chunkSeconds
      ensures bufferPcm == [] && partialText == "" && fullText == ""
      ensures lastChunkWav == None && emitted == []
      ensures Valid()
    {
      this.sampleRate := sampleRate;
      this.chunkSeconds := chunkSeconds;
      bufferPcm := [];
      partialText := "";
      fullText := "";
      lastChunkWav := None;
      emitted := [];
      pushed := [];
    }

    /** `push_frame`: one block at the end of the buffer. */
    method PushFrame(pcm: seq<int>)
      requires Valid()
      modifies this
      ensures Valid()
      ensures bufferPcm == old(bufferPcm) + [pcm]
      ensures pushed == old(pushed) + pcm
      ensures partialText == old(partialText) && fullText == old(fullText)
      ensures lastChunkWav == old(lastChunkWav) && emitted == old(emitted)
      ensures chunkSeconds == old(chunkSeconds)
    {
      ConcatAppend(bufferPcm, pcm);
      assert EmittedSamples(emitted) + Concat(bufferPcm + [pcm]) == pushed + pcm;
      bufferPcm := bufferPcm + [pcm];
      pushed := pushed + pcm;
    }

    /** The chunk-size slider writes the session's `chunk_seconds` on every rerun. */
    method SetChunkSeconds(chunkSeconds: real)
      requires Valid()
      modifies this
      ensures Valid()
      ensures this.chunkSeconds == chunkSeconds
      ensures bufferPcm == old(bufferPcm) && pushed == old(pushed) && emitted == old(emitted)
      ensures partialText == old(partialText) && fullText == old(fullText)
      ensures lastChunkWav == old(lastChunkWav)
    {
      this.chunkSeconds := chunkSeconds;
    }

    /** `pop_chunk_if_ready`: below the chunk length nothing happens; otherwise the whole
        buffer is written to `chunkPath` as one chunk and the buffer is cleared. An empty
        buffer counts as ready only when `chunk_seconds <= 0`, and then the concatenation
        raises before anything changes. */
    method PopChunkIfReady(chunkPath: string) returns (r: PopResult)
      requires Valid()
      modifies this
      ensures Valid()
      ensures pushed == old(pushed) && chunkSeconds == old(chunkSeconds)
      ensures partialText == old(partialText) && fullText == old(fullText)
      ensures Duration(old(bufferPcm), sampleRate) < chunkSeconds ==>
                r == NotReady && bufferPcm == old(bufferPcm) && lastChunkWav == old(lastChunkWav)
                && emitted == old(emitted)
      ensures Duration(old(bufferPcm), sampleRate) >= chunkSeconds && old(bufferPcm) == [] ==>
                r == EmptyConcatError && bufferPcm == old(bufferPcm) && lastChunkWav == old(lastChunkWav)
                && emitted == old(emitted)
      ensures Duration(old(bufferPcm), sampleRate) >= chunkSeconds && old(bufferPcm) != [] ==>
                r == Written(chunkPath) && bufferPcm == [] && lastChunkWav == Some(chunkPath)
                && emitted == old(emitted) + [WavChunk(chunkPath, Concat(old(bufferPcm)), sampleRate)]
    {
      if Duration(bufferPcm, sampleRate) < chunkSeconds {
        return NotReady;
      }
      if bufferPcm == [] {
        return EmptyConcatError;
      }
      var pcm16 := Concat(bufferPcm);
      var chunk := WavChunk(chunkPath, pcm16, sampleRate);
      EmittedAppend(emitted, chunk);
      bufferPcm := [];
      emitted := emitted + [chunk];
      lastChunkWav := Some(chunkPath);
      return Written(chunkPath);
    }

    /** The transcript update after a chunk is transcribed: the partial text is the
        stripped chunk text, appended to the running transcript when non-empty. */
    method AcceptTranscript(text: string)
      requires Valid()
      modifies this
      ensures Valid()
      ensures partialText == Strip(text)
      ensures fullText == AppendTranscript(old(fullText), text)
      ensures bufferPcm == old(bufferPcm) && emitted == old(emitted) && pushed == old(pushed)
      ensures lastChunkWav == old(lastChunkWav) && chunkSeconds == old(chunkSeconds)
    {
      AppendTranscriptExtends(fullText, text);
      partialText := Strip(text);
      if partialText != "" {
        fullText := Strip(fullText + " " + partialText);
      }
    }
  }

  /** Three 40000-sample blocks at 48 kHz fill a 2.5-second chunk; two do not. */
  lemma ThreeBlocksFillDefaultChunk(a: seq<int>, b: seq<int>, c: seq<int>)
    requires |a| == |b| == |c| == 40000
    ensures Duration([a, b], 48000) < 2.5
    ensures Duration([a, b, c], 48000) >= 2.5
  {
    assert [a, b][..1] == [a] && [a, b, c][..2] == [a, b] && [a][..0] == [];
    assert TotalSamples([a]) == 40000;
    assert TotalSamples([a, b]) == 80000;
    assert TotalSamples([a, b, c]) == 120000;
  }
}
