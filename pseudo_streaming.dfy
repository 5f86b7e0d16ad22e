/** Splitting a WAV recording into fixed-length chunk files for pseudo-streaming:
    chunk `i` starts at frame `i * framesPerChunk` and holds up to `framesPerChunk`
    frames, and there are `ceil(nframes / framesPerChunk)` chunks. The file reads
    and writes are modelled on values: the input file is its parameters and frame
    sequence, and the written chunk files are returned with their paths. */
module PseudoStreaming {
  import opened Text
  import opened StreamingAsr

  /** A WAV file: its header parameters and its frames (one sample per channel each). */
  datatype WavFile = WavFile(nchannels: int, sampwidth: int, framerate: int, frames: seq<seq<int>>)

  /** `int(framerate * chunk_seconds)`: the product truncated toward zero. */
  function FramesPerChunk(framerate: int, chunkSeconds: real): (fpc: int)
    ensures var x := (framerate as real) * chunkSeconds;
            (x >= 0.0 ==> 0 <= fpc && fpc as real <= x < fpc as real + 1.0)
            && (x < 0.0 ==> fpc <= 0 && fpc as real - 1.0 < x <= fpc as real)
  {
    var x := (framerate as real) * chunkSeconds;
    if x >= 0.0 then x.Floor else -((-x).Floor)
  }

  /** `int(math.ceil(nframes / frames_per_chunk))`, computed exactly. */
  function ChunkCount(nframes: nat, fpc: int): (c: int)
    requires fpc != 0
    ensures (c as real) - 1.0 < (nframes as real) / (fpc as real) <= c as real
  {
    if fpc > 0 then
      var q := (nframes + fpc - 1) / fpc;
      CeilingBounds(nframes, fpc, q);
      q
    else
      var q := nframes / -fpc;
      FloorBounds(nframes, -fpc, q);
      -q
  }

  /** `q = (n + d - 1) / d` is the least integer with `n <= q * d`. */
  lemma CeilingBounds(n: nat, d: int, q: int)
    requires d > 0 && q == (n + d - 1) / d
    ensures (q as real) - 1.0 < (n as real) / (d as real) <= q as real
  {
    var rem := (n + d - 1) % d;
    assert n + d - 1 == q * d + rem && 0 <= rem < d;
    assert (q - 1) * d < n <= q * d;
    RealDivBounds(n, d, q - 1, q);
  }

  /** `q = n / d` is the greatest integer with `q * d <= n`. */
  lemma FloorBounds(n: nat, d: int, q: int)
    requires d > 0 && q == n / d
    ensures (q as real) <= (n as real) / (d as real) < (q as real) + 1.0
    ensures -(q as real) - 1.0 < (n as real) / (-d as real) <= -(q as real)
  {
    var rem := n % d;
    assert n == q * d + rem && 0 <= rem < d;
    assert q * d <= n < (q + 1) * d;
    var x := (n as real) / (d as real);
    assert x * (d as real) == n as real;
    assert ((q * d) as real) == (q as real) * (d as real);
    assert (((q + 1) * d) as real) == ((q + 1) as real) * (d as real);
    assert (q as real) * (d as real) <= x * (d as real);
    assert x * (d as real) < ((q + 1) as real) * (d as real);
    LessAfterScaling(q as real, x, d as real);
    LessAfterScaling(x, (q + 1) as real, d as real);
    assert (n as real) / (-d as real) == -x;
  }

  /** For positive `d`, `lo * d < n <= hi * d` bounds `n / d` the same way. */
  lemma RealDivBounds(n: int, d: int, lo: int, hi: int)
    requires d > 0 && lo * d < n <= hi * d
    ensures (lo as real) < (n as real) / (d as real) <= hi as real
  {
    var x := (n as real) / (d as real);
    assert x * (d as real) == n as real;
    assert ((lo * d) as real) == (lo as real) * (d as real);
    assert ((hi * d) as real) == (hi as real) * (d as real);
    assert (lo as real) * (d as real) < x * (d as real);
    assert x * (d as real) <= (hi as real) * (d as real);
    StrictAfterScaling(lo as real, x, d as real);
    LessAfterScaling(x, hi as real, d as real);
  }

  lemma LessAfterScaling(a: real, b: real, d: real)
    requires d > 0.0 && a * d <= b * d
    ensures a <= b
  {
    assert (b - a) * d == b * d - a * d;
  }

  lemma StrictAfterScaling(a: real, b: real, d: real)
    requires d > 0.0 && a * d < b * d
    ensures a < b
  {
    assert (b - a) * d == b * d - a * d;
  }

  /** The frames chunk `i` reads: from `i * fpc`, at most `fpc` of them. */
  function ChunkFrames(frames: seq<seq<int>>, fpc: int, i: nat): seq<seq<int>>
    requires fpc > 0 && i * fpc <= |frames|
  {
    var pos := i * fpc;
    frames[pos .. if pos + fpc < |frames| then pos + fpc else |frames|]
  }

  /** Chunk `i` as written: the source's parameters and the chunk's frames. */
  function ChunkFile(wav: WavFile, fpc: int, i: nat): WavFile
    requires fpc > 0 && i * fpc <= |wav.frames|
  {
    WavFile(wav.nchannels, wav.sampwidth, wav.framerate, ChunkFrames(wav.frames, fpc, i))
  }

  /** With a positive frame count per chunk, `c` chunks of `fpc` frames are just enough
      for `n` frames: `c - 1` of them are too few, and there are none only for an empty file. */
  lemma ChunkCountBounds(n: nat, fpc: int)
    requires fpc > 0
    ensures var c := ChunkCount(n, fpc);
            c >= 0 && (c - 1) * fpc < n <= c * fpc && (c == 0 <==> n == 0)
  {
    var c := ChunkCount(n, fpc);
    assert c == (n + fpc - 1) / fpc;
    var rem := (n + fpc - 1) % fpc;
    assert n + fpc - 1 == c * fpc + rem && 0 <= rem < fpc;
    assert c * fpc == n + fpc - 1 - rem;
    assert (c - 1) * fpc == c * fpc - fpc;
    if c < 0 {
      MulMonotone(c, -1, fpc);
    }
  }

  lemma MulMonotone(a: int, b: int, k: int)
    requires a <= b && k >= 0
    ensures a * k <= b * k
  {
    assert b * k - a * k == (b - a) * k;
  }

  /** Every chunk index below the count starts inside the file. */
  lemma ChunkStartsInside(n: nat, fpc: int, i: nat)
    requires fpc > 0 && i < ChunkCount(n, fpc)
    ensures i * fpc < n
  {
    var c := ChunkCount(n, fpc);
    ChunkCountBounds(n, fpc);
    MulMonotone(i, c - 1, fpc);
  }

  /** `split_wav_to_chunks`: the chunk loop, with the source's `setpos`/`readframes`
      positions; reading past the end stops the loop. */
  method SplitWavToChunks(wav: WavFile, chunkSeconds: real, chunkPath: nat -> string)
    returns (outPaths: seq<string>, written: seq<WavFile>)
    requires FramesPerChunk(wav.framerate, chunkSeconds) != 0
    ensures var fpc := FramesPerChunk(wav.framerate, chunkSeconds);
            var c := ChunkCount(|wav.frames|, fpc);
            |outPaths| == |written| == (if c > 0 then c else 0)
            && forall i :: 0 <= i < |written| ==>
                 fpc > 0 && i * fpc < |wav.frames|
                 && written[i] == ChunkFile(wav, fpc, i) && outPaths[i] == chunkPath(i)
  {
    var n := |wav.frames|;
    var fpc := FramesPerChunk(wav.framerate, chunkSeconds);
    var total := ChunkCount(n, fpc);
    outPaths := [];
    written := [];
    var i := 0;
    while i < total
      invariant 0 <= i && (i <= total || i == 0)
      invariant |outPaths| == |written| == i
      invariant forall k :: 0 <= k < i ==>
                  fpc > 0 && k * fpc < n && written[k] == ChunkFile(wav, fpc, k) && outPaths[k] == chunkPath(k)
    {
      if fpc < 0 {
        NegativeFramesPerChunk(n, fpc);
        assert false;
      }
      ChunkStartsInside(n, fpc, i);
      var pos := i * fpc;
      var frames := wav.frames[pos .. if pos + fpc < n then pos + fpc else n];
      if frames == [] {
        break;
      }
      written := written + [WavFile(wav.nchannels, wav.sampwidth, wav.framerate, frames)];
      outPaths := outPaths + [chunkPath(i)];
      i := i + 1;
    }
  }

  /** A negative frame count per chunk (a negative chunk length) yields no chunks. */
  lemma NegativeFramesPerChunk(n: nat, fpc: int)
    requires fpc < 0
    ensures ChunkCount(n, fpc) <= 0
  {
  }

  /** The chunks before the last are full, and the last one holds the remainder, at least one frame. */
  lemma ChunkSizes(frames: seq<seq<int>>, fpc: int, i: nat)
    requires fpc > 0 && i < ChunkCount(|frames|, fpc)
    ensures i * fpc <= |frames|
    ensures i < ChunkCount(|frames|, fpc) - 1 ==> |ChunkFrames(frames, fpc, i)| == fpc
    ensures i == ChunkCount(|frames|, fpc) - 1 ==> 0 < |ChunkFrames(frames, fpc, i)| <= fpc
  {
    ChunkStartsInside(|frames|, fpc, i);
    if i < ChunkCount(|frames|, fpc) - 1 {
      ChunkStartsInside(|frames|, fpc, i + 1);
      assert (i + 1) * fpc == i * fpc + fpc;
    }
  }

  /** All frames of the first `j` chunks, in order. */
  function JoinedFrames(frames: seq<seq<int>>, fpc: int, j: nat): seq<seq<int>>
    requires fpc > 0 && j <= ChunkCount(|frames|, fpc)
  {
    if j == 0 then []
    else
      ChunkSizes(frames, fpc, j - 1);
      JoinedFrames(frames, fpc, j - 1) + ChunkFrames(frames, fpc, j - 1)
  }

  /** The first `j` chunks are the frames up to the `j`-th chunk boundary. */
  lemma {:induction false} JoinedFramesPrefix(frames: seq<seq<int>>, fpc: int, j: nat)
    requires fpc > 0 && j <= ChunkCount(|frames|, fpc)
    ensures JoinedFrames(frames, fpc, j) == frames[..if j * fpc < |frames| then j * fpc else |frames|]
  {
    if j > 0 {
      JoinedFramesPrefix(frames, fpc, j - 1);
      ChunkStartsInside(|frames|, fpc, j - 1);
      var lo := (j - 1) * fpc;
      assert j * fpc == lo + fpc;
      var hi := if j * fpc < |frames| then j * fpc else |frames|;
      assert frames[..lo] + frames[lo..hi] == frames[..hi];
    }
  }

  /** The chunks, concatenated in order, give back every frame of the file. */
  lemma ChunksCoverFrames(frames: seq<seq<int>>, fpc: int)
    requires fpc > 0
    ensures JoinedFrames(frames, fpc, ChunkCount(|frames|, fpc)) == frames
  {
    var c := ChunkCount(|frames|, fpc);
    ChunkCountBounds(|frames|, fpc);
    JoinedFramesPrefix(frames, fpc, c);
    assert frames[..|frames|] == frames;
  }

  /** The transcript update of the pseudo-streaming loop: a non-empty chunk text is
      stripped and appended after a space, and the whole is stripped again. */
  function AppendChunkText(fullText: string, text: string): (r: string)
    ensures text != "" ==> Stripped(r)
    ensures text == "" ==> r == fullText
  {
    if text != "" then Strip(fullText + " " + Strip(text)) else fullText
  }

  /** On a stripped transcript the pseudo-streaming rule, which tests the raw text, and
      the live rule, which tests the stripped text, agree. */
  lemma AppendRulesAgree(fullText: string, text: string)
    requires Stripped(fullText)
    ensures AppendChunkText(fullText, text) == AppendTranscript(fullText, text)
  {
    if text != "" && Strip(text) == "" {
      assert fullText + " " + Strip(text) == fullText + " ";
      StripSpaceAfter(fullText);
    }
  }
}
