/** The recorder's frame queue: the capture callback enqueues one block of samples
    per audio frame, and draining takes every queued block, in order, and writes
    their concatenation as one sound file. A block is a sequence of sample rows
    (one value per channel), so its length is its sample count. */
module LiveRecorder {
  import opened Basics
  import opened StreamingAsr

  /** A written sound file. */
  datatype SoundFile<T> = SoundFile(path: string, rows: seq<T>, sampleRate: int)

  /** The FIFO `queue.Queue` of blocks, used sequentially. */
  class AudioQueue<T> {
    var items: seq<seq<T>>

    constructor ()
      ensures items == []
    {
      items := [];
    }

    /** `put`: one block at the tail. */
    method Put(block: seq<T>)
      modifies this
      ensures items == old(items) + [block]
    {
      items := items + [block];
    }

    /** `get_nowait`: the head block, or nothing (`queue.Empty`) when the queue is empty. */
    method GetNowait() returns (r: Option<seq<T>>)
      modifies this
      ensures old(items) == [] ==> r == None && items == []
      ensures old(items) != [] ==> r == Some(old(items)[0]) && items == old(items)[1..]
    {
      if items == [] {
        return None;
      }
      r := Some(items[0]);
      items := items[1..];
    }
  }

  /** `push_audio_frame`: the frame's block is enqueued at the tail. */
  method PushAudioFrame<T>(q: AudioQueue<T>, block: seq<T>)
    modifies q
    ensures q.items == old(q.items) + [block]
  {
    q.Put(block);
  }

  /** `drain_audio_to_wav`: empties the queue; returns the drained sample count and the
      written file, which holds the drained blocks in FIFO order and is written only
      when some block was drained. */
  method DrainAudioToWav<T>(q: AudioQueue<T>, path: string, sampleRate: int := 48000)
    returns (total: int, written: Option<SoundFile<T>>)
    modifies q
    ensures q.items == []
    ensures total == TotalSamples(old(q.items))
    ensures old(q.items) == [] ==> written == None
    ensures old(q.items) != [] ==> written == Some(SoundFile(path, Concat(old(q.items)), sampleRate))
  {
    var chunks: seq<seq<T>> := [];
    total := 0;
    while true
      invariant chunks + q.items == old(q.items)
      invariant total == TotalSamples(chunks)
      decreases |q.items|
    {
      var x := q.GetNowait();
      if x.None? {
        break;
      }
      ConcatAppend(chunks, x.value);
      chunks := chunks + [x.value];
      total := total + |x.value|;
    }
    assert chunks == old(q.items);
    if chunks == [] {
      return 0, None;
    }
    var audio := Concat(chunks);
    written := Some(SoundFile(path, audio, sampleRate));
  }

  /** Blocks pushed after others are drained after them: concatenation and counting
      distribute over consecutive runs of blocks. */
  lemma {:induction false} ConcatOfAppended<T>(a: seq<seq<T>>, b: seq<seq<T>>)
    ensures Concat(a + b) == Concat(a) + Concat(b)
    ensures TotalSamples(a + b) == TotalSamples(a) + TotalSamples(b)
  {
    if b != [] {
      var n := |b| - 1;
      ConcatOfAppended(a, b[..n]);
      assert (a + b)[..|a + b| - 1] == a + b[..n];
    } else {
      assert a + b == a;
    }
  }
}
