/** The five blocks of raw samples that Audio/Audio.c keeps for the sound alarm.

  The capture loop puts every sample into the current block and moves on when the block is full; the
  alarm thread takes the block before the current one.
 */
module AlarmBlocks {
  const BLOCKS := 5      // AUDIO_ALARM_BUF_SIZE
  const LENGTH := 1024   // AUDIO_ALARM_DATA_LEN

  /** The sample that the cell should hold is still wanted: it is in the current block or one of the
      four before it. */
  predicate Recent(stream: seq<int>, t: int) {
    |stream| / LENGTH <= t / LENGTH + BLOCKS - 1
  }

  /** A sample's cell. */
  function Row(t: nat): nat {
    t / LENGTH % BLOCKS
  }

  lemma CellsDiffer(stream: seq<int>, t: nat)
    requires t < |stream| && Recent(stream, t)
    ensures Row(t) != Row(|stream|) || t % LENGTH != |stream| % LENGTH
  {
    if t / LENGTH == |stream| / LENGTH {
      assert t % LENGTH != |stream| % LENGTH;
    } else {
      assert t / LENGTH < |stream| / LENGTH;
    }
  }

  /** How the cell moves on. */
  lemma NextCell(n: nat)
    ensures (n + 1) % LENGTH == if n % LENGTH + 1 == LENGTH then 0 else n % LENGTH + 1
    ensures Row(n + 1) == if n % LENGTH + 1 < LENGTH then Row(n) else if Row(n) + 1 == BLOCKS then 0 else Row(n) + 1
  {
  }

  /** The latest complete run of LENGTH consecutive samples. */
  function LatestBlock(stream: seq<int>): (r: seq<int>)
    requires LENGTH <= |stream|
    ensures |r| == LENGTH
  {
    var first := (|stream| / LENGTH - 1) * LENGTH;
    stream[first..first + LENGTH]
  }

  /** It ends less than a block before the newest sample, and stays the same until the current block
      is full. */
  lemma LatestBlockIsLatest(stream: seq<int>, more: seq<int>)
    requires LENGTH <= |stream|
    ensures exists first: nat :: first % LENGTH == 0 && first + LENGTH <= |stream| < first + 2 * LENGTH
                               && LatestBlock(stream) == stream[first..first + LENGTH]
    ensures |stream| % LENGTH + |more| < LENGTH ==> LatestBlock(stream + more) == LatestBlock(stream)
  {
    var first := (|stream| / LENGTH - 1) * LENGTH;
    assert first % LENGTH == 0 && first + LENGTH <= |stream| < first + 2 * LENGTH;
    if |stream| % LENGTH + |more| < LENGTH {
      assert |stream + more| / LENGTH == |stream| / LENGTH;
      assert (stream + more)[first..first + LENGTH] == stream[first..first + LENGTH];
    }
  }

  class AudioCapture {
    const nAlarmAudioBuf: array2<int>
    var byteAlarmBufIndex: int
    var iAlarmBufCount: int
    /** Every sample since the last reset. */
    ghost var stream: seq<int>

    ghost predicate Valid()
      reads this, nAlarmAudioBuf
    {
      && nAlarmAudioBuf.Length0 == BLOCKS && nAlarmAudioBuf.Length1 == LENGTH
      && byteAlarmBufIndex == Row(|stream|)
      && iAlarmBufCount == |stream| % LENGTH
      && Holds(stream)
    }

    constructor ()
      ensures Valid() && fresh(nAlarmAudioBuf) && stream == []
    {
      nAlarmAudioBuf := new int[BLOCKS, LENGTH]((_, _) => 0);
      byteAlarmBufIndex, iAlarmBufCount, stream := 0, 0, [];
    }

    /** Every recent sample of the stream is in its cell. */
    ghost predicate Holds(stream: seq<int>)
      requires nAlarmAudioBuf.Length0 == BLOCKS && nAlarmAudioBuf.Length1 == LENGTH
      reads nAlarmAudioBuf
    {
      forall t :: 0 <= t < |stream| && Recent(stream, t) ==> nAlarmAudioBuf[Row(t), t % LENGTH] == stream[t]
    }

    method StoreSample(x: int)
      requires Valid()
      modifies this, nAlarmAudioBuf
      ensures Valid() && stream == old(stream) + [x]
    {
      NextCell(|stream|);
      PutSample(x);
      iAlarmBufCount := iAlarmBufCount + 1;
      if LENGTH <= iAlarmBufCount {
        byteAlarmBufIndex := byteAlarmBufIndex + 1;
        if byteAlarmBufIndex == 5 {
          byteAlarmBufIndex := 0;
        }
        iAlarmBufCount := 0;
      }
      stream := stream + [x];
    }

    /** The store itself: the cell of the next sample is none of those still wanted. */
    method PutSample(x: int)
      requires Valid()
      modifies nAlarmAudioBuf
      ensures Holds(stream + [x])
    {
      ghost var next := stream + [x];
      forall t | 0 <= t < |stream| && Recent(next, t)
        ensures Recent(stream, t) && (Row(t) != byteAlarmBufIndex || t % LENGTH != iAlarmBufCount)
      {
        CellsDiffer(stream, t);
      }
      nAlarmAudioBuf[byteAlarmBufIndex, iAlarmBufCount] := x;
    }

    /** The samples of a package, as many as the device delivered. */
    method CapturePackage(samples: seq<int>)
      requires Valid()
      modifies this, nAlarmAudioBuf
      ensures Valid() && stream == old(stream) + samples
    {
      var i := 0;
      while i < |samples|
        invariant 0 <= i <= |samples| && Valid() && stream == old(stream) + samples[..i]
      {
        StoreSample(samples[i]);
        i := i + 1;
      }
    }

    /** The block before the current one: once a block is complete, the latest complete run. */
    method GetAlarmAudioFrame() returns (index: int)
      requires Valid()
      ensures 0 <= index < BLOCKS && index != byteAlarmBufIndex
      ensures LENGTH <= |stream| ==>
                forall c :: 0 <= c < LENGTH ==> nAlarmAudioBuf[index, c] == LatestBlock(stream)[c]
    {
      index := byteAlarmBufIndex - 1;
      if index < 0 {
        index := index + BLOCKS;
      }
      if LENGTH <= |stream| {
        BlockStays(stream);
      }
    }

    /** A block that was the latest when the stream was `was` is still whole while fewer than four
        more blocks have been completed. */
    lemma BlockStays(was: seq<int>)
      requires Valid() && LENGTH <= |was| && was <= stream && |stream| / LENGTH < |was| / LENGTH + BLOCKS - 1
      ensures forall c :: 0 <= c < LENGTH ==> nAlarmAudioBuf[Row(|was| - LENGTH), c] == LatestBlock(was)[c]
    {
      var first := (|was| / LENGTH - 1) * LENGTH;
      forall c | 0 <= c < LENGTH ensures nAlarmAudioBuf[Row(|was| - LENGTH), c] == LatestBlock(was)[c] {
        var t := first + c;
        assert t / LENGTH == |was| / LENGTH - 1 && t % LENGTH == c;
        assert Recent(stream, t) && Row(t) == Row(|was| - LENGTH);
      }
    }
  }
}
