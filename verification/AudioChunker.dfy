/**
 * The audio re-chunker: deliveries of any size are copied into one accumulator, and every time it
 * is full its frames go out as one numbered chunk. A frame holds one sample for each channel.
 */
module AudioChunker {
  import opened Sequences

  type Frame = seq<real>

  const DEFAULT_FRAMES_PER_CHUNK := 480

  datatype Chunk = Chunk(payload: seq<Frame>, seqNumber: nat, frameIndex: nat, timestamp: int)

  /** What became of a full accumulator: handed to a valid publisher at some time, or dropped. */
  datatype Fate = Handed(timestamp: int) | Dropped

  // ---------------------------------------------------------------------------------------
  // Blocks of a stream
  // ---------------------------------------------------------------------------------------

  /** The full blocks of a stream, and what is left behind them. */
  function Blocks<T>(s: seq<T>, size: nat): (blocks: seq<seq<T>>)
    requires size > 0
    ensures forall i :: 0 <= i < |blocks| ==> |blocks[i]| == size
  {
    if |s| < size then [] else [s[..size]] + Blocks(s[size..], size)
  }

  function Rest<T>(s: seq<T>, size: nat): (rest: seq<T>)
    requires size > 0
    ensures |rest| < size
  {
    if |s| < size then s else Rest(s[size..], size)
  }

  /** Nothing is lost, repeated or put out of order. */
  lemma {:induction false} BlocksAndRest<T>(s: seq<T>, size: nat)
    requires size > 0
    ensures Flatten(Blocks(s, size)) + Rest(s, size) == s
  {
    if |s| < size {
      assert Flatten(Blocks(s, size)) == [];
    } else {
      BlocksAndRest(s[size..], size);
      FirstBlock(s, size);
      hide Blocks, Rest, Flatten;
      var first, blocks, rest := s[..size], Blocks(s[size..], size), Rest(s[size..], size);
      FlattenPrepends(first, blocks);
      assert first + Flatten(blocks) + rest == first + (Flatten(blocks) + rest);
      assert first + s[size..] == s;
    }
  }

  lemma FirstBlock<T>(s: seq<T>, size: nat)
    requires 0 < size <= |s|
    ensures Blocks(s, size) == [s[..size]] + Blocks(s[size..], size) && Rest(s, size) == Rest(s[size..], size)
  {
  }

  /** A piece that does not overfill the last block either stays behind it or completes it. */
  lemma {:induction false} BlocksGrow<T>(s: seq<T>, t: seq<T>, size: nat)
    requires size > 0 && |Rest(s, size)| + |t| <= size
    ensures |Rest(s, size)| + |t| < size ==>
              Blocks(s + t, size) == Blocks(s, size) && Rest(s + t, size) == Rest(s, size) + t
    ensures |Rest(s, size)| + |t| == size ==>
              Blocks(s + t, size) == Blocks(s, size) + [Rest(s, size) + t] && Rest(s + t, size) == []
    decreases |s|
  {
    var both := s + t;
    if |s| < size {
      if |both| == size {
        assert both[..size] == both && both[size..] == [];
      }
    } else {
      BlocksGrow(s[size..], t, size);
      assert both[..size] == s[..size] && both[size..] == s[size..] + t;
    }
  }

  // ---------------------------------------------------------------------------------------
  // Numbering
  // ---------------------------------------------------------------------------------------

  /** How many frames so many chunks hold. */
  function FramesIn(chunks: nat, size: nat): nat {
    chunks * size
  }

  /** A 64-bit counter that has counted to n. */
  function Wrapped(n: nat): nat {
    n % 0x1_0000_0000_0000_0000
  }

  lemma WrappedOf(turns: nat, n: nat)
    requires n < 0x1_0000_0000_0000_0000
    ensures Wrapped(turns * 0x1_0000_0000_0000_0000 + n) == n
  {
  }

  lemma WrappedAdds(n: nat, more: nat)
    ensures Wrapped(Wrapped(n) + more) == Wrapped(n + more)
  {
    var x := Wrapped(n) + more;
    var turns := n / 0x1_0000_0000_0000_0000 + x / 0x1_0000_0000_0000_0000;
    WrappedOf(turns, Wrapped(x));
    assert n + more == turns * 0x1_0000_0000_0000_0000 + Wrapped(x);
  }

  /** The chunk made of a block when so many have been handed over before it. */
  function Numbered(block: seq<Frame>, before: nat, size: nat, timestamp: int): Chunk {
    Chunk(block, Wrapped(before + 1), Wrapped(FramesIn(before + 1, size)), timestamp)
  }

  /** The chunks handed over: the blocks not dropped, numbered without gaps. */
  function Published(blocks: seq<seq<Frame>>, fates: seq<Fate>, size: nat): (chunks: seq<Chunk>)
    requires |blocks| == |fates|
    ensures |chunks| <= |blocks|
  {
    if blocks == [] then []
    else
      var last := |blocks| - 1;
      var before := Published(blocks[..last], fates[..last], size);
      match fates[last]
      case Dropped => before
      case Handed(timestamp) => before + [Numbered(blocks[last], |before|, size, timestamp)]
  }

  lemma PublishedGrows(blocks: seq<seq<Frame>>, fates: seq<Fate>, block: seq<Frame>, fate: Fate, size: nat)
    requires |blocks| == |fates|
    ensures var before := Published(blocks, fates, size);
            Published(blocks + [block], fates + [fate], size) ==
            if fate.Dropped? then before else before + [Numbered(block, |before|, size, fate.timestamp)]
  {
    assert (blocks + [block])[..|blocks|] == blocks && (fates + [fate])[..|fates|] == fates;
  }

  /** Where the blocks stand that were handed over. */
  function HandedAt(fates: seq<Fate>): (at: seq<nat>)
    ensures |at| <= |fates| && forall i :: 0 <= i < |at| ==> at[i] < |fates| && fates[at[i]].Handed?
    ensures forall i, j :: 0 <= i < j < |at| ==> at[i] < at[j]
    ensures forall i :: 0 <= i < |fates| && fates[i].Handed? ==> i in at
  {
    if fates == [] then []
    else
      var last := |fates| - 1;
      HandedAt(fates[..last]) + if fates[last].Handed? then [last] else []
  }

  lemma {:induction false} AsManyHanded(blocks: seq<seq<Frame>>, fates: seq<Fate>, size: nat)
    requires |blocks| == |fates|
    ensures |Published(blocks, fates, size)| == |HandedAt(fates)|
  {
    hide Numbered;
    if fates != [] {
      AsManyHanded(blocks[..|fates| - 1], fates[..|fates| - 1], size);
    }
  }

  /** A chunk made of the block that stands there, as the k-th one. */
  ghost predicate MadeAs(blocks: seq<seq<Frame>>, fates: seq<Fate>, chunk: Chunk, at: nat, size: nat, k: nat) {
    && at < |blocks| && at < |fates| && fates[at].Handed?
    && chunk.payload == blocks[at] && chunk.timestamp == fates[at].timestamp
    && chunk.seqNumber == Wrapped(k + 1) && chunk.frameIndex == Wrapped(FramesIn(k + 1, size))
  }

  lemma MadeFrom(blocks: seq<seq<Frame>>, fates: seq<Fate>, last: nat, size: nat, k: nat)
    requires last < |blocks| == |fates| && fates[last].Handed?
    ensures MadeAs(blocks, fates, Numbered(blocks[last], k, size, fates[last].timestamp), last, size, k)
  {
    hide Wrapped, FramesIn;
  }

  lemma MadeEarlier(blocks: seq<seq<Frame>>, fates: seq<Fate>, last: nat, chunk: Chunk, at: nat, size: nat, k: nat)
    requires last <= |blocks| == |fates| && MadeAs(blocks[..last], fates[..last], chunk, at, size, k)
    ensures MadeAs(blocks, fates, chunk, at, size, k)
  {
    hide Wrapped, FramesIn;
  }

  lemma PublishedLast(blocks: seq<seq<Frame>>, fates: seq<Fate>, last: nat, size: nat)
    requires last + 1 == |blocks| == |fates|
    ensures var before, at := Published(blocks[..last], fates[..last], size), HandedAt(fates[..last]);
            if fates[last].Dropped? then Published(blocks, fates, size) == before && HandedAt(fates) == at
            else Published(blocks, fates, size) ==
                   before + [Numbered(blocks[last], |before|, size, fates[last].timestamp)]
                 && HandedAt(fates) == at + [last]
  {
    hide Numbered;
  }

  lemma {:induction false} ChunkMade(blocks: seq<seq<Frame>>, fates: seq<Fate>, size: nat, k: nat)
    requires |blocks| == |fates| && k < |HandedAt(fates)| == |Published(blocks, fates, size)|
    ensures MadeAs(blocks, fates, Published(blocks, fates, size)[k], HandedAt(fates)[k], size, k)
  {
    var last := |fates| - 1;
    AsManyHanded(blocks[..last], fates[..last], size);
    PublishedLast(blocks, fates, last, size);
    hide MadeAs, Published, HandedAt, Numbered;
    if k < |HandedAt(fates[..last])| {
      ChunkMade(blocks[..last], fates[..last], size, k);
      MadeEarlier(blocks, fates, last, Published(blocks, fates, size)[k], HandedAt(fates)[k], size, k);
    } else {
      MadeFrom(blocks, fates, last, size, k);
    }
  }

  /**
   * The k-th chunk handed over is the block of the k-th accumulator that was not dropped. It has number
   * k and frame index k times the chunk size, counting from one, whatever was dropped in between.
   */
  lemma ChunkNumbers(blocks: seq<seq<Frame>>, fates: seq<Fate>, size: nat, k: nat)
    requires |blocks| == |fates|
    ensures |Published(blocks, fates, size)| == |HandedAt(fates)|
    ensures k < |HandedAt(fates)| ==>
              var chunk, at := Published(blocks, fates, size)[k], HandedAt(fates)[k];
              && chunk.payload == blocks[at] && chunk.timestamp == fates[at].timestamp
              && chunk.seqNumber == Wrapped(k + 1) && chunk.frameIndex == Wrapped(FramesIn(k + 1, size))
  {
    hide Wrapped, FramesIn, Published, HandedAt;
    AsManyHanded(blocks, fates, size);
    if k < |HandedAt(fates)| {
      ChunkMade(blocks, fates, size, k);
    }
  }

  /** A drop is always a loss: as many chunks as blocks go out exactly when none is dropped. */
  lemma {:induction false} NothingLostIff(blocks: seq<seq<Frame>>, fates: seq<Fate>, size: nat)
    requires |blocks| == |fates|
    ensures |Published(blocks, fates, size)| == |blocks| <==> forall i :: 0 <= i < |fates| ==> fates[i].Handed?
  {
    if fates != [] {
      var last := |fates| - 1;
      NothingLostIff(blocks[..last], fates[..last], size);
      assert forall i :: 0 <= i < last ==> fates[..last][i] == fates[i];
    }
  }

  function Payloads(chunks: seq<Chunk>): seq<seq<Frame>> {
    seq(|chunks|, i requires 0 <= i < |chunks| => chunks[i].payload)
  }

  /** The payloads are the blocks exactly when the publisher was valid for each of them. */
  lemma AllPublishedIff(blocks: seq<seq<Frame>>, fates: seq<Fate>, size: nat)
    requires |blocks| == |fates|
    ensures Payloads(Published(blocks, fates, size)) == blocks <==> forall i :: 0 <= i < |fates| ==> fates[i].Handed?
  {
    NothingLostIff(blocks, fates, size);
    if forall i :: 0 <= i < |fates| ==> fates[i].Handed? {
      AllPublished(blocks, fates, size);
    }
    assert |Payloads(Published(blocks, fates, size))| == |Published(blocks, fates, size)|;
  }

  /** More fates, all the same. */
  ghost predicate Extended(before: seq<Fate>, after: seq<Fate>, fate: Fate) {
    before <= after && forall i :: |before| <= i < |after| ==> after[i] == fate
  }

  lemma ExtendedThrough(before: seq<Fate>, between: seq<Fate>, after: seq<Fate>, fate: Fate)
    requires Extended(before, between, fate) && Extended(between, after, fate)
    ensures Extended(before, after, fate)
  {
  }

  lemma ExtendedBy(before: seq<Fate>, after: seq<Fate>, fate: Fate)
    ensures Extended(before, before, fate)
    ensures Extended(before, after, fate) ==> Extended(before, after + [fate], fate)
  {
  }

  /** With a publisher that is always valid, the payloads are the blocks. */
  lemma {:induction false} AllPublished(blocks: seq<seq<Frame>>, fates: seq<Fate>, size: nat)
    requires |blocks| == |fates| && forall i :: 0 <= i < |fates| ==> fates[i].Handed?
    ensures Payloads(Published(blocks, fates, size)) == blocks
  {
    if blocks != [] {
      var last := |blocks| - 1;
      AllPublished(blocks[..last], fates[..last], size);
      var before := Published(blocks[..last], fates[..last], size);
      assert blocks == blocks[..last] + [blocks[last]];
      assert Payloads(Published(blocks, fates, size)) == Payloads(before) + [blocks[last]];
    }
  }

  // ---------------------------------------------------------------------------------------
  // The service
  // ---------------------------------------------------------------------------------------

  class AudioCapture {
    const framesPerChunk: nat
    const accum: array<Frame>
    var accumFrames: nat
    var running: bool
    var active: bool
    var publisherValid: bool
    var seqNumber: nat
    var frameIndex: nat
    var published: seq<Chunk>
    ghost var delivered: seq<Frame>
    ghost var fates: seq<Fate>

    /**
     * The chunks handed over are the full blocks of all frames delivered while active, less the dropped
     * ones; the filled part of the accumulator is what is left.
     */
    ghost predicate Valid()
      reads this, accum
    {
      && framesPerChunk > 0 && accum.Length == framesPerChunk && accumFrames < framesPerChunk
      && |fates| == |Blocks(delivered, framesPerChunk)|
      && published == Published(Blocks(delivered, framesPerChunk), fates, framesPerChunk)
      && accum[..accumFrames] == Rest(delivered, framesPerChunk)
      && seqNumber == Wrapped(|published|)
      && frameIndex == Wrapped(FramesIn(|published|, framesPerChunk))
    }

    constructor (framesPerChunk: nat)
      ensures Valid() && fresh(accum) && delivered == [] && published == [] && active && running
      ensures this.framesPerChunk == if framesPerChunk == 0 then 480 else framesPerChunk
    {
      var size := if framesPerChunk == 0 then DEFAULT_FRAMES_PER_CHUNK else framesPerChunk;
      this.framesPerChunk := size;
      accum := new Frame[size](_ => []);
      accumFrames, seqNumber, frameIndex := 0, 0, 0;
      running, active, publisherValid := true, true, true;
      published, delivered, fates := [], [], [];
    }

    /** Pausing keeps what is in the accumulator. */
    method SetActive(active: bool)
      requires Valid()
      modifies this`active
      ensures Valid() && this.active == active
    {
      this.active := active;
    }

    method SetPublisher(valid: bool)
      requires Valid()
      modifies this`publisherValid
      ensures Valid() && publisherValid == valid
    {
      publisherValid := valid;
    }

    /** Hands the full accumulator to the publisher, if it is valid, and counts it. */
    method WriteAudioChunk(timestamp: int)
      requires framesPerChunk > 0 && accum.Length == framesPerChunk
      requires seqNumber == Wrapped(|published|)
      requires frameIndex == Wrapped(FramesIn(|published|, framesPerChunk))
      modifies this`seqNumber, this`frameIndex, this`published
      ensures published == old(published) +
                           if publisherValid
                           then [Numbered(accum[..], |old(published)|, framesPerChunk, timestamp)]
                           else []
      ensures seqNumber == Wrapped(|published|)
      ensures frameIndex == Wrapped(FramesIn(|published|, framesPerChunk))
    {
      if publisherValid {
        WrappedAdds(|published|, 1);
        WrappedAdds(FramesIn(|published|, framesPerChunk), framesPerChunk);
        OneMore(|published|, framesPerChunk);
        hide Wrapped, FramesIn;
        seqNumber := Wrapped(seqNumber + 1);
        frameIndex := Wrapped(frameIndex + framesPerChunk);
        published := published + [Chunk(accum[..], seqNumber, frameIndex, timestamp)];
      }
    }

    /** Copies frames behind those already in the accumulator. */
    method CopyFrames(interleaved: array<Frame>, from: nat, take: nat)
      requires interleaved != accum && from + take <= interleaved.Length && accumFrames + take <= accum.Length
      modifies accum
      ensures accum[..accumFrames + take] == old(accum[..accumFrames]) + interleaved[from..from + take]
    {
      forall i | 0 <= i < take {
        accum[accumFrames + i] := interleaved[from + i];
      }
    }

    /** One turn of the loop: take in frames there is room for, and flush the accumulator when it is full. */
    method Absorb(interleaved: array<Frame>, from: nat, take: nat, timestamp: int)
      requires Valid() && interleaved != accum
      requires from + take <= interleaved.Length && accumFrames + take <= framesPerChunk
      modifies this`accumFrames, this`seqNumber, this`frameIndex, this`published, this`delivered, this`fates, accum
      ensures Valid() && delivered == old(delivered) + interleaved[from..from + take]
      ensures Extended(old(fates), fates, if publisherValid then Handed(timestamp) else Dropped)
    {
      hide Blocks, Rest, Published, Wrapped, FramesIn, Extended;
      ghost var fate := if publisherValid then Handed(timestamp) else Dropped;
      ghost var filled, piece := accum[..accumFrames], interleaved[from..from + take];
      ExtendedBy(fates, fates, fate);
      BlocksGrow(delivered, piece, framesPerChunk);
      PublishedGrows(Blocks(delivered, framesPerChunk), fates, filled + piece, fate, framesPerChunk);
      CopyFrames(interleaved, from, take);
      accumFrames := accumFrames + take;
      delivered := delivered + piece;
      if accumFrames == framesPerChunk {
        assert accum[..] == filled + piece;
        WriteAudioChunk(timestamp);
        fates := fates + [fate];
        accumFrames := 0;
      }
    }

    method HandleCaptured(interleaved: array?<Frame>, frames: nat, timestamp: int)
      requires Valid() && interleaved != accum
      requires interleaved != null ==> frames <= interleaved.Length
      modifies this`accumFrames, this`seqNumber, this`frameIndex, this`published, this`delivered, this`fates, accum
      ensures Valid()
      ensures delivered == old(delivered) +
                           if interleaved != null && running && active then interleaved[..frames] else []
      ensures Extended(old(fates), fates, if publisherValid then Handed(timestamp) else Dropped)
    {
      hide Blocks, Rest, Published, Wrapped, FramesIn, Extended;
      ghost var fate := if publisherValid then Handed(timestamp) else Dropped;
      ExtendedBy(fates, fates, fate);
      if interleaved == null || frames == 0 {
        return;
      }
      if !running {
        return;
      }
      if !active {
        return;
      }
      ghost var source := interleaved[..frames];
      var framesLeft: nat := frames;
      while framesLeft > 0
        invariant Valid() && framesLeft <= frames
        invariant interleaved[..frames] == source
        invariant delivered == old(delivered) + source[..frames - framesLeft]
        invariant Extended(old(fates), fates, fate)
      {
        var room := framesPerChunk - accumFrames;
        var take := if room < framesLeft then room else framesLeft;
        var from := frames - framesLeft;
        SliceGrows(old(delivered), source, from, take);
        assert interleaved[from..from + take] == interleaved[..frames][from..from + take];
        ghost var before := fates;
        Absorb(interleaved, from, take, timestamp);
        ExtendedThrough(old(fates), before, fates, fate);
        framesLeft := framesLeft - take;
      }
    }
  }

  lemma SliceGrows<T>(before: seq<T>, s: seq<T>, from: nat, take: nat)
    requires from + take <= |s|
    ensures before + s[..from] + s[from..from + take] == before + s[..from + take]
  {
  }

  lemma OneMore(n: nat, size: nat)
    ensures FramesIn(n + 1, size) == FramesIn(n, size) + size
  {
  }
}
