/**
 * The pull-based audio pipeline: the audio device asks audio_callback for `len` bytes; the
 * callback serves them from a static residual buffer and refills that buffer through
 * audio_decode_frame, which takes packets from the packet queue, runs them through the codec and
 * the resampler, and reports how many bytes of PCM it produced.
 *
 * The codec and the resampler are not modelled: a Decoder gives, for each decoding call, the
 * answer the codec returns and the bytes the resampler writes.
 */
module AudioPipeline {
  import opened Common
  import opened PacketQueues

  /** MAX_AUDIO_FRAME_SIZE. */
  const MaxAudioFrameSize: nat := 192000
  /** The size of the static audio_buf: (MAX_AUDIO_FRAME_SIZE * 3) / 2 bytes. */
  const BufCapacity: nat := (MaxAudioFrameSize * 3) / 2
  /** How many bytes of silence the callback substitutes when decoding stops. */
  const SilenceSize: nat := 1024

  /**
   * A decoded audio frame: `nbSamples` samples per channel, and the bytes the resampler writes at
   * the start of audio_buf for it.
   */
  datatype Frame = Frame(nbSamples: nat, pcm: seq<bv8>)

  /**
   * One answer of the codec (avcodec_decode_audio4): an error, which is a negative return, or
   * the number of packet bytes it consumed and the frame it completed, if any.
   */
  datatype Answer = DecodeError | Decoded(consumed: nat, frame: Option<Frame>)
  {
    /**
     * What the decoding loop relies on. Each answer makes progress: it consumes a byte of the
     * packet or completes a frame with samples in it (an answer that does neither, repeated,
     * keeps the loop spinning for ever). A frame fits the static buffer, as the assertion left
     * in a comment next to the size computation expects.
     */
    predicate Sound()
    {
      Decoded? ==>
        (consumed >= 1 || (frame.Some? && frame.value.nbSamples >= 1)) &&
        (frame.Some? ==> 4 * frame.value.nbSamples <= BufCapacity && |frame.value.pcm| <= BufCapacity)
    }
  }

  type Reply = a: Answer | a.Sound() witness DecodeError

  /** The codec with its resampler: the answer to the `i`-th decoding call, handed packet `p`. */
  type Decoder = (nat, Packet) -> Reply

  /**
   * The statics of audio_decode_frame: the packet being decoded (None once it is freed), the
   * offset of audio_pkt_data in it, audio_pkt_size, and the number of decoding calls made so far.
   */
  datatype DecodeState = DecodeState(pkt: Option<Packet>, pktData: int, pktSize: int, calls: nat)

  /**
   * Everything the pipeline keeps between two callbacks: the decoding statics, the contents of
   * audio_buf, audio_buf_size and audio_buf_index, and the packets waiting in the queue.
   */
  datatype AudioState = AudioState(dec: DecodeState, buf: seq<bv8>, bufSize: nat, bufIndex: nat, queue: seq<Packet>)
  {
    /** The read index never passes the fill level, which never passes the buffer. */
    predicate Valid()
    {
      |buf| == BufCapacity && bufIndex <= bufSize <= BufCapacity &&
      (dec.pktSize > 0 ==> dec.pkt.Some?)
    }
  }

  /**
   * How audio_decode_frame ends: it returns the byte count of a frame (Produced) or -1 (Failed),
   * or it is Parked, waiting inside packet_queue_get for a packet to arrive.
   */
  datatype Status = Produced(size: nat) | Failed | Parked

  datatype Decoding = Decoding(status: Status, state: AudioState)

  /** The resampler writing `pcm` over the front of the buffer. */
  function Overlay(buf: seq<bv8>, pcm: seq<bv8>): (r: seq<bv8>)
    requires |pcm| <= |buf|
    ensures |r| == |buf|
    ensures r[..|pcm|] == pcm && r[|pcm|..] == buf[|pcm|..]
  {
    pcm + buf[|pcm|..]
  }

  /** The queue `t` is what is left of `s` after packets were taken from its front. */
  predicate TakenFromFront(s: seq<Packet>, t: seq<Packet>)
  {
    |t| <= |s| && forall i :: 0 <= i < |t| ==> t[i] == s[|s| - |t| + i]
  }

  /**
   * The packet in hand in `t` is the one `s` already held, with the queue untouched, or the
   * packet of `s`'s queue that comes just before what is left of it.
   */
  predicate HeldInOrder(s: AudioState, t: AudioState)
  {
    t.dec.pkt.Some? ==>
      (t.queue == s.queue && t.dec.pkt == s.dec.pkt) ||
      (|t.queue| < |s.queue| && t.dec.pkt.value == s.queue[|s.queue| - |t.queue| - 1])
  }

  /** Taking from the front twice is taking from the front. */
  lemma TakenTwice(a: seq<Packet>, b: seq<Packet>, c: seq<Packet>)
    requires TakenFromFront(a, b) && TakenFromFront(b, c)
    ensures TakenFromFront(a, c)
  {
  }

  /** The byte count audio_decode_frame computes for an answer: 2 bytes by 2 channels per sample. */
  function FrameBytes(a: Answer): nat
  {
    if a.Decoded? && a.frame.Some? then 2 * 2 * a.frame.value.nbSamples else 0
  }

  /**
   * One turn of the decoding loop on the current packet: on an error the rest of the packet is
   * dropped; otherwise the packet cursor moves past the bytes consumed and a completed frame is
   * resampled into the buffer.
   */
  function Consume(s: AudioState, a: Reply): (r: AudioState)
    requires s.Valid()
    ensures r.Valid() && r.bufSize == s.bufSize && r.bufIndex == s.bufIndex && r.queue == s.queue
    ensures r.dec.calls == s.dec.calls + 1
    ensures a.DecodeError? ==> r.dec.pktSize == 0
    ensures a.Decoded? ==> r.dec.pktSize == s.dec.pktSize - a.consumed
    // the packet stays in hand, and only a completed frame changes the buffer
    ensures r.dec.pkt == s.dec.pkt
    ensures r.buf == if a.Decoded? && a.frame.Some? then Overlay(s.buf, a.frame.value.pcm) else s.buf
  {
    var d := s.dec.(calls := s.dec.calls + 1);
    match a
    case DecodeError =>
      s.(dec := d.(pktSize := 0))
    case Decoded(len1, got) =>
      s.(dec := d.(pktData := d.pktData + len1, pktSize := d.pktSize - len1),
         buf := if got.Some? then Overlay(s.buf, got.value.pcm) else s.buf)
  }

  /** The current packet freed and the head of the queue taken as the next one. */
  function NextPacket(s: AudioState): (r: AudioState)
    requires s.Valid() && s.queue != []
    ensures r.Valid() && r.queue == s.queue[1..]
    // the head becomes the packet in hand, read from its start with its full size left
    ensures r.dec == DecodeState(Some(s.queue[0]), 0, s.queue[0].Size(), s.dec.calls)
    ensures r.buf == s.buf && r.bufSize == s.bufSize && r.bufIndex == s.bufIndex
  {
    var p := s.queue[0];
    s.(dec := DecodeState(Some(p), 0, p.Size(), s.dec.calls), queue := s.queue[1..])
  }

  /** The current packet freed. */
  function Freed(s: AudioState): (r: AudioState)
    requires s.Valid() && s.dec.pktSize <= 0
    ensures r.Valid()
  {
    s.(dec := s.dec.(pkt := None))
  }

  /**
   * audio_decode_frame. The rest of the current packet is decoded first; once it is used up
   * (or the codec failed on it) the packet is freed, the quit flag is checked and the next
   * packet is taken from the queue with a blocking get.
   */
  function NextFrame(s: AudioState, quit: bool, decoder: Decoder): (r: Decoding)
    requires s.Valid()
    ensures r.state.Valid() && r.state.bufSize == s.bufSize && r.state.bufIndex == s.bufIndex
    ensures r.status.Produced? ==> 0 < r.status.size <= BufCapacity
    decreases |s.queue|, if s.dec.pktSize > 0 then s.dec.pktSize else 0
  {
    if s.dec.pktSize > 0 then
      var answer := decoder(s.dec.calls, s.dec.pkt.value);
      var next := Consume(s, answer);
      if FrameBytes(answer) > 0 then
        Decoding(Produced(FrameBytes(answer)), next)
      else
        NextFrame(next, quit, decoder)
    else if quit then
      Decoding(Failed, Freed(s))
    else if s.queue == [] then
      Decoding(Parked, Freed(s))
    else
      NextFrame(NextPacket(Freed(s)), quit, decoder)
  }

  /**
   * How audio_decode_frame can end. A frame reports a positive multiple of 4 bytes that fits
   * the buffer. -1 comes only from the quit flag, and waiting only with the flag clear and the
   * queue empty. Without a frame, the packet in hand is used up and freed. Packets only ever
   * leave the queue from its front.
   */
  lemma {:induction false} NextFrameOutcome(s: AudioState, quit: bool, decoder: Decoder)
    requires s.Valid()
    ensures var r := NextFrame(s, quit, decoder);
      (r.status.Produced? ==> r.status.size % 4 == 0) &&
      (r.status.Failed? ==> quit) &&
      (r.status.Parked? ==> !quit && r.state.queue == []) &&
      (!r.status.Produced? ==> r.state.dec.pktSize <= 0 && r.state.dec.pkt == None) &&
      TakenFromFront(s.queue, r.state.queue) &&
      r.state.dec.calls >= s.dec.calls
    decreases |s.queue|, if s.dec.pktSize > 0 then s.dec.pktSize else 0
  {
    if s.dec.pktSize > 0 {
      var answer := decoder(s.dec.calls, s.dec.pkt.value);
      var next := Consume(s, answer);
      if FrameBytes(answer) == 0 {
        assert NextFrame(s, quit, decoder) == NextFrame(next, quit, decoder);
        NextFrameOutcome(next, quit, decoder);
      } else {
        assert NextFrame(s, quit, decoder) == Decoding(Produced(FrameBytes(answer)), next);
      }
    } else if !quit && s.queue != [] {
      var t := NextPacket(Freed(s));
      assert NextFrame(s, quit, decoder) == NextFrame(t, quit, decoder);
      NextFrameOutcome(t, quit, decoder);
      TakenTwice(s.queue, t.queue, NextFrame(t, quit, decoder).state.queue);
    }
  }

  /**
   * Packets reach the decoder in queue order: after audio_decode_frame, the packet in hand is
   * the one it already held, or the queued packet just before those still waiting.
   */
  lemma {:induction false} NextFrameInOrder(s: AudioState, quit: bool, decoder: Decoder)
    requires s.Valid()
    ensures HeldInOrder(s, NextFrame(s, quit, decoder).state)
    decreases |s.queue|, if s.dec.pktSize > 0 then s.dec.pktSize else 0
  {
    if s.dec.pktSize > 0 {
      var answer := decoder(s.dec.calls, s.dec.pkt.value);
      var next := Consume(s, answer);
      if FrameBytes(answer) == 0 {
        assert NextFrame(s, quit, decoder) == NextFrame(next, quit, decoder);
        NextFrameInOrder(next, quit, decoder);
      } else {
        assert NextFrame(s, quit, decoder) == Decoding(Produced(FrameBytes(answer)), next);
      }
    } else if !quit && s.queue != [] {
      var t := NextPacket(Freed(s));
      assert NextFrame(s, quit, decoder) == NextFrame(t, quit, decoder);
      NextFrameInOrder(t, quit, decoder);
      HeldAfterTaking(s, t, NextFrame(t, quit, decoder).state);
    }
  }

  /** Holding a packet in order after taking the head is holding it in order. */
  lemma HeldAfterTaking(s: AudioState, t: AudioState, r: AudioState)
    requires s.queue != [] && t.queue == s.queue[1..] && t.dec.pkt == Some(s.queue[0])
    requires HeldInOrder(t, r)
    ensures HeldInOrder(s, r)
  {
    if r.dec.pkt.Some? && r.queue != t.queue {
      assert t.queue[|t.queue| - |r.queue| - 1] == s.queue[|s.queue| - |r.queue| - 1];
    }
  }

  /** The callback taking in what audio_decode_frame returned: a frame, or silence on failure. */
  function Refill(s: AudioState, status: Status): (r: AudioState)
    requires s.Valid() && !status.Parked?
    requires status.Produced? ==> 0 < status.size <= BufCapacity
    ensures r.Valid() && r.bufIndex == 0 && r.bufSize > 0
    // a failure leaves 1024 bytes of silence to play, a frame its own bytes where they are
    ensures status.Failed? ==> r.bufSize == SilenceSize && Silent(r.buf[..SilenceSize])
    ensures status.Produced? ==> r.bufSize == status.size && r.buf == s.buf
    ensures r.dec == s.dec && r.queue == s.queue
  {
    if status.Failed? then
      s.(buf := Zeros(SilenceSize) + s.buf[SilenceSize..], bufSize := SilenceSize, bufIndex := 0)
    else
      s.(bufSize := status.size, bufIndex := 0)
  }

  /**
   * What one callback leaves: the bytes written to the stream, the new state, and whether the
   * callback is parked in the queue waiting for a packet (it then resumes as a fresh callback
   * for the bytes not yet written).
   */
  datatype Filled = Filled(out: seq<bv8>, state: AudioState, parked: bool)

  /**
   * The buffer as a turn of the callback's loop finds it once the drained case is dealt with:
   * Buffered with bytes to copy, or Waiting for the producer inside audio_decode_frame.
   */
  datatype Prepared = Waiting(state: AudioState) | Buffered(state: AudioState)

  /**
   * The head of a turn of the callback's loop: a drained buffer is refilled from
   * audio_decode_frame (a frame, or silence on failure).
   */
  function Prepare(s: AudioState, quit: bool, decoder: Decoder): (r: Prepared)
    requires s.Valid()
    ensures r.state.Valid()
    ensures r.Buffered? ==> r.state.bufIndex < r.state.bufSize
  {
    if s.bufIndex < s.bufSize then
      Buffered(s)
    else
      var d := NextFrame(s, quit, decoder);
      if d.status.Parked? then Waiting(d.state) else Buffered(Refill(d.state, d.status))
  }

  /** The rest of a turn: the smaller of what is buffered and what is wanted is copied out. */
  function Copy(s: AudioState, len: nat): (r: Filled)
    requires s.Valid() && len > 0 && s.bufIndex < s.bufSize
    ensures r.state.Valid() && !r.parked && 0 < |r.out| <= len
    // the next buffered bytes, in order, never reading past audio_buf_size ...
    ensures r.state.bufIndex == s.bufIndex + |r.out| && r.out == s.buf[s.bufIndex..r.state.bufIndex]
    // ... and either the request is met or the buffer is drained
    ensures |r.out| == len || r.state.bufIndex == r.state.bufSize
    ensures r.state == s.(bufIndex := r.state.bufIndex)
  {
    var n := Min(len, s.bufSize - s.bufIndex);
    Filled(s.buf[s.bufIndex..s.bufIndex + n], Advance(s, n), false)
  }

  /** The read index moved past `n` bytes that were copied out. */
  function Advance(s: AudioState, n: nat): (r: AudioState)
    requires s.Valid() && s.bufIndex + n <= s.bufSize
    ensures r.Valid()
  {
    s.(bufIndex := s.bufIndex + n)
  }

  /** `o` written in front of what `f` writes. */
  function Prefixed(o: seq<bv8>, f: Filled): Filled
  {
    Filled(o + f.out, f.state, f.parked)
  }

  /**
   * audio_callback asked for `len` bytes: while bytes are wanted, take a turn of the loop and go
   * on with what is still wanted.
   */
  function Fill(s: AudioState, len: nat, quit: bool, decoder: Decoder): (r: Filled)
    requires s.Valid()
    ensures r.state.Valid()
    // the request is met exactly, unless the callback is waiting for the producer
    ensures !r.parked ==> |r.out| == len
    ensures r.parked ==> |r.out| < len
    decreases len, 1
  {
    if len == 0 then Filled([], s, false) else FillTurn(s, len, quit, decoder)
  }

  /**
   * One turn of the loop and the rest of the call: prepare the buffer, copy what can be copied,
   * then fill what is still wanted.
   */
  function FillTurn(s: AudioState, len: nat, quit: bool, decoder: Decoder): (r: Filled)
    requires s.Valid() && len > 0
    ensures r.state.Valid()
    ensures !r.parked ==> |r.out| == len
    ensures r.parked ==> |r.out| < len
    decreases len, 0
  {
    match Prepare(s, quit, decoder)
    case Waiting(w) => Filled([], w, true)
    case Buffered(t) =>
      var c := Copy(t, len);
      Prefixed(c.out, Fill(c.state, len - |c.out|, quit, decoder))
  }

  /** Preparing waits only when the buffer was drained, the quit flag clear and the queue empty. */
  lemma PrepareWaits(s: AudioState, quit: bool, decoder: Decoder)
    requires s.Valid()
    ensures var r := Prepare(s, quit, decoder);
      r.Waiting? ==> !quit && r.state.queue == [] && r.state.bufIndex >= r.state.bufSize
  {
    if s.bufIndex >= s.bufSize {
      NextFrameOutcome(s, quit, decoder);
    }
  }

  /** Preparing takes packets only from the front of the queue. */
  lemma PrepareTakes(s: AudioState, quit: bool, decoder: Decoder)
    requires s.Valid()
    ensures TakenFromFront(s.queue, Prepare(s, quit, decoder).state.queue)
  {
    if s.bufIndex >= s.bufSize {
      NextFrameOutcome(s, quit, decoder);
    }
  }

  /** A callback waits only with the quit flag clear, the queue empty and the buffer drained. */
  lemma {:induction false} FillWaits(s: AudioState, len: nat, quit: bool, decoder: Decoder)
    requires s.Valid()
    ensures var r := Fill(s, len, quit, decoder);
      r.parked ==> !quit && r.state.queue == [] && r.state.bufIndex >= r.state.bufSize
    decreases len
  {
    if len > 0 {
      PrepareWaits(s, quit, decoder);
      var p := Prepare(s, quit, decoder);
      if p.Buffered? {
        var c := Copy(p.state, len);
        FillWaits(c.state, len - |c.out|, quit, decoder);
      }
    }
  }

  /** A callback takes packets only from the front of the queue. */
  lemma {:induction false} FillTakes(s: AudioState, len: nat, quit: bool, decoder: Decoder)
    requires s.Valid()
    ensures TakenFromFront(s.queue, Fill(s, len, quit, decoder).state.queue)
    decreases len
  {
    if len > 0 {
      PrepareTakes(s, quit, decoder);
      var p := Prepare(s, quit, decoder);
      if p.Buffered? {
        var c := Copy(p.state, len);
        FillTakes(c.state, len - |c.out|, quit, decoder);
        TakenTwice(s.queue, c.state.queue, Fill(c.state, len - |c.out|, quit, decoder).state.queue);
      }
    }
  }

  /** Two prefixes written one after the other are one prefix. */
  lemma PrefixedTwice(x: seq<bv8>, y: seq<bv8>, f: Filled)
    ensures Prefixed(x, Prefixed(y, f)) == Prefixed(x + y, f)
  {
    assert x + (y + f.out) == (x + y) + f.out;
  }

  /** A turn of the callback's loop that finds bytes to copy: copy them, then go on. */
  lemma FillBuffered(s: AudioState, len: nat, quit: bool, decoder: Decoder)
    requires s.Valid() && len > 0 && Prepare(s, quit, decoder).Buffered?
    ensures var c := Copy(Prepare(s, quit, decoder).state, len);
      Fill(s, len, quit, decoder) == Prefixed(c.out, Fill(c.state, len - |c.out|, quit, decoder))
  {
    var c := Copy(Prepare(s, quit, decoder).state, len);
    assert Fill(s, len, quit, decoder) == FillTurn(s, len, quit, decoder);
  }

  /**
   * The loop of the callback stays on course: once a turn has copied `c.out`, what is still to
   * be written follows what has been written.
   */
  lemma TurnCopies(goal: Filled, sent: seq<bv8>, s: AudioState, len: nat, quit: bool, decoder: Decoder,
                   out: seq<bv8>, t: AudioState, rest: nat)
    requires s.Valid() && len > 0 && Prepare(s, quit, decoder).Buffered?
    requires goal == Prefixed(sent, Fill(s, len, quit, decoder))
    requires var c := Copy(Prepare(s, quit, decoder).state, len);
      rest == len - |c.out| && out == sent + c.out && t == c.state
    ensures t.Valid()
    ensures goal == Prefixed(out, Fill(t, rest, quit, decoder))
  {
    var c := Copy(Prepare(s, quit, decoder).state, len);
    FillBuffered(s, len, quit, decoder);
    PrefixedTwice(sent, c.out, Fill(c.state, len - |c.out|, quit, decoder));
  }

  /** A turn of the callback's loop that has to wait for the producer writes nothing. */
  lemma FillWaiting(s: AudioState, len: nat, quit: bool, decoder: Decoder)
    requires s.Valid() && len > 0 && Prepare(s, quit, decoder).Waiting?
    ensures Fill(s, len, quit, decoder) == Filled([], Prepare(s, quit, decoder).state, true)
  {
  }

  /** The stream `orig` with its first bytes overwritten by `sent`. */
  function Over(sent: seq<bv8>, orig: seq<bv8>): (r: seq<bv8>)
    requires |sent| <= |orig|
    ensures |r| == |orig|
  {
    if sent == [] then orig else [sent[0]] + Over(sent[1..], orig[1..])
  }

  /** Overwriting keeps `sent` and the rest of `orig` after it. */
  lemma {:induction false} OverIs(sent: seq<bv8>, orig: seq<bv8>)
    requires |sent| <= |orig|
    ensures Over(sent, orig) == sent + orig[|sent|..]
  {
    if sent != [] {
      calc {
        Over(sent, orig);
        [sent[0]] + Over(sent[1..], orig[1..]);
        { OverIs(sent[1..], orig[1..]); }
        [sent[0]] + (sent[1..] + orig[1..][|sent| - 1..]);
        { assert orig[1..][|sent| - 1..] == orig[|sent|..]; }
        ([sent[0]] + sent[1..]) + orig[|sent|..];
        { assert [sent[0]] + sent[1..] == sent; }
        sent + orig[|sent|..];
      }
    }
  }

  /** Writing `c` right after `sent` over the stream overwrites `sent + c`. */
  lemma OverMore(sent: seq<bv8>, c: seq<bv8>, orig: seq<bv8>, before: seq<bv8>, after: seq<bv8>)
    requires |sent| + |c| <= |orig| && before == Over(sent, orig)
    requires after == before[..|sent|] + c + before[|sent| + |c|..]
    ensures after == Over(sent + c, orig)
  {
    OverIs(sent, orig);
    OverIs(sent + c, orig);
    assert before[..|sent|] == sent;
    assert before[|sent| + |c|..] == orig[|sent| + |c|..];
  }

  /** Every byte of a stretch of silence is silence. */
  lemma SilentSlices(b: seq<bv8>, i: nat, j: nat, k: nat)
    requires i <= j <= k <= |b| && Silent(b[i..k])
    ensures Silent(b[i..j]) && Silent(b[j..k])
  {
    assert forall n :: 0 <= n < j - i ==> b[i..j][n] == b[i..k][n];
    assert forall n :: 0 <= n < k - j ==> b[j..k][n] == b[i..k][n + j - i];
  }

  /** Silence followed by silence is silence. */
  lemma SilentConcat(x: seq<bv8>, y: seq<bv8>)
    requires Silent(x) && Silent(y)
    ensures Silent(x + y)
  {
    assert forall n :: 0 <= n < |x + y| ==> (x + y)[n] == if n < |x| then x[n] else y[n - |x|];
  }

  /**
   * With quit set and the packet in hand used up, preparing never waits: a drained buffer is
   * refilled with 1024 bytes of silence.
   */
  lemma PrepareUnderQuit(s: AudioState, decoder: Decoder)
    requires s.Valid() && s.dec.pktSize <= 0
    requires Silent(s.buf[s.bufIndex..s.bufSize])
    ensures var p := Prepare(s, true, decoder);
      p.Buffered? && p.state.dec.pktSize <= 0 && Silent(p.state.buf[p.state.bufIndex..p.state.bufSize])
  {
    if s.bufIndex >= s.bufSize {
      var d := NextFrame(s, true, decoder);
      assert d == Decoding(Failed, Freed(s));
      var t := Refill(d.state, d.status);
      assert t.buf[t.bufIndex..t.bufSize] == Zeros(SilenceSize);
      ZerosSplit(SilenceSize, 0);
    }
  }

  /**
   * Once quit is set and the current packet is used up, every byte the callback writes is
   * silence (the buffered bytes being silence already), and it writes all of them: it never
   * waits.
   */
  lemma {:induction false} QuitPlaysSilence(s: AudioState, len: nat, decoder: Decoder)
    requires s.Valid() && s.dec.pktSize <= 0
    requires Silent(s.buf[s.bufIndex..s.bufSize])
    ensures !Fill(s, len, true, decoder).parked
    ensures Silent(Fill(s, len, true, decoder).out)
    decreases len
  {
    if len > 0 {
      PrepareUnderQuit(s, decoder);
      var t := Prepare(s, true, decoder).state;
      var c := Copy(t, len);
      var n := |c.out|;
      SilentSlices(t.buf, t.bufIndex, t.bufIndex + n, t.bufSize);
      QuitPlaysSilence(c.state, len - n, decoder);
      SilentConcat(c.out, Fill(c.state, len - n, true, decoder).out);
    }
  }

  /**
   * A request that the buffered bytes cover is served from them alone, in order: nothing is
   * decoded and the queue is not touched.
   */
  lemma ResidualServedFirst(s: AudioState, len: nat, quit: bool, decoder: Decoder)
    requires s.Valid() && len <= s.bufSize - s.bufIndex
    ensures Fill(s, len, quit, decoder)
         == Filled(s.buf[s.bufIndex..s.bufIndex + len], s.(bufIndex := s.bufIndex + len), false)
  {
    if len > 0 {
      var s1 := Advance(s, len);
      assert Copy(s, len) == Filled(s.buf[s.bufIndex..s.bufIndex + len], s1, false);
      assert Fill(s1, 0, quit, decoder) == Filled([], s1, false);
      assert s.buf[s.bufIndex..s.bufIndex + len] + [] == s.buf[s.bufIndex..s.bufIndex + len];
    }
  }

  /**
   * A drained callback plays the next packet's frame. When the head packet's first decoding
   * completes a frame whose resampled bytes cover the request, the callback outputs the front
   * of those bytes, and the head is the packet left in hand.
   */
  lemma DrainedCallbackPlaysFrame(s: AudioState, len: nat, decoder: Decoder)
    requires s.Valid() && s.bufIndex >= s.bufSize && s.dec.pktSize <= 0
    requires s.queue != [] && s.queue[0].Size() > 0
    requires var a := decoder(s.dec.calls, s.queue[0]);
      a.Decoded? && a.frame.Some? && a.frame.value.nbSamples > 0 &&
      |a.frame.value.pcm| == 4 * a.frame.value.nbSamples && 0 < len <= |a.frame.value.pcm|
    ensures var r := Fill(s, len, false, decoder);
      !r.parked && r.out == decoder(s.dec.calls, s.queue[0]).frame.value.pcm[..len] &&
      r.state.queue == s.queue[1..] && r.state.dec.pkt == Some(s.queue[0])
  {
    var a := decoder(s.dec.calls, s.queue[0]);
    var t := NextPacket(Freed(s));
    var c := Consume(t, a);
    assert NextFrame(s, false, decoder) == NextFrame(t, false, decoder);
    assert NextFrame(t, false, decoder) == Decoding(Produced(4 * a.frame.value.nbSamples), c);
    var u := Refill(c, Produced(4 * a.frame.value.nbSamples));
    assert Prepare(s, false, decoder) == Buffered(u);
    assert Fill(s, len, false, decoder) == Fill(u, len, false, decoder);
    ResidualServedFirst(u, len, false, decoder);
    assert u.buf[..len] == a.frame.value.pcm[..len];
  }

  /**
   * With quit set, a decoding call that has no packet left to finish returns -1 at once and
   * takes nothing from the queue, however many packets are waiting.
   */
  lemma QuitStopsDecoding(s: AudioState, decoder: Decoder)
    requires s.Valid() && s.dec.pktSize <= 0
    ensures NextFrame(s, true, decoder).status == Failed
    ensures NextFrame(s, true, decoder).state.queue == s.queue
  {
  }

  /**
   * A codec error abandons what is left of the current packet: decoding goes on exactly as if
   * the packet had been used up, with the next packet in the queue.
   */
  lemma ErrorSkipsPacket(s: AudioState, quit: bool, decoder: Decoder)
    requires s.Valid() && s.dec.pktSize > 0
    requires decoder(s.dec.calls, s.dec.pkt.value) == DecodeError
    ensures var d := s.dec.(calls := s.dec.calls + 1);
      NextFrame(s, quit, decoder) == NextFrame(s.(dec := d.(pktSize := 0)), quit, decoder)
  {
  }

  /**
   * The first frame the codec completes with samples in it is reported at once, with
   * 2 * 2 * nb_samples bytes: the decoding call returns without touching the queue.
   */
  lemma FrameReturnedAtOnce(s: AudioState, quit: bool, decoder: Decoder)
    requires s.Valid() && s.dec.pktSize > 0
    requires var a := decoder(s.dec.calls, s.dec.pkt.value);
      a.Decoded? && a.frame.Some? && a.frame.value.nbSamples > 0
    ensures var a := decoder(s.dec.calls, s.dec.pkt.value);
      NextFrame(s, quit, decoder) == Decoding(Produced(4 * a.frame.value.nbSamples), Consume(s, a))
  {
  }

  /**
   * The pipeline's statics, the queue it drains and the codec it drives. The quit flag is passed
   * to each call.
   */
  class AudioPlayer {
    const queue: PacketQueue     // audioq
    const decoder: Decoder       // the codec context with the resampler
    const audioBuf: array<bv8>   // audio_buf
    var audioBufSize: nat        // audio_buf_size
    var audioBufIndex: nat       // audio_buf_index
    var pkt: Option<Packet>      // pkt, None once freed
    var pktData: int             // audio_pkt_data, as an offset into pkt
    var pktSize: int             // audio_pkt_size
    var calls: nat               // decoding calls made so far

    ghost predicate Valid()
      reads this, queue, queue.Repr
    {
      queue.Valid() && this !in queue.Repr && audioBuf !in queue.Repr &&
      audioBuf.Length == BufCapacity &&
      audioBufIndex <= audioBufSize <= BufCapacity &&
      (pktSize > 0 ==> pkt.Some?)
    }

    ghost function State(): (s: AudioState)
      reads this, audioBuf, queue
    {
      AudioState(DecodeState(pkt, pktData, pktSize, calls), audioBuf[..], audioBufSize, audioBufIndex, queue.contents)
    }

    /** The statics as the program starts: zero sizes, no packet, a zeroed buffer. */
    constructor (queue: PacketQueue, decoder: Decoder)
      requires queue.Valid()
      ensures Valid() && fresh(audioBuf)
      ensures this.queue == queue && this.decoder == decoder
      ensures State() == AudioState(DecodeState(None, 0, 0, 0), Zeros(BufCapacity), 0, 0, queue.contents)
    {
      this.queue := queue;
      this.decoder := decoder;
      audioBuf := new bv8[BufCapacity](_ => 0);
      audioBufSize, audioBufIndex := 0, 0;
      pkt, pktData, pktSize, calls := None, 0, 0, 0;
      new;
      assert audioBuf[..] == Zeros(BufCapacity);
    }

    /**
     * One turn of the decoding loop of audio_decode_frame: the codec is handed the current
     * packet; an error drops the rest of the packet, otherwise the packet cursor moves past the
     * bytes consumed and a completed frame is resampled to the front of the buffer, its byte
     * count being 2 * 2 * nb_samples.
     */
    method DecodeStep() returns (answer: Reply, dataSize: int)
      requires Valid() && pktSize > 0
      modifies this, audioBuf
      ensures Valid()
      ensures answer == decoder(old(calls), old(pkt).value)
      ensures dataSize == FrameBytes(answer)
      ensures State() == Consume(old(State()), answer)
    {
      ghost var before := State();
      answer := decoder(calls, pkt.value);
      calls := calls + 1;
      dataSize := 0;
      if answer.DecodeError? {
        // skip the rest of the packet
        pktSize := 0;
        return;
      }
      pktData := pktData + answer.consumed;
      pktSize := pktSize - answer.consumed;
      if answer.frame.Some? {
        var frame := answer.frame.value;
        dataSize := 2 * 2 * frame.nbSamples;
        forall i | 0 <= i < |frame.pcm| {
          audioBuf[i] := frame.pcm[i];
        }
        assert audioBuf[..] == Overlay(before.buf, frame.pcm);
      }
    }

    /** audio_decode_frame, proved to behave as NextFrame. */
    method DecodeFrame(quit: bool) returns (status: Status)
      requires Valid()
      modifies this, audioBuf, queue
      ensures Valid() && queue.Repr == old(queue.Repr)
      ensures NextFrame(old(State()), quit, decoder) == Decoding(status, State())
    {
      ghost var goal := NextFrame(State(), quit, decoder);
      while true
        invariant Valid() && queue.Repr == old(queue.Repr)
        invariant NextFrame(State(), quit, decoder) == goal
        decreases |queue.contents|
      {
        var produced := DecodePacket(quit);
        if produced.Some? {
          return produced.value;
        }
        var stop := NextPacketFromQueue(quit);
        if stop.Some? {
          return stop.value;
        }
      }
    }

    /**
     * The inner loop of audio_decode_frame: decode the rest of the current packet until a frame
     * comes out (its status is returned), the codec fails on it or it is used up (None).
     */
    method DecodePacket(quit: bool) returns (produced: Option<Status>)
      requires Valid()
      modifies this, audioBuf
      ensures Valid() && queue.contents == old(queue.contents)
      ensures produced.Some? ==> NextFrame(old(State()), quit, decoder) == Decoding(produced.value, State())
      ensures produced.None? ==> pktSize <= 0 && NextFrame(State(), quit, decoder) == NextFrame(old(State()), quit, decoder)
    {
      while pktSize > 0
        invariant Valid()
        invariant NextFrame(State(), quit, decoder) == NextFrame(old(State()), quit, decoder)
        decreases pktSize
      {
        var answer, dataSize := DecodeStep();
        if answer.DecodeError? {
          break;
        }
        if dataSize <= 0 {
          // no data yet
          continue;
        }
        return Some(Produced(dataSize));
      }
      produced := None;
    }

    /**
     * The tail of audio_decode_frame's outer loop, once the current packet is used up: free it,
     * give up with -1 if quit is set, and otherwise take the next packet with a blocking get
     * (-1 when the get fails); `stop` is the status the decoding call returns, or None when it
     * goes on with the new packet.
     */
    method NextPacketFromQueue(quit: bool) returns (stop: Option<Status>)
      requires Valid() && pktSize <= 0
      modifies this, queue
      ensures Valid() && queue.Repr == old(queue.Repr)
      ensures stop.Some? ==> State() == Freed(old(State()))
      ensures stop.Some? ==> stop.value == (if quit then Failed else Parked)
      ensures stop == Some(Parked) ==> old(queue.contents) == []
      ensures stop.None? ==> !quit && old(queue.contents) != [] && State() == NextPacket(Freed(old(State())))
    {
      pkt := None;
      if quit {
        return Some(Failed);
      }
      ghost var waiting := State();
      var r := queue.Get(true, quit);
      if !r.Got? {
        // packet_queue_get returned -1, or it is waiting for a packet
        return Some(if r.WouldBlock? then Parked else Failed);
      }
      pkt := Some(r.pkt);
      pktData := 0;
      pktSize := r.pkt.Size();
      assert State() == NextPacket(waiting);
      stop := None;
    }

    /**
     * The head of a turn of audio_callback's loop once the buffer is drained: decode the next
     * frame into it, or put 1024 bytes of silence there if decoding failed, and rewind the
     * index. `waiting` says the decoding call is waiting in the queue for a packet.
     */
    method Refresh(quit: bool) returns (waiting: bool)
      requires Valid() && audioBufIndex >= audioBufSize
      modifies this, audioBuf, queue
      ensures Valid() && queue.Repr == old(queue.Repr)
      ensures var p := Prepare(old(State()), quit, decoder);
        waiting == p.Waiting? && State() == p.state
    {
      var status := DecodeFrame(quit);
      if status.Parked? {
        return true;
      }
      ghost var decoded := State();
      if status.Failed? {
        // output silence
        Silence();
        audioBufSize := SilenceSize;
      } else {
        audioBufSize := status.size;
      }
      audioBufIndex := 0;
      assert State() == Refill(decoded, status);
      waiting := false;
    }

    /** The memset of the first 1024 bytes of the buffer to silence when decoding failed. */
    method Silence()
      requires audioBuf.Length == BufCapacity
      modifies audioBuf
      ensures audioBuf[..] == Zeros(SilenceSize) + old(audioBuf[..])[SilenceSize..]
    {
      forall i | 0 <= i < SilenceSize {
        audioBuf[i] := 0;
      }
      assert audioBuf[..] == Zeros(SilenceSize) + old(audioBuf[..])[SilenceSize..];
    }

    /**
     * The rest of a turn: copy the smaller of what is buffered and what is wanted to
     * `stream[at..]` and move the index past it; `n` is the byte count copied.
     */
    method Emit(stream: array<bv8>, at: nat, want: nat) returns (n: nat)
      requires Valid() && 0 < want && at + want <= stream.Length && audioBufIndex < audioBufSize
      requires stream != audioBuf && stream !in queue.Repr
      modifies this, stream
      ensures Valid()
      ensures var c := Copy(old(State()), want);
        n == |c.out| && State() == c.state &&
        stream[..] == old(stream[..])[..at] + c.out + old(stream[..])[at + n..]
    {
      ghost var before := State();
      n := audioBufSize - audioBufIndex;
      if n > want {
        n := want;
      }
      forall i | 0 <= i < n {
        stream[at + i] := audioBuf[audioBufIndex + i];
      }
      assert stream[..] == old(stream[..])[..at] + before.buf[before.bufIndex..before.bufIndex + n] + old(stream[..])[at + n..];
      audioBufIndex := audioBufIndex + n;
      assert State() == Advance(before, n);
    }

    /**
     * One turn of audio_callback's loop with `want` bytes still wanted and `at` bytes already
     * written: refresh a drained buffer, then copy what can be copied to `stream[at..]`.
     * `n` is the byte count copied, and `waiting` says the call is waiting for the producer.
     */
    method Turn(stream: array<bv8>, at: nat, want: nat, quit: bool, ghost sent: seq<bv8>, ghost orig: seq<bv8>)
      returns (n: nat, waiting: bool)
      requires Valid() && 0 < want && at + want <= stream.Length
      requires stream != audioBuf && stream !in queue.Repr
      requires |sent| == at && |orig| == stream.Length && stream[..] == Over(sent, orig)
      modifies this, audioBuf, queue, stream
      ensures Valid() && queue.Repr == old(queue.Repr)
      ensures var p := Prepare(old(State()), quit, decoder);
        waiting == p.Waiting? &&
        (waiting ==> n == 0 && State() == p.state && stream[..] == Over(sent, orig)) &&
        (!waiting ==> var c := Copy(p.state, want);
          n == |c.out| && State() == c.state && stream[..] == Over(sent + c.out, orig))
    {
      if audioBufIndex >= audioBufSize {
        // everything buffered was sent: get more
        waiting := Refresh(quit);
        if waiting {
          return 0, true;
        }
      }
      ghost var t := State();
      ghost var before := stream[..];
      n := Emit(stream, at, want);
      OverMore(sent, Copy(t, want).out, orig, before, stream[..]);
      waiting := false;
    }

    /**
     * A turn of audio_callback's loop, keeping track of where the whole call stands: `goal` is
     * what the call is to write and leave, `sent` the bytes written so far, `orig` the stream as
     * the call found it. `sent'` is what has been written after the turn and `left` the byte
     * count still wanted.
     */
    method LoopTurn(stream: array<bv8>, at: nat, want: nat, quit: bool,
                    ghost goal: Filled, ghost sent: seq<bv8>, ghost orig: seq<bv8>)
      returns (n: nat, waiting: bool, ghost sent': seq<bv8>, left: nat)
      requires Valid() && 0 < want && at + want <= stream.Length
      requires stream != audioBuf && stream !in queue.Repr
      requires |sent| == at && |orig| == stream.Length && stream[..] == Over(sent, orig)
      requires goal == Prefixed(sent, Fill(State(), want, quit, decoder))
      modifies this, audioBuf, queue, stream
      ensures Valid() && queue.Repr == old(queue.Repr)
      ensures waiting ==> goal == Filled(sent, State(), true) && stream[..] == Over(sent, orig)
      ensures !waiting ==> 0 < n <= want && |sent'| == at + n && stream[..] == Over(sent', orig)
      ensures left == want - n
      ensures !waiting ==> goal == Prefixed(sent', Fill(State(), left, quit, decoder))
    {
      ghost var s := State();
      n, waiting := Turn(stream, at, want, quit, sent, orig);
      if waiting {
        FillWaiting(s, want, quit, decoder);
        assert sent + [] == sent;
        return n, waiting, sent, want - n;
      }
      ghost var c := Copy(Prepare(s, quit, decoder).state, want);
      sent', left := sent + c.out, want - n;
      TurnCopies(goal, sent, s, want, quit, decoder, sent', State(), left);
    }

    /**
     * audio_callback, proved to behave as Fill: the first bytes of `stream` receive the output;
     * `parked` says the call is waiting in the queue for the producer.
     */
    method Callback(stream: array<bv8>, len: nat, quit: bool) returns (parked: bool)
      requires Valid() && len <= stream.Length
      requires stream != audioBuf && stream !in queue.Repr
      modifies this, audioBuf, queue, stream
      ensures Valid()
      ensures var f := Fill(old(State()), len, quit, decoder);
        parked == f.parked && State() == f.state && stream[..] == f.out + old(stream[..])[|f.out|..]
    {
      ghost var goal := Fill(State(), len, quit, decoder);
      ghost var orig := stream[..];
      parked := Loop(stream, len, quit, goal, orig);
      OverIs(goal.out, orig);
    }

    /**
     * The loop of audio_callback, writing `goal.out` over `orig`, the stream as the call found it.
     */
    method Loop(stream: array<bv8>, len: nat, quit: bool, ghost goal: Filled, ghost orig: seq<bv8>)
      returns (parked: bool)
      requires Valid() && len <= stream.Length
      requires stream != audioBuf && stream !in queue.Repr
      requires goal == Fill(State(), len, quit, decoder) && orig == stream[..]
      modifies this, audioBuf, queue, stream
      ensures Valid()
      ensures parked == goal.parked && State() == goal.state && stream[..] == Over(goal.out, orig)
    {
      var written: nat := 0;
      var remaining: nat := len;
      ghost var sent := [];
      assert [] + goal.out == goal.out;
      while remaining > 0
        invariant Valid() && queue.Repr == old(queue.Repr)
        invariant written + remaining == len && |sent| == written
        invariant stream[..] == Over(sent, orig)
        invariant goal == Prefixed(sent, Fill(State(), remaining, quit, decoder))
        decreases remaining
      {
        var n, waiting, left;
        n, waiting, sent, left := LoopTurn(stream, written, remaining, quit, goal, sent, orig);
        if waiting {
          return true;
        }
        written := written + n;
        remaining := left;
      }
      assert sent + [] == sent;
      parked := false;
    }
  }
}
