# Audio packet queue and SDL audio callbacks, modelled in Dafny

This project models the two in-memory mechanisms that the FFmpeg/SDL learning programs share.
It proves what they do with their packets, buffers and cursors.

- **The audio packet queue** (`PacketQueue` with `packet_queue_init`, `packet_queue_put` and
  `packet_queue_get`). It is a singly linked FIFO of compressed packets with `first_pkt` and
  `last_pkt` pointers and two counters, `nb_packets` and `size`. `player/player.c:14-106` and
  `audio/sdl_play_audio.c:16-116` hold the same code. Module `PacketQueues` models it once, as a
  class `PacketQueue` over heap `Node` cells, with a ghost view `contents` (the packets in
  order) and `spine` (the cells in order).
- **The pull-based audio fill** (`audio_callback` with `audio_decode_frame`). The device
  callback must write `len` bytes. It serves them from the static residual buffer
  (`audio_buf`, `audio_buf_size`, `audio_buf_index`). When that buffer is drained it refills it
  from `audio_decode_frame`, or with 1024 bytes of silence when decoding fails.
  `audio_decode_frame` drains the packet queue through the codec. `player/player.c:108-224` and
  `audio/sdl_play_audio.c:123-252` hold the same code. Module `AudioPipeline` models it twice
  over:
  - as functions on values (`NextFrame`, `Prepare`, `Copy`, `Fill`), which carry the proved
    properties;
  - as the class `AudioPlayer`, whose methods update the statics and the `audio_buf` array in
    place. Each method is proved to leave exactly the state and output that the function gives.
- **The push-style PCM callback** (`audio_callback` in `sdl_play_pcm.c` and `play_audio.c`,
  the same code in both). It clears the stream, copies `min(len, audio_len)` bytes from
  `audio_pos` and advances the cursor. Module `PcmPlayback` models it as the function `Play` on
  a `Cursor` value and as the class `PcmPlayer`, whose `Callback` writes into an array.

Module `Common` holds an `Option` type, `Min`, and runs of zero bytes (`Zeros`, `Silent`).

How the model stands in for what it cannot express:

- The global `quit` flag is a parameter of each call, constant during the call.
- The codec with its resampler (`avcodec_decode_audio4`, `swr_convert`) is an oracle,
  `Decoder = (nat, Packet) -> Reply`. It gives the answer to the i-th decoding call on a packet:
  an error, or the number of bytes consumed with an optional frame (`nb_samples` and the bytes
  written to the front of `audio_buf`). A `Reply` makes progress: it consumes a byte or
  completes a frame with samples. Without that, the C loop would spin forever. A frame also fits
  the buffer, as the assertion commented out at `player/player.c:145` expects.
- `av_dup_packet` and `av_malloc` become two booleans, `dupOk` and `allocOk`, passed to `Put`.
- A blocking `packet_queue_get` that finds the queue empty waits on the condition variable.
  Here that outcome is `WouldBlock`, with the queue unchanged. After a wake-up the C loop runs
  again from the top, so the wake-up is the same as calling `Get` again. The decoding call that
  made the get reports `Parked`. The callback then returns `parked = true` with the bytes
  written so far. Resuming it is a fresh call for the bytes still wanted.
- `audio_pkt_data` is an offset into the current packet. The freed `pkt` is `None`.

`player/player.c` and `audio/sdl_play_audio.c` are line-for-line the same in the modelled
parts, and each row below cites one of the two copies. The matching line ranges are:

- the queue struct and `packet_queue_init`: 14-21 and 26-31 in `player/player.c`, 16-23 and
  34-39 in `audio/sdl_play_audio.c`;
- `packet_queue_put`: 33-64 and 41-73;
- `packet_queue_get`: 66-106 and 75-116;
- `audio_decode_frame`: 108-177 and 123-192;
- `audio_callback`: 181-224 and 207-252.

The PCM callback is at 13-25 in `sdl_play_pcm.c` and at 19-29 in `play_audio.c`.

## Model

| member | source | states |
|---|---|---|
| `Common.Min` | sdl_play_pcm.c:18 | The count taken is no more than either operand and equal to one of them. |
| `PacketQueues.TotalSizeAppend` | player/player.c:57-59 | Appending a packet adds exactly its size to the byte total, so the running `size` stays the sum of the queued sizes. |
| `PacketQueues.EmptyQueueHasNoBytes` | player/player.c:17-18 | An empty queue holds zero bytes. A queue holding one empty packet also holds zero bytes, so `size == 0` does not mean that the queue is empty. |
| `PacketQueues.GetResult.Code` | player/player.c:73-105 | `packet_queue_get` returns -1, 0 or 1. It returns 1 exactly when a packet was handed back, and a negative value exactly when quit stopped it. |
| `PacketQueues.PacketQueue.ValidFields` | player/player.c:14-21 | Under the queue invariant, `first_pkt` and `last_pkt` are null together, and exactly when nothing is queued. `nb_packets` counts the packets and `size` sums their bytes. |
| `PacketQueues.PacketQueue.constructor` | player/player.c:26-31 | `packet_queue_init` leaves a valid empty queue with null end pointers and zero counters. |
| `PacketQueues.PacketQueue.Put` | player/player.c:33-64 | When duplication and allocation succeed, `put` returns 0 and appends at the tail: contents become old ++ [pkt], `nb_packets` grows by 1 and `size` by the packet's size, and `last_pkt` is the new cell. Otherwise it returns -1 and changes nothing. The queue invariant is kept. |
| `PacketQueues.PacketQueue.Append` | player/player.c:48-59 | The locked part of `put` links a new cell after `last_pkt`: contents become old ++ [pkt], `nb_packets` grows by 1 and `size` by the packet's size, the new cell is `last_pkt` with a null `next`, and the queue invariant is kept. |
| `PacketQueues.PacketQueue.Get` | audio/sdl_play_audio.c:75-116 | With quit set, `get` returns -1 and leaves the queue unchanged, even when packets are queued. Otherwise, on a non-empty queue, it returns the head packet and removes it; `nb_packets` drops by 1, `size` drops by the head's size, and `last_pkt` becomes null exactly when the queue empties. On an empty queue it returns 0 and changes nothing when not blocking, and waits when blocking. The value returned (`Code`) is -1 on quit, 1 with a packet and 0 otherwise. The queue invariant is kept. |
| `PacketQueues.PutAll` | audio/sdl_play_audio.c:41-73 | Successful puts of a sequence of packets append them to the queue in order. |
| `PacketQueues.TakeAll` | audio/sdl_play_audio.c:82-103 | `n` gets with quit clear return the first `n` queued packets in order and leave the rest queued. |
| `PacketQueues.FifoRoundTrip` | player/player.c:48-92 | Putting p1..pn on a fresh queue, then getting n packets, returns p1..pn in the same order. |
| `PcmPlayback.Play` | sdl_play_pcm.c:13-25 | One callback outputs exactly `len` bytes. It leaves a cursor that still lies within the same chunk. |
| `PcmPlayback.PlayDelivers` | sdl_play_pcm.c:15-24 | The bytes taken are `min(len, audio_len)`. `audio_pos` advances, and `audio_len` drops, by exactly that count, so `audio_len` never underflows. The front of the output is the next stretch of the chunk in order, and the rest of the `len` bytes stays silence. With `audio_len == 0` the cursor is unchanged. |
| `PcmPlayback.PlayForm` | play_audio.c:21-28 | Both branches of the callback give one shape: the `min(len, audio_len)` bytes taken, then zero padding up to `len`. |
| `PcmPlayback.PlaySplit` | play_audio.c:19-29 | Two callbacks of `a` and `b` bytes deliver the same bytes, and leave the same cursor, as one callback of `a + b` bytes. |
| `PcmPlayback.RunIsOnePlay` | sdl_play_pcm.c:18-24 | Any run of callbacks acts as one callback for the total request. The chunk is played once, in order, and the bytes consumed over all calls never exceed the `audio_len` that the chunk started with. |
| `PcmPlayback.PcmPlayer.constructor` | sdl_play_pcm.c:7-9 | Before anything is loaded, the statics hold a null cursor with nothing left to play. |
| `PcmPlayback.PcmPlayer.Load` | sdl_play_pcm.c:81-83 | The read loop points the cursor at the start of the new buffer, with its full length left. |
| `PcmPlayback.PcmPlayer.Callback` | play_audio.c:19-29 | The callback writes `Play`'s output into the first `len` bytes of the stream. The rest of the stream is unchanged, and the cursor becomes `Play`'s next cursor. |
| `AudioPipeline.Overlay` | player/player.c:146-150 | The resampler writes the frame's bytes over the front of `audio_buf`: the front holds exactly those bytes, the rest of the buffer is kept, and the buffer keeps its size. |
| `AudioPipeline.Consume` | player/player.c:123-153 | One codec call is counted. An error drops the rest of the packet (size 0); otherwise the packet size drops by the bytes consumed. A completed frame's resampled bytes are written over the front of `audio_buf`; without a frame the buffer is unchanged. The packet in hand, the buffer index, the buffer size and the queue are untouched. |
| `AudioPipeline.NextPacket` | player/player.c:170-175 | The head of the queue is removed and becomes the packet in hand, read from offset 0 with its full size left; the buffer and its index and size are untouched. |
| `AudioPipeline.NextFrameInOrder` | player/player.c:108-177 | Packets reach the decoder in queue order: after `audio_decode_frame`, the packet in hand is the one it already held (queue untouched), or the queued packet just before those still waiting. |
| `AudioPipeline.Freed` | player/player.c:162-163 | Freeing the used-up packet keeps the state valid. |
| `AudioPipeline.NextFrame` | player/player.c:108-177 | `audio_decode_frame` leaves a valid state with the buffer index and size unchanged. A frame reports a byte count between 1 and the buffer's capacity. |
| `AudioPipeline.NextFrameOutcome` | audio/sdl_play_audio.c:123-192 | A frame's byte count is a multiple of 4. -1 comes only with quit set. A wait comes only with quit clear and the queue empty. Without a frame, the packet in hand is used up and freed. Packets leave the queue only from its front. |
| `AudioPipeline.FrameReturnedAtOnce` | player/player.c:143-160 | The first frame that the codec completes with samples is returned at once, with `2*2*nb_samples` bytes, and the queue is not touched. |
| `AudioPipeline.ErrorSkipsPacket` | player/player.c:124-128 | A codec error discards the rest of the current packet: decoding goes on exactly as if the packet were used up. |
| `AudioPipeline.QuitStopsDecoding` | player/player.c:165-168 | With quit set and no packet left to finish, the decoding call returns -1 at once and takes nothing from the queue, however many packets are waiting. |
| `AudioPipeline.Refill` | player/player.c:199-209 | After a failure, 1024 bytes of silence are buffered. After a frame, its byte count is buffered. Either way the index is reset to 0. |
| `AudioPipeline.Prepare` | player/player.c:194-210 | Once the head of a loop turn is done, either bytes are buffered (index below size), or the call waits for the producer. |
| `AudioPipeline.PrepareWaits` | player/player.c:99-102 | A loop turn waits only when the buffer was drained, quit is clear and the queue is empty. |
| `AudioPipeline.PrepareTakes` | player/player.c:170 | A loop turn takes packets only from the front of the queue. |
| `AudioPipeline.Copy` | player/player.c:211-222 | A loop turn copies the next buffered bytes in order, between 1 and `len` of them, and never reads past `audio_buf_size`. Either the request is met or the buffer is drained. The index moves past the bytes copied. |
| `AudioPipeline.Advance` | player/player.c:222 | Moving `audio_buf_index` past copied bytes keeps it within `audio_buf_size`. |
| `AudioPipeline.Fill` | player/player.c:181-224 | The callback writes exactly `len` bytes, unless it waits for the producer; a waiting call has written fewer. `audio_buf_index <= audio_buf_size` is kept. |
| `AudioPipeline.FillTurn` | player/player.c:192-223 | A turn of the `while (len > 0)` loop, followed by the rest of the call, keeps the same length promise. |
| `AudioPipeline.FillWaits` | player/player.c:192-210 | A callback waits only when quit is clear, the queue is empty and the buffer is drained. |
| `AudioPipeline.FillTakes` | player/player.c:194-198 | A callback takes packets only from the front of the queue. |
| `AudioPipeline.FillBuffered` | player/player.c:211-222 | A turn that finds bytes copies them, then the call goes on with what is still wanted. |
| `AudioPipeline.FillWaiting` | player/player.c:194-198 | A turn that has to wait for the producer writes nothing more. |
| `AudioPipeline.PrepareUnderQuit` | player/player.c:194-209 | With quit set and the packet in hand used up, a loop turn never waits. A drained buffer is refilled with 1024 bytes of silence. |
| `AudioPipeline.QuitPlaysSilence` | audio/sdl_play_audio.c:219-237 | Once quit is set, the packet in hand is used up and the buffered bytes are silent, every callback writes all `len` bytes, and all of them are silence. |
| `AudioPipeline.DrainedCallbackPlaysFrame` | player/player.c:194-218 | A drained callback with a packet queued plays that packet's frame: when the head's first decoding completes a frame of `4*nb_samples` resampled bytes covering the request, the callback outputs the front of exactly those bytes, and the head is the packet left in hand. |
| `AudioPipeline.ResidualServedFirst` | player/player.c:192-222 | A request that the buffered bytes cover is served from them alone, in order. Nothing is decoded and the queue is untouched. |
| `AudioPipeline.AudioPlayer.constructor` | player/player.c:188-190 | The statics start with zero sizes, no packet and a zeroed buffer of `(MAX_AUDIO_FRAME_SIZE*3)/2` bytes. |
| `AudioPipeline.AudioPlayer.DecodeStep` | player/player.c:120-153 | One codec call updates the statics as `Consume` says. The byte count is `2*2*nb_samples` for a frame and 0 otherwise. |
| `AudioPipeline.AudioPlayer.DecodePacket` | player/player.c:120-161 | The inner loop either returns the first frame, as `NextFrame` does, or leaves a used-up packet from which decoding goes on unchanged. |
| `AudioPipeline.AudioPlayer.NextPacketFromQueue` | player/player.c:162-175 | After freeing the packet: -1 when quit is set; -1 or a wait when the get fails; otherwise the queue's head becomes the current packet. |
| `AudioPipeline.AudioPlayer.DecodeFrame` | player/player.c:108-177 | `audio_decode_frame` returns the status and leaves the statics that `NextFrame` gives. |
| `AudioPipeline.AudioPlayer.Silence` | player/player.c:202-203 | The first 1024 bytes of `audio_buf` become zero; the rest is unchanged. |
| `AudioPipeline.AudioPlayer.Refresh` | player/player.c:194-210 | Refilling a drained buffer leaves the statics that `Prepare` gives, and says whether the call waits. |
| `AudioPipeline.AudioPlayer.Emit` | player/player.c:211-222 | The memcpy writes `Copy`'s bytes at the current stream position, moves the index as `Copy` says, and leaves the rest of the stream. |
| `AudioPipeline.AudioPlayer.Turn` | audio/sdl_play_audio.c:221-250 | One loop turn does what `Prepare` then `Copy` give, on both the statics and the stream. |
| `AudioPipeline.AudioPlayer.LoopTurn` | audio/sdl_play_audio.c:219-250 | After each turn, the bytes written so far followed by `Fill` of what is still wanted is the whole call's result. |
| `AudioPipeline.AudioPlayer.Loop` | audio/sdl_play_audio.c:219-251 | The `while (len > 0)` loop writes `Fill`'s output over the stream, leaves `Fill`'s state, and waits exactly when `Fill` does. |
| `AudioPipeline.AudioPlayer.Callback` | audio/sdl_play_audio.c:207-252 | `audio_callback` writes `Fill`'s bytes at the front of the stream and leaves the rest of the stream as it was. The statics become `Fill`'s state, and the call waits exactly when `Fill` does. |

## Left out

- Mutex and condition variable: each locked section of `put` and `get` is one atomic method, and
  thread interleavings are not modelled.
- The wait in `get`: it is the `WouldBlock` outcome; the thread that stays blocked inside
  `SDL_CondWait` is not modelled.
- Quit during a wait: `main` sets `quit` on `SDL_QUIT` (`audio/sdl_play_audio.c:432`) without
  signalling the condition variable, so a consumer already waiting in `get` is not woken by it.
  The model checks `quit` only when a call starts.
- `AudioPipeline.AudioPlayer.Callback`: a callback that waits returns with what it has written
  (`parked`), instead of blocking inside the device callback; its resumption is a new call for
  the bytes still wanted.
- Codec, resampler and packet duplication (`avcodec_decode_audio4`, `swr_convert`,
  `av_dup_packet`, `av_malloc`): these are foreign calls, replaced by the `Decoder` oracle and
  the `dupOk`/`allocOk` flags. A codec that neither consumes bytes nor completes a frame with
  samples is excluded by the `Reply` type, because the C loop would never end on it.
- `Reply`: the codec answers are restricted to frames that fit the static buffer
  (`4*nb_samples` and the resampled byte count at most `(MAX_AUDIO_FRAME_SIZE*3)/2`). The C does
  not check this: the assertion at `player/player.c:145` is commented out, and
  `player/player.c:148` lets `swr_convert` write up to `MAX_AUDIO_FRAME_SIZE*3/2` samples per
  channel, more bytes than the buffer holds. A frame that overflows `audio_buf` is not modelled,
  and `audio_buf_size <= sizeof(audio_buf)` rests on this restriction.
- `SDL_MixAudio` volume and clipping arithmetic: the PCM callback treats it as a byte copy into
  the zeroed stream, like the `memcpy` left commented next to it.
- Integer widths: `nb_packets`, `size`, `audio_buf_size`, `audio_buf_index`, `len` and
  `audio_len` are unbounded integers; 32-bit overflow of the counters is not modelled.
- Logging (`av_log`), every `main` apart from the three assignments of the PCM read loop that
  `PcmPlayer.Load` models (`sdl_play_pcm.c:81-83`), the `fread` and the `SDL_Delay` busy wait of
  that loop, and `play_video.c`, `media_info.c` and `audio/sample_format.c`: I/O and foreign
  calls only.
- The static `audio_chunk`/`audio_len`/`audio_pos` in `audio/sdl_play_audio.c:118-121` belong
  to a commented-out callback and are not used there.
