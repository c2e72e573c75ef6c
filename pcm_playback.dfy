/**
 * The push-style PCM callback: the program hands the audio device a chunk of raw PCM through a
 * static cursor (audio_pos, audio_len); each device callback zeroes the requested bytes, copies
 * as much of the chunk as fits and advances the cursor.
 */
module PcmPlayback {
  import opened Common

  /**
   * The callback's static cursor: `chunk` holds the bytes audio_pos points into, `pos` is the
   * offset of audio_pos in them and `remaining` is audio_len.
   */
  datatype Cursor = Cursor(chunk: seq<bv8>, pos: nat, remaining: nat)
  {
    /** The cursor never points past the end of its chunk. */
    predicate Valid() { pos + remaining <= |chunk| }
  }

  /** The bytes written to the device and the cursor left for the next call. */
  datatype Delivery = Delivery(out: seq<bv8>, next: Cursor)

  /** One callback with a request of `len` bytes. */
  function Play(c: Cursor, len: nat): (d: Delivery)
    requires c.Valid()
    ensures d.next.Valid() && d.next.chunk == c.chunk
    ensures |d.out| == len
  {
    if c.remaining == 0 then
      Delivery(Zeros(len), c)
    else
      var n := if len > c.remaining then c.remaining else len;
      Delivery(c.chunk[c.pos..c.pos + n] + Zeros(len - n), Cursor(c.chunk, c.pos + n, c.remaining - n))
  }

  /**
   * Splitting a request in two changes nothing: two callbacks of `a` and `b` bytes deliver the
   * same bytes, and leave the same cursor, as one callback of `a + b` bytes.
   */
  lemma PlaySplit(c: Cursor, a: nat, b: nat)
    requires c.Valid()
    ensures Play(c, a + b).out == Play(c, a).out + Play(Play(c, a).next, b).out
    ensures Play(c, a + b).next == Play(Play(c, a).next, b).next
  {
    var n1 := Min(a, c.remaining);
    var c1 := Cursor(c.chunk, c.pos + n1, c.remaining - n1);
    var n2 := Min(b, c1.remaining);
    PlayForm(c, a);
    PlayForm(c1, b);
    PlayForm(c, a + b);
    assert Min(a + b, c.remaining) == n1 + n2;
    var s1, s2 := c.chunk[c.pos..c.pos + n1], c.chunk[c.pos + n1..c.pos + n1 + n2];
    assert c.chunk[c.pos..c.pos + n1 + n2] == s1 + s2;
    Join(s1, s2, a - n1, b - n2);
  }

  /**
   * Bytes and silence twice over are the bytes and then the silence, when the silence of the
   * first part is empty or the bytes of the second are.
   */
  lemma Join(x: seq<bv8>, y: seq<bv8>, i: nat, j: nat)
    requires i == 0 || y == []
    ensures (x + Zeros(i)) + (y + Zeros(j)) == (x + y) + Zeros(i + j)
  {
    ZerosSplit(i, j);
    if i == 0 {
      assert Zeros(i) == [];
    }
  }

  /** Both branches of the callback produce the same shape: the bytes taken, then silence. */
  lemma PlayForm(c: Cursor, len: nat)
    requires c.Valid()
    ensures var n := Min(len, c.remaining);
      Play(c, len) == Delivery(c.chunk[c.pos..c.pos + n] + Zeros(len - n), Cursor(c.chunk, c.pos + n, c.remaining - n))
  {
    if c.remaining == 0 {
      assert c.chunk[c.pos..c.pos] + Zeros(len) == Zeros(len);
    }
  }

  /**
   * What one callback promises: exactly `len` bytes; the bytes taken are the request or what is
   * left, whichever is smaller; the front of the output is the next stretch of the chunk, in
   * order, and the rest stays the silence the stream was cleared to; nothing left means nothing
   * moves.
   */
  lemma PlayDelivers(c: Cursor, len: nat)
    requires c.Valid()
    ensures var d, n := Play(c, len), Min(len, c.remaining);
      |d.out| == len &&
      d.next.pos == c.pos + n && d.next.remaining == c.remaining - n &&
      d.out[..n] == c.chunk[c.pos..d.next.pos] &&
      Silent(d.out[n..]) &&
      (c.remaining == 0 ==> d.next == c)
  {
    PlayForm(c, len);
    var n := Min(len, c.remaining);
    ZerosSplit(len - n, 0);
    assert Play(c, len).out[n..] == Zeros(len - n);
  }

  function Sum(lens: seq<nat>): nat
  {
    if lens == [] then 0 else lens[0] + Sum(lens[1..])
  }

  /** Successive callbacks with the requests `lens`: their outputs in order, and the final cursor. */
  function Run(c: Cursor, lens: seq<nat>): (d: Delivery)
    requires c.Valid()
    decreases |lens|
  {
    if lens == [] then
      Delivery([], c)
    else
      var first := Play(c, lens[0]);
      var rest := Run(first.next, lens[1..]);
      Delivery(first.out + rest.out, rest.next)
  }

  /**
   * Any number of successive callbacks together act as a single callback for the total request:
   * the chunk is played once, in order, without a byte skipped or repeated, and the bytes taken
   * over all the calls never exceed the audio_len the chunk started with.
   */
  lemma {:induction false} RunIsOnePlay(c: Cursor, lens: seq<nat>)
    requires c.Valid()
    ensures Run(c, lens) == Play(c, Sum(lens))
    ensures Run(c, lens).next.pos - c.pos == Min(Sum(lens), c.remaining) <= c.remaining
    decreases |lens|
  {
    if lens != [] {
      var first := Play(c, lens[0]);
      RunIsOnePlay(first.next, lens[1..]);
      PlaySplit(c, lens[0], Sum(lens[1..]));
    }
  }

  /** The statics of the callback and the loop that feeds it. */
  class PcmPlayer {
    var chunk: seq<bv8>   // the bytes of the buffer audio_chunk points at
    var pos: nat          // audio_pos, as an offset into chunk
    var audioLen: nat     // audio_len

    ghost predicate Valid()
      reads this
    {
      View().Valid()
    }

    function View(): Cursor
      reads this
    {
      Cursor(chunk, pos, audioLen)
    }

    /** The statics before anything is loaded: a null cursor with nothing left to play. */
    constructor ()
      ensures Valid() && View() == Cursor([], 0, 0)
    {
      chunk, pos, audioLen := [], 0, 0;
    }

    /** The read loop pointing the cursor at a freshly read buffer. */
    method Load(data: seq<bv8>)
      modifies this
      ensures Valid() && View() == Cursor(data, 0, |data|)
    {
      chunk := data;
      audioLen := |data|;
      pos := 0;
    }

    /**
     * audio_callback: clear the `len` requested bytes of `stream`, then, unless nothing is left,
     * copy the next min(len, audio_len) bytes of the chunk over them and advance the cursor.
     */
    method Callback(stream: array<bv8>, len: nat)
      requires Valid() && len <= stream.Length
      modifies this, stream
      ensures Valid()
      ensures stream[..len] == Play(old(View()), len).out
      ensures stream[len..] == old(stream[len..])
      ensures View() == Play(old(View()), len).next
    {
      forall i | 0 <= i < len {
        stream[i] := 0;
      }
      if audioLen == 0 {
        return;
      }
      var n := if len > audioLen then audioLen else len;
      forall i | 0 <= i < n {
        stream[i] := chunk[pos + i];
      }
      pos := pos + n;
      audioLen := audioLen - n;
    }
  }
}
