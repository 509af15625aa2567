/**
 * The stream framer: serialParser and getNextBeginning.
 *
 * The framer keeps an accumulation buffer across deliveries. Each delivery
 * appends its chunk, realigns the buffer on the first head byte 0xAA,
 * waits while fewer than ten bytes are held, drops ten bytes when the
 * checksum or the tail is wrong, and otherwise hands the buffer on and
 * empties it.
 */
module Framer {
  import opened Wrappers
  import opened Checksum

  /** `buffer.indexOf(0xAA)`: the first index holding the head byte, or -1. */
  function IndexOfHead(s: seq<byte>): (r: int)
    ensures -1 <= r < |s|
    ensures r == -1 <==> forall j :: 0 <= j < |s| ==> s[j] != HEAD
    ensures r >= 0 ==> s[r] == HEAD && forall j :: 0 <= j < r ==> s[j] != HEAD
  {
    if s == [] then -1
    else if s[0] == HEAD then 0
    else
      var k := IndexOfHead(s[1..]);
      if k == -1 then -1 else k + 1
  }

  /**
   * getNextBeginning: the suffix that starts at the first head byte, or the
   * empty buffer when there is none.
   */
  function NextBeginning(s: seq<byte>): (r: seq<byte>)
    ensures |r| <= |s| && r == s[|s| - |r|..]
    ensures r == [] || r[0] == HEAD
    ensures forall j :: 0 <= j < |s| - |r| ==> s[j] != HEAD
  {
    var start := IndexOfHead(s);
    if start == -1 then [] else s[start..]
  }

  /** The frame checks of serialParser: checksum over bytes 2..7 and the tail. */
  predicate Accepted(frame: seq<byte>)
    requires |frame| >= FRAME_LENGTH
    ensures Accepted(frame) <==>
      (frame[2] as int + frame[3] + frame[4] + frame[5] + frame[6] + frame[7]) % 256 == frame[8] && frame[9] == TAIL
  {
    CheckCrc(frame) && frame[9] == TAIL
  }

  /** The buffer a delivery leaves behind and the buffer it hands to parseMessage, if any. */
  datatype Delivery = Delivery(buffer: seq<byte>, handed: Option<seq<byte>>)

  /** The buffer after the realignment step of a delivery. */
  function Align(joined: seq<byte>): (r: seq<byte>)
    ensures r == NextBeginning(joined)
  {
    AlignIsNextBeginning(joined);
    // `serialData[0] != 0xAA` also holds of an empty buffer, whose first element is undefined.
    if joined == [] || joined[0] != HEAD then NextBeginning(joined) else joined
  }

  /** One call of the closure that serialParser returns, on the buffer it has kept so far. */
  function Step(serialData: seq<byte>, chunk: seq<byte>): (d: Delivery)
    ensures var joined := serialData + chunk;
      && |d.buffer| <= |joined| && d.buffer == joined[|joined| - |d.buffer|..]
      && (d.handed.Some? ==> d.buffer == [] && |d.handed.value| >= FRAME_LENGTH
                             && d.handed.value == NextBeginning(joined) && Accepted(d.handed.value))
  {
    var aligned := Align(serialData + chunk);
    if |aligned| < FRAME_LENGTH then Delivery(aligned, None)
    else if !Accepted(aligned) then Delivery(aligned[FRAME_LENGTH..], None)
    else Delivery([], Some(aligned))
  }

  /** Realigning keeps the suffix from the first head byte on. */
  lemma AlignIsNextBeginning(joined: seq<byte>)
    ensures (if joined == [] || joined[0] != HEAD then NextBeginning(joined) else joined) == NextBeginning(joined)
  {
    if joined != [] && joined[0] == HEAD {
      assert IndexOfHead(joined) == 0;
    }
  }

  /**
   * What one delivery does. With `aligned` the suffix of buffer and chunk
   * from the first 0xAA on: it hands on a buffer exactly when `aligned`
   * has ten bytes, a correct checksum and the tail; then it hands on
   * `aligned` whole and empties the buffer. Short buffers are kept
   * unchanged; a rejected one loses exactly its first ten bytes.
   */
  lemma StepSpec(serialData: seq<byte>, chunk: seq<byte>)
    ensures var aligned := NextBeginning(serialData + chunk);
      var d := Step(serialData, chunk);
      && (d.handed.Some? <==>
            |aligned| >= FRAME_LENGTH
            && (aligned[2] as int + aligned[3] + aligned[4] + aligned[5] + aligned[6] + aligned[7]) % 256 == aligned[8]
            && aligned[9] == TAIL)
      && (d.handed.Some? ==> d.handed.value == aligned && d.buffer == [])
      && (|aligned| < FRAME_LENGTH ==> d.buffer == aligned)
      && (|aligned| >= FRAME_LENGTH && d.handed.None? ==> d.buffer == aligned[FRAME_LENGTH..])
  {
    AlignIsNextBeginning(serialData + chunk);
  }

  /** A buffer handed on starts with a complete, checked frame made of buffered and delivered bytes. */
  lemma HandedFrame(serialData: seq<byte>, chunk: seq<byte>)
    requires Step(serialData, chunk).handed.Some?
    ensures var h := Step(serialData, chunk).handed.value;
      && |h| >= FRAME_LENGTH && h[0] == HEAD && h[9] == TAIL && CheckCrc(h)
      && h == (serialData + chunk)[|serialData + chunk| - |h|..]
      && forall j :: 0 <= j < |serialData + chunk| - |h| ==> (serialData + chunk)[j] != HEAD
  {
    AlignIsNextBeginning(serialData + chunk);
  }

  /** After a delivery the buffer is empty or starts with 0xAA, unless it has just had a frame rejected. */
  lemma StepAligned(serialData: seq<byte>, chunk: seq<byte>)
    requires |NextBeginning(serialData + chunk)| < FRAME_LENGTH || Step(serialData, chunk).handed.Some?
    ensures var b := Step(serialData, chunk).buffer; b == [] || b[0] == HEAD
  {
    AlignIsNextBeginning(serialData + chunk);
  }

  /** A well-formed 10-byte response frame as the sensor sends it. */
  predicate IsResponse(r: seq<byte>)
  {
    |r| == FRAME_LENGTH && r[0] == HEAD && Accepted(r)
  }

  /** The first head byte after head-free noise is the first byte after the noise. */
  lemma {:induction false} IndexOfHeadAfterNoise(noise: seq<byte>, s: seq<byte>)
    requires forall j :: 0 <= j < |noise| ==> noise[j] != HEAD
    requires s != [] && s[0] == HEAD
    ensures IndexOfHead(noise + s) == |noise|
  {
    if noise != [] {
      assert (noise + s)[1..] == noise[1..] + s;
      IndexOfHeadAfterNoise(noise[1..], s);
    } else {
      assert noise + s == s;
    }
  }

  /** A response delivered after head-free noise is handed on whole, and the buffer is emptied. */
  lemma ResponseAfterNoise(noise: seq<byte>, r: seq<byte>)
    requires forall j :: 0 <= j < |noise| ==> noise[j] != HEAD
    requires IsResponse(r)
    ensures Step(noise, r) == Delivery([], Some(r))
  {
    var joined := noise + r;
    IndexOfHeadAfterNoise(noise, r);
    assert joined[|noise|..] == r;
    assert NextBeginning(joined) == r;
    assert Align(joined) == r;
  }

  /** Runs a sequence of deliveries; returns the final buffer and every buffer handed on, in order. */
  datatype Trace = Trace(buffer: seq<byte>, handed: seq<seq<byte>>)

  function Run(serialData: seq<byte>, chunks: seq<seq<byte>>): Trace
    decreases |chunks|
  {
    if chunks == [] then Trace(serialData, [])
    else
      var d := Step(serialData, chunks[0]);
      var rest := Run(d.buffer, chunks[1..]);
      Trace(rest.buffer, (if d.handed.Some? then [d.handed.value] else []) + rest.handed)
  }

  /** All the bytes of a sequence of chunks, in order. */
  function Flatten(chunks: seq<seq<byte>>): (s: seq<byte>)
    decreases |chunks|
  {
    if chunks == [] then [] else chunks[0] + Flatten(chunks[1..])
  }

  /** Empty deliveries to an empty buffer do nothing. */
  lemma {:induction false} RunEmpty(chunks: seq<seq<byte>>)
    requires Flatten(chunks) == []
    ensures Run([], chunks) == Trace([], [])
    decreases |chunks|
  {
    if chunks != [] {
      assert chunks[0] == [];
      assert Step([], []) == Delivery([], None);
      RunEmpty(chunks[1..]);
    }
  }

  /** One delivery of the next bytes of a response onto a buffer holding its start. */
  lemma StepWithinResponse(prefix: seq<byte>, c: seq<byte>, r: seq<byte>)
    requires IsResponse(r)
    requires |prefix + c| <= FRAME_LENGTH && prefix + c == r[..|prefix + c|]
    ensures |prefix + c| < FRAME_LENGTH ==> Step(prefix, c) == Delivery(prefix + c, None)
    ensures |prefix + c| == FRAME_LENGTH ==> Step(prefix, c) == Delivery([], Some(r))
  {
    var joined := prefix + c;
    if joined != [] {
      assert joined[0] == r[0];
    }
    if |joined| == FRAME_LENGTH {
      assert joined == r;
    }
  }

  /**
   * A response split over any number of chunks, the first of which may
   * begin with head-free noise, is handed on exactly once, and the buffer
   * ends empty.
   */
  lemma {:induction false} ResponseInChunks(prefix: seq<byte>, r: seq<byte>, chunks: seq<seq<byte>>)
    requires IsResponse(r)
    requires |prefix| < FRAME_LENGTH && prefix == r[..|prefix|]
    requires prefix + Flatten(chunks) == r
    ensures Run(prefix, chunks) == Trace([], [r])
    decreases |chunks|
  {
    assert |Flatten(chunks)| == |r| - |prefix| > 0;
    var c, rest := chunks[0], chunks[1..];
    var joined := prefix + c;
    assert r == joined + Flatten(rest);
    assert |joined| <= FRAME_LENGTH && joined == r[..|joined|];
    StepWithinResponse(prefix, c, r);
    var d := Step(prefix, c);
    assert Run(prefix, chunks) ==
      Trace(Run(d.buffer, rest).buffer, (if d.handed.Some? then [d.handed.value] else []) + Run(d.buffer, rest).handed);
    if |joined| < FRAME_LENGTH {
      ResponseInChunks(joined, r, rest);
    } else {
      RunEmpty(rest);
    }
  }

  /** Head-free noise delivered to an empty buffer is dropped. */
  lemma NoiseDropped(noise: seq<byte>)
    requires forall j :: 0 <= j < |noise| ==> noise[j] != HEAD
    ensures Step([], noise) == Delivery([], None)
  {
    assert [] + noise == noise;
    assert IndexOfHead(noise) == -1;
  }

  /** A delivery of head-free noise to an empty buffer leaves the rest of a run unchanged. */
  lemma NoiseSkipped(noise: seq<byte>, chunks: seq<seq<byte>>)
    requires forall j :: 0 <= j < |noise| ==> noise[j] != HEAD
    ensures Run([], [noise] + chunks) == Run([], chunks)
  {
    NoiseDropped(noise);
    assert ([noise] + chunks)[1..] == chunks;
  }

  /** Any chunking of noise followed by a response hands on that response once. */
  lemma NoiseThenResponse(noise: seq<byte>, r: seq<byte>, chunks: seq<seq<byte>>)
    requires forall j :: 0 <= j < |noise| ==> noise[j] != HEAD
    requires IsResponse(r)
    requires Flatten(chunks) == r
    ensures Run([], [noise] + chunks) == Trace([], [r])
  {
    calc {
      Run([], [noise] + chunks);
      == { NoiseSkipped(noise, chunks); }
      Run([], chunks);
      == { ResponseInChunks([], r, chunks); }
      Trace([], [r]);
    }
  }

  /** A run of one delivery is that delivery's step. */
  lemma RunSingle(serialData: seq<byte>, chunk: seq<byte>)
    ensures var d := Step(serialData, chunk);
      Run(serialData, [chunk]) == Trace(d.buffer, if d.handed.Some? then [d.handed.value] else [])
  {
    var chunks := [chunk];
    assert chunks[0] == chunk && chunks[1..] == [];
  }

  /** A whole response in one delivery to an empty buffer is handed on once. */
  lemma WholeResponse(r: seq<byte>)
    requires IsResponse(r)
    ensures Run([], [r]) == Trace([], [r])
  {
    ResponseAfterNoise([], r);
    RunSingle([], r);
  }

  /** Noise in one delivery, then a whole response in the next. */
  lemma NoiseThenWhole(noise: seq<byte>, r: seq<byte>)
    requires forall j :: 0 <= j < |noise| ==> noise[j] != HEAD
    requires IsResponse(r)
    ensures Run([], [noise, r]) == Trace([], [r])
  {
    assert [noise, r] == [noise] + [r];
    NoiseSkipped(noise, [r]);
    WholeResponse(r);
  }

  /**
   * A second response in the same delivery is lost: the buffer is cleared
   * after the first one is handed on.
   */
  lemma SecondResponseLost(r1: seq<byte>, r2: seq<byte>)
    requires IsResponse(r1) && IsResponse(r2)
    ensures Step([], r1 + r2) == Delivery([], Some(r1 + r2))
  {
    var j := r1 + r2;
    assert forall k :: 0 <= k < FRAME_LENGTH ==> j[k] == r1[k];
    assert Accepted(j);
    assert [] + j == j;
    assert Align(j) == j;
  }

  /** The serialParser closure with its accumulation buffer. */
  class SerialParser {
    var serialData: seq<byte>

    constructor ()
      ensures serialData == []
    {
      serialData := [];
    }

    /** The function serialParser returns, called on one delivered chunk. */
    method Feed(buffer: seq<byte>) returns (handed: Option<seq<byte>>)
      modifies this
      ensures Delivery(serialData, handed) == Step(old(serialData), buffer)
    {
      serialData := serialData + buffer;
      if serialData == [] || serialData[0] != HEAD {
        serialData := NextBeginning(serialData);
      }
      if |serialData| < FRAME_LENGTH {
        return None;
      }
      if !CheckCrc(serialData) || serialData[9] != TAIL {
        serialData := serialData[FRAME_LENGTH..];
        return None;
      }
      handed := Some(serialData);
      serialData := [];
    }
  }
}
