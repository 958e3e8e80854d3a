/**
 Parsing a byte stream: decode one frame, skip `total_frame_length` bytes, repeat.
 The frames found do not depend on how the transport cut the stream into chunks.
 */
module FrameStream {
  import opened Bytes
  import opened Wrappers
  import opened Frame
  import opened FrameCodec

  /** The frames found so far, the bytes not yet consumed, and the error that stopped parsing, if any. */
  datatype Parsed = Parsed(frames: seq<BindFrame>, rest: seq<Byte>, failure: Option<FrameError>)

  function Parse(b: seq<Byte>): (p: Parsed)
    decreases |b|
  {
    var r := DecodeFrame(b);
    if r.Ok? then
      DecodedParts(b, r.value);
      var p := Parse(b[r.value.header.TotalFrameLength()..]);
      p.(frames := [r.value] + p.frames)
    else
      Parsed([], b, if r.error.Incomplete() then None else Some(r.error))
  }

  /** Where parsing stops: at the first bytes that are no frame, and with their error unless more bytes may help. */
  lemma {:induction false} ParseStops(b: seq<Byte>)
    ensures var p := Parse(b);
            && DecodeFrame(p.rest).Err?
            && (p.failure == None <==> DecodeFrame(p.rest).error.Incomplete())
            && (p.failure.Some? ==> p.failure.value == DecodeFrame(p.rest).error)
            && (p.frames == [] <==> p.rest == b)
            && (p.frames != [] ==> DecodeFrame(b) == Ok(p.frames[0]))
    decreases |b|
  {
    hide DecodeFrame;
    if DecodeFrame(b).Err? {
    } else {
      DecodedParts(b, DecodeFrame(b).value);
      ParseStops(b[DecodeFrame(b).value.header.TotalFrameLength()..]);
      RestShrinks(b[DecodeFrame(b).value.header.TotalFrameLength()..]);
    }
  }

  lemma {:induction false} RestShrinks(b: seq<Byte>)
    ensures |Parse(b).rest| <= |b|
    decreases |b|
  {
    hide DecodeFrame;
    if DecodeFrame(b).Err? {
    } else {
      DecodedParts(b, DecodeFrame(b).value);
      RestShrinks(b[DecodeFrame(b).value.header.TotalFrameLength()..]);
    }
  }

  function EncodeAll(fs: seq<BindFrame>): seq<Byte> {
    if fs == [] then [] else EncodeFrame(fs[0]) + EncodeAll(fs[1..])
  }

  lemma ParseOne(f: BindFrame, after: seq<Byte>)
    requires Consistent(f)
    ensures Parse(EncodeFrame(f) + after) == Parse(after).(frames := [f] + Parse(after).frames)
  {
    RoundTripIf(f, after);
    Layout(f, after);
    assert |EncodeFrame(f)| == f.header.TotalFrameLength();
    assert (EncodeFrame(f) + after)[f.header.TotalFrameLength()..] == after;
  }

  /** Concatenated encodings parse to exactly the list, followed by whatever the tail parses to. */
  lemma {:induction false} StreamRoundTrip(fs: seq<BindFrame>, tail: seq<Byte>)
    requires forall i | 0 <= i < |fs| :: Consistent(fs[i])
    ensures Parse(EncodeAll(fs) + tail) == Parse(tail).(frames := fs + Parse(tail).frames)
  {
    hide DecodeFrame, Consistent, EncodeFrame;
    if fs == [] {
      assert EncodeAll(fs) + tail == tail;
      assert fs + Parse(tail).frames == Parse(tail).frames;
    } else {
      var f, after := fs[0], EncodeAll(fs[1..]) + tail;
      assert EncodeAll(fs) + tail == EncodeFrame(f) + after;
      ParseOne(f, after);
      StreamRoundTrip(fs[1..], tail);
      assert [f] + (fs[1..] + Parse(tail).frames) == fs + Parse(tail).frames;
    }
  }

  /** What a receiver does with one more chunk: parse it together with the bytes left over. */
  function Feed(p: Parsed, chunk: seq<Byte>): Parsed {
    if p.failure.Some? then p.(rest := p.rest + chunk)
    else
      var q := Parse(p.rest + chunk);
      q.(frames := p.frames + q.frames)
  }

  lemma {:induction false} FeedIsParse(a: seq<Byte>, chunk: seq<Byte>)
    ensures Parse(a + chunk) == Feed(Parse(a), chunk)
    decreases |a|
  {
    hide DecodeFrame;
    var r := DecodeFrame(a);
    if r.Ok? {
      var n := r.value.header.TotalFrameLength();
      DecodedParts(a, r.value);
      FeedIsParse(a[n..], chunk);
      SkipFirst(a, chunk, r.value);
      var p := Parse(a[n..]);
      var q := Parse(p.rest + chunk);
      assert [r.value] + (p.frames + q.frames) == ([r.value] + p.frames) + q.frames;
    } else if !r.error.Incomplete() {
      Stable(a, chunk);
    }
  }

  lemma SkipFirst(a: seq<Byte>, chunk: seq<Byte>, f: BindFrame)
    requires DecodeFrame(a) == Ok(f)
    ensures f.header.TotalFrameLength() <= |a|
    ensures var p := Parse(a[f.header.TotalFrameLength()..] + chunk);
            Parse(a + chunk) == p.(frames := [f] + p.frames)
  {
    hide DecodeFrame;
    DecodedParts(a, f);
    Stable(a, chunk);
    var n := f.header.TotalFrameLength();
    assert (a + chunk)[n..] == a[n..] + chunk;
  }

  function Concat(chunks: seq<seq<Byte>>): seq<Byte> {
    if chunks == [] then [] else Concat(chunks[..|chunks| - 1]) + chunks[|chunks| - 1]
  }

  function FeedAll(chunks: seq<seq<Byte>>): Parsed {
    if chunks == [] then Parse([]) else Feed(FeedAll(chunks[..|chunks| - 1]), chunks[|chunks| - 1])
  }

  /** Feeding the stream in any chunks gives the frames of the whole stream. */
  lemma {:induction false} ChunkingIrrelevant(chunks: seq<seq<Byte>>)
    ensures FeedAll(chunks) == Parse(Concat(chunks))
  {
    if chunks == [] {
    } else {
      ChunkingIrrelevant(chunks[..|chunks| - 1]);
      FeedIsParse(Concat(chunks[..|chunks| - 1]), chunks[|chunks| - 1]);
    }
  }

  /** Sent frames, cut anywhere on the way, arrive as exactly those frames with nothing left over. */
  lemma ChunkedTransport(fs: seq<BindFrame>, chunks: seq<seq<Byte>>)
    requires forall i | 0 <= i < |fs| :: Consistent(fs[i])
    requires Concat(chunks) == EncodeAll(fs)
    ensures FeedAll(chunks) == Parsed(fs, [], None)
  {
    ChunkingIrrelevant(chunks);
    StreamRoundTrip(fs, []);
    assert EncodeAll(fs) + [] == EncodeAll(fs);
    assert fs + Parse([]).frames == fs;
  }

  /** Parsing consumes exactly the bytes of the frames it reports. */
  lemma {:induction false} BytesConserved(b: seq<Byte>)
    ensures var p := Parse(b);
            && |EncodeAll(p.frames)| + |p.rest| == |b|
            && p.rest == b[|EncodeAll(p.frames)|..]
    decreases |b|
  {
    hide DecodeFrame, EncodeFrame, ClearReserved;
    var r := DecodeFrame(b);
    if r.Ok? {
      DecodedParts(b, r.value);
      ClearedLength(r.value.header, b[..r.value.header.TotalFrameLength()]);
      Reencode(b, r.value);
      var n := r.value.header.TotalFrameLength();
      BytesConserved(b[n..]);
      var p := Parse(b[n..]);
      assert ([r.value] + p.frames)[1..] == p.frames;
      assert |EncodeFrame(r.value)| == n;
    } else {
      assert b[0..] == b;
    }
  }

  lemma ClearedLength(h: BindHeader, b: seq<Byte>)
    requires |b| >= HEADER_SIZE + h.ExtensionLength()
    ensures |ClearReserved(h, b)| == |b|
  {
  }
}
