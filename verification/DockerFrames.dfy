/** The two decoders of Docker's multiplexed output streams: service logs and exec output. */
module DockerFrames {
  import opened Text

  type Byte = b: nat | b < 0x100

  /** A header of eight bytes, three of them without meaning here, and a payload. */
  datatype Frame = Frame(stream: Byte, padding: seq<Byte>, payload: seq<Byte>) {
    predicate WellFormed() {
      (stream == 1 || stream == 2) && |padding| == 3 && |payload| < 0x1_0000_0000
    }

    function Encode(): seq<Byte>
      requires WellFormed()
    {
      [stream] + padding + SizeBytes(|payload|) + payload
    }
  }

  function SizeBytes(n: nat): (r: seq<Byte>)
    requires n < 0x1_0000_0000
    ensures |r| == 4
  {
    var high: nat := n / 0x100;
    var higher: nat := high / 0x100;
    [higher / 0x100, higher % 0x100, high % 0x100, n % 0x100]
  }

  /** Bytes 4 to 7 of a header, most significant first. */
  function SizeAt(header: seq<Byte>): (n: nat)
    requires |header| >= 8
    ensures n < 0x1_0000_0000
  {
    var a: nat := header[4];
    var b: nat := header[5];
    var c: nat := header[6];
    ((a * 0x100 + b) * 0x100 + c) * 0x100 + header[7]
  }

  predicate AllWellFormed(frames: seq<Frame>) {
    forall i :: 0 <= i < |frames| ==> frames[i].WellFormed()
  }

  function EncodeAll(frames: seq<Frame>): seq<Byte>
    requires AllWellFormed(frames)
  {
    if frames == [] then [] else frames[0].Encode() + EncodeAll(frames[1..])
  }

  function Payloads(frames: seq<Frame>): seq<Byte> {
    if frames == [] then [] else frames[0].payload + Payloads(frames[1..])
  }

  function Prefixed<T>(front: seq<T>, rest: Option<seq<T>>): Option<seq<T>> {
    if rest.None? then None else Some(front + rest.value)
  }

  lemma PrefixedTwice<T>(a: seq<T>, b: seq<T>, rest: Option<seq<T>>)
    ensures Prefixed(a, Prefixed(b, rest)) == Prefixed(a + b, rest)
    ensures Prefixed([], rest) == rest
  {
    if rest.Some? {
      assert a + (b + rest.value) == (a + b) + rest.value && [] + rest.value == rest.value;
    }
  }

  // ----- Reading frames

  /** The frame that a non-empty body starts with, if it starts with a whole one. */
  function FirstFrame(body: seq<Byte>): (r: Option<Frame>)
    ensures r.Some? ==> r.value.WellFormed() && 8 + |r.value.payload| <= |body|
  {
    if |body| < 8 || (body[0] != 1 && body[0] != 2) || 8 + SizeAt(body) > |body| then None
    else Some(Frame(body[0], body[1..4], body[8..8 + SizeAt(body)]))
  }

  /** The frames a body consists of. */
  function Frames(body: seq<Byte>): Option<seq<Frame>> {
    if body == [] then Some([])
    else
      var first := FirstFrame(body);
      if first.None? then None
      else Prefixed([first.value], Frames(body[8 + |first.value.payload|..]))
  }

  lemma SizeRoundTrip(n: nat, header: seq<Byte>)
    requires n < 0x1_0000_0000 && |header| >= 8 && header[4..8] == SizeBytes(n)
    ensures SizeAt(header) == n
  {
    var size := SizeBytes(n);
    assert header[4..8][0] == header[4] && header[4..8][1] == header[5];
    assert header[4..8][2] == header[6] && header[4..8][3] == header[7];
  }

  lemma SizeRestored(body: seq<Byte>)
    requires |body| >= 8
    ensures SizeBytes(SizeAt(body)) == body[4..8]
  {
    var a: nat := body[4];
    var b: nat := body[5];
    var c: nat := body[6];
    var n := SizeAt(body);
    assert n / 0x100 == (a * 0x100 + b) * 0x100 + c;
    assert n / 0x100 / 0x100 == a * 0x100 + b;
  }

  lemma FirstFrameOfEncoded(frame: Frame, rest: seq<Byte>)
    requires frame.WellFormed()
    ensures FirstFrame(frame.Encode() + rest) == Some(frame)
    ensures (frame.Encode() + rest)[8 + |frame.payload|..] == rest
  {
    var body := frame.Encode() + rest;
    assert body[0] == frame.stream && body[1..4] == frame.padding;
    assert body[4..8] == SizeBytes(|frame.payload|);
    SizeRoundTrip(|frame.payload|, body);
    assert body[8..8 + |frame.payload|] == frame.payload;
  }

  lemma EncodeFirstFrame(body: seq<Byte>)
    requires FirstFrame(body).Some?
    ensures var f := FirstFrame(body).value;
            f.Encode() + body[8 + |f.payload|..] == body
  {
    SizeRestored(body);
    assert [body[0]] + body[1..4] + body[4..8] == body[..8];
  }

  /** Reading undoes writing. */
  lemma {:induction false} FramesOfEncoded(frames: seq<Frame>)
    requires AllWellFormed(frames)
    ensures Frames(EncodeAll(frames)) == Some(frames)
  {
    if frames != [] {
      FramesOfEncoded(frames[1..]);
      FirstFrameOfEncoded(frames[0], EncodeAll(frames[1..]));
      assert [frames[0]] + frames[1..] == frames;
    }
  }

  /** Writing undoes reading. */
  lemma {:induction false} EncodedFrames(body: seq<Byte>)
    requires Frames(body).Some?
    ensures AllWellFormed(Frames(body).value) && EncodeAll(Frames(body).value) == body
  {
    if body != [] {
      var first := FirstFrame(body).value;
      EncodedFrames(body[8 + |first.payload|..]);
      EncodeFirstFrame(body);
    }
  }

  // ----- Service logs

  function LogText(body: seq<Byte>): seq<Byte> {
    var frames := Frames(body);
    if frames.Some? then Payloads(frames.value) else body
  }

  lemma {:induction false} PayloadsSnoc(frames: seq<Frame>, last: Frame)
    ensures Payloads(frames + [last]) == Payloads(frames) + last.payload
  {
    if frames == [] {
      assert Payloads([last]) == last.payload + Payloads([last][1..]);
    } else {
      assert (frames + [last])[1..] == frames[1..] + [last];
      PayloadsSnoc(frames[1..], last);
    }
  }

  /** One more frame is behind the reader. */
  lemma FramesStep(body: seq<Byte>, offset: nat, done: seq<Frame>)
    requires offset + 8 <= |body|
    ensures var first := FirstFrame(body[offset..]);
            if first.None? then Prefixed(done, Frames(body[offset..])) == None
            else Prefixed(done, Frames(body[offset..]))
                 == Prefixed(done + [first.value], Frames(body[offset + 8 + |first.value.payload|..]))
  {
    var rest := body[offset..];
    var first := FirstFrame(rest);
    if first.Some? {
      var n := 8 + |first.value.payload|;
      assert rest[n..] == body[offset + n..];
      PrefixedTwice(done, [first.value], Frames(rest[n..]));
    }
  }

  /** `decodeDockerLogStream` */
  method DecodeDockerLogStream(body: seq<Byte>) returns (text: seq<Byte>)
    ensures text == LogText(body)
  {
    var output: seq<Byte> := [];
    var offset := 0;
    ghost var done: seq<Frame> := [];
    PrefixedTwice([], done, Frames(body));
    assert body[0..] == body;
    while offset + 8 <= |body|
      invariant 0 <= offset <= |body|
      invariant output == Payloads(done)
      invariant Frames(body) == Prefixed(done, Frames(body[offset..]))
    {
      var stream := body[offset];
      var size := SizeAt(body[offset..]);
      FramesStep(body, offset, done);
      if (stream != 1 && stream != 2) || offset + 8 + size > |body| {
        return body;
      }
      ghost var first := FirstFrame(body[offset..]).value;
      assert first.payload == body[offset + 8..offset + 8 + size];
      PayloadsSnoc(done, first);
      done := done + [first];
      output := output + body[offset + 8..offset + 8 + size];
      offset := offset + 8 + size;
    }
    if offset != |body| {
      return body;
    }
    assert done + [] == done;
    return output;
  }

  /** Frames are decoded to their payloads; what is not a sequence of whole frames stays as it is. */
  lemma LogTextOfFrames(body: seq<Byte>)
    ensures forall frames :: AllWellFormed(frames) && EncodeAll(frames) == body ==> LogText(body) == Payloads(frames)
    ensures (forall frames :: AllWellFormed(frames) ==> EncodeAll(frames) != body) ==> LogText(body) == body
  {
    forall frames | AllWellFormed(frames) && EncodeAll(frames) == body
      ensures LogText(body) == Payloads(frames)
    {
      FramesOfEncoded(frames);
    }
    if Frames(body).Some? {
      EncodedFrames(body);
    }
  }

  // ----- Exec output

  /** The payloads up to a rest too short for a header; the stream byte is not looked at. */
  function LoosePayloads(body: seq<Byte>): Option<seq<Byte>> {
    if |body| < 8 then Some([])
    else if 8 + SizeAt(body) > |body| then None
    else Prefixed(body[8..8 + SizeAt(body)], LoosePayloads(body[8 + SizeAt(body)..]))
  }

  function ExecText(body: seq<Byte>): seq<Byte> {
    if |body| < 8 || LoosePayloads(body).None? || LoosePayloads(body).value == [] then body
    else LoosePayloads(body).value
  }

  /** `decodeTypedCaddyExecOutput` */
  method DecodeTypedCaddyExecOutput(output: seq<Byte>) returns (text: seq<Byte>)
    ensures text == ExecText(output)
  {
    if |output| < 8 { return output; }
    var cleaned: seq<Byte> := [];
    var offset := 0;
    PrefixedTwice([], cleaned, LoosePayloads(output));
    assert output[0..] == output;
    while offset + 8 <= |output|
      invariant 0 <= offset <= |output|
      invariant LoosePayloads(output) == Prefixed(cleaned, LoosePayloads(output[offset..]))
    {
      var size := SizeAt(output[offset..]);
      if offset + 8 + size > |output| {
        return output;
      }
      ghost var rest := output[offset..];
      assert rest[8..8 + size] == output[offset + 8..offset + 8 + size]
          && rest[8 + size..] == output[offset + 8 + size..];
      PrefixedTwice(cleaned, rest[8..8 + size], LoosePayloads(rest[8 + size..]));
      cleaned := cleaned + output[offset + 8..offset + 8 + size];
      offset := offset + 8 + size;
    }
    assert cleaned + [] == cleaned;
    if |cleaned| == 0 && |output| != 0 {
      return output;
    }
    return cleaned;
  }

  lemma {:induction false} FramesAreLoose(body: seq<Byte>)
    requires Frames(body).Some?
    ensures LoosePayloads(body) == Some(Payloads(Frames(body).value))
  {
    if body != [] {
      FramesAreLoose(body[8 + SizeAt(body)..]);
    }
  }

  lemma {:induction false} LooseIsShorter(body: seq<Byte>)
    requires LoosePayloads(body).Some? && |body| >= 8
    ensures |LoosePayloads(body).value| < |body|
  {
    var rest := body[8 + SizeAt(body)..];
    if |rest| >= 8 {
      LooseIsShorter(rest);
    }
  }

  /** The decoders agree on a body exactly when it is a sequence of whole frames with some payload, or
      empty, or one that neither of them decodes. */
  lemma DecodersAgreeExactly(body: seq<Byte>)
    ensures LogText(body) == ExecText(body) <==>
            if Frames(body).Some? then body == [] || Payloads(Frames(body).value) != []
            else |body| < 8 || LoosePayloads(body).None? || LoosePayloads(body).value == []
  {
    if Frames(body).Some? {
      FramesAreLoose(body);
    } else if |body| >= 8 && LoosePayloads(body).Some? {
      LooseIsShorter(body);
    }
  }

  /** A frame of stream 3: service logs return it as it is, exec output decodes it. */
  lemma StrangeStreamDivides(body: seq<Byte>)
    requires body == [3, 0, 0, 0, 0, 0, 0, 1, 65]
    ensures LogText(body) == body && ExecText(body) == [65]
  {
    assert body[8..9] == [65] && body[9..] == [];
    assert SizeAt(body) == 1;
    assert LoosePayloads([]) == Some([]);
    assert LoosePayloads(body) == Some([65] + []);
  }
}
