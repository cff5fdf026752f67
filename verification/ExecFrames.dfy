/** The frames of an exec output: what the second decoder makes of them, whatever their stream. */
module ExecFrames {
  import opened Text
  import opened DockerFrames

  /** A frame of any stream. */
  predicate IsLoose(f: Frame) {
    |f.padding| == 3 && |f.payload| < 0x1_0000_0000
  }

  predicate AllLoose(frames: seq<Frame>) {
    forall i :: 0 <= i < |frames| ==> IsLoose(frames[i])
  }

  function LooseBytes(f: Frame): seq<Byte>
    requires IsLoose(f)
  {
    [f.stream] + f.padding + SizeBytes(|f.payload|) + f.payload
  }

  function AllLooseBytes(frames: seq<Frame>): seq<Byte>
    requires AllLoose(frames)
  {
    if frames == [] then [] else LooseBytes(frames[0]) + AllLooseBytes(frames[1..])
  }

  lemma {:induction false} LooseDecodes(frames: seq<Frame>, rest: seq<Byte>)
    requires AllLoose(frames) && |rest| < 8
    ensures LoosePayloads(AllLooseBytes(frames) + rest) == Some(Payloads(frames))
  {
    if frames == [] {
      assert [] + rest == rest;
    } else {
      var later := AllLooseBytes(frames[1..]) + rest;
      LooseCons(frames[0], frames[1..], rest);
      assert [frames[0]] + frames[1..] == frames;
      LooseDecodes(frames[1..], rest);
      LooseStep(frames[0], later);
    }
  }

  lemma LooseStep(f: Frame, later: seq<Byte>)
    requires IsLoose(f)
    ensures LoosePayloads(LooseBytes(f) + later) == Prefixed(f.payload, LoosePayloads(later))
  {
    var body := LooseBytes(f) + later;
    assert body[4..8] == SizeBytes(|f.payload|);
    SizeRoundTrip(|f.payload|, body);
    assert body[8..8 + |f.payload|] == f.payload && body[8 + |f.payload|..] == later;
  }

  lemma LooseCons(f: Frame, frames: seq<Frame>, rest: seq<Byte>)
    requires IsLoose(f) && AllLoose(frames)
    ensures AllLoose([f] + frames)
    ensures AllLooseBytes([f] + frames) + rest == LooseBytes(f) + (AllLooseBytes(frames) + rest)
  {
    assert ([f] + frames)[1..] == frames;
  }

  /** The frame that a body begins with. */
  function LooseFrame(body: seq<Byte>): (f: Frame)
    requires |body| >= 8 && 8 + SizeAt(body) <= |body|
    ensures IsLoose(f)
  {
    Frame(body[0], body[1..4], body[8..8 + SizeAt(body)])
  }

  lemma LooseFrameBytes(body: seq<Byte>)
    requires |body| >= 8 && 8 + SizeAt(body) <= |body|
    ensures LooseBytes(LooseFrame(body)) + body[8 + SizeAt(body)..] == body
  {
    SizeRestored(body);
    assert [body[0]] + body[1..4] + body[4..8] == body[..8];
    assert body[..8] + body[8..8 + SizeAt(body)] + body[8 + SizeAt(body)..] == body;
  }

  lemma {:induction false} DecodedIsLoose(body: seq<Byte>) returns (frames: seq<Frame>, rest: seq<Byte>)
    requires LoosePayloads(body).Some?
    ensures AllLoose(frames) && |rest| < 8 && AllLooseBytes(frames) + rest == body
  {
    if |body| < 8 {
      frames, rest := [], body;
    } else {
      var later, short := DecodedIsLoose(body[8 + SizeAt(body)..]);
      LooseFrameBytes(body);
      LooseCons(LooseFrame(body), later, short);
      frames, rest := [LooseFrame(body)] + later, short;
    }
  }

  /** Frames of any stream, and behind them fewer bytes than a header has, are decoded to their payloads if these
      are not empty; everything else stays as it is. */
  lemma ExecTextOfFrames(body: seq<Byte>)
    ensures forall frames, rest: seq<Byte> :: AllLoose(frames) && |rest| < 8 && AllLooseBytes(frames) + rest == body ==>
              ExecText(body) == if Payloads(frames) == [] then body else Payloads(frames)
    ensures (forall frames, rest: seq<Byte> ::
               AllLoose(frames) && |rest| < 8 ==> AllLooseBytes(frames) + rest != body) ==>
              ExecText(body) == body
  {
    forall frames, rest: seq<Byte> | AllLoose(frames) && |rest| < 8 && AllLooseBytes(frames) + rest == body
      ensures LoosePayloads(body) == Some(Payloads(frames))
      ensures |body| < 8 ==> Payloads(frames) == []
    {
      LooseDecodes(frames, rest);
    }
    if LoosePayloads(body).Some? {
      var frames, rest := DecodedIsLoose(body);
    }
  }

  /** Four bytes as a number, the most significant one first. */
  function BigEndian(a: nat, b: nat, c: nat, d: nat): nat {
    0x1000000 * a + 0x10000 * b + 0x100 * c + d
  }

  /** Where the parts of a frame are: the stream in front, the size in four bytes with the most significant one
      first, the payload behind the eighth byte. */
  lemma FrameLayout(f: Frame)
    requires f.WellFormed()
    ensures var bytes := f.Encode();
            && LooseBytes(f) == bytes && |bytes| == 8 + |f.payload|
            && bytes[0] == f.stream && bytes[8..] == f.payload
            && BigEndian(bytes[4], bytes[5], bytes[6], bytes[7]) == |f.payload|
  {
    SizeLayout(|f.payload|);
    var bytes := f.Encode();
    assert bytes[4..8] == SizeBytes(|f.payload|);
    assert bytes[4] == bytes[4..8][0] && bytes[5] == bytes[4..8][1];
    assert bytes[6] == bytes[4..8][2] && bytes[7] == bytes[4..8][3];
  }

  lemma SizeLayout(n: nat)
    requires n < 0x1_0000_0000
    ensures var r := SizeBytes(n); BigEndian(r[0], r[1], r[2], r[3]) == n
  {}
}
