/** The byte assembler of autodiscovery: framing bytes, escapes, and a buffer of 256. The wire constants and the
    CRC step come from a library, so everything holds for any of them. */
module Framing {
  import opened Common

  const RX_SIZE: nat := 256

  datatype Wire = Wire(esc: Byte, stx: Byte, etx: Byte, crcSeed: nat, crcStep: (nat, Byte) -> nat)

  predicate WireOk(w: Wire) {
    w.esc != w.stx && w.esc != w.etx && w.stx != w.etx
  }

  predicate IsControl(w: Wire, b: Byte) {
    b == w.esc || b == w.stx || b == w.etx
  }

  /** `bytes` are the ones buffered since the last reset of the count. */
  datatype Rx = Rx(crc: nat, bytes: seq<Byte>, escaped: bool, started: bool)

  /** What the end-of-frame check gets to see. */
  datatype Frame = Frame(bytes: seq<Byte>, crc: nat)

  function Buffer(w: Wire, rx: Rx, b: Byte): Rx {
    if |rx.bytes| < RX_SIZE then rx.(bytes := rx.bytes + [b], crc := w.crcStep(rx.crc, b)) else rx
  }

  function Feed(w: Wire, rx: Rx, b: Byte): Rx {
    if rx.escaped then Buffer(w, rx.(escaped := false), b)
    else if b == w.esc then rx.(escaped := true)
    else if b == w.stx then rx.(bytes := [], crc := w.crcSeed, started := true)
    else if b == w.etx then if rx.started then rx.(bytes := [], started := false) else rx
    else Buffer(w, rx, b)
  }

  /** The frame presented by byte `b`, if any. */
  function Presented(w: Wire, rx: Rx, b: Byte): seq<Frame> {
    if !rx.escaped && b == w.etx && b != w.esc && b != w.stx && rx.started then [Frame(rx.bytes, rx.crc)] else []
  }

  function FeedAll(w: Wire, rx: Rx, bs: seq<Byte>): Rx
    decreases |bs|
  {
    if bs == [] then rx else FeedAll(w, Feed(w, rx, bs[0]), bs[1..])
  }

  function FramesOf(w: Wire, rx: Rx, bs: seq<Byte>): seq<Frame>
    decreases |bs|
  {
    if bs == [] then [] else Presented(w, rx, bs[0]) + FramesOf(w, Feed(w, rx, bs[0]), bs[1..])
  }

  // ---------------------------------------------------------------- encodings

  /** `sent` is an encoding of `body`: every control byte is escaped, and any other byte may be. */
  ghost predicate Encodes(w: Wire, sent: seq<Byte>, body: seq<Byte>)
    decreases |body|
  {
    if body == [] then sent == []
    else
      || (|sent| > 0 && sent[0] == body[0] && !IsControl(w, sent[0]) && Encodes(w, sent[1..], body[1..]))
      || (|sent| > 1 && sent[0] == w.esc && sent[1] == body[0] && Encodes(w, sent[2..], body[1..]))
  }

  function Encode(w: Wire, body: seq<Byte>): seq<Byte> {
    if body == [] then []
    else (if IsControl(w, body[0]) then [w.esc, body[0]] else [body[0]]) + Encode(w, body[1..])
  }

  lemma {:induction false} EncodeEncodes(w: Wire, body: seq<Byte>)
    ensures Encodes(w, Encode(w, body), body)
  {
    if body != [] {
      EncodeEncodes(w, body[1..]);
      var sent := Encode(w, body);
      if IsControl(w, body[0]) {
        assert sent[2..] == Encode(w, body[1..]);
      } else {
        assert sent[1..] == Encode(w, body[1..]);
      }
    }
  }

  function BufferAll(w: Wire, rx: Rx, bs: seq<Byte>): Rx
    decreases |bs|
  {
    if bs == [] then rx else BufferAll(w, Buffer(w, rx, bs[0]), bs[1..])
  }

  /** An encoding is undone byte by byte: it buffers its body, presents nothing and ends outside an escape. */
  lemma {:induction false} EncodingBuffers(w: Wire, rx: Rx, sent: seq<Byte>, body: seq<Byte>)
    requires WireOk(w) && !rx.escaped && Encodes(w, sent, body)
    ensures FeedAll(w, rx, sent) == BufferAll(w, rx, body) && FramesOf(w, rx, sent) == []
    ensures !BufferAll(w, rx, body).escaped && BufferAll(w, rx, body).started == rx.started
    decreases |body|
  {
    if body != [] {
      var next := Buffer(w, rx, body[0]);
      if |sent| > 0 && sent[0] == body[0] && !IsControl(w, sent[0]) && Encodes(w, sent[1..], body[1..]) {
        EncodingBuffers(w, next, sent[1..], body[1..]);
      } else {
        EncodingBuffers(w, next, sent[2..], body[1..]);
        assert sent[1..][1..] == sent[2..];
        assert Feed(w, Feed(w, rx, sent[0]), sent[1]) == next;
      }
    }
  }

  /** Fold of the CRC step over a byte string. */
  function Crc(w: Wire, crc: nat, bs: seq<Byte>): nat {
    if bs == [] then crc else w.crcStep(Crc(w, crc, bs[..|bs| - 1]), bs[|bs| - 1])
  }

  lemma CrcFront(w: Wire, crc: nat, b: Byte, bs: seq<Byte>)
    ensures Crc(w, crc, [b] + bs) == Crc(w, w.crcStep(crc, b), bs)
  {
    if bs == [] {
      assert [b] + bs == [b] && [b][..0] == [];
      assert Crc(w, crc, []) == crc;
    } else {
      CrcFront(w, crc, b, bs[..|bs| - 1]);
      assert ([b] + bs)[..|bs|] == [b] + bs[..|bs| - 1];
    }
  }

  lemma {:induction false} BufferFull(w: Wire, rx: Rx, bs: seq<Byte>)
    requires |rx.bytes| == RX_SIZE
    ensures BufferAll(w, rx, bs) == rx
    decreases |bs|
  {
    if bs != [] { BufferFull(w, rx, bs[1..]); }
  }

  lemma {:induction false} BufferFits(w: Wire, rx: Rx, bs: seq<Byte>)
    requires |rx.bytes| + |bs| <= RX_SIZE
    ensures BufferAll(w, rx, bs) == rx.(bytes := rx.bytes + bs, crc := Crc(w, rx.crc, bs))
    decreases |bs|
  {
    if bs == [] {
      assert rx.bytes + bs == rx.bytes;
    } else {
      BufferFits(w, Buffer(w, rx, bs[0]), bs[1..]);
      assert bs == [bs[0]] + bs[1..];
      CrcFront(w, rx.crc, bs[0], bs[1..]);
      assert rx.bytes + bs == rx.bytes + [bs[0]] + bs[1..];
    }
  }

  lemma {:induction false} BufferAppend(w: Wire, rx: Rx, a: seq<Byte>, b: seq<Byte>)
    ensures BufferAll(w, rx, a + b) == BufferAll(w, BufferAll(w, rx, a), b)
    decreases |a|
  {
    if a == [] {
      assert a + b == b;
    } else {
      assert (a + b)[0] == a[0] && (a + b)[1..] == a[1..] + b;
      BufferAppend(w, Buffer(w, rx, a[0]), a[1..], b);
    }
  }

  /** Buffering keeps the first 256 bytes; what no longer fits is not counted into the CRC either. */
  lemma BufferAllIs(w: Wire, rx: Rx, bs: seq<Byte>)
    requires |rx.bytes| <= RX_SIZE
    ensures var kept := Cut(bs, RX_SIZE - |rx.bytes|);
            BufferAll(w, rx, bs) == rx.(bytes := rx.bytes + kept, crc := Crc(w, rx.crc, kept))
  {
    var kept := Cut(bs, RX_SIZE - |rx.bytes|);
    BufferFits(w, rx, kept);
    if |kept| < |bs| {
      assert bs == kept + bs[|kept|..];
      BufferAppend(w, rx, kept, bs[|kept|..]);
      BufferFull(w, BufferAll(w, rx, kept), bs[|kept|..]);
    }
  }

  lemma {:induction false} FeedAppend(w: Wire, rx: Rx, a: seq<Byte>, b: seq<Byte>)
    ensures FeedAll(w, rx, a + b) == FeedAll(w, FeedAll(w, rx, a), b)
    ensures FramesOf(w, rx, a + b) == FramesOf(w, rx, a) + FramesOf(w, FeedAll(w, rx, a), b)
    decreases |a|
  {
    if a == [] {
      assert a + b == b;
    } else {
      assert (a + b)[0] == a[0] && (a + b)[1..] == a[1..] + b;
      FeedAppend(w, Feed(w, rx, a[0]), a[1..], b);
    }
  }

  lemma FirstByte(w: Wire, rx: Rx, b: Byte, rest: seq<Byte>)
    ensures FramesOf(w, rx, [b] + rest) == Presented(w, rx, b) + FramesOf(w, Feed(w, rx, b), rest)
  {
    hide Presented, Feed;
    assert ([b] + rest)[0] == b && ([b] + rest)[1..] == rest;
  }

  lemma StartOfFrame(w: Wire, rx: Rx)
    requires WireOk(w) && !rx.escaped
    ensures Presented(w, rx, w.stx) == []
    ensures var begun := Feed(w, rx, w.stx);
            begun.started && !begun.escaped && begun.bytes == [] && begun.crc == w.crcSeed
  {
  }

  /** Outside a frame an ETX is ignored; it ends a frame, which is then forgotten. */
  lemma EtxEndsFrames(w: Wire, rx: Rx)
    requires WireOk(w) && !rx.escaped
    ensures !rx.started ==> Feed(w, rx, w.etx) == rx && Presented(w, rx, w.etx) == []
    ensures rx.started ==>
              && Presented(w, rx, w.etx) == [Frame(rx.bytes, rx.crc)]
              && Feed(w, rx, w.etx).bytes == [] && !Feed(w, rx, w.etx).started
  {
  }

  /** What a frame presents when the bytes `prefix` are already buffered. */
  lemma BodyThenEnd(w: Wire, rx: Rx, sent: seq<Byte>, body: seq<Byte>)
    requires WireOk(w) && !rx.escaped && |rx.bytes| <= RX_SIZE && Encodes(w, sent, body)
    ensures var kept := Cut(body, RX_SIZE - |rx.bytes|);
            FramesOf(w, rx, sent + [w.etx]) ==
            (if rx.started then [Frame(rx.bytes + kept, Crc(w, rx.crc, kept))] else [])
  {
    EncodingBuffers(w, rx, sent, body);
    BufferAllIs(w, rx, body);
    FeedAppend(w, rx, sent, [w.etx]);
    assert [w.etx][1..] == [];
  }

  /** Framing round trip and resynchronisation. From any state whatever that is not in the middle of an escape,
      STX, an encoding of a body, and ETX present exactly one frame: the body, as far as the buffer holds it,
      with the CRC of those bytes. Earlier garbage has no influence. */
  lemma FrameRoundTrip(w: Wire, rx: Rx, sent: seq<Byte>, body: seq<Byte>)
    requires WireOk(w) && !rx.escaped && Encodes(w, sent, body)
    ensures FramesOf(w, rx, [w.stx] + sent + [w.etx])
         == [Frame(Cut(body, RX_SIZE), Crc(w, w.crcSeed, Cut(body, RX_SIZE)))]
  {
    hide *;
    var begun, rest := Feed(w, rx, w.stx), sent + [w.etx];
    StartOfFrame(w, rx);
    BodyThenEnd(w, begun, sent, body);
    FirstByte(w, rx, w.stx, rest);
    assert [w.stx] + sent + [w.etx] == [w.stx] + rest;
    assert [] + Cut(body, RX_SIZE) == Cut(body, RX_SIZE);
    assert [] + FramesOf(w, begun, rest) == FramesOf(w, begun, rest);
  }

  /** In the middle of an escape the STX is swallowed as data, if there is room for it: a frame already begun is
      continued with it and the body, as far as they fit, and otherwise nothing is presented. */
  lemma FrameAfterEscape(w: Wire, rx: Rx, sent: seq<Byte>, body: seq<Byte>)
    requires WireOk(w) && rx.escaped && |rx.bytes| <= RX_SIZE && Encodes(w, sent, body)
    ensures var kept := Cut([w.stx] + body, RX_SIZE - |rx.bytes|);
            FramesOf(w, rx, [w.stx] + sent + [w.etx]) ==
            (if rx.started then [Frame(rx.bytes + kept, Crc(w, rx.crc, kept))] else [])
  {
    hide *;
    var before, rest := rx.(escaped := false), [w.stx] + sent + [w.etx];
    EscapedStx(w, sent, body);
    BodyThenEnd(w, before, [w.esc, w.stx] + sent, [w.stx] + body);
    EscapeBegins(w, before);
    FirstByte(w, before, w.esc, rest);
    assert [w.esc, w.stx] + sent + [w.etx] == [w.esc] + rest;
    assert [] + FramesOf(w, rx, rest) == FramesOf(w, rx, rest);
  }

  lemma EscapedStx(w: Wire, sent: seq<Byte>, body: seq<Byte>)
    requires Encodes(w, sent, body)
    ensures Encodes(w, [w.esc, w.stx] + sent, [w.stx] + body)
  {
    assert ([w.esc, w.stx] + sent)[2..] == sent && ([w.stx] + body)[1..] == body;
  }

  lemma EscapeBegins(w: Wire, rx: Rx)
    requires WireOk(w) && !rx.escaped
    ensures Feed(w, rx, w.esc) == rx.(escaped := true) && Presented(w, rx, w.esc) == []
  {
  }
}
