/** Autodiscovery: which presented frame names the appliance, and the probing state machine around it, as a
    transition system over received bytes and listening windows. */
module AutodiscoverySpec {
  import opened Common
  import opened Framing

  datatype Protocol = Gea3 | Gea2

  /** Constants of the protocol library. */
  datatype Rules = Rules(overhead: Byte, gea3Response: Byte, gea3Success: Byte, gea2Response: Byte)

  const BROADCAST: Byte := 0xFF
  const APPLIANCE_TYPE: Erd := 0x0008

  /** (high << 8) | low */
  function BigEndian(high: Byte, low: Byte): int {
    0x100 * (high as int) + low as int
  }

  /** The end-of-frame check over the whole receive buffer: the address of the board that answered. Only the
      first `count` bytes of `raw` belong to the frame. */
  function Verdict(r: Rules, client: Byte, p: Protocol, raw: seq<Byte>, count: nat, crc: nat): Option<Byte>
    requires |raw| == RX_SIZE
  {
    if crc != 0 || count < 6 || raw[1] < r.overhead || (raw[0] != client && raw[0] != BROADCAST) then None
    else
      var len: int := raw[1] as int - r.overhead as int;
      if len < 3 then None
      else if p == Gea3 then
        if raw[3] != r.gea3Response || len < 6 || raw[5] != r.gea3Success then None
        else if BigEndian(raw[6], raw[7]) != APPLIANCE_TYPE then None
        else if raw[8] < 1 || len < 6 + raw[8] as int then None
        else Some(raw[2])
      else
        if raw[3] != r.gea2Response || len < 6 || raw[4] != 1 then None
        else if BigEndian(raw[5], raw[6]) != APPLIANCE_TYPE then None
        else if raw[7] < 1 || len < 5 + raw[7] as int then None
        else Some(raw[2])
  }

  /** A read response of either protocol, field by field. `length` is the length byte; `rest` is the data and whatever
      follows it. */
  datatype Response =
    | Gea3Response(destination: Byte, length: Byte, source: Byte, request: Byte, result: Byte, erd: Erd, size: Byte, rest: seq<Byte>)
    | Gea2Response(destination: Byte, length: Byte, source: Byte, count: Byte, erd: Erd, size: Byte, rest: seq<Byte>)

  function ErdBytes(e: Erd): seq<Byte> {
    [e / 0x100, e % 0x100]
  }

  /** The bytes of a response between STX and ETX. */
  function WireForm(r: Rules, f: Response): seq<Byte> {
    match f
    case Gea3Response(destination, length, source, request, result, erd, size, rest) =>
      [destination, length, source, r.gea3Response, request, result] + ErdBytes(erd) + [size] + rest
    case Gea2Response(destination, length, source, count, erd, size, rest) =>
      [destination, length, source, r.gea2Response, count] + ErdBytes(erd) + [size] + rest
  }

  /** A success response for the appliance type, sent to this client or to all, whose length byte covers its data. */
  predicate Wanted(r: Rules, client: Byte, f: Response) {
    && (f.destination == client || f.destination == BROADCAST) && f.erd == APPLIANCE_TYPE && f.size >= 1
    && (f.Gea3Response? ==> f.result == r.gea3Success && f.length as int >= r.overhead as int + 6 + f.size as int)
    && (f.Gea2Response? ==> f.count == 1 && f.length as int >= r.overhead as int + 5 + f.size as int)
  }

  predicate Of(p: Protocol, f: Response) {
    p == Gea3 <==> f.Gea3Response?
  }

  /** `bytes` are a wanted response of board `source`. */
  ghost predicate Answers(r: Rules, client: Byte, p: Protocol, bytes: seq<Byte>, source: Byte) {
    exists f: Response :: Of(p, f) && bytes == WireForm(r, f) && Wanted(r, client, f) && f.source == source
  }

  function Command(r: Rules, p: Protocol): Byte {
    if p == Gea3 then r.gea3Response else r.gea2Response
  }

  /** The fields of a long enough byte string. */
  function Fields(p: Protocol, bytes: seq<Byte>): (f: Response)
    requires |bytes| >= Looks(p)
    ensures Of(p, f)
  {
    if p == Gea3 then
      Gea3Response(bytes[0], bytes[1], bytes[2], bytes[4], bytes[5], BigEndian(bytes[6], bytes[7]), bytes[8], bytes[9..])
    else
      Gea2Response(bytes[0], bytes[1], bytes[2], bytes[4], BigEndian(bytes[5], bytes[6]), bytes[7], bytes[8..])
  }

  lemma ErdReads(e: Erd)
    ensures BigEndian(ErdBytes(e)[0], ErdBytes(e)[1]) == e
  {
  }

  lemma ErdWrites(high: Byte, low: Byte)
    ensures 0 <= BigEndian(high, low) < 0x1_0000 && ErdBytes(BigEndian(high, low)) == [high, low]
  {
  }

  /** A response is read as it was built. */
  lemma FieldsRead(r: Rules, p: Protocol, f: Response)
    requires Of(p, f)
    ensures |WireForm(r, f)| >= Looks(p) && WireForm(r, f)[3] == Command(r, p) && Fields(p, WireForm(r, f)) == f
  {
    hide BigEndian;
    ErdReads(f.erd);
    var bytes := WireForm(r, f);
    if p == Gea3 { assert bytes[9..] == f.rest; } else { assert bytes[8..] == f.rest; }
  }

  /** And whatever carries the command is built from its fields. */
  lemma FieldsWrite(r: Rules, p: Protocol, bytes: seq<Byte>)
    requires |bytes| >= Looks(p) && bytes[3] == Command(r, p)
    ensures WireForm(r, Fields(p, bytes)) == bytes
  {
    if p == Gea3 { ErdWrites(bytes[6], bytes[7]); } else { ErdWrites(bytes[5], bytes[6]); }
    hide BigEndian, ErdBytes;
  }

  lemma AnswersByFields(r: Rules, client: Byte, p: Protocol, bytes: seq<Byte>, source: Byte)
    requires |bytes| >= Looks(p)
    ensures Answers(r, client, p, bytes, source) <==>
              bytes[3] == Command(r, p) && Wanted(r, client, Fields(p, bytes)) && Fields(p, bytes).source == source
  {
    hide WireForm, Fields, Wanted, Command;
    if Answers(r, client, p, bytes, source) {
      var f: Response :| Of(p, f) && bytes == WireForm(r, f) && Wanted(r, client, f) && f.source == source;
      FieldsRead(r, p, f);
    }
    if bytes[3] == Command(r, p) { FieldsWrite(r, p, bytes); }
  }

  /** The check accepts a buffer exactly if it holds a wanted response, and then reports the board that sent it. */
  lemma VerdictExactly(r: Rules, client: Byte, p: Protocol, raw: seq<Byte>, count: nat, crc: nat, source: Byte)
    requires |raw| == RX_SIZE
    ensures Verdict(r, client, p, raw, count, crc) == Some(source) <==>
              crc == 0 && count >= 6 && Answers(r, client, p, raw, source)
  {
    hide BigEndian, Answers;
    AnswersByFields(r, client, p, raw, source);
  }

  /** A frame of its own length says the same as the buffer it begins. */
  lemma LongFramesAnswer(r: Rules, client: Byte, p: Protocol, raw: seq<Byte>, frame: seq<Byte>, source: Byte)
    requires Looks(p) <= |frame| <= |raw| && raw[..|frame|] == frame
    ensures Answers(r, client, p, raw, source) <==> Answers(r, client, p, frame, source)
  {
    hide BigEndian, Answers;
    AnswersByFields(r, client, p, raw, source);
    AnswersByFields(r, client, p, frame, source);
    assert forall k | 0 <= k < |frame| :: raw[k] == frame[k];
  }

  /** Bytes of the buffer the check may look at. */
  function Looks(p: Protocol): nat {
    if p == Gea3 then 9 else 8
  }

  /** A frame long enough is judged by its own bytes. */
  lemma LongFramesDecide(r: Rules, client: Byte, p: Protocol, raw: seq<Byte>, raw': seq<Byte>, count: nat, crc: nat)
    requires |raw| == |raw'| == RX_SIZE && count <= RX_SIZE && raw[..count] == raw'[..count]
    requires count >= Looks(p)
    ensures Verdict(r, client, p, raw, count, crc) == Verdict(r, client, p, raw', count, crc)
  {
    assert forall k | 0 <= k < count :: raw[k] == raw[..count][k] && raw'[k] == raw'[..count][k];
  }

  /** The bytes a frame has pass every check they decide, and the length byte leaves room for a one-byte value. */
  predicate SoFarSoGood(r: Rules, client: Byte, p: Protocol, body: seq<Byte>, crc: nat) {
    && crc == 0 && |body| >= 6 && body[1] >= r.overhead && (body[0] == client || body[0] == BROADCAST)
    && var len := body[1] - r.overhead;
       if p == Gea3 then
         && len >= 7 && body[3] == r.gea3Response && body[5] == r.gea3Success
         && (|body| > 6 ==> body[6] == APPLIANCE_TYPE / 0x100) && (|body| > 7 ==> body[7] == APPLIANCE_TYPE % 0x100)
       else
         && len >= 6 && body[3] == r.gea2Response && body[4] == 1 && body[5] == APPLIANCE_TYPE / 0x100
         && (|body| > 6 ==> body[6] == APPLIANCE_TYPE % 0x100)
  }

  /** A buffer that holds `body` and then whatever `rest` says. */
  function Filled(body: seq<Byte>, rest: seq<Byte>): (raw: seq<Byte>)
    requires |body| <= 9 && |rest| == RX_SIZE
    ensures |raw| == RX_SIZE && raw[..|body|] == body
  {
    body + rest[|body|..]
  }

  /** Exactly which frames are judged by bytes left over from earlier ones: those that pass all checks on the
      bytes they have but are too short for the checks that follow. */
  lemma ShortFramesUseLeftovers(r: Rules, client: Byte, p: Protocol, body: seq<Byte>, crc: nat)
    requires |body| < Looks(p)
    ensures SoFarSoGood(r, client, p, body, crc) <==>
            !(forall raw: seq<Byte>, raw': seq<Byte> |
                |raw| == RX_SIZE && |raw'| == RX_SIZE && raw[..|body|] == body && raw'[..|body|] == body ::
                Verdict(r, client, p, raw, |body|, crc) == Verdict(r, client, p, raw', |body|, crc))
  {
    if SoFarSoGood(r, client, p, body, crc) {
      var zeros: seq<Byte> := seq(RX_SIZE, _ => 0);
      var good: seq<Byte> := zeros[(if p == Gea3 then 7 else 6) := APPLIANCE_TYPE % 0x100][(if p == Gea3 then 8 else 7) := 1];
      var a, b := Filled(body, good), Filled(body, zeros);
      FilledAt(body, good);
      FilledAt(body, zeros);
      assert Verdict(r, client, p, a, |body|, crc) == Some(body[2]);
      assert Verdict(r, client, p, b, |body|, crc) == None;
    } else {
      forall raw: seq<Byte> | |raw| == RX_SIZE && raw[..|body|] == body
        ensures Verdict(r, client, p, raw, |body|, crc) == None
      {
        assert forall k | 0 <= k < |body| :: raw[k] == raw[..|body|][k];
      }
    }
  }

  lemma FilledAt(body: seq<Byte>, rest: seq<Byte>)
    requires |body| <= 9 && |rest| == RX_SIZE
    ensures forall k | 0 <= k < 9 :: Filled(body, rest)[k] == if k < |body| then body[k] else rest[k]
  {
  }

  // ---------------------------------------------------------------- the state machine

  datatype Stage = Idle | Waiting(protocol: Protocol) | Complete

  /** What is fixed: the protocol constants, the own address and the links that exist. */
  datatype Setup = Setup(wire: Wire, rules: Rules, client: Byte, hasGea3: bool, hasGea2: bool)

  predicate Has(u: Setup, p: Protocol) {
    if p == Gea3 then u.hasGea3 else u.hasGea2
  }

  /** The assembler of a link with its whole receive buffer. */
  datatype Link = Link(rx: Rx, raw: seq<Byte>)

  function Zeros(n: nat): (z: seq<Byte>)
    ensures |z| == n && forall k | 0 <= k < n :: z[k] == 0
  {
    if n == 0 then [] else Zeros(n - 1) + [0]
  }

  /** A link on which nothing was received. */
  function Clean(): Link {
    Link(Rx(0, [], false, false), Zeros(RX_SIZE))
  }

  ghost predicate LinkOk(l: Link) {
    |l.raw| == RX_SIZE && |l.rx.bytes| <= RX_SIZE && l.raw[..|l.rx.bytes|] == l.rx.bytes
  }

  /** A buffered byte is written behind the ones already there; nothing else changes the buffer. */
  function FeedLink(w: Wire, l: Link, b: Byte): Link {
    var rx := Feed(w, l.rx, b);
    Link(rx, if |rx.bytes| == |l.rx.bytes| + 1 && |l.rx.bytes| < |l.raw| then l.raw[|l.rx.bytes| := b] else l.raw)
  }

  lemma FeedKeepsLink(w: Wire, l: Link, b: Byte)
    requires LinkOk(l)
    ensures LinkOk(FeedLink(w, l, b))
  {
    var next := FeedLink(w, l, b);
    if |next.rx.bytes| == |l.rx.bytes| + 1 {
      assert next.raw[..|next.rx.bytes|] == l.raw[..|l.rx.bytes|] + [b];
    }
  }

  /** The board that answers with byte `b`, if the byte ends an acceptable frame. */
  function Heard(u: Setup, p: Protocol, l: Link, b: Byte): Option<Byte>
    requires |l.raw| == RX_SIZE
  {
    var f := Presented(u.wire, l.rx, b);
    if f == [] then None else Verdict(u.rules, u.client, p, l.raw, |f[0].bytes|, f[0].crc)
  }

  /** Exactly when a byte makes a board heard: it ends a frame of six bytes or more with a good CRC, in a buffer that
      holds a wanted response of that board. */
  lemma HeardExactly(u: Setup, p: Protocol, l: Link, b: Byte, source: Byte)
    requires |l.raw| == RX_SIZE
    ensures Heard(u, p, l, b) == Some(source) <==>
              && !l.rx.escaped && b == u.wire.etx && b != u.wire.esc && b != u.wire.stx && l.rx.started
              && l.rx.crc == 0 && |l.rx.bytes| >= 6 && Answers(u.rules, u.client, p, l.raw, source)
  {
    hide Verdict, Answers;
    VerdictExactly(u.rules, u.client, p, l.raw, |l.rx.bytes|, l.rx.crc, source);
  }

  /** `target` is the only address accepted, if one is set; `active` is the link the winner answered on. */
  datatype Auto = Auto(
    stage: Stage,
    target: Option<Byte>,
    active: Option<Protocol>,
    host: Byte,
    gea2Active: bool,
    gea3: Link,
    gea2: Link)

  function Initial(): Auto {
    Auto(Idle, None, None, 0, false, Clean(), Clean())
  }

  datatype Event = Started | WindowOver | Received(byte: Byte, protocol: Protocol) | Targeted(address: Byte)

  function LinkOf(a: Auto, p: Protocol): Link {
    if p == Gea3 then a.gea3 else a.gea2
  }

  function WithLink(a: Auto, p: Protocol, l: Link): Auto {
    if p == Gea3 then a.(gea3 := l) else a.(gea2 := l)
  }

  function First(u: Setup): Protocol {
    if u.hasGea3 then Gea3 else Gea2
  }

  function Other(p: Protocol): Protocol {
    if p == Gea3 then Gea2 else Gea3
  }

  /** The link probed after `p`. */
  function NextProbe(u: Setup, p: Protocol): Protocol {
    if u.hasGea3 && u.hasGea2 then Other(p) else First(u)
  }

  predicate Acceptable(a: Auto, source: Option<Byte>) {
    source.Some? && (a.target.None? || a.target == source)
  }

  ghost predicate Ok(u: Setup, a: Auto) {
    && WireOk(u.wire) && LinkOk(a.gea3) && LinkOk(a.gea2)
    && (a.stage.Waiting? ==> Has(u, a.stage.protocol))
    && (a.active.Some? ==> a.stage == Waiting(a.active.value) || a.stage == Complete)
    && (a.stage == Complete ==> a.active.Some?)
    && (a.gea2Active <==> a.stage == Complete && a.active == Some(Gea2))
  }

  predicate Enabled(a: Auto, e: Event) {
    e.WindowOver? ==> a.stage.Waiting?
  }

  function Step(u: Setup, a: Auto, e: Event): Auto
    requires Ok(u, a) && Enabled(a, e)
  {
    match e
    case Started => if a.stage == Idle && (u.hasGea3 || u.hasGea2) then a.(stage := Waiting(First(u))) else a
    case WindowOver =>
      if a.active.Some? then a.(stage := Complete, gea2Active := a.stage.protocol == Gea2)
      else a.(stage := Waiting(NextProbe(u, a.stage.protocol)), gea3 := Clean(), gea2 := Clean())
    case Received(b, p) =>
      if a.active.Some? || a.stage != Waiting(p) then a
      else
        var source := Heard(u, p, LinkOf(a, p), b);
        var fed := WithLink(a, p, FeedLink(u.wire, LinkOf(a, p), b));
        if Acceptable(a, source) then fed.(active := Some(p), host := source.value) else fed
    case Targeted(address) => a.(target := Some(address))
  }

  lemma StepKeepsOk(u: Setup, a: Auto, e: Event)
    requires Ok(u, a) && Enabled(a, e)
    ensures Ok(u, Step(u, a, e))
  {
    if e.Received? { FeedKeepsLink(u.wire, LinkOf(a, e.protocol), e.byte); }
    hide Feed, Verdict, Presented;
  }

  // ---------------------------------------------------------------- runs

  ghost predicate Possible(u: Setup, a: Auto, es: seq<Event>)
    decreases |es|
  {
    es == [] || (Ok(u, a) && Enabled(a, es[0]) && Possible(u, Step(u, a, es[0]), es[1..]))
  }

  ghost function Run(u: Setup, a: Auto, es: seq<Event>): Auto
    requires Possible(u, a, es)
    decreases |es|
  {
    if es == [] then a else Run(u, Step(u, a, es[0]), es[1..])
  }

  lemma {:induction false} RunKeepsOk(u: Setup, a: Auto, es: seq<Event>)
    requires Ok(u, a) && Possible(u, a, es)
    ensures Ok(u, Run(u, a, es))
    decreases |es|
  {
    hide Ok, Step;
    if es != [] {
      StepKeepsOk(u, a, es[0]);
      RunKeepsOk(u, Step(u, a, es[0]), es[1..]);
    }
  }

  /** A response wins once and for all: in no run do the winning link or the board's address change again, and the
      discovery completes exactly with the end of the next listening window. */
  lemma {:induction false} WinnerStays(u: Setup, a: Auto, es: seq<Event>)
    requires Ok(u, a) && Possible(u, a, es) && a.active.Some?
    ensures var z := Run(u, a, es);
            && z.active == a.active && z.host == a.host
            && (z.stage == Complete <==> a.stage == Complete || WindowOver in es)
    decreases |es|
  {
    if es != [] {
      StepKeepsOk(u, a, es[0]);
      hide LinkOk, Feed, Verdict, FeedLink;
      WinnerStays(u, Step(u, a, es[0]), es[1..]);
      assert WindowOver in es <==> es[0] == WindowOver || WindowOver in es[1..];
    }
  }

  /** Once started on a device with a link, discovery always listens or is complete: it never gets stuck. */
  lemma {:induction false} NeverStuck(u: Setup, a: Auto, es: seq<Event>)
    requires Ok(u, a) && Possible(u, a, es) && (u.hasGea3 || u.hasGea2)
    requires a.stage != Idle || Started in es
    ensures Run(u, a, es).stage != Idle
    decreases |es|
  {
    if es != [] {
      StepKeepsOk(u, a, es[0]);
      hide LinkOk, Feed, Verdict, FeedLink;
      assert Started in es <==> es[0] == Started || Started in es[1..];
      NeverStuck(u, Step(u, a, es[0]), es[1..]);
    }
  }

  function Windows(es: seq<Event>): nat {
    if es == [] then 0 else (if es[0].WindowOver? then 1 else 0) + Windows(es[1..])
  }

  /** The link listened to `n` windows after `p`. */
  function ProbedAfter(u: Setup, p: Protocol, n: nat): Protocol {
    if u.hasGea3 && u.hasGea2 && n % 2 == 1 then Other(p) else p
  }

  lemma WindowTurns(u: Setup, a: Auto, e: Event)
    requires Ok(u, a) && Enabled(a, e) && a.stage.Waiting? && Step(u, a, e).active.None?
    ensures Has(u, a.stage.protocol)
    ensures Step(u, a, e).stage == Waiting(if e.WindowOver? then NextProbe(u, a.stage.protocol) else a.stage.protocol)
  {
    hide LinkOk, FeedLink, Heard, Acceptable;
  }

  lemma ProbedNext(u: Setup, p: Protocol, n: nat)
    requires Has(u, p)
    ensures ProbedAfter(u, p, 0) == p && ProbedAfter(u, NextProbe(u, p), n) == ProbedAfter(u, p, n + 1)
  {
  }

  /** As long as no board is accepted, two links are listened to in turn, window by window, and a single one again
      and again. */
  lemma {:induction false} LinksAlternate(u: Setup, a: Auto, es: seq<Event>)
    requires Ok(u, a) && Possible(u, a, es) && a.stage.Waiting? && Run(u, a, es).active.None?
    ensures Run(u, a, es).stage == Waiting(ProbedAfter(u, a.stage.protocol, Windows(es)))
    decreases |es|
  {
    hide Ok, Step, Enabled, Has, NextProbe;
    if es != [] {
      var b := Step(u, a, es[0]);
      StepKeepsOk(u, a, es[0]);
      if b.active.Some? { WinnerStays(u, b, es[1..]); }
      WindowTurns(u, a, es[0]);
      ProbedNext(u, a.stage.protocol, Windows(es[1..]));
      hide ProbedAfter;
      LinksAlternate(u, b, es[1..]);
    }
  }

  /** Discovery begins on GEA3 wherever that link exists, and does not begin without a link. */
  lemma Gea3ComesFirst(u: Setup, a: Auto)
    requires Ok(u, a) && a.stage == Idle
    ensures Step(u, a, Started).stage
         == if u.hasGea3 then Waiting(Gea3) else if u.hasGea2 then Waiting(Gea2) else Idle
  {
    hide LinkOk;
  }

  /** A window that ends without a winner leaves no trace of what was received in it, so the next one begins outside
      any frame and any escape. */
  lemma WindowForgets(u: Setup, a: Auto, b: Auto)
    requires Ok(u, a) && Ok(u, b) && a.stage.Waiting? && a.active.None? && b == a.(gea3 := b.gea3, gea2 := b.gea2)
    ensures Step(u, a, WindowOver) == Step(u, b, WindowOver)
    ensures forall p :: var rx := LinkOf(Step(u, a, WindowOver), p).rx; !rx.escaped && !rx.started && rx.bytes == []
  {
    hide LinkOk, Zeros;
  }

  /** Once an address is wanted, in no run another board wins. */
  lemma {:induction false} OnlyTargetWins(u: Setup, a: Auto, es: seq<Event>, address: Byte)
    requires Ok(u, a) && a.active.None? && a.target == Some(address) && Possible(u, a, es)
    requires forall e | e in es :: e.Targeted? ==> e.address == address
    ensures Run(u, a, es).active.Some? ==> Run(u, a, es).host == address
    decreases |es|
  {
    if es != [] {
      var b := Step(u, a, es[0]);
      StepKeepsOk(u, a, es[0]);
      TargetStep(u, a, es[0], address);
      assert es[0] in es && forall e | e in es[1..] :: e in es;
      hide Ok, Step, Enabled;
      if b.active.Some? { WinnerStays(u, b, es[1..]); } else { OnlyTargetWins(u, b, es[1..], address); }
    }
  }

  lemma TargetStep(u: Setup, a: Auto, e: Event, address: Byte)
    requires Ok(u, a) && Enabled(a, e) && a.active.None? && a.target == Some(address)
    requires e.Targeted? ==> e.address == address
    ensures Step(u, a, e).target == Some(address)
    ensures Step(u, a, e).active.Some? ==> Step(u, a, e).host == address
  {
    hide LinkOk, FeedLink, Heard;
  }

  /** Naming the wanted address takes effect at once. */
  lemma TargetIsSet(u: Setup, a: Auto, es: seq<Event>, address: Byte)
    requires Ok(u, a) && a.active.None? && Possible(u, a, [Targeted(address)] + es)
    requires forall e | e in es :: !e.Targeted?
    ensures Run(u, a, [Targeted(address)] + es).active.Some? ==> Run(u, a, [Targeted(address)] + es).host == address
  {
    var all := [Targeted(address)] + es;
    assert all[0] == Targeted(address) && all[1..] == es;
    StepKeepsOk(u, a, Targeted(address));
    OnlyTargetWins(u, Step(u, a, Targeted(address)), es, address);
  }

  // ---------------------------------------------------------------- a whole response

  function Bytes(p: Protocol, bs: seq<Byte>): (es: seq<Event>)
    ensures |es| == |bs| && forall i | 0 <= i < |bs| :: es[i] == Received(bs[i], p)
  {
    if bs == [] then [] else [Received(bs[0], p)] + Bytes(p, bs[1..])
  }

  /** Bytes that end no frame only reach the assembler of the link listened to. */
  lemma {:induction false} QuietBytes(u: Setup, a: Auto, p: Protocol, bs: seq<Byte>)
    requires Ok(u, a) && a.stage == Waiting(p) && a.active.None?
    requires FramesOf(u.wire, LinkOf(a, p).rx, bs) == []
    ensures Possible(u, a, Bytes(p, bs))
    ensures var z := Run(u, a, Bytes(p, bs));
            && Ok(u, z) && z.stage == a.stage && z.active == a.active && z.target == a.target
            && LinkOf(z, Other(p)) == LinkOf(a, Other(p))
            && LinkOf(z, p).rx == FeedAll(u.wire, LinkOf(a, p).rx, bs)
    decreases |bs|
  {
    if bs != [] {
      var b := Step(u, a, Received(bs[0], p));
      StepKeepsOk(u, a, Received(bs[0], p));
      hide Ok, Feed, Verdict, LinkOk;
      assert Presented(u.wire, LinkOf(a, p).rx, bs[0]) == [];
      assert Bytes(p, bs)[1..] == Bytes(p, bs[1..]);
      QuietBytes(u, b, p, bs[1..]);
    }
  }

  /** A frame with a good CRC that is a wanted response of `source`, a board that may win. */
  ghost predicate Welcome(u: Setup, a: Auto, p: Protocol, frame: seq<Byte>, source: Byte) {
    && Crc(u.wire, u.wire.crcSeed, frame) == 0 && Answers(u.rules, u.client, p, frame, source)
    && (a.target.None? || a.target == Some(source))
  }

  /** Exactly which frames win. Whatever was received before on the link listened to, as long as it does not end in
      the middle of an escape: after STX, an encoding of a frame, and ETX there is a winner if and only if the frame,
      cut at the buffer, has a good CRC and is a wanted response of a wanted board; and then it is that board. */
  lemma FrameWinsExactly(u: Setup, a: Auto, p: Protocol, sent: seq<Byte>, body: seq<Byte>)
    requires Ok(u, a) && a.stage == Waiting(p) && a.active.None? && !LinkOf(a, p).rx.escaped
    requires Encodes(u.wire, sent, body) && |body| >= Looks(p)
    ensures var kept, es := Cut(body, RX_SIZE), Bytes(p, [u.wire.stx] + sent + [u.wire.etx]);
            && Possible(u, a, es)
            && (Run(u, a, es).active == Some(p) || Run(u, a, es).active == None)
            && (Run(u, a, es).active == Some(p) <==> exists source: Byte :: Welcome(u, a, p, kept, source))
            && (forall source: Byte | Welcome(u, a, p, kept, source) :: Run(u, a, es).host == source)
  {
    var kept := Cut(body, RX_SIZE);
    FrameIsJudged(u, a, p, sent, body);
    assert Looks(p) <= |kept| <= RX_SIZE;
    forall source: Byte
      ensures Welcome(u, a, p, kept, source) <==> FrameVerdict(u, p, kept) == Some(source) && Acceptable(a, Some(source))
    {
      FrameVerdictExactly(u, p, kept, source);
      hide FrameVerdict, Answers, Crc;
    }
    hide FrameVerdict, Welcome, Run, Possible, Bytes, Looks;
  }

  lemma FrameVerdictExactly(u: Setup, p: Protocol, frame: seq<Byte>, source: Byte)
    requires Looks(p) <= |frame| <= RX_SIZE
    ensures FrameVerdict(u, p, frame) == Some(source) <==>
              Crc(u.wire, u.wire.crcSeed, frame) == 0 && Answers(u.rules, u.client, p, frame, source)
  {
    hide Verdict, Answers, Crc;
    VerdictExactly(u.rules, u.client, p, Padded(frame), |frame|, Crc(u.wire, u.wire.crcSeed, frame), source);
    LongFramesAnswer(u.rules, u.client, p, Padded(frame), frame, source);
  }

  /** The same for a response built from its fields, whatever they are: it makes the board that sent it the winner if
      and only if the CRC is good, it is wanted, and the board may win. */
  lemma ResponseWinsExactly(u: Setup, a: Auto, p: Protocol, sent: seq<Byte>, f: Response)
    requires Ok(u, a) && a.stage == Waiting(p) && a.active.None? && !LinkOf(a, p).rx.escaped
    requires Of(p, f) && Encodes(u.wire, sent, WireForm(u.rules, f)) && |WireForm(u.rules, f)| <= RX_SIZE
    ensures var es := Bytes(p, [u.wire.stx] + sent + [u.wire.etx]);
            var wins := && Crc(u.wire, u.wire.crcSeed, WireForm(u.rules, f)) == 0 && Wanted(u.rules, u.client, f)
                        && (a.target.None? || a.target == Some(f.source));
            && Possible(u, a, es)
            && Run(u, a, es).active == (if wins then Some(p) else None)
            && (wins ==> Run(u, a, es).host == f.source)
  {
    var frame := WireForm(u.rules, f);
    FieldsRead(u.rules, p, f);
    FrameWinsExactly(u, a, p, sent, frame);
    assert Cut(frame, RX_SIZE) == frame;
    forall source: Byte
      ensures Answers(u.rules, u.client, p, frame, source) <==> Wanted(u.rules, u.client, f) && f.source == source
    {
      AnswersByFields(u.rules, u.client, p, frame, source);
      hide Answers, Wanted;
    }
    hide Answers, Wanted, WireForm, Run, Possible, Bytes, Crc, Encodes, Ok;
    var welcome := Welcome(u, a, p, frame, f.source);
  }

  lemma FrameIsJudged(u: Setup, a: Auto, p: Protocol, sent: seq<Byte>, body: seq<Byte>)
    requires Ok(u, a) && a.stage == Waiting(p) && a.active.None? && !LinkOf(a, p).rx.escaped
    requires Encodes(u.wire, sent, body) && |body| >= Looks(p)
    ensures var kept := Cut(body, RX_SIZE);
            var es, source := Bytes(p, [u.wire.stx] + sent + [u.wire.etx]), FrameVerdict(u, p, kept);
            && Possible(u, a, es)
            && Run(u, a, es).active == (if Acceptable(a, source) then Some(p) else None)
            && (Acceptable(a, source) ==> Run(u, a, es).host == source.value)
  {
    var w, rx := u.wire, LinkOf(a, p).rx;
    var front, kept := [w.stx] + sent, Cut(body, RX_SIZE);
    assert kept == body || kept == body[..RX_SIZE];
    FrontIsQuiet(w, rx, sent, body);
    FrameAtEnd(w, rx, sent, body);
    QuietBytes(u, a, p, front);
    LastByte(u, a, p, front, w.etx);
    assert front + [w.etx] == [w.stx] + sent + [w.etx];
    hide *;
    EndOfFrame(u, Run(u, a, Bytes(p, front)), p, kept);
    SameTarget(a, Run(u, a, Bytes(p, front)), FrameVerdict(u, p, kept));
  }

  lemma SameTarget(a: Auto, z: Auto, source: Option<Byte>)
    requires a.target == z.target
    ensures Acceptable(a, source) == Acceptable(z, source)
  {
  }

  lemma FrameAtEnd(w: Wire, rx: Rx, sent: seq<Byte>, body: seq<Byte>)
    requires WireOk(w) && !rx.escaped && Encodes(w, sent, body)
    ensures var kept := Cut(body, RX_SIZE);
            Presented(w, FeedAll(w, rx, [w.stx] + sent), w.etx) == [Frame(kept, Crc(w, w.crcSeed, kept))]
  {
    hide Presented, Feed, Encodes, Crc;
    FrameRoundTrip(w, rx, sent, body);
    FrontIsQuiet(w, rx, sent, body);
    FeedAppend(w, rx, [w.stx] + sent, [w.etx]);
    var end := FeedAll(w, rx, [w.stx] + sent);
    assert [w.etx][1..] == [];
    assert FramesOf(w, end, [w.etx]) == Presented(w, end, w.etx) + FramesOf(w, Feed(w, end, w.etx), []);
  }

  /** The ETX of a frame decides by the frame alone, if the frame is long enough. */
  lemma EndOfFrame(u: Setup, a: Auto, p: Protocol, frame: seq<Byte>)
    requires Ok(u, a) && a.stage == Waiting(p) && a.active.None? && Looks(p) <= |frame| <= RX_SIZE
    requires Presented(u.wire, LinkOf(a, p).rx, u.wire.etx) == [Frame(frame, Crc(u.wire, u.wire.crcSeed, frame))]
    ensures var z, source := Step(u, a, Received(u.wire.etx, p)), FrameVerdict(u, p, frame);
            && z.active == (if Acceptable(a, source) then Some(p) else None)
            && (Acceptable(a, source) ==> z.host == source.value)
  {
    hide Crc, Verdict, Feed, Looks;
    assert LinkOf(a, p).rx.bytes == frame;
    LongFramesDecide(u.rules, u.client, p, LinkOf(a, p).raw, Padded(frame), |frame|, Crc(u.wire, u.wire.crcSeed, frame));
  }

  lemma FrontIsQuiet(w: Wire, rx: Rx, sent: seq<Byte>, body: seq<Byte>)
    requires WireOk(w) && !rx.escaped && Encodes(w, sent, body)
    ensures FramesOf(w, rx, [w.stx] + sent) == []
  {
    EncodingBuffers(w, Feed(w, rx, w.stx), sent, body);
    assert ([w.stx] + sent)[1..] == sent;
  }

  lemma {:induction false} LastByte(u: Setup, a: Auto, p: Protocol, bs: seq<Byte>, b: Byte)
    requires Possible(u, a, Bytes(p, bs)) && Ok(u, Run(u, a, Bytes(p, bs)))
    ensures Possible(u, a, Bytes(p, bs + [b]))
    ensures Run(u, a, Bytes(p, bs + [b])) == Step(u, Run(u, a, Bytes(p, bs)), Received(b, p))
    decreases |bs|
  {
    hide Ok, Step;
    if bs == [] {
      assert Bytes(p, [b]) == [Received(b, p)] && [Received(b, p)][1..] == [];
      assert bs + [b] == [b];
    } else {
      assert (bs + [b])[0] == bs[0] && (bs + [b])[1..] == bs[1..] + [b];
      assert Bytes(p, bs)[1..] == Bytes(p, bs[1..]) && Bytes(p, bs + [b])[1..] == Bytes(p, bs[1..] + [b]);
      LastByte(u, Step(u, a, Received(bs[0], p)), p, bs[1..], b);
    }
  }

  /** A receive buffer that holds a frame and otherwise zeros. */
  function Padded(frame: seq<Byte>): (raw: seq<Byte>)
    requires |frame| <= RX_SIZE
    ensures |raw| == RX_SIZE && raw[..|frame|] == frame
  {
    frame + Zeros(RX_SIZE - |frame|)
  }

  /** The end-of-frame check on a frame by itself. */
  function FrameVerdict(u: Setup, p: Protocol, frame: seq<Byte>): Option<Byte>
    requires |frame| <= RX_SIZE
  {
    Verdict(u.rules, u.client, p, Padded(frame), |frame|, Crc(u.wire, u.wire.crcSeed, frame))
  }
}
