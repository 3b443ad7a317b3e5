/**
 The checksum of the UBX protocol in closed form, and packets of the protocol as they are published:
 what the model calls a frame, an acknowledgement and an intact checksum, byte for byte.
 */
module UbxFormat {
  import opened UbxReceiver
  import opened UbxTraffic
  import opened UbxWait

  // ---- the checksum in closed form ----

  /** The sum of the bytes. */
  function Total(s: seq<bv8>): nat {
    if s == [] then 0 else s[0] as nat + Total(s[1..])
  }

  /** The first of n bytes counts n times, the last once. */
  function Weighted(s: seq<bv8>): nat {
    if s == [] then 0 else Times(|s|, s[0]) + Weighted(s[1..])
  }

  function Times(n: nat, b: bv8): nat {
    n * b as nat
  }

  lemma OnceMore(n: nat, b: bv8)
    ensures Times(n + 1, b) == Times(n, b) + b as nat && Times(1, b) == b as nat
  {
  }

  /** Remainders can be taken on the way. */
  lemma WrappedTwice(w: nat, t: nat, b: nat)
    ensures (t % 256 + b) % 256 == (t + b) % 256
    ensures (w % 256 + (t % 256 + b) % 256) % 256 == (w + t + b) % 256
  {
  }

  function Value(x: bv8): nat {
    x as nat
  }

  function Next(x: bv8): bv8 {
    x + 1
  }

  function Before(x: bv8): bv8 {
    x - 1
  }

  lemma NextWraps(x: bv8)
    ensures Value(Next(x)) == (if Value(x) == 255 then 0 else Value(x) + 1)
    ensures Value(x) < 256 && Value(0) == 0
  {
  }

  lemma BeforeIsLess(x: bv8)
    requires x != 0
    ensures Value(Before(x)) == Value(x) - 1
  {
  }

  lemma PlusNext(x: bv8, y: bv8)
    ensures Plus(x, y) == Next(Plus(x, Before(y))) && Plus(x, 0) == x
  {
  }

  lemma {:induction false} PlusWraps(x: bv8, y: bv8)
    ensures Value(Plus(x, y)) == (Value(x) + Value(y)) % 256
    decreases Value(y)
  {
    hide Plus, Next, Before, Value;
    PlusNext(x, y);
    NextWraps(x);
    if y != 0 {
      BeforeIsLess(y);
      NextWraps(Plus(x, Before(y)));
      PlusWraps(x, Before(y));
      NextModulo(Value(x) + Value(Before(y)));
    }
  }

  lemma NextModulo(n: nat)
    ensures (n + 1) % 256 == if n % 256 == 255 then 0 else n % 256 + 1
    ensures n < 256 ==> n % 256 == n
  {
  }

  lemma {:induction false} SumsOfAppended(s: seq<bv8>, b: bv8)
    ensures Total(s + [b]) == Total(s) + b as nat
    ensures Weighted(s + [b]) == Weighted(s) + Total(s) + b as nat
    decreases |s|
  {
    if s == [] {
      hide Times;
      OnceMore(1, b);
      assert s + [b] == [b] && [b][1..] == [];
    } else {
      hide Times;
      assert (s + [b])[1..] == s[1..] + [b];
      OnceMore(|s|, s[0]);
      SumsOfAppended(s[1..], b);
    }
  }

  /** The two bytes are the sum and the weighted sum modulo 256. */
  lemma {:induction false} FletcherIsSums(s: seq<bv8>)
    ensures Fletcher(s).a as nat == Total(s) % 256
    ensures Fletcher(s).b as nat == Weighted(s) % 256
    decreases |s|
  {
    if s != [] {
      hide Plus, Total, Weighted;
      var init, b := s[..|s| - 1], s[|s| - 1];
      WrappedTwice(Weighted(init), Total(init), b as nat);
      assert s == init + [b];
      FletcherIsSums(init);
      SumsOfAppended(init, b);
      var f := Fletcher(init);
      PlusWraps(f.a, b);
      PlusWraps(f.b, Plus(f.a, b));
    }
  }

  // ---- published packets ----

  /** The poll for NAV-PVT. */
  lemma PollOfPvt()
    ensures
      var f := Frame(0x01, 0x07, 0, [], 0x08, 0x19);
      Bytes(f) == [0xB5, 0x62, 0x01, 0x07, 0x00, 0x00, 0x08, 0x19] && Framed(f) && Intact(f)
  {
    var f := Frame(0x01, 0x07, 0, [], 0x08, 0x19);
    assert Body(f) == [0x01, 0x07, 0x00, 0x00];
    FletcherOfFour(0x01, 0x07, 0x00, 0x00);
  }

  lemma FletcherOfFour(x: bv8, y: bv8, z: bv8, w: bv8)
    ensures Fletcher([x, y, z, w]) == Roll(Roll(Roll(Roll(Sum(0, 0), x), y), z), w)
  {
    hide Roll;
    FletcherLast([], x);
    FletcherLast([x], y);
    FletcherLast([x, y], z);
    FletcherLast([x, y, z], w);
    assert [] + [x] == [x] && [x] + [y] == [x, y] && [x, y] + [z] == [x, y, z] && [x, y, z] + [w] == [x, y, z, w];
  }

  lemma FletcherOfSix(x: bv8, y: bv8, z: bv8, w: bv8, u: bv8, v: bv8)
    ensures Fletcher([x, y, z, w, u, v]) == Roll(Roll(Roll(Roll(Roll(Roll(Sum(0, 0), x), y), z), w), u), v)
  {
    hide Roll, Fletcher;
    FletcherOfFour(x, y, z, w);
    FletcherLast([x, y, z, w], u);
    FletcherLast([x, y, z, w, u], v);
    assert [x, y, z, w] + [u] == [x, y, z, w, u] && [x, y, z, w, u] + [v] == [x, y, z, w, u, v];
  }

  function Acked(): Frame {
    Frame(0x05, 0x01, 2, [0x06, 0x08], 0x16, 0x3F)
  }

  function Nacked(): Frame {
    Frame(0x05, 0x00, 2, [0x06, 0x08], 0x15, 0x3A)
  }

  function Rate(): Frame {
    Frame(0x06, 0x08, 6, [0xE8, 0x03, 0x01, 0x00, 0x01, 0x00], 0x01, 0x39)
  }

  /** The acknowledgement of CFG-RATE. */
  lemma AckOfRate()
    ensures Bytes(Acked()) == [0xB5, 0x62, 0x05, 0x01, 0x02, 0x00, 0x06, 0x08, 0x16, 0x3F]
    ensures Acknowledgement(Acked(), Request(0x06, 0x08)) && Intact(Acked())
  {
    assert Body(Acked()) == [0x05, 0x01, 0x02, 0x00, 0x06, 0x08];
    FletcherOfSix(0x05, 0x01, 0x02, 0x00, 0x06, 0x08);
  }

  lemma NackOfRate()
    ensures Bytes(Nacked()) == [0xB5, 0x62, 0x05, 0x00, 0x02, 0x00, 0x06, 0x08, 0x15, 0x3A]
    ensures Acknowledgement(Nacked(), Request(0x06, 0x08)) && Intact(Nacked())
  {
    assert Body(Nacked()) == [0x05, 0x00, 0x02, 0x00, 0x06, 0x08];
    FletcherOfSix(0x05, 0x00, 0x02, 0x00, 0x06, 0x08);
  }

  /** CFG-RATE at 1 Hz. */
  lemma RateFrame()
    ensures Bytes(Rate()) ==
      [0xB5, 0x62, 0x06, 0x08, 0x06, 0x00, 0xE8, 0x03, 0x01, 0x00, 0x01, 0x00, 0x01, 0x39]
    ensures Requested(Rate(), Request(0x06, 0x08)) && Intact(Rate())
  {
    var f := Rate();
    assert Body(f) == [0x06, 0x08, 0x06, 0x00, 0xE8, 0x03, 0x01, 0x00, 0x01, 0x00];
    FletcherOfSix(0x06, 0x08, 0x06, 0x00, 0xE8, 0x03);
    RollFour([0x06, 0x08, 0x06, 0x00, 0xE8, 0x03], 0x01, 0x00, 0x01, 0x00);
    assert [0x06, 0x08, 0x06, 0x00, 0xE8, 0x03] + [0x01] + [0x00] + [0x01] + [0x00] == Body(f);
  }

  lemma RollFour(s: seq<bv8>, x: bv8, y: bv8, z: bv8, w: bv8)
    ensures Fletcher(s + [x] + [y] + [z] + [w]) == Roll(Roll(Roll(Roll(Fletcher(s), x), y), z), w)
  {
    hide Roll, Fletcher;
    FletcherLast(s, x);
    FletcherLast(s + [x], y);
    FletcherLast(s + [x] + [y], z);
    FletcherLast(s + [x] + [y] + [z], w);
  }

  /** An acknowledgement and a refusal by themselves. */
  lemma KnownAnswers(s: State)
    requires Idle(s)
    ensures
      var ack := [[0xB5, 0x62, 0x05, 0x01, 0x02, 0x00, 0x06, 0x08, 0x16, 0x3F]];
      Waited(WaitStarted(s), ack, Request(0x06, 0x08)).0 == DataSent
    ensures
      var nack := [[0xB5, 0x62, 0x05, 0x00, 0x02, 0x00, 0x06, 0x08, 0x15, 0x3A]];
      Waited(WaitStarted(s), nack, Request(0x06, 0x08)).0 == CommandNack
  {
    hide Waited, WaitStarted, Bytes, Fletcher, Body, Idle;
    AckOfRate();
    NackOfRate();
    OnlyAnAnswer(s, Acked(), Request(0x06, 0x08));
    OnlyAnAnswer(s, Nacked(), Request(0x06, 0x08));
  }

  lemma OnlyAnAnswer(s: State, f: Frame, q: Request)
    requires Idle(s) && Acknowledgement(f, q) && Intact(f)
    ensures Waited(WaitStarted(s), [Bytes(f)], q).0 == if f.id == ACK_NACK then CommandNack else DataSent
  {
    hide Waited, WaitStarted, Bytes, Fletcher, Body, Idle;
    var x := Exchange([], [], [], f, []);
    assert Wire(x) == Bytes(f) && UpToAck(x) == Bytes(f);
    OnePoll(Bytes(f));
    assert Wire(x)[..|Bytes(f)|] == Bytes(f);
    ExchangeIsAnswered(s, x, [Bytes(f)], q);
  }

  lemma OnePoll(bytes: seq<bv8>)
    ensures Concat([bytes]) == bytes
  {
    assert [bytes][1..] == [];
  }

  /** An RTCM frame without content, a response and its acknowledgement, one directly behind the other. */
  lemma KnownExchange(s: State)
    requires Idle(s)
    ensures
      var bytes :=
        [0xD3, 0x00, 0x00, 0x47, 0xEA, 0x4B]
        + [0xB5, 0x62, 0x06, 0x08, 0x06, 0x00, 0xE8, 0x03, 0x01, 0x00, 0x01, 0x00, 0x01, 0x39]
        + [0xB5, 0x62, 0x05, 0x01, 0x02, 0x00, 0x06, 0x08, 0x16, 0x3F];
      var (status, t) := Waited(WaitStarted(s), [bytes], Request(0x06, 0x08));
      && status == DataReceived && t.cfg.len == 6 && |t.cfg.payload| >= 6
      && t.cfg.payload[..6] == [0xE8, 0x03, 0x01, 0x00, 0x01, 0x00]
  {
    hide Waited, WaitStarted, Fletcher, Body, Idle;
    AckOfRate();
    RateFrame();
    var rtcm: seq<bv8> := [0xD3, 0x00, 0x00, 0x47, 0xEA, 0x4B];
    assert RtcmFrame(rtcm);
    var q := Request(0x06, 0x08);
    RtcmBefore(s, rtcm, Rate(), Acked(), q);
  }

  lemma RtcmBefore(s: State, rtcm: seq<bv8>, f: Frame, ack: Frame, q: Request)
    requires Idle(s) && RtcmFrame(rtcm) && Requested(f, q) && Intact(f) && Acknowledgement(ack, q) && Intact(ack)
    requires ack.id == ACK_ACK
    ensures
      var (status, t) := Waited(WaitStarted(s), [rtcm + Bytes(f) + Bytes(ack)], q);
      status == DataReceived && Received(t.cfg, f)
  {
    hide Waited, WaitStarted, Bytes, Fletcher, Body, Idle, RtcmFrame, Received;
    var x := Exchange([RtcmItem(rtcm)], [f], [], ack, []);
    var bytes := rtcm + Bytes(f) + Bytes(ack);
    assert Stream([]) == [];
    assert x.before[..0] == [] && Stream(x.before) == rtcm;
    assert Wire(x) == bytes && UpToAck(x) == bytes;
    OnePoll(bytes);
    assert Wire(x)[..|bytes|] == bytes;
    ExchangeIsAnswered(s, x, [bytes], q);
  }

  /** The three bytes that start a sentence; any other goes on with the text, if there is one. */
  lemma SentenceStarts(s: State, b: bv8, q: Request)
    requires Idle(s)
    ensures var t := Process(s, b, q);
      && (t.sentence == Ubx <==> b == 0xB5) && (t.sentence == Rtcm <==> b == 0xD3)
      && (t.sentence == Nmea <==> b == '$' as int as bv8 || (s.sentence == Nmea && b !in {0xB5, 0xD3}))
      && (t.sentence in {NoSentence, Nmea} ==> t == s.(sentence := t.sentence))
  {
  }
}
