/**
 * Two hellos that cross on the wire: which end yields, and how the handshake then completes.
 */
module CrossingHellos {
  import opened Prelude
  import opened CryptoAuth
  import RP = ReplayProtector
  import Bits

  /** The auth field of a packet leads the receiver to the password the sender used. */
  predicate AuthFits(cfg: Config, auth: Challenge, password: Option<nat>) {
    if 1 <= auth.kind <= 2 && auth in cfg.users
    then cfg.users[auth].allowed && password == Some(cfg.users[auth].secret)
    else !cfg.requireAuth && auth.kind == 0 && password == None
  }

  /** A hello, first or repeated, sent to `cfg` by its peer while that held temp key `temp`. */
  predicate IsHello(cfg: Config, p: Packet, temp: Key) {
    && p.nonce <= NONCE_REPEAT_HELLO
    && p.length >= HEADER_SIZE
    && p.publicKey == cfg.herPublicKey
    && p.box.nonce == p.shakeNonce
    && p.box.secret.Shared?
    && p.box.plain.tempKey == temp
    && AuthFits(cfg, p.auth, p.box.secret.password)
    && p.box.secret == GetSharedSecret(cfg.publicKey, cfg.herPublicKey, p.box.secret.password)
  }

  /** A session that has sent hellos and heard nothing. */
  predicate Waiting(s: State) {
    && s.nextNonce == SENT_HELLO
    && s.isInitiator && !s.established
    && s.ourTemp != UNKNOWN && s.herTemp == UNKNOWN
  }

  predicate Mirrored(a: Config, b: Config) {
    && a.publicKey != UNKNOWN && b.publicKey != UNKNOWN && a.publicKey != b.publicKey
    && a.herPublicKey == b.publicKey && b.herPublicKey == a.publicKey
  }

  /**
   * When each end receives the other's hello, in whichever order, both accept; exactly the end with
   * the lower permanent key stays initiator, unchanged, and the other becomes its responder.
   */
  lemma LowerKeyStaysInitiator(
    a: Config, b: Config, sa: State, sb: State, pa: Packet, pb: Packet, now: nat, undefined: int)
    requires Mirrored(a, b) && Waiting(sa) && Waiting(sb)
    requires IsHello(b, pa, sa.ourTemp) && IsHello(a, pb, sb.ourTemp)
    ensures var (sa', va) := Decrypt(a, sa, now, pb, undefined);
            var (sb', vb) := Decrypt(b, sb, now, pa, undefined);
            && va == Accepted(pb.box.plain.body, false)
            && vb == Accepted(pa.box.plain.body, false)
            && (sa'.isInitiator <==> a.publicKey < b.publicKey)
            && (sb'.isInitiator <==> b.publicKey < a.publicKey)
            && (if a.publicKey < b.publicKey then sa' == sa && Responding(sb', sa.ourTemp)
                else sb' == sb && Responding(sa', sb.ourTemp))
            && sa'.credentials == sa.credentials && sb'.credentials == sb.credentials
            && sa'.authKind == sa.authKind && sb'.authKind == sb.authKind
            && sa'.timeOfLastPacket == sa.timeOfLastPacket && sb'.timeOfLastPacket == sb.timeOfLastPacket
  {
    HelloReceived(a, sa, pb, sb.ourTemp, now, undefined);
    HelloReceived(b, sb, pa, sa.ourTemp, now, undefined);
  }

  /** A session that has yielded to a hello carrying `temp`. */
  predicate Responding(s: State, temp: Key) {
    && s.nextNonce == RECEIVED_HELLO
    && !s.isInitiator && !s.established
    && s.ourTemp == UNKNOWN && s.herTemp == temp
    && s.window == RP.EMPTY
  }

  lemma HelloReceived(cfg: Config, s: State, p: Packet, temp: Key, now: nat, undefined: int)
    requires cfg.herPublicKey != UNKNOWN && cfg.herPublicKey != cfg.publicKey
    requires Waiting(s) && IsHello(cfg, p, temp) && temp != UNKNOWN
    ensures Decrypt(cfg, s, now, p, undefined) ==
      (if cfg.publicKey < cfg.herPublicKey then s
       else Reset(s).(herTemp := temp, nextNonce := RECEIVED_HELLO),
       Accepted(p.box.plain.body, false))
  {
    var user := GetAuth(cfg, p.auth);
    var password := if user.Some? then Some(user.value.secret) else None;
    assert p.box.secret == GetSharedSecret(cfg.publicKey, cfg.herPublicKey, password);
    assert AfterOpen(cfg, s, p.nonce, temp) == OnHello(cfg, s, temp);
  }

  /** The auth field a session puts in its handshake packets. */
  function AuthSent(s: State, draw: Draw): Challenge {
    if s.credentials.Some? then s.credentials.value.challenge else Challenge(s.authKind, draw.lookup)
  }

  lemma KeySent(cfg: Config, h: State, temp: Key, now: nat, draw: Draw, body: seq<Byte>)
    requires Responding(h, temp) && temp != UNKNOWN && cfg.herPublicKey != UNKNOWN && draw.tempKey != UNKNOWN
    requires !TimedOut(cfg, h, now)
    ensures Encrypt(cfg, h, now, draw, body) ==
      (h.(ourTemp := draw.tempKey, nextNonce := SENT_KEY),
       Sent(Packet(NONCE_KEY, HEADER_SIZE + |body|, cfg.publicKey, AuthSent(h, draw), Random(draw.shakeNonce),
                   Box(GetSharedSecret(cfg.publicKey, temp, PasswordOf(h)), Random(draw.shakeNonce),
                       Plain(draw.tempKey, body)))))
  {
  }

  lemma KeyReceived(cfg: Config, l: State, p: Packet, temp: Key, password: Option<nat>, now: nat, undefined: int)
    requires cfg.herPublicKey != UNKNOWN && Waiting(l) && temp != UNKNOWN
    requires NONCE_KEY <= p.nonce <= NONCE_REPEAT_KEY && p.length >= HEADER_SIZE && p.publicKey == cfg.herPublicKey
    requires AuthFits(cfg, p.auth, password)
    requires p.box == Box(GetSharedSecret(l.ourTemp, cfg.herPublicKey, password), p.shakeNonce, Plain(temp, p.box.plain.body))
    ensures Decrypt(cfg, l, now, p, undefined) ==
      (l.(herTemp := temp, nextNonce := RECEIVED_KEY, window := RP.EMPTY), Accepted(p.box.plain.body, false))
  {
    var user := GetAuth(cfg, p.auth);
    assert password == if user.Some? then Some(user.value.secret) else None;
    assert AfterOpen(cfg, l, p.nonce, temp) == OnKey(l, p.nonce, temp);
  }

  lemma FirstTrafficAccepted(w: RP.Window, nonce: nat, undefined: int)
    requires w == RP.EMPTY && nonce < TWO_32
    ensures RP.Check(w, nonce, undefined).1
  {
    assert 0 < Bits.Pow2(64);
    RP.RecordsItself(w);
    RP.CheckRefinesSet(w, 0, RP.InWindow(w), nonce, undefined);
    if nonce in RP.InWindow(w) {
      var i: nat :| i < 64 && Bits.Bit(0, i);
      Bits.HighBitsClear(0, 0, i);
    }
  }

  /** A traffic packet from the peer of s, under the temp keys of s and with counter n. */
  function TrafficTo(s: State, publicKey: Key, n: nat, body: seq<Byte>): Packet {
    var nonce24 := CounterNonce(n, !s.isInitiator);
    Packet(n, TRAFFIC_OVERHEAD + |body|, publicKey, Challenge(0, 0), nonce24,
           Box(GetSharedSecret(s.ourTemp, s.herTemp, None), nonce24, Plain(UNKNOWN, body)))
  }

  lemma TrafficCompletes(cfg: Config, s: State, publicKey: Key, n: nat, body: seq<Byte>, now: nat, undefined: int)
    requires !s.established && SENT_KEY <= s.nextNonce <= 0xffff_fffc && s.ourTemp != UNKNOWN && s.herTemp != UNKNOWN
    requires s.window == RP.EMPTY && 4 <= n < TWO_32
    ensures var (s', v) := Decrypt(cfg, s, now, TrafficTo(s, publicKey, n, body), undefined);
            && v == Accepted(body, true)
            && s'.established && s'.sharedSecret == GetSharedSecret(s.ourTemp, s.herTemp, None)
            && s'.nextNonce == s.nextNonce + 3 && s'.isInitiator == s.isInitiator
            && s'.ourTemp == s.ourTemp && s'.herTemp == s.herTemp
            && s'.timeOfLastPacket == now % TWO_32
            && (n + 1 < TWO_32 ==> RP.Fits(s'.window) && NothingFrom(s'.window, n + 1))
  {
    hide RP.Check, NothingFrom, RP.Fits;
    FirstTrafficAccepted(s.window, n, undefined);
    RestartsAbove(s.window, n, undefined);
  }

  lemma RestartsAbove(w: RP.Window, n: nat, undefined: int)
    requires w == RP.EMPTY && n < TWO_32
    ensures var w' := RP.Check(w, n, undefined).0.(baseOffset := (n + 1) % TWO_32, bitfield := 0);
            n + 1 < TWO_32 ==> RP.Fits(w') && NothingFrom(w', n + 1)
  {
    hide RP.Check;
    EmptyFits();
    RP.CheckCovers(w, n, undefined);
    if n + 1 < TWO_32 { ClearAbove(RP.Check(w, n, undefined).0, n + 1); }
  }

  /** The window will take every nonce from n up. */
  ghost predicate NothingFrom(w: RP.Window, n: nat) {
    forall m :: m >= n ==> !RP.Covered(w, m)
  }

  lemma EmptyFits()
    ensures RP.Fits(RP.EMPTY)
  {
    assert 0 < Bits.Pow2(64);
  }

  lemma ClearAbove(w: RP.Window, n: nat)
    requires RP.Fits(w) && n < TWO_32
    ensures var w' := w.(baseOffset := n, bitfield := 0); RP.Fits(w') && NothingFrom(w', n)
  {
    assert 0 < Bits.Pow2(64);
    forall m | m >= n ensures !RP.Covered(w.(baseOffset := n, bitfield := 0), m) {
      Bits.HighBitsClear(0, 0, m - n);
    }
  }

  // ---- Sending the hellos ----

  /** A session that has not heard from its peer; it may have sent hellos. */
  predicate Opening(s: State) {
    && s.nextNonce <= SENT_HELLO
    && s.herTemp == UNKNOWN && !s.established
    && (s.nextNonce == SENT_HELLO ==> Waiting(s))
  }

  /** The peer knows the password s uses, if it uses one. */
  predicate Knows(peer: Config, s: State) {
    AuthFits(peer, AuthSent(s, Draw(UNKNOWN, 0, 0)), PasswordOf(s))
  }

  lemma KnowsAnyDraw(peer: Config, s: State, draw: Draw)
    requires Knows(peer, s)
    ensures AuthFits(peer, AuthSent(s, draw), PasswordOf(s))
  {
  }

  lemma HelloSent(cfg: Config, peer: Config, s: State, now: nat, draw: Draw, body: seq<Byte>)
    requires Mirrored(cfg, peer) && Opening(s) && Knows(peer, s) && draw.tempKey != UNKNOWN
    ensures var (s', r) := Encrypt(cfg, s, now, draw, body);
            && Waiting(s') && r.Sent? && IsHello(peer, r.packet, s'.ourTemp) && r.packet.box.plain.body == body
            && s'.credentials == s.credentials && s'.authKind == s.authKind
  {
    KnowsAnyDraw(peer, s, draw);
  }

  // ---- From two hellos to one session ----

  /** One packet: when it is sent, what is drawn for it, what it carries and when it is heard. */
  datatype Leg = Leg(sentAt: nat, draw: Draw, body: seq<Byte>, heardAt: nat)

  datatype Script = Script(lowHello: Leg, highHello: Leg, key: Leg, first: Leg, reply: Leg)

  /** The two sessions; `low` belongs to the end with the lower permanent key. */
  datatype Ends = Ends(low: State, high: State)

  function Deliver(cfg: Config, s: State, now: nat, r: SendResult, undefined: int): State {
    match r
    case Sent(p) => Decrypt(cfg, s, now, p, undefined).0
    case SendAborted => s
  }

  function Send(cfg: Config, s: State, leg: Leg): (State, SendResult) {
    Encrypt(cfg, s, leg.sentAt, leg.draw, leg.body)
  }

  /** Both ends send a hello, and each hears the other's. */
  function Crossed(lo: Config, hi: Config, e: Ends, x: Script, undefined: int): Ends {
    var (l, fromLow) := Send(lo, e.low, x.lowHello);
    var (h, fromHigh) := Send(hi, e.high, x.highHello);
    Ends(Deliver(lo, l, x.highHello.heardAt, fromHigh, undefined), Deliver(hi, h, x.lowHello.heardAt, fromLow, undefined))
  }

  function HighSends(lo: Config, hi: Config, e: Ends, leg: Leg, undefined: int): Ends {
    var (h, r) := Send(hi, e.high, leg);
    Ends(Deliver(lo, e.low, leg.heardAt, r, undefined), h)
  }

  function LowSends(lo: Config, hi: Config, e: Ends, leg: Leg, undefined: int): Ends {
    var (l, r) := Send(lo, e.low, leg);
    Ends(l, Deliver(hi, e.high, leg.heardAt, r, undefined))
  }

  /** Both established, in opposite roles, on the same temp keys and with one secret. */
  predicate Joined(e: Ends) {
    && e.low.established && e.high.established
    && e.low.isInitiator && !e.high.isInitiator
    && e.low.ourTemp == e.high.herTemp && e.low.herTemp == e.high.ourTemp
    && e.low.sharedSecret == e.high.sharedSecret == GetSharedSecret(e.low.ourTemp, e.low.herTemp, None)
  }

  /** And neither has heard a counter that the other has still to use. */
  ghost predicate InTouch(e: Ends) {
    && Joined(e)
    && 6 <= e.low.nextNonce < TWO_32 && 6 <= e.high.nextNonce < TWO_32
    && RP.Fits(e.low.window) && NothingFrom(e.low.window, e.high.nextNonce)
    && RP.Fits(e.high.window) && NothingFrom(e.high.window, e.low.nextNonce)
  }

  /** Honest peers that know each other, fresh temp keys, and something to say in the traffic packets. */
  predicate Playable(lo: Config, hi: Config, e: Ends, x: Script) {
    && Mirrored(lo, hi) && lo.publicKey < hi.publicKey
    && Opening(e.low) && Opening(e.high) && Knows(hi, e.low) && Knows(lo, e.high)
    && x.lowHello.draw.tempKey != UNKNOWN && x.highHello.draw.tempKey != UNKNOWN
    && x.key.draw.tempKey != UNKNOWN && x.first.draw.tempKey != UNKNOWN
    && x.first.body != [] && x.reply.body != []
  }

  /** The lower end waits as initiator, the higher one has yielded to it. */
  predicate Yielded(lo: Config, e: Ends) {
    Waiting(e.low) && Responding(e.high, e.low.ourTemp) && Knows(lo, e.high)
  }

  lemma HellosCross(lo: Config, hi: Config, e: Ends, x: Script, undefined: int)
    requires Playable(lo, hi, e, x)
    ensures Yielded(lo, Crossed(lo, hi, e, x, undefined))
  {
    HelloSent(lo, hi, e.low, x.lowHello.sentAt, x.lowHello.draw, x.lowHello.body);
    HelloSent(hi, lo, e.high, x.highHello.sentAt, x.highHello.draw, x.highHello.body);
    var (l, fromLow) := Send(lo, e.low, x.lowHello);
    var (h, fromHigh) := Send(hi, e.high, x.highHello);
    HelloReceived(lo, l, fromHigh.packet, h.ourTemp, x.highHello.heardAt, undefined);
    HelloReceived(hi, h, fromLow.packet, l.ourTemp, x.lowHello.heardAt, undefined);
  }

  /** The key packet arrived: the two agree on the temp keys. */
  predicate Keyed(e: Ends) {
    && e.low.nextNonce == RECEIVED_KEY && e.high.nextNonce == SENT_KEY
    && e.low.isInitiator && !e.high.isInitiator && !e.low.established && !e.high.established
    && e.low.ourTemp == e.high.herTemp != UNKNOWN && e.low.herTemp == e.high.ourTemp != UNKNOWN
    && e.low.window == RP.EMPTY && e.high.window == RP.EMPTY
  }

  lemma KeyArrives(lo: Config, hi: Config, e: Ends, leg: Leg, undefined: int)
    requires Mirrored(lo, hi) && Yielded(lo, e) && leg.draw.tempKey != UNKNOWN && !TimedOut(hi, e.high, leg.sentAt)
    ensures var e' := HighSends(lo, hi, e, leg, undefined);
            Keyed(e') && e'.low.timeOfLastPacket == e.low.timeOfLastPacket
  {
    KeySent(hi, e.high, e.low.ourTemp, leg.sentAt, leg.draw, leg.body);
    KnowsAnyDraw(lo, e.high, leg.draw);
    var k := Send(hi, e.high, leg).1.packet;
    KeyReceived(lo, e.low, k, leg.draw.tempKey, PasswordOf(e.high), leg.heardAt, undefined);
  }

  /** The first traffic packet arrived: the higher end is established, the lower one sends data. */
  ghost predicate HalfJoined(e: Ends) {
    && e.low.nextNonce == 5 && e.high.nextNonce == 6
    && e.low.isInitiator && !e.high.isInitiator && !e.low.established && e.high.established
    && e.low.ourTemp == e.high.herTemp != UNKNOWN && e.low.herTemp == e.high.ourTemp != UNKNOWN
    && e.low.window == RP.EMPTY
    && e.high.sharedSecret == GetSharedSecret(e.low.ourTemp, e.low.herTemp, None)
    && RP.Fits(e.high.window) && NothingFrom(e.high.window, 5)
  }

  lemma FirstArrives(lo: Config, hi: Config, e: Ends, leg: Leg, undefined: int)
    requires Keyed(e) && leg.body != [] && !TimedOut(lo, e.low, leg.sentAt)
    ensures HalfJoined(LowSends(lo, hi, e, leg, undefined))
  {
    var d := Send(lo, e.low, leg).1.packet;
    assert d == TrafficTo(e.high, lo.publicKey, 4, leg.body);
    TrafficCompletes(hi, e.high, lo.publicKey, 4, leg.body, leg.heardAt, undefined);
  }

  lemma ReplyArrives(lo: Config, hi: Config, e: Ends, leg: Leg, undefined: int)
    requires HalfJoined(e) && leg.body != [] && !TimedOut(hi, e.high, leg.sentAt)
    ensures InTouch(HighSends(lo, hi, e, leg, undefined))
  {
    var r := Send(hi, e.high, leg).1.packet;
    assert r == TrafficTo(e.low, hi.publicKey, 6, leg.body);
    TrafficCompletes(lo, e.low, hi.publicKey, 6, leg.body, leg.heardAt, undefined);
  }

  // ---- When a session times out on the way ----

  lemma SendEstablishesNothing(cfg: Config, s: State, leg: Leg)
    ensures Send(cfg, s, leg).0.established ==> s.established && !TimedOut(cfg, s, leg.sentAt)
  {
  }

  /** A handshake packet establishes nothing. */
  lemma HandshakeEstablishesNothing(cfg: Config, s: State, now: nat, p: Packet, undefined: int)
    requires p.nonce < NONCE_FIRST_TRAFFIC_PACKET && !s.established
    ensures !Decrypt(cfg, s, now, p, undefined).0.established
  {
  }

  /** A session that times out before it has traffic to send begins again with a hello. */
  lemma LateSendIsHello(cfg: Config, s: State, leg: Leg)
    requires TimedOut(cfg, s, leg.sentAt) && cfg.herPublicKey != UNKNOWN
    ensures var (s', r) := Send(cfg, s, leg);
            r.Sent? && r.packet.nonce == NONCE_HELLO && s'.nextNonce == SENT_HELLO && s'.ourTemp == leg.draw.tempKey
  {
  }

  /** The answering end is too late: it sends a hello, and whoever yields then, no traffic follows yet. */
  lemma LateKey(lo: Config, hi: Config, e: Ends, key: Leg, first: Leg, undefined: int)
    requires Mirrored(lo, hi) && Yielded(lo, e) && key.draw.tempKey != UNKNOWN
    requires TimedOut(hi, e.high, key.sentAt)
    ensures !LowSends(lo, hi, HighSends(lo, hi, e, key, undefined), first, undefined).high.established
  {
    var (h, r) := Send(hi, e.high, key);
    RestartedHello(lo, hi, e.high, key);
    HelloReceived(lo, e.low, r.packet, h.ourTemp, key.heardAt, undefined);
    var l := Deliver(lo, e.low, key.heardAt, r, undefined);
    assert Waiting(l) || Responding(l, h.ourTemp);
    SendsHandshake(lo, l, h.ourTemp, first);
    var d := Send(lo, l, first).1;
    HandshakeEstablishesNothing(hi, h, first.heardAt, d.packet, undefined);
  }

  lemma SendsHandshake(cfg: Config, s: State, temp: Key, leg: Leg)
    requires cfg.herPublicKey != UNKNOWN && temp != UNKNOWN && (Waiting(s) || Responding(s, temp))
    ensures var r := Send(cfg, s, leg).1; r.Sent? && r.packet.nonce < NONCE_FIRST_TRAFFIC_PACKET
  {
  }

  lemma RestartedHello(lo: Config, hi: Config, h: State, leg: Leg)
    requires Mirrored(lo, hi) && TimedOut(hi, h, leg.sentAt) && Knows(lo, h) && leg.draw.tempKey != UNKNOWN
    ensures var (h', r) := Send(hi, h, leg);
            Waiting(h') && r.Sent? && IsHello(lo, r.packet, h'.ourTemp)
  {
    KnowsAnyDraw(lo, h, leg.draw);
  }

  /** The initiator waited too long: it takes the key packet and throws it away with its next send. */
  lemma LateFirst(lo: Config, hi: Config, e: Ends, first: Leg, undefined: int)
    requires Mirrored(lo, hi) && Keyed(e) && TimedOut(lo, e.low, first.sentAt)
    ensures !LowSends(lo, hi, e, first, undefined).high.established
  {
    LateSendIsHello(lo, e.low, first);
    var d := Send(lo, e.low, first).1;
    HandshakeEstablishesNothing(hi, e.high, first.heardAt, d.packet, undefined);
  }

  /**
   * From two hellos to one session.  Whoever has the lower permanent key stays initiator and the other
   * yields; the key packet and one traffic packet each way then join the two if and only if none of the
   * three sends finds its session timed out.  Handshake packets do not count as signs of life.
   */
  lemma CrossingHellosComplete(lo: Config, hi: Config, e: Ends, x: Script, undefined: int)
    requires Playable(lo, hi, e, x)
    ensures var e1 := Crossed(lo, hi, e, x, undefined);
            var e2 := HighSends(lo, hi, e1, x.key, undefined);
            var e3 := LowSends(lo, hi, e2, x.first, undefined);
            var e4 := HighSends(lo, hi, e3, x.reply, undefined);
            && Yielded(lo, e1)
            && (Joined(e4) ==> InTouch(e4))
            && (Joined(e4) <==>
                  && !TimedOut(hi, e1.high, x.key.sentAt)
                  && !TimedOut(lo, e2.low, x.first.sentAt)
                  && !TimedOut(hi, e3.high, x.reply.sentAt))
  {
    HellosCross(lo, hi, e, x, undefined);
    FromYielded(lo, hi, Crossed(lo, hi, e, x, undefined), x.key, x.first, x.reply, undefined);
  }

  lemma FromYielded(lo: Config, hi: Config, e1: Ends, key: Leg, first: Leg, reply: Leg, undefined: int)
    requires Mirrored(lo, hi) && Yielded(lo, e1) && key.draw.tempKey != UNKNOWN && first.body != [] && reply.body != []
    ensures var e2 := HighSends(lo, hi, e1, key, undefined);
            var e3 := LowSends(lo, hi, e2, first, undefined);
            var e4 := HighSends(lo, hi, e3, reply, undefined);
            && (Joined(e4) ==> InTouch(e4))
            && (Joined(e4) <==>
                  && !TimedOut(hi, e1.high, key.sentAt)
                  && !TimedOut(lo, e2.low, first.sentAt)
                  && !TimedOut(hi, e3.high, reply.sentAt))
  {
    hide Encrypt, Decrypt, TimedOut, Yielded, Keyed, HalfJoined;
    var e2 := HighSends(lo, hi, e1, key, undefined);
    var e3 := LowSends(lo, hi, e2, first, undefined);
    SendEstablishesNothing(hi, e3.high, reply);
    if TimedOut(hi, e1.high, key.sentAt) {
      LateKey(lo, hi, e1, key, first, undefined);
    } else {
      KeyArrives(lo, hi, e1, key, undefined);
      if TimedOut(lo, e2.low, first.sentAt) {
        LateFirst(lo, hi, e2, first, undefined);
      } else {
        FirstArrives(lo, hi, e2, first, undefined);
        if !TimedOut(hi, e3.high, reply.sentAt) { ReplyArrives(lo, hi, e3, reply, undefined); }
      }
    }
  }

  function At(time: nat, tempKey: Key): Leg {
    Leg(time, Draw(tempKey, 0, 0), [7], time)
  }

  const LOW := Config(1, 2, false, map[], 60, 10)
  const HIGH := Config(2, 1, false, map[], 60, 10)
  const LATE := Script(At(1, 11), At(1, 12), At(9, 13), At(10, 14), At(10, 15))

  /**
   * Two new sessions, made at time 0, whose hellos cross at time 1; the key packet leaves and arrives at
   * time 9, and at time 10 the initiator, which resets after ten quiet seconds, answers with a new hello.
   */
  lemma LateKeyWitness()
    ensures var e := Ends(NewSession(0), NewSession(0));
            var e2 := HighSends(LOW, HIGH, Crossed(LOW, HIGH, e, LATE, 0), LATE.key, 0);
            var d := Send(LOW, e2.low, LATE.first).1;
            && Playable(LOW, HIGH, e, LATE) && Keyed(e2)
            && d.Sent? && d.packet.nonce == NONCE_HELLO
            && !Joined(HighSends(LOW, HIGH, LowSends(LOW, HIGH, e2, LATE.first, 0), LATE.reply, 0))
  {
    hide Decrypt, Encrypt;
    var e := Ends(NewSession(0), NewSession(0));
    CrossingHellosComplete(LOW, HIGH, e, LATE, 0);
    var e1 := Crossed(LOW, HIGH, e, LATE, 0);
    HelloClock(LOW, e.low, LATE.lowHello);
    HelloClock(HIGH, e.high, LATE.highHello);
    CrossingClock(LOW, HIGH, e, LATE, 0);
    KeyArrives(LOW, HIGH, e1, LATE.key, 0);
    LateSendIsHello(LOW, HighSends(LOW, HIGH, e1, LATE.key, 0).low, LATE.first);
  }

  lemma HelloClock(cfg: Config, s: State, leg: Leg)
    requires Opening(s) && !TimedOut(cfg, s, leg.sentAt)
    ensures Send(cfg, s, leg).0.timeOfLastPacket == s.timeOfLastPacket
  {
  }

  /** Hearing a hello does not move the clock of either end. */
  lemma CrossingClock(lo: Config, hi: Config, e: Ends, x: Script, undefined: int)
    requires Playable(lo, hi, e, x)
    ensures var e1 := Crossed(lo, hi, e, x, undefined);
            && e1.low.timeOfLastPacket == Send(lo, e.low, x.lowHello).0.timeOfLastPacket
            && e1.high.timeOfLastPacket == Send(hi, e.high, x.highHello).0.timeOfLastPacket
  {
    HelloSent(lo, hi, e.low, x.lowHello.sentAt, x.lowHello.draw, x.lowHello.body);
    HelloSent(hi, lo, e.high, x.highHello.sentAt, x.highHello.draw, x.highHello.body);
    var (l, fromLow) := Send(lo, e.low, x.lowHello);
    var (h, fromHigh) := Send(hi, e.high, x.highHello);
    HelloReceived(lo, l, fromHigh.packet, h.ourTemp, x.highHello.heardAt, undefined);
    HelloReceived(hi, h, fromLow.packet, l.ourTemp, x.lowHello.heardAt, undefined);
  }
}
