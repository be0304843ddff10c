/**
 * What the sessions are for: handshakes that complete from any state and through any losses, and traffic
 * that arrives.
 */
module Conversation {
  import opened Prelude
  import opened CryptoAuth
  import opened CrossingHellos
  import RP = ReplayProtector

  // ---- One traffic packet ----

  /** The packet opens for s: it is sealed under the secret of s, with its counter in the peer's nonce word. */
  predicate OpensFor(s: State, p: Packet) {
    p.box.secret == s.sharedSecret && p.box.nonce == CounterNonce(p.nonce, !s.isInitiator)
  }

  /**
   * An established session delivers a traffic packet if and only if it opens and the window has not
   * covered its counter.  Then the clock is set and the counter covered; a refusal leaves all but the
   * window alone, and a packet that does not open leaves that alone too.
   */
  lemma TrafficAcceptedExactly(cfg: Config, s: State, now: nat, p: Packet, undefined: int)
    requires s.established && RP.Fits(s.window) && s.sharedSecret != NoSecret
    requires p.length >= TRAFFIC_OVERHEAD && NONCE_FIRST_TRAFFIC_PACKET <= p.nonce < TWO_32
    ensures var (s', v) := Decrypt(cfg, s, now, p, undefined);
            && (v == Accepted(p.box.plain.body, true) <==> OpensFor(s, p) && !RP.Covered(s.window, p.nonce))
            && (v.Accepted? ==>
                  s' == s.(window := s'.window, timeOfLastPacket := now % TWO_32) && RP.Covered(s'.window, p.nonce))
            && (!v.Accepted? && OpensFor(s, p) ==> v == Rejected(Replay) && s' == s.(window := s'.window))
            && (!OpensFor(s, p) ==> v == Rejected(DecryptFailed) && s' == s)
            && RP.Fits(s'.window) && forall n: nat :: RP.Covered(s.window, n) ==> RP.Covered(s'.window, n)
  {
    hide RP.Check, RP.Covered, RP.Fits;
    RP.CheckCovers(s.window, p.nonce, undefined);
  }

  // ---- Silence ----

  /** The clock is 64 bits wide. */
  lemma ElapsedIsDifference(now: nat, last: nat)
    requires now < TWO_64 && last < TWO_64
    ensures Elapsed(now, last) < TWO_64 && (last + Elapsed(now, last)) % TWO_64 == now
  {
  }

  /** How long a session may be silent: an established one up to the larger of its two limits. */
  function Patience(cfg: Config, s: State): nat {
    if s.established && cfg.resetAfterInactivity > cfg.setupResetAfterInactivity
    then cfg.resetAfterInactivity else cfg.setupResetAfterInactivity
  }

  lemma TimesOutExactly(cfg: Config, s: State, now: nat)
    ensures TimedOut(cfg, s, now) <==>
              s.nextNonce != SENT_HELLO && Elapsed(now, s.timeOfLastPacket) >= Patience(cfg, s)
  {
  }

  /**
   * A session that has just delivered a packet goes on with its counter if it speaks within its
   * patience, and starts over with a hello if it speaks later.
   */
  lemma SilenceRestarts(
    cfg: Config, s: State, now: nat, p: Packet, undefined: int, later: nat, draw: Draw, body: seq<Byte>)
    requires s.established && RP.Fits(s.window) && s.sharedSecret != NoSecret && cfg.herPublicKey != UNKNOWN
    requires RECEIVED_KEY < s.nextNonce < NONCE_LIMIT && body != []
    requires p.length >= TRAFFIC_OVERHEAD && NONCE_FIRST_TRAFFIC_PACKET <= p.nonce < TWO_32
    requires Decrypt(cfg, s, now, p, undefined).1.Accepted? && now < TWO_32 && now <= later
    ensures var s1 := Decrypt(cfg, s, now, p, undefined).0;
            var (s2, r) := Encrypt(cfg, s1, later, draw, body);
            && r.Sent?
            && (later - now < Patience(cfg, s) ==>
                  r.packet == TrafficFrom(cfg, s, body) && s2 == s1.(nextNonce := s.nextNonce + 1))
            && (later - now >= Patience(cfg, s) ==>
                  && r.packet.nonce == NONCE_HELLO && r.packet.box.plain == Plain(draw.tempKey, body)
                  && !s2.established && s2.nextNonce == SENT_HELLO && s2.timeOfLastPacket == later % TWO_32)
  {
    TrafficAcceptedExactly(cfg, s, now, p, undefined);
    hide Decrypt, Encrypt, RP.Covered, RP.Fits;
    SpeaksLater(cfg, Decrypt(cfg, s, now, p, undefined).0, now, later, draw, body);
  }

  lemma SpeaksLater(cfg: Config, s: State, now: nat, later: nat, draw: Draw, body: seq<Byte>)
    requires s.established && s.timeOfLastPacket == now <= later && cfg.herPublicKey != UNKNOWN
    requires RECEIVED_KEY < s.nextNonce < NONCE_LIMIT && body != []
    ensures var (s', r) := Encrypt(cfg, s, later, draw, body);
            && r.Sent?
            && (later - now < Patience(cfg, s) ==>
                  r.packet == TrafficFrom(cfg, s, body) && s' == s.(nextNonce := s.nextNonce + 1))
            && (later - now >= Patience(cfg, s) ==>
                  && r.packet.nonce == NONCE_HELLO && r.packet.box.plain == Plain(draw.tempKey, body)
                  && !s'.established && s'.nextNonce == SENT_HELLO && s'.timeOfLastPacket == later % TWO_32)
  {
    hide Encrypt, TimedOut;
    TimesOutExactly(cfg, s, later);
    if later - now < Patience(cfg, s) {
      SpeakerSends(cfg, s, Leg(later, draw, body, later));
    } else {
      LateSend(cfg, s, later, draw, body);
    }
  }

  lemma LateSend(cfg: Config, s: State, now: nat, draw: Draw, body: seq<Byte>)
    requires TimedOut(cfg, s, now) && cfg.herPublicKey != UNKNOWN
    ensures var (s', r) := Encrypt(cfg, s, now, draw, body);
            && r.Sent? && r.packet.nonce == NONCE_HELLO && r.packet.box.plain == Plain(draw.tempKey, body)
            && !s'.established && s'.nextNonce == SENT_HELLO && s'.timeOfLastPacket == now % TWO_32
  {
  }

  /** The traffic packet s sends next. */
  function TrafficFrom(cfg: Config, s: State, body: seq<Byte>): Packet {
    var nonce24 := CounterNonce(s.nextNonce, s.isInitiator);
    Packet(s.nextNonce, TRAFFIC_OVERHEAD + |body|, cfg.publicKey, Challenge(0, 0), nonce24,
           Box(s.sharedSecret, nonce24, Plain(UNKNOWN, body)))
  }

  // ---- Talking ----

  /** One end says something, and the packet may be lost. */
  datatype Turn = Turn(byLow: bool, leg: Leg, lost: bool)

  function Speaker(e: Ends, turn: Turn): State {
    if turn.byLow then e.low else e.high
  }

  function Listener(e: Ends, turn: Turn): State {
    if turn.byLow then e.high else e.low
  }

  function After(e: Ends, turn: Turn, speaker: State, listener: State): Ends {
    if turn.byLow then Ends(speaker, listener) else Ends(listener, speaker)
  }

  function SpeakerConfig(lo: Config, hi: Config, turn: Turn): Config {
    if turn.byLow then lo else hi
  }

  function ListenerConfig(lo: Config, hi: Config, turn: Turn): Config {
    if turn.byLow then hi else lo
  }

  /** One turn: what becomes of the two ends, and what the listener delivers. */
  function Play(lo: Config, hi: Config, e: Ends, turn: Turn, undefined: int): (Ends, seq<seq<Byte>>) {
    var (s, r) := Send(SpeakerConfig(lo, hi, turn), Speaker(e, turn), turn.leg);
    if r.SendAborted? || turn.lost then (After(e, turn, s, Listener(e, turn)), [])
    else
      var (l, v) := Decrypt(ListenerConfig(lo, hi, turn), Listener(e, turn), turn.leg.heardAt, r.packet, undefined);
      (After(e, turn, s, l), if v.Accepted? && v.traffic then [v.body] else [])
  }

  function Talk(lo: Config, hi: Config, e: Ends, turns: seq<Turn>, undefined: int): (Ends, seq<seq<Byte>>)
    decreases |turns|
  {
    if turns == [] then (e, [])
    else
      var (e1, heard) := Play(lo, hi, e, turns[0], undefined);
      var (e2, more) := Talk(lo, hi, e1, turns[1..], undefined);
      (e2, heard + more)
  }

  /** Each speaker has something to say, is within its patience and has counters left. */
  predicate Timely(lo: Config, hi: Config, e: Ends, turns: seq<Turn>, undefined: int)
    decreases |turns|
  {
    turns != [] ==>
    var s := Speaker(e, turns[0]);
    && turns[0].leg.body != [] && s.nextNonce < NONCE_LIMIT
    && !TimedOut(SpeakerConfig(lo, hi, turns[0]), s, turns[0].leg.sentAt)
    && Timely(lo, hi, Play(lo, hi, e, turns[0], undefined).0, turns[1..], undefined)
  }

  function Said(turns: seq<Turn>): seq<seq<Byte>> {
    if turns == [] then [] else (if turns[0].lost then [] else [turns[0].leg.body]) + Said(turns[1..])
  }

  /** A sender and a receiver of one session; the receiver has heard no counter the sender has yet to use. */
  ghost predicate Heard(s: State, l: State) {
    && s.established && l.established && l.isInitiator == !s.isInitiator
    && s.sharedSecret == l.sharedSecret != NoSecret
    && 6 <= s.nextNonce < TWO_32 && RP.Fits(l.window) && NothingFrom(l.window, s.nextNonce)
  }

  lemma StaysClear(w: RP.Window, n: nat, undefined: int)
    requires RP.Fits(w) && n < TWO_32 && NothingFrom(w, n)
    ensures NothingFrom(RP.Check(w, n, undefined).0, n + 1)
  {
    assert !RP.Covered(w, n);
    forall m | m >= n + 1 ensures !RP.Covered(RP.Check(w, n, undefined).0, m) {
      RP.CheckLeavesAhead(w, n, m, undefined);
    }
  }

  /** What goes out carries the next counter and the body, and nothing else of the sender changes. */
  lemma SpeakerSends(cfg: Config, s: State, leg: Leg)
    requires RECEIVED_KEY < s.nextNonce < NONCE_LIMIT && leg.body != [] && !TimedOut(cfg, s, leg.sentAt)
    ensures Send(cfg, s, leg) == (s.(nextNonce := s.nextNonce + 1), Sent(TrafficFrom(cfg, s, leg.body)))
  {
  }

  lemma ListenerHears(cfg: Config, peer: Config, s: State, l: State, leg: Leg, undefined: int)
    requires Heard(s, l) && s.nextNonce < NONCE_LIMIT
    ensures var (l', v) := Decrypt(cfg, l, leg.heardAt, TrafficFrom(peer, s, leg.body), undefined);
            && v == Accepted(leg.body, true)
            && l' == l.(window := l'.window, timeOfLastPacket := leg.heardAt % TWO_32)
            && RP.Fits(l'.window) && NothingFrom(l'.window, s.nextNonce + 1)
  {
    var p := TrafficFrom(peer, s, leg.body);
    TrafficAcceptedExactly(cfg, l, leg.heardAt, p, undefined);
    StaysClear(l.window, p.nonce, undefined);
  }

  lemma TurnArrives(lo: Config, hi: Config, e: Ends, turn: Turn, undefined: int)
    requires InTouch(e) && turn.leg.body != [] && Speaker(e, turn).nextNonce < NONCE_LIMIT
    requires !TimedOut(SpeakerConfig(lo, hi, turn), Speaker(e, turn), turn.leg.sentAt)
    ensures var (e', heard) := Play(lo, hi, e, turn, undefined);
            InTouch(e') && heard == if turn.lost then [] else [turn.leg.body]
  {
    hide Decrypt, Encrypt, RP.Fits, RP.Covered, TimedOut;
    var s, l := Speaker(e, turn), Listener(e, turn);
    SpeakerSends(SpeakerConfig(lo, hi, turn), s, turn.leg);
    if !turn.lost {
      ListenerHears(ListenerConfig(lo, hi, turn), SpeakerConfig(lo, hi, turn), s, l, turn.leg, undefined);
    }
  }

  /**
   * Two ends in touch deliver everything that is said and not lost, in order and unchanged, whoever
   * speaks when, and stay in touch.
   */
  lemma {:induction false} WhatIsSaidArrives(lo: Config, hi: Config, e: Ends, turns: seq<Turn>, undefined: int)
    requires InTouch(e) && Timely(lo, hi, e, turns, undefined)
    ensures var (e', heard) := Talk(lo, hi, e, turns, undefined); InTouch(e') && heard == Said(turns)
    decreases |turns|
  {
    if turns != [] {
      hide InTouch, TimedOut, Play;
      TurnArrives(lo, hi, e, turns[0], undefined);
      WhatIsSaidArrives(lo, hi, Play(lo, hi, e, turns[0], undefined).0, turns[1..], undefined);
    }
  }

  // ---- A handshake from any state ----

  /** A session that is not itself waiting for an answer to its hellos. */
  predicate Listening(s: State) {
    && s.nextNonce != SENT_HELLO
    && (s.nextNonce < RECEIVED_HELLO <==> s.herTemp == UNKNOWN)
    && (s.nextNonce == INIT ==> Reset(s) == s)
  }

  /** A packet of a handshake that the peer of `cfg` sealed with this password over this temp key. */
  predicate HelloFrom(cfg: Config, p: Packet, temp: Key, password: Option<nat>) {
    && p.nonce <= NONCE_REPEAT_HELLO && p.length >= HEADER_SIZE && p.publicKey == cfg.herPublicKey
    && p.box.secret == GetSharedSecret(cfg.publicKey, cfg.herPublicKey, password)
    && p.box.nonce == p.shakeNonce && p.box.plain.tempKey == temp
  }

  /**
   * Whatever state it is in, established or not, a listening session takes a hello with a temp key it
   * does not know if and only if its user table has the password; it then forgets the old session.
   */
  lemma HelloTakenExactly(cfg: Config, s: State, p: Packet, temp: Key, password: Option<nat>, now: nat, undefined: int)
    requires cfg.herPublicKey != UNKNOWN && Listening(s) && temp != UNKNOWN && temp != s.herTemp
    requires HelloFrom(cfg, p, temp, password)
    ensures var (s', v) := Decrypt(cfg, s, now, p, undefined);
            && (AuthFits(cfg, p.auth, password) ==>
                  v == Accepted(p.box.plain.body, false) && s' == Reset(s).(herTemp := temp, nextNonce := RECEIVED_HELLO))
            && (!AuthFits(cfg, p.auth, password) ==> v == Rejected(AuthError(cfg, p.auth)) && s' == s)
  {
    SecretHasPassword(cfg.publicKey, cfg.herPublicKey, password);
    var user := GetAuth(cfg, p.auth);
    var found := if user.Some? then Some(user.value.secret) else None;
    SecretHasPassword(cfg.publicKey, cfg.herPublicKey, found);
  }

  /** Why a hello with the wrong password or challenge is refused. */
  function AuthError(cfg: Config, auth: Challenge): DecryptErr {
    if 1 <= auth.kind <= 2 && auth in cfg.users
    then if cfg.users[auth].allowed then HandshakeDecryptFailed else IpRestricted
    else if cfg.requireAuth then AuthRequired
    else if auth.kind != 0 then UnrecognizedAuth
    else HandshakeDecryptFailed
  }

  lemma SecretHasPassword(a: Key, b: Key, password: Option<nat>)
    ensures GetSharedSecret(a, b, password).Shared? && GetSharedSecret(a, b, password).password == password
  {
  }

  /** A hello heard again leaves a session that has answered it as it is. */
  lemma HelloRepeats(cfg: Config, s: State, p: Packet, temp: Key, now: nat, undefined: int)
    requires cfg.herPublicKey != UNKNOWN && temp != UNKNOWN
    requires (Responding(s, temp) || Resending(s, temp)) && IsHello(cfg, p, temp) && p.nonce == NONCE_REPEAT_HELLO
    ensures Decrypt(cfg, s, now, p, undefined) == (s, Accepted(p.box.plain.body, false))
  {
  }

  /** A session that has answered a hello carrying `temp`. */
  predicate Resending(s: State, temp: Key) {
    && s.nextNonce == SENT_KEY
    && !s.isInitiator && !s.established
    && s.ourTemp != UNKNOWN && s.herTemp == temp
    && s.window == RP.EMPTY
  }

  /** The first end waits; the other has heard its hello and may have answered. */
  predicate Answering(lo: Config, e: Ends) {
    && Waiting(e.low) && Knows(lo, e.high)
    && (Responding(e.high, e.low.ourTemp) || Resending(e.high, e.low.ourTemp))
  }

  /** An end that starts over, and a peer in any state that does not know the new temp key. */
  predicate Greetable(lo: Config, hi: Config, e: Ends, hello: Leg) {
    && Mirrored(lo, hi) && Opening(e.low) && Knows(hi, e.low)
    && Listening(e.high) && Knows(lo, e.high)
    && hello.draw.tempKey != UNKNOWN && e.high.herTemp != Send(lo, e.low, hello).0.ourTemp
  }

  lemma HelloGreets(lo: Config, hi: Config, e: Ends, hello: Leg, undefined: int)
    requires Greetable(lo, hi, e, hello)
    ensures Yielded(lo, LowSends(lo, hi, e, hello, undefined))
  {
    HelloSent(lo, hi, e.low, hello.sentAt, hello.draw, hello.body);
    hide Encrypt, Decrypt;
    var (l, r) := Send(lo, e.low, hello);
    HelloTakenExactly(hi, e.high, r.packet, l.ourTemp, r.packet.box.secret.password, hello.heardAt, undefined);
  }

  /**
   * A handshake from any state of the answering end, established on an older session or not: the two are
   * in touch after the key packet and one traffic packet each way if and only if none of these three
   * sends finds its session timed out.
   */
  lemma HandshakeCompletes(
    lo: Config, hi: Config, e: Ends, hello: Leg, key: Leg, first: Leg, reply: Leg, undefined: int)
    requires Greetable(lo, hi, e, hello) && key.draw.tempKey != UNKNOWN && first.body != [] && reply.body != []
    ensures var e1 := LowSends(lo, hi, e, hello, undefined);
            var e2 := HighSends(lo, hi, e1, key, undefined);
            var e3 := LowSends(lo, hi, e2, first, undefined);
            var e4 := HighSends(lo, hi, e3, reply, undefined);
            && Yielded(lo, e1)
            && (Joined(e4) ==> InTouch(e4))
            && (Joined(e4) <==>
                  && !TimedOut(hi, e1.high, key.sentAt)
                  && !TimedOut(lo, e2.low, first.sentAt)
                  && !TimedOut(hi, e3.high, reply.sentAt))
  {
    HelloGreets(lo, hi, e, hello, undefined);
    FromYielded(lo, hi, LowSends(lo, hi, e, hello, undefined), key, first, reply, undefined);
  }

  // ---- Losses in the handshake ----

  /** No key packet gets through yet, and the answering end is in time. */
  predicate Losing(lo: Config, hi: Config, e: Ends, turns: seq<Turn>, undefined: int)
    decreases |turns|
  {
    turns != [] ==>
    && (!turns[0].byLow ==>
          turns[0].lost && turns[0].leg.draw.tempKey != UNKNOWN && !TimedOut(hi, e.high, turns[0].leg.sentAt))
    && Losing(lo, hi, Play(lo, hi, e, turns[0], undefined).0, turns[1..], undefined)
  }

  lemma WaitingSends(cfg: Config, peer: Config, s: State, leg: Leg)
    requires Mirrored(cfg, peer) && Waiting(s) && Knows(peer, s)
    ensures var (s', r) := Send(cfg, s, leg);
            && s' == s && r.Sent? && r.packet.nonce == NONCE_REPEAT_HELLO && IsHello(peer, r.packet, s.ourTemp)
  {
    KnowsAnyDraw(peer, s, leg.draw);
  }

  /** The key packet, first or repeated, is the same but for its random parts. */
  lemma AnswerSent(cfg: Config, h: State, temp: Key, leg: Leg)
    requires (Responding(h, temp) || Resending(h, temp)) && temp != UNKNOWN && cfg.herPublicKey != UNKNOWN
    requires leg.draw.tempKey != UNKNOWN && !TimedOut(cfg, h, leg.sentAt)
    ensures var (h', r) := Send(cfg, h, leg);
            && Resending(h', temp) && h'.credentials == h.credentials && h'.authKind == h.authKind
            && (Resending(h, temp) ==> h' == h)
            && r.Sent? && NONCE_KEY <= r.packet.nonce <= NONCE_REPEAT_KEY && r.packet.length >= HEADER_SIZE
            && r.packet.publicKey == cfg.publicKey && r.packet.auth == AuthSent(h, leg.draw)
            && r.packet.box == Box(GetSharedSecret(cfg.publicKey, temp, PasswordOf(h)), r.packet.shakeNonce,
                                   Plain(h'.ourTemp, leg.body))
  {
  }

  lemma RetryKeeps(lo: Config, hi: Config, e: Ends, turn: Turn, undefined: int)
    requires Mirrored(lo, hi) && Answering(lo, e) && Knows(hi, e.low)
    requires !turn.byLow ==> turn.lost && turn.leg.draw.tempKey != UNKNOWN && !TimedOut(hi, e.high, turn.leg.sentAt)
    ensures var e' := Play(lo, hi, e, turn, undefined).0;
            Answering(lo, e') && e'.low == e.low
  {
    hide Encrypt, Decrypt, TimedOut;
    if turn.byLow {
      WaitingSends(lo, hi, e.low, turn.leg);
      if !turn.lost {
        var r := Send(lo, e.low, turn.leg).1;
        HelloRepeats(hi, e.high, r.packet, e.low.ourTemp, turn.leg.heardAt, undefined);
      }
    } else {
      AnswerSent(hi, e.high, e.low.ourTemp, turn.leg);
    }
  }

  lemma {:induction false} RetriesKeep(lo: Config, hi: Config, e: Ends, turns: seq<Turn>, undefined: int)
    requires Mirrored(lo, hi) && Answering(lo, e) && Knows(hi, e.low) && Losing(lo, hi, e, turns, undefined)
    ensures var e' := Talk(lo, hi, e, turns, undefined).0;
            Answering(lo, e') && e'.low == e.low
    decreases |turns|
  {
    if turns != [] {
      hide Answering, TimedOut, Play, Knows;
      RetryKeeps(lo, hi, e, turns[0], undefined);
      RetriesKeep(lo, hi, Play(lo, hi, e, turns[0], undefined).0, turns[1..], undefined);
    }
  }

  /** The key packet gets through, first or repeated. */
  lemma AnswerArrives(lo: Config, hi: Config, e: Ends, leg: Leg, undefined: int)
    requires Mirrored(lo, hi) && Answering(lo, e) && leg.draw.tempKey != UNKNOWN && !TimedOut(hi, e.high, leg.sentAt)
    ensures var e' := HighSends(lo, hi, e, leg, undefined);
            Keyed(e') && e'.low.timeOfLastPacket == e.low.timeOfLastPacket
  {
    AnswerSent(hi, e.high, e.low.ourTemp, leg);
    KnowsAnyDraw(lo, e.high, leg.draw);
    hide Encrypt, Decrypt, TimedOut;
    var (h, r) := Send(hi, e.high, leg);
    KeyReceived(lo, e.low, r.packet, h.ourTemp, PasswordOf(e.high), leg.heardAt, undefined);
  }

  /**
   * However often hellos are repeated and key packets lost, once a key packet gets through in time the
   * two agree on the temp keys; with the first traffic packet and its reply in time they are in touch.
   */
  lemma LossyHandshakeCompletes(
    lo: Config, hi: Config, e: Ends, turns: seq<Turn>, key: Leg, first: Leg, reply: Leg, undefined: int)
    requires Mirrored(lo, hi) && Answering(lo, e) && Knows(hi, e.low) && Losing(lo, hi, e, turns, undefined)
    requires key.draw.tempKey != UNKNOWN && first.body != [] && reply.body != []
    ensures var e1 := Talk(lo, hi, e, turns, undefined).0;
            var e2 := HighSends(lo, hi, e1, key, undefined);
            var e3 := LowSends(lo, hi, e2, first, undefined);
            && (!TimedOut(hi, e1.high, key.sentAt) ==> Keyed(e2))
            && (&& !TimedOut(hi, e1.high, key.sentAt)
                && !TimedOut(lo, e2.low, first.sentAt)
                && !TimedOut(hi, e3.high, reply.sentAt)
                ==> InTouch(HighSends(lo, hi, e3, reply, undefined)))
  {
    hide Encrypt, Decrypt, TimedOut;
    RetriesKeep(lo, hi, e, turns, undefined);
    var e1 := Talk(lo, hi, e, turns, undefined).0;
    if !TimedOut(hi, e1.high, key.sentAt) {
      AnswerArrives(lo, hi, e1, key, undefined);
      var e2 := HighSends(lo, hi, e1, key, undefined);
      if !TimedOut(lo, e2.low, first.sentAt) {
        FirstArrives(lo, hi, e2, first, undefined);
        var e3 := LowSends(lo, hi, e2, first, undefined);
        if !TimedOut(hi, e3.high, reply.sentAt) { ReplyArrives(lo, hi, e3, reply, undefined); }
      }
    }
  }

  // ---- Handshake packets in every state ----

  /** A packet with the header of somebody else, or too short, touches nothing. */
  lemma ForeignIsRefused(cfg: Config, s: State, p: Packet, now: nat, undefined: int)
    requires cfg.herPublicKey != UNKNOWN && p.nonce < NONCE_FIRST_TRAFFIC_PACKET
    ensures p.length < TRAFFIC_OVERHEAD ==> Decrypt(cfg, s, now, p, undefined) == (s, Rejected(Runt))
    ensures p.length >= TRAFFIC_OVERHEAD && s.established && p.nonce >= NONCE_KEY ==>
              Decrypt(cfg, s, now, p, undefined) == (s, Rejected(KeyPktEstablishedSession))
    ensures TRAFFIC_OVERHEAD <= p.length < HEADER_SIZE && !s.established ==>
              Decrypt(cfg, s, now, p, undefined) == (s, Rejected(Runt))
    ensures p.length >= HEADER_SIZE && p.publicKey != cfg.herPublicKey && (!s.established || p.nonce < NONCE_KEY) ==>
              Decrypt(cfg, s, now, p, undefined) == (s, Rejected(WrongPermPubkey))
  {
  }

  /** A hello whose temp key the session knows changes nothing; only a repeated one is answered, and only before traffic. */
  lemma KnownHelloChangesNothing(cfg: Config, s: State, p: Packet, password: Option<nat>, now: nat, undefined: int)
    requires cfg.herPublicKey != UNKNOWN && Listening(s) && s.herTemp != UNKNOWN
    requires HelloFrom(cfg, p, s.herTemp, password) && AuthFits(cfg, p.auth, password)
    ensures var (s', v) := Decrypt(cfg, s, now, p, undefined);
            && s' == s.(window := s'.window)
            && (if p.nonce == NONCE_REPEAT_HELLO && s.nextNonce <= SENT_KEY
                then v == Accepted(p.box.plain.body, false) && s'.window == RP.EMPTY
                else v == Rejected(InvalidPacket) && s' == s)
  {
    SecretHasPassword(cfg.publicKey, cfg.herPublicKey, password);
  }

  /** An initiator whose session is not established yet. */
  predicate Initiating(s: State) {
    && s.isInitiator && !s.established && s.ourTemp != UNKNOWN
    && (if s.nextNonce == SENT_HELLO then s.herTemp == UNKNOWN
        else RECEIVED_KEY <= s.nextNonce <= 0xffff_fffe && s.herTemp != UNKNOWN)
  }

  /** A key packet that the peer of `cfg` sealed for the temp key of s. */
  predicate KeyFrom(cfg: Config, s: State, p: Packet, temp: Key, password: Option<nat>) {
    && NONCE_KEY <= p.nonce <= NONCE_REPEAT_KEY && p.length >= HEADER_SIZE && p.publicKey == cfg.herPublicKey
    && p.box.secret == GetSharedSecret(s.ourTemp, cfg.herPublicKey, password)
    && p.box.nonce == p.shakeNonce && p.box.plain.tempKey == temp
  }

  /** What an initiator becomes that takes the temp key: it counts on if it has sent traffic already. */
  function WithKey(s: State, temp: Key): State {
    if s.nextNonce <= RECEIVED_KEY then s.(herTemp := temp, nextNonce := RECEIVED_KEY, window := RP.EMPTY)
    else
      var secret := if temp == s.herTemp then s.sharedSecret else GetSharedSecret(s.ourTemp, temp, None);
      s.(herTemp := temp, nextNonce := s.nextNonce + 1, sharedSecret := secret, window := RP.EMPTY)
  }

  /**
   * Until it is established an initiator follows its peer: it takes a first key packet with a new temp key
   * and a repeated one with the temp key it knows, whatever it has sent meanwhile, and no other.
   */
  lemma KeyTakenExactly(cfg: Config, s: State, p: Packet, temp: Key, password: Option<nat>, now: nat, undefined: int)
    requires cfg.herPublicKey != UNKNOWN && Initiating(s) && KeyFrom(cfg, s, p, temp, password)
    ensures var r := Decrypt(cfg, s, now, p, undefined);
            if !AuthFits(cfg, p.auth, password) then r.1.Rejected? && r.0 == s
            else if temp == UNKNOWN then r == (s, Rejected(WiseGuy))
            else if s.nextNonce == SENT_HELLO || (p.nonce == NONCE_KEY <==> temp != s.herTemp)
            then r == (WithKey(s, temp), Accepted(p.box.plain.body, false))
            else r == (s, Rejected(InvalidPacket))
  {
    SecretHasPassword(s.ourTemp, cfg.herPublicKey, password);
    var user := GetAuth(cfg, p.auth);
    SecretHasPassword(s.ourTemp, cfg.herPublicKey, if user.Some? then Some(user.value.secret) else None);
  }

  /** Nobody else has a use for key packets. */
  lemma StrayKeyRefused(cfg: Config, s: State, p: Packet, now: nat, undefined: int)
    requires cfg.herPublicKey != UNKNOWN && !s.isInitiator && !s.established
    requires s.nextNonce < RECEIVED_HELLO <==> s.herTemp == UNKNOWN
    requires NONCE_KEY <= p.nonce <= NONCE_REPEAT_KEY
    ensures Decrypt(cfg, s, now, p, undefined).0 == s && Decrypt(cfg, s, now, p, undefined).1.Rejected?
  {
  }

  // ---- The last handshake step ----

  /** The packet opens under the temp keys of s. */
  predicate CompletesFor(s: State, p: Packet) {
    p.box.secret == GetSharedSecret(s.ourTemp, s.herTemp, None) && p.box.nonce == CounterNonce(p.nonce, !s.isInitiator)
  }

  /**
   * The first traffic packet to open establishes the session if and only if its counter is not below the
   * base of the window.  Every packet that is tried, whether it opens or not, moves the base past its counter.
   */
  lemma FinalStepExactly(cfg: Config, s: State, now: nat, p: Packet, undefined: int)
    requires !s.established && SENT_KEY <= s.nextNonce <= 0xffff_fffc && s.ourTemp != UNKNOWN && s.herTemp != UNKNOWN
    requires RP.Fits(s.window) && s.window.bitfield == 0
    requires p.length >= TRAFFIC_OVERHEAD && NONCE_FIRST_TRAFFIC_PACKET <= p.nonce < TWO_32
    ensures var (s', v) := Decrypt(cfg, s, now, p, undefined);
            && s'.window.baseOffset == (p.nonce + 1) % TWO_32 && s'.window.bitfield == 0 && RP.Fits(s'.window)
            && if CompletesFor(s, p) && p.nonce >= s.window.baseOffset
               then
                 && v == Accepted(p.box.plain.body, true)
                 && s' == s.(window := s'.window, established := true, nextNonce := s.nextNonce + 3,
                             sharedSecret := GetSharedSecret(s.ourTemp, s.herTemp, None),
                             timeOfLastPacket := now % TWO_32)
               else
                 && v == Rejected(if CompletesFor(s, p) then Replay else DecryptFailed)
                 && s' == s.(window := s'.window)
  {
    hide RP.Check;
    ClearWindowTakes(s.window, p.nonce, undefined);
    ClearAbove(RP.Check(s.window, p.nonce, undefined).0, (p.nonce + 1) % TWO_32);
    ClearAbove(s.window, (p.nonce + 1) % TWO_32);
  }

  lemma ClearWindowTakes(w: RP.Window, n: nat, undefined: int)
    requires RP.Fits(w) && w.bitfield == 0 && n < TWO_32
    ensures RP.Fits(RP.Check(w, n, undefined).0) && (RP.Check(w, n, undefined).1 <==> n >= w.baseOffset)
  {
    RP.CheckCovers(w, n, undefined);
    ClearAbove(w, w.baseOffset);
    assert w.(baseOffset := w.baseOffset, bitfield := 0) == w;
    if n >= w.baseOffset { assert !RP.Covered(w, n); }
  }

  /** So a packet that does not open decides which of the peer's packets can still establish the session. */
  lemma StrayMovesTheBase(cfg: Config, s: State, now: nat, stray: Packet, later: nat, p: Packet, undefined: int)
    requires !s.established && SENT_KEY <= s.nextNonce <= 0xffff_fffc && s.ourTemp != UNKNOWN && s.herTemp != UNKNOWN
    requires RP.Fits(s.window) && s.window.bitfield == 0 && !CompletesFor(s, stray) && CompletesFor(s, p)
    requires stray.length >= TRAFFIC_OVERHEAD && NONCE_FIRST_TRAFFIC_PACKET <= stray.nonce < TWO_32 - 1
    requires p.length >= TRAFFIC_OVERHEAD && NONCE_FIRST_TRAFFIC_PACKET <= p.nonce < TWO_32
    ensures var s1 := Decrypt(cfg, s, now, stray, undefined).0;
            Decrypt(cfg, s1, later, p, undefined).1.Accepted? <==> p.nonce > stray.nonce
  {
    FinalStepExactly(cfg, s, now, stray, undefined);
    hide Decrypt, RP.Fits;
    FinalStepExactly(cfg, Decrypt(cfg, s, now, stray, undefined).0, later, p, undefined);
  }

  /** Before it has sent or heard a key packet a session takes no traffic. */
  lemma NoTrafficBeforeKeys(cfg: Config, s: State, now: nat, p: Packet, undefined: int)
    requires !s.established && s.nextNonce < SENT_KEY
    requires p.length >= TRAFFIC_OVERHEAD && p.nonce >= NONCE_FIRST_TRAFFIC_PACKET
    ensures Decrypt(cfg, s, now, p, undefined) == (s, Rejected(NoSession))
  {
  }

  // ---- Resets ----

  /** A reset leaves what a new session has, but for the credentials and the clock. */
  lemma ResetIsNew(s: State, now: nat)
    ensures Reset(s) == NewSession(now).(timeOfLastPacket := s.timeOfLastPacket, credentials := s.credentials,
                                         authKind := s.authKind)
  {
  }

  /** A session that has used up its counters starts over. */
  lemma LastCounterRestarts(cfg: Config, s: State, now: nat, draw: Draw, body: seq<Byte>)
    requires NONCE_LIMIT <= s.nextNonce && cfg.herPublicKey != UNKNOWN
    ensures var (s', r) := Encrypt(cfg, s, now, draw, body);
            && r.Sent? && r.packet.nonce == NONCE_HELLO && r.packet.box.plain == Plain(draw.tempKey, body)
            && !s'.established && s'.nextNonce == SENT_HELLO && s'.sharedSecret == NoSecret
  {
  }

  // ---- Credentials ----

  /**
   * New credentials: the session has the password it was given, forgets a session made under another
   * one, and goes on undisturbed under the same one.
   */
  lemma SetAuthTakes(s: State, c: Credentials, withLogin: bool)
    ensures var s' := SetAuth(s, Some(c), withLogin);
            && PasswordOf(s') == Some(c.passwordHash)
            && (PasswordOf(s) == Some(c.passwordHash) ==> s' == s)
            && (PasswordOf(s) != Some(c.passwordHash) ==>
                  && Opening(s') && s'.nextNonce == INIT && s'.credentials == Some(c)
                  && s'.authKind == c.challenge.kind && s'.timeOfLastPacket == s.timeOfLastPacket)
  {
  }

  /** Its next hello is taken by a listening peer if and only if that has the password under that challenge. */
  lemma NewPasswordOpens(
    cfg: Config, peer: Config, s: State, c: Credentials, withLogin: bool, h: State, leg: Leg, undefined: int)
    requires Mirrored(cfg, peer) && PasswordOf(s) != Some(c.passwordHash) && Listening(h)
    requires leg.draw.tempKey != UNKNOWN && leg.draw.tempKey != h.herTemp
    ensures var r := Send(cfg, SetAuth(s, Some(c), withLogin), leg).1;
            r.Sent? &&
            (Decrypt(peer, h, leg.heardAt, r.packet, undefined).1.Accepted? <==>
             AuthFits(peer, c.challenge, Some(c.passwordHash)))
  {
    SetAuthTakes(s, c, withLogin);
    var s1 := SetAuth(s, Some(c), withLogin);
    var r := Send(cfg, s1, leg).1;
    HelloTakenExactly(peer, h, r.packet, leg.draw.tempKey, Some(c.passwordHash), leg.heardAt, undefined);
  }

  /** Without credentials a session uses no password. */
  lemma ClearAuthTakes(s: State, withLogin: bool)
    ensures var s' := SetAuth(s, None, withLogin);
            && PasswordOf(s') == None && Opening(s') && s'.nextNonce == INIT
            && s'.authKind == if s.credentials.Some? || s.authKind != 0 then 0 else if withLogin then 2 else 1
  {
  }
}
