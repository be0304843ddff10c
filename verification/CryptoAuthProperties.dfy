/**
 * What holds of every run of two CryptoAuth sessions, and exactly when a receive can go wrong.
 */
module CryptoAuthProperties {
  import opened Prelude
  import opened CryptoAuth
  import opened TwoParty
  import RP = ReplayProtector
  import Bits

  /**
   * Agreement.  What an end has delivered from a traffic packet its peer was given to send, and it was
   * sealed under the same pair of temp keys, with the same counter and in the opposite role.
   */
  lemma TwoPartyAgreement(setup: Setup, start: World, events: seq<Event>, j: nat)
    requires GoodSetup(setup) && Start(start) && Runs(setup, start, events)
    requires j < |Outcome(setup, start, events).receipts|
    ensures var w := Outcome(setup, start, events);
            var r := w.receipts[j];
            exists i :: 0 <= i < |w.seals| && Matches(w.seals[i], r)
  {
    StartOk(setup, start);
    RunKeepsInv(setup, start, events);
    var w := Outcome(setup, start, events);
    assert Answered(w.seals, w.receipts[j]);
  }

  /** A handshake packet too delivers only what one of the two ends was given to send. */
  lemma HandshakeBodyWasSent(setup: Setup, start: World, events: seq<Event>, e: Event)
    requires GoodSetup(setup) && Start(start) && Runs(setup, start, events) && e.Receive?
    requires var w := Outcome(setup, start, events); Possible(setup, w, e) && Unwrapped(w, e)
    ensures var w := Outcome(setup, start, events);
            var v := Decrypt(setup.Of(e.side), w.Of(e.side), e.now, e.packet, e.undefined).1;
            v.Accepted? && !v.traffic ==> GivenToSend(w.seals, e.packet.box, v.body)
  {
    StartOk(setup, start);
    RunKeepsInv(setup, start, events);
    var w := Outcome(setup, start, events);
    hide DecryptHandshake, NoncesFresh, Agreement, AtMostOnce, CounterAhead, WindowCovers;
    var s, p := w.Of(e.side), e.packet;
    var v := Decrypt(setup.Of(e.side), s, e.now, p, e.undefined).1;
    if v.Accepted? && !v.traffic {
      HandshakeBodySealed(setup, w, e.side, p, DecryptHandshake(setup.Of(e.side), s, p));
    }
  }

  /** Some handshake packet was sealed as this box, by an end that was given this body. */
  ghost predicate GivenToSend(seals: seq<Seal>, box: Box, body: seq<Byte>) {
    exists i :: 0 <= i < |seals| && seals[i].box == box && seals[i].body == body && seals[i].kind != Traffic
  }

  lemma HandshakeBodySealed(setup: Setup, w: World, side: Side, p: Packet, r: (State, Verdict))
    requires GoodSetup(setup) && Inv(setup, w) && Arrives(setup, w, p)
    requires r == DecryptHandshake(setup.Of(side), w.Of(side), p) && r.1.Accepted? && p.nonce <= NONCE_REPEAT_KEY
    ensures GivenToSend(w.seals, p.box, r.1.body)
  {
    var s := w.Of(side);
    assert EndOk(w, side);
    assert (s.nextNonce < RECEIVED_HELLO) == (s.herTemp == UNKNOWN);
    var password := HandshakeOpens(setup.Of(side), s, p, r);
    hide DecryptHandshake, NoncesFresh, Agreement, AtMostOnce, CounterAhead, WindowCovers, AfterOpen;
    assert r.1.body == p.box.plain.body;
    SealedAsHandshake(setup, w, side, p, password);
  }

  lemma SealedAsHandshake(setup: Setup, w: World, side: Side, p: Packet, password: Option<nat>)
    requires GoodSetup(setup) && KeysApart(setup, w.origins) && SealsOk(setup, w.origins, w.seals)
    requires SessionOk(w.origins, side, w.Of(side)) && Arrives(setup, w, p)
    requires HandshakeSecret(setup.Of(side), w.Of(side), p.nonce, password) == Some(p.box.secret)
    requires p.nonce >= NONCE_KEY ==> w.Of(side).ourTemp in w.origins
    ensures GivenToSend(w.seals, p.box, p.box.plain.body)
  {
    var i :| 0 <= i < |w.seals| && w.seals[i].box == p.box;
    assert SealOk(setup, w.origins, w.seals[i]);
  }

  /** At-most-once delivery.  No end ever accepts the same traffic packet twice. */
  lemma NoPacketAcceptedTwice(setup: Setup, start: World, events: seq<Event>, i: nat, j: nat)
    requires GoodSetup(setup) && Start(start) && Runs(setup, start, events)
    requires i < j < |Outcome(setup, start, events).receipts|
    ensures var receipts := Outcome(setup, start, events).receipts;
            receipts[i].who == receipts[j].who ==> receipts[i].box != receipts[j].box
  {
    StartOk(setup, start);
    RunKeepsInv(setup, start, events);
  }

  /** Nonce freshness.  Over a whole run no two traffic packets, of either end, share secret and nonce. */
  lemma NoNonceReused(setup: Setup, start: World, events: seq<Event>, i: nat, j: nat)
    requires GoodSetup(setup) && Start(start) && Runs(setup, start, events)
    requires i < j < |Outcome(setup, start, events).seals|
    ensures var seals := Outcome(setup, start, events).seals;
            seals[i].kind == Traffic && seals[j].kind == Traffic ==>
              (seals[i].box.secret, seals[i].box.nonce) != (seals[j].box.secret, seals[j].box.nonce)
  {
    StartOk(setup, start);
    RunKeepsInv(setup, start, events);
  }

  /** Session invariant, in the terms of the program's own assertions. */
  lemma SessionInvariant(setup: Setup, start: World, events: seq<Event>, side: Side)
    requires GoodSetup(setup) && Start(start) && Runs(setup, start, events)
    ensures var s := Outcome(setup, start, events).Of(side);
            && (s.nextNonce >= RECEIVED_HELLO <==> s.herTemp != UNKNOWN)
            && (s.nextNonce == INIT || s.nextNonce == RECEIVED_HELLO <==> s.ourTemp == UNKNOWN)
            && (s.nextNonce == SENT_HELLO ==> s.isInitiator)
            && (s.nextNonce == RECEIVED_HELLO || s.nextNonce == SENT_KEY ==> !s.isInitiator)
            && (s.nextNonce >= RECEIVED_KEY && !s.established ==> s.isInitiator)
            && (s.nextNonce > RECEIVED_KEY ==> s.sharedSecret == GetSharedSecret(s.ourTemp, s.herTemp, None))
            && (s.established ==> s.nextNonce >= 6)
  {
    StartOk(setup, start);
    RunKeepsInv(setup, start, events);
    var w := Outcome(setup, start, events);
    assert EndOk(w, side);
  }

  /** No assertion of the receiving code fails. */
  lemma ReceiveNeverAborts(setup: Setup, start: World, events: seq<Event>, e: Event)
    requires GoodSetup(setup) && Start(start) && Runs(setup, start, events) && e.Receive?
    requires var w := Outcome(setup, start, events); Possible(setup, w, e) && Unwrapped(w, e)
    ensures var w := Outcome(setup, start, events);
            Decrypt(setup.Of(e.side), w.Of(e.side), e.now, e.packet, e.undefined).1 != Aborted
  {
    StartOk(setup, start);
    RunKeepsInv(setup, start, events);
    ReceiveKeepsInv(setup, Outcome(setup, start, events), e);
  }

  /** The sending code trips over nothing but an empty body once the handshake is through. */
  lemma SendAbortsExactly(setup: Setup, start: World, events: seq<Event>, e: Event)
    requires GoodSetup(setup) && Start(start) && Runs(setup, start, events) && e.Send?
    ensures var w := Outcome(setup, start, events);
            Encrypt(setup.Of(e.side), w.Of(e.side), e.now, e.draw, e.body).1 == SendAborted <==>
              e.body == [] && BeforeSend(setup.Of(e.side), w.Of(e.side), e.now).nextNonce >= RECEIVED_KEY
  {
    StartOk(setup, start);
    RunKeepsInv(setup, start, events);
    var w := Outcome(setup, start, events);
    assert EndOk(w, e.side);
    SendAbortsOnEmpty(w.origins, e.side, setup.Of(e.side), w.Of(e.side), e.now, e.draw, e.body);
  }

  lemma SendAbortsOnEmpty(
    origins: map<Key, Origin>, side: Side, cfg: Config, s: State, now: nat, draw: Draw, body: seq<Byte>)
    requires UNKNOWN !in origins && SessionOk(origins, side, s) && cfg.herPublicKey != UNKNOWN
    ensures Encrypt(cfg, s, now, draw, body).1 == SendAborted <==>
              body == [] && BeforeSend(cfg, s, now).nextNonce >= RECEIVED_KEY
  {
    BeforeSendOk(origins, side, cfg, s, now);
  }

  // ---- The 32-bit counter ----

  /** A packet whose content, if it opens, is what the invariant allows. */
  ghost predicate Proper(origins: map<Key, Origin>, side: Side, s: State, p: Packet) {
    && p.nonce < TWO_32
    && (p.nonce < NONCE_FIRST_TRAFFIC_PACKET ==> Authentic(origins, side, p.nonce, p.box.plain.tempKey))
    && (p.nonce >= NONCE_FIRST_TRAFFIC_PACKET && s.nextNonce == SENT_KEY ==>
          From(origins, s.herTemp, Other(side), true))
  }

  ghost predicate SafeReceive(
    cfg: Config, origins: map<Key, Origin>, side: Side, s: State, now: nat, p: Packet, undefined: int)
  {
    var (s', v) := Decrypt(cfg, s, now, p, undefined);
    v != Aborted && SessionOk(origins, side, s')
  }

  lemma SafeTraffic(origins: map<Key, Origin>, side: Side, cfg: Config, s: State, now: nat, p: Packet, undefined: int)
    requires UNKNOWN !in origins && SessionOk(origins, side, s) && Proper(origins, side, s, p)
    requires CounterHasRoom(s) && p.nonce >= NONCE_FIRST_TRAFFIC_PACKET
    ensures SafeReceive(cfg, origins, side, s, now, p, undefined)
  {
    RP.CheckCovers(s.window, p.nonce, undefined);
    if !s.established && s.nextNonce >= SENT_KEY && p.length >= TRAFFIC_OVERHEAD {
      var secret := GetSharedSecret(s.ourTemp, s.herTemp, None);
      var (w1, v) := DecryptMessage(s, p, secret, undefined);
      RestartedWindow(w1, p.nonce);
      if v.Accepted? {
        EstablishedOk(origins, side, s, FinalStep(s, now, p, undefined).0);
      }
    }
  }

  lemma SafeHandshake(origins: map<Key, Origin>, side: Side, cfg: Config, s: State, now: nat, p: Packet, undefined: int)
    requires UNKNOWN !in origins && SessionOk(origins, side, s) && Proper(origins, side, s, p)
    requires cfg.herPublicKey != UNKNOWN
    requires CounterHasRoom(s) && p.nonce < NONCE_FIRST_TRAFFIC_PACKET
    ensures SafeReceive(cfg, origins, side, s, now, p, undefined)
  {
    var (s', v) := Decrypt(cfg, s, now, p, undefined);
    assert (s.nextNonce < RECEIVED_HELLO) == (s.herTemp == UNKNOWN);
    if s' == s && v.Rejected? {
      return;
    }
    AfterOpenKeeps(cfg, origins, side, s, p.nonce, p.box.plain.tempKey, p.box.plain.body);
  }

  /** The traffic packet that completes the handshake of s, whatever its window. */
  function Completing(s: State): Packet {
    var n := if s.window.baseOffset < 4 then 4 else s.window.baseOffset;
    var nonce24 := CounterNonce(n, !s.isInitiator);
    Packet(n, TRAFFIC_OVERHEAD, UNKNOWN, Challenge(0, 0), nonce24,
           Box(GetSharedSecret(s.ourTemp, s.herTemp, None), nonce24, Plain(UNKNOWN, [])))
  }

  lemma CompletingIsAccepted(s: State)
    requires RP.Fits(s.window) && s.window.bitfield == 0
    ensures DecryptMessage(s, Completing(s), GetSharedSecret(s.ourTemp, s.herTemp, None), 0).1.Accepted?
  {
    var p := Completing(s);
    RP.RecordsItself(s.window);
    RP.CheckRefinesSet(s.window, s.window.baseOffset, RP.InWindow(s.window), p.nonce, 0);
    if p.nonce in RP.InWindow(s.window) {
      var i: nat :| i < 64 && Bits.Bit(0, i);
      Bits.HighBitsClear(0, 0, i);
    }
  }

  /**
   * The counter can wrap.  The program checks for that only before it sends, so a session that is
   * not established and has counted past 0xfffffffc by receiving alone breaks its invariant on the
   * packet that completes it; every other session in order is safe against every proper packet.
   */
  lemma ReceiveSafeExactly(cfg: Config, origins: map<Key, Origin>, side: Side, s: State)
    requires UNKNOWN !in origins && SessionOk(origins, side, s) && cfg.herPublicKey != UNKNOWN
    ensures CounterHasRoom(s) <==>
      forall now: nat, p, undefined :: Proper(origins, side, s, p) ==>
        SafeReceive(cfg, origins, side, s, now, p, undefined)
  {
    if CounterHasRoom(s) {
      forall now: nat, p, undefined | Proper(origins, side, s, p)
        ensures SafeReceive(cfg, origins, side, s, now, p, undefined)
      {
        if p.nonce < NONCE_FIRST_TRAFFIC_PACKET {
          SafeHandshake(origins, side, cfg, s, now, p, undefined);
        } else {
          SafeTraffic(origins, side, cfg, s, now, p, undefined);
        }
      }
    } else {
      var p := Completing(s);
      CompletingIsAccepted(s);
      var s' := Decrypt(cfg, s, 0, p, 0).0;
      assert s'.established && s'.nextNonce < 6;
      assert Proper(origins, side, s, p);
      assert !SafeReceive(cfg, origins, side, s, 0, p, 0);
    }
  }

  /** An assertion of the receiving code can fail only when a key packet meets the last counter value. */
  lemma AbortNeedsLastCounter(cfg: Config, origins: map<Key, Origin>, side: Side, s: State, now: nat, p: Packet, undefined: int)
    requires UNKNOWN !in origins && SessionOk(origins, side, s) && cfg.herPublicKey != UNKNOWN
    requires Proper(origins, side, s, p)
    requires Decrypt(cfg, s, now, p, undefined).1 == Aborted
    ensures !s.established && s.nextNonce == 0xffff_ffff
    ensures p.nonce == NONCE_KEY || p.nonce == NONCE_REPEAT_KEY
  {
    if p.nonce < NONCE_FIRST_TRAFFIC_PACKET && (s.nextNonce <= 0xffff_fffe || p.nonce < NONCE_KEY) {
      AfterOpenKeeps(cfg, origins, side, s, p.nonce, p.box.plain.tempKey, p.box.plain.body);
    }
  }

  /** And there it does fail: a repeated key packet adds one and the counter would go backward. */
  lemma RepeatKeyAbortsAtLastCounter(cfg: Config, origins: map<Key, Origin>, side: Side, s: State, now: nat)
    requires UNKNOWN !in origins && SessionOk(origins, side, s) && cfg.herPublicKey != UNKNOWN
    requires !cfg.requireAuth && !s.established && s.nextNonce == 0xffff_ffff
    ensures var box := Box(GetSharedSecret(s.ourTemp, cfg.herPublicKey, None), Random(0), Plain(s.herTemp, []));
            var p := Packet(NONCE_REPEAT_KEY, HEADER_SIZE, cfg.herPublicKey, Challenge(0, 0), Random(0), box);
            && Proper(origins, side, s, p)
            && Decrypt(cfg, s, now, p, 0).1 == Aborted
  {
    assert (s.nextNonce + 1) % TWO_32 == 0;
  }

  // ---- A run that gets there ----

  const SETUP := Setup(Config(1, 2, false, map[], 60, 10), Config(2, 1, false, map[], 60, 10))

  function HandshakePacket(nonce: nat, publicKey: Key, secret: Secret, temp: Key): Packet {
    Packet(nonce, HEADER_SIZE + 1, publicKey, Challenge(0, 0), Random(0), Box(secret, Random(0), Plain(temp, [7])))
  }

  function KeyPacket(nonce: nat): Packet {
    HandshakePacket(nonce, 2, GetSharedSecret(2, 11, None), 12)
  }

  /** Hello, key packet, and the first traffic packet, which is lost. */
  function Opening(): seq<Event> {
    [Send(Alice, 0, Draw(11, 0, 0), [7]),
     Receive(Bob, 0, HandshakePacket(NONCE_HELLO, 1, GetSharedSecret(1, 2, None), 11), 0),
     Send(Bob, 0, Draw(12, 0, 0), [7]),
     Receive(Alice, 0, KeyPacket(NONCE_KEY), 0),
     Send(Alice, 0, Draw(13, 0, 0), [7])]
  }

  function NewWorld(): World {
    World(NewSession(0), NewSession(0), map[], [], [])
  }

  /** An initiator that has sent traffic and not heard any. */
  ghost predicate OneSided(w: World, n: nat) {
    && w.alice.nextNonce == n && w.alice.isInitiator && !w.alice.established
    && w.alice.ourTemp == 11 && w.alice.herTemp == 12
    && WasSealed(w, KeyPacket(NONCE_REPEAT_KEY).box)
  }

  lemma FirstTwo()
    ensures var w1 := Step(SETUP, NewWorld(), Opening()[0]);
            var w2 := Step(SETUP, w1, Opening()[1]);
            && Possible(SETUP, NewWorld(), Opening()[0]) && Possible(SETUP, w1, Opening()[1]) && Unwrapped(w1, Opening()[1])
            && w2.alice == NewSession(0).(ourTemp := 11, isInitiator := true, nextNonce := SENT_HELLO)
            && w2.bob == NewSession(0).(herTemp := 11, nextNonce := RECEIVED_HELLO)
            && w2.origins == map[11 := Origin(Alice, true)] && w2.receipts == []
  {
    var w1 := Step(SETUP, NewWorld(), Opening()[0]);
    assert w1.seals[0].box == Opening()[1].packet.box;
  }

  lemma NextTwo(w: World)
    requires w.alice == NewSession(0).(ourTemp := 11, isInitiator := true, nextNonce := SENT_HELLO)
    requires w.bob == NewSession(0).(herTemp := 11, nextNonce := RECEIVED_HELLO)
    requires w.origins == map[11 := Origin(Alice, true)]
    ensures var w1 := Step(SETUP, w, Opening()[2]);
            var w2 := Step(SETUP, w1, Opening()[3]);
            && Possible(SETUP, w, Opening()[2]) && Possible(SETUP, w1, Opening()[3]) && Unwrapped(w1, Opening()[3])
            && w2.alice == w.alice.(herTemp := 12, nextNonce := RECEIVED_KEY)
            && WasSealed(w2, KeyPacket(NONCE_KEY).box)
            && w2.origins == map[11 := Origin(Alice, true), 12 := Origin(Bob, false)]
  {
    var w1 := Step(SETUP, w, Opening()[2]);
    assert w1.seals[|w.seals|].box == KeyPacket(NONCE_KEY).box;
  }

  lemma LastOne(w: World)
    requires w.alice == NewSession(0).(ourTemp := 11, isInitiator := true, herTemp := 12, nextNonce := RECEIVED_KEY)
    requires WasSealed(w, KeyPacket(NONCE_KEY).box)
    requires w.origins == map[11 := Origin(Alice, true), 12 := Origin(Bob, false)]
    ensures Possible(SETUP, w, Opening()[4]) && OneSided(Step(SETUP, w, Opening()[4]), 5)
  {
    var i :| 0 <= i < |w.seals| && w.seals[i].box == KeyPacket(NONCE_KEY).box;
    var w' := Step(SETUP, w, Opening()[4]);
    assert w'.seals[i] == w.seals[i];
  }

  lemma RunsTwo(w: World, a: Event, b: Event, rest: seq<Event>)
    requires Possible(SETUP, w, a) && Unwrapped(w, a)
    requires var w1 := Step(SETUP, w, a); Possible(SETUP, w1, b) && Unwrapped(w1, b)
    requires Runs(SETUP, Step(SETUP, Step(SETUP, w, a), b), rest)
    ensures Runs(SETUP, w, [a, b] + rest)
    ensures Outcome(SETUP, w, [a, b] + rest) == Outcome(SETUP, Step(SETUP, Step(SETUP, w, a), b), rest)
  {
    hide Possible, Unwrapped, Step;
    var all := [a, b] + rest;
    assert all[0] == a && all[1..] == [b] + rest && ([b] + rest)[0] == b && ([b] + rest)[1..] == rest;
  }

  lemma OpeningRuns()
    ensures Runs(SETUP, NewWorld(), Opening()) && OneSided(Outcome(SETUP, NewWorld(), Opening()), 5)
  {
    hide Possible, Step, OneSided;
    var w0, o := NewWorld(), Opening();
    FirstTwo();
    var w1 := Step(SETUP, w0, o[0]);
    var w2 := Step(SETUP, w1, o[1]);
    NextTwo(w2);
    var w3 := Step(SETUP, w2, o[2]);
    var w4 := Step(SETUP, w3, o[3]);
    LastOne(w4);
    assert Runs(SETUP, w4, [o[4]]) && Outcome(SETUP, w4, [o[4]]) == Step(SETUP, w4, o[4]) by {
      assert [o[4]][1..] == [];
    }
    RunsTwo(w2, o[2], o[3], [o[4]]);
    RunsTwo(w0, o[0], o[1], [o[2], o[3]] + [o[4]]);
    assert o == [o[0], o[1]] + ([o[2], o[3]] + [o[4]]);
  }

  /** One more copy of the key packet, its header saying that it is a repeated one, adds one. */
  lemma RepeatKeyCounts(w: World, n: nat)
    requires OneSided(w, n) && 5 <= n <= 0xffff_fffc
    ensures var e := Receive(Alice, 0, KeyPacket(NONCE_REPEAT_KEY), 0);
            Possible(SETUP, w, e) && Unwrapped(w, e) && OneSided(Step(SETUP, w, e), n + 1)
  {
    assert (n + 1) % TWO_32 == n + 1;
  }

  lemma {:induction false} RunGrows(w: World, events: seq<Event>, e: Event)
    requires Runs(SETUP, w, events)
    requires var w' := Outcome(SETUP, w, events); Possible(SETUP, w', e) && Unwrapped(w', e)
    ensures Runs(SETUP, w, events + [e])
    ensures Outcome(SETUP, w, events + [e]) == Step(SETUP, Outcome(SETUP, w, events), e)
    decreases |events|
  {
    hide Possible, Unwrapped, Step;
    if events == [] {
      assert events + [e] == [e] && [e][1..] == [];
    } else {
      RunGrows(Step(SETUP, w, events[0]), events[1..], e);
      assert (events + [e])[0] == events[0] && (events + [e])[1..] == events[1..] + [e];
    }
  }

  /** So the counter of an initiator that hears only copies of one key packet reaches any value. */
  lemma {:induction false} CounterClimbs(n: nat) returns (events: seq<Event>)
    requires 5 <= n <= 0xffff_fffd
    ensures Runs(SETUP, NewWorld(), events) && OneSided(Outcome(SETUP, NewWorld(), events), n)
    decreases n
  {
    if n == 5 {
      OpeningRuns();
      events := Opening();
    } else {
      hide OneSided, Possible, Unwrapped, Step;
      events := CounterClimbs(n - 1);
      RepeatKeyCounts(Outcome(SETUP, NewWorld(), events), n - 1);
      var e := Receive(Alice, 0, KeyPacket(NONCE_REPEAT_KEY), 0);
      RunGrows(NewWorld(), events, e);
      events := events + [e];
    }
  }

  /** A run from two new sessions ends where the counter has no room left. */
  lemma NoRoomIsReachable() returns (events: seq<Event>)
    ensures GoodSetup(SETUP) && Start(NewWorld()) && Runs(SETUP, NewWorld(), events)
    ensures !CounterHasRoom(Outcome(SETUP, NewWorld(), events).alice)
  {
    events := CounterClimbs(0xffff_fffd);
    assert NewWorld().alice == NewSession(0) && NewWorld().bob == NewSession(0);
  }
}
