/**
 * Two sessions and the network between them.
 *
 * The network is every box ever sealed.  A step may hand any of them to either end, any number of
 * times, in any order, inside any header: nothing in the header of a handshake packet is
 * authenticated.  It may also hand over any box that is not sealed under a secret of two honest
 * keys, which covers noise and strangers.  Loss is a box that is never handed over.
 */
module TwoParty {
  import opened Prelude
  import opened CryptoAuth
  import RP = ReplayProtector
  import Bits

  datatype Side = Alice | Bob

  function Other(side: Side): Side {
    if side == Alice then Bob else Alice
  }

  /** Who drew a temp key, and whether for a hello (as initiator) or for a key packet. */
  datatype Origin = Origin(owner: Side, initiator: bool)

  datatype Kind = Hello | KeyReply | Traffic

  /** One packet as it was sealed, with the sender's view of the session and the body it was given to send. */
  datatype Seal = Seal(
    who: Side, kind: Kind, ourTemp: Key, herTemp: Key, initiator: bool, nonce: nat, box: Box, body: seq<Byte>)

  /** One traffic packet as it was accepted, with the receiver's view of the session and the body it delivered. */
  datatype Receipt = Receipt(
    who: Side, ourTemp: Key, herTemp: Key, initiator: bool, nonce: nat, box: Box, body: seq<Byte>)

  datatype World = World(
    alice: State,
    bob: State,
    origins: map<Key, Origin>,
    seals: seq<Seal>,
    receipts: seq<Receipt>)
  {
    function Of(side: Side): State {
      if side == Alice then alice else bob
    }

    function With(side: Side, s: State): World {
      if side == Alice then this.(alice := s) else this.(bob := s)
    }
  }

  datatype Setup = Setup(alice: Config, bob: Config) {
    function Of(side: Side): Config {
      if side == Alice then alice else bob
    }
  }

  /** Each end knows the other's permanent key and the two keys differ. */
  ghost predicate GoodSetup(setup: Setup) {
    && setup.alice.publicKey != UNKNOWN
    && setup.bob.publicKey != UNKNOWN
    && setup.alice.publicKey != setup.bob.publicKey
    && setup.alice.herPublicKey == setup.bob.publicKey
    && setup.bob.herPublicKey == setup.alice.publicKey
  }

  datatype Event =
    | Send(side: Side, now: nat, draw: Draw, body: seq<Byte>)
    | Receive(side: Side, now: nat, packet: Packet, undefined: int)
    | ResetSession(side: Side)
    | Timeout(side: Side, now: nat)
    | NewAuth(side: Side, given: Option<Credentials>, withLogin: bool)

  ghost predicate HonestKey(setup: Setup, w: World, k: Key) {
    k == setup.alice.publicKey || k == setup.bob.publicKey || k in w.origins
  }

  ghost predicate HonestSecret(setup: Setup, w: World, s: Secret) {
    s.Shared? && HonestKey(setup, w, s.low) && HonestKey(setup, w, s.high)
  }

  ghost predicate Fresh(setup: Setup, w: World, k: Key) {
    k != UNKNOWN && !HonestKey(setup, w, k)
  }

  ghost predicate WasSealed(w: World, box: Box) {
    exists i :: 0 <= i < |w.seals| && w.seals[i].box == box
  }

  /** What the random generator and the network may do next. */
  ghost predicate Possible(setup: Setup, w: World, e: Event) {
    match e
    case Send(_, _, draw, _) => Fresh(setup, w, draw.tempKey)
    case Receive(_, _, p, _) =>
      && p.nonce < TWO_32
      && (HonestSecret(setup, w, p.box.secret) ==> WasSealed(w, p.box))
    case _ => true
  }

  /** Receiving cannot wrap the counter of this session. */
  ghost predicate CounterHasRoom(s: State) {
    s.established || s.nextNonce <= 0xffff_fffc
  }

  ghost predicate Unwrapped(w: World, e: Event) {
    e.Receive? ==> CounterHasRoom(w.Of(e.side))
  }

  function KindOf(nonce: nat): Kind {
    if nonce < NONCE_KEY then Hello else if nonce < NONCE_FIRST_TRAFFIC_PACKET then KeyReply else Traffic
  }

  ghost function AfterSend(setup: Setup, w: World, e: Event): World
    requires e.Send?
  {
    var (s, r) := Encrypt(setup.Of(e.side), w.Of(e.side), e.now, e.draw, e.body);
    match r
    case SendAborted => w
    case Sent(p) =>
      var origins := if s.ourTemp == e.draw.tempKey
                     then w.origins[s.ourTemp := Origin(e.side, s.isInitiator)] else w.origins;
      var seal := Seal(e.side, KindOf(p.nonce), s.ourTemp, s.herTemp, s.isInitiator, p.nonce, p.box, e.body);
      w.With(e.side, s).(origins := origins, seals := w.seals + [seal])
  }

  ghost function ReceiptOf(side: Side, s: State, p: Packet, body: seq<Byte>): Receipt {
    Receipt(side, s.ourTemp, s.herTemp, s.isInitiator, p.nonce, p.box, body)
  }

  ghost function AfterReceive(setup: Setup, w: World, e: Event): World
    requires e.Receive?
  {
    var (s, v) := Decrypt(setup.Of(e.side), w.Of(e.side), e.now, e.packet, e.undefined);
    var w1 := w.With(e.side, s);
    if v.Accepted? && v.traffic then
      w1.(receipts := w.receipts + [ReceiptOf(e.side, s, e.packet, v.body)])
    else
      w1
  }

  ghost function Step(setup: Setup, w: World, e: Event): World {
    match e
    case Send(_, _, _, _) => AfterSend(setup, w, e)
    case Receive(_, _, _, _) => AfterReceive(setup, w, e)
    case ResetSession(side) => w.With(side, Reset(w.Of(side)))
    case Timeout(side, now) => w.With(side, ResetIfTimeout(setup.Of(side), w.Of(side), now))
    case NewAuth(side, given, withLogin) => w.With(side, SetAuth(w.Of(side), given, withLogin))
  }

  // ---- Invariants ----

  ghost predicate From(origins: map<Key, Origin>, k: Key, owner: Side, initiator: bool) {
    k in origins && origins[k] == Origin(owner, initiator)
  }

  /** The fields of a session fit its state number. */
  ghost predicate SessionOk(origins: map<Key, Origin>, side: Side, s: State) {
    && s.nextNonce < TWO_32
    && RP.Fits(s.window)
    && (!s.established ==> s.window.bitfield == 0)
    && (s.nextNonce == INIT ==>
          !s.isInitiator && !s.established && s.ourTemp == UNKNOWN && s.herTemp == UNKNOWN)
    && (s.nextNonce == SENT_HELLO ==>
          s.isInitiator && !s.established && From(origins, s.ourTemp, side, true) && s.herTemp == UNKNOWN)
    && (s.nextNonce == RECEIVED_HELLO ==>
          !s.isInitiator && !s.established && s.ourTemp == UNKNOWN && s.herTemp in origins)
    && (s.nextNonce == SENT_KEY ==>
          !s.isInitiator && !s.established && From(origins, s.ourTemp, side, false) && s.herTemp in origins)
    && (s.nextNonce >= RECEIVED_KEY ==>
          && From(origins, s.ourTemp, side, s.isInitiator)
          && From(origins, s.herTemp, Other(side), !s.isInitiator)
          && (s.established || s.isInitiator))
    && (s.nextNonce > RECEIVED_KEY ==> s.sharedSecret == GetSharedSecret(s.ourTemp, s.herTemp, None))
    && (s.established ==> s.nextNonce >= 6)
  }

  ghost predicate SealOk(setup: Setup, origins: map<Key, Origin>, x: Seal) {
    && From(origins, x.ourTemp, x.who, x.initiator)
    && x.box.plain.body == x.body
    && (x.kind == Hello ==>
          && x.initiator
          && x.box.plain.tempKey == x.ourTemp
          && exists pw :: x.box.secret == GetSharedSecret(setup.alice.publicKey, setup.bob.publicKey, pw))
    && (x.kind == KeyReply ==>
          && !x.initiator
          && x.herTemp in origins
          && x.box.plain.tempKey == x.ourTemp
          && exists pw :: x.box.secret == GetSharedSecret(setup.Of(x.who).publicKey, x.herTemp, pw))
    && (x.kind == Traffic ==>
          && From(origins, x.herTemp, Other(x.who), !x.initiator)
          && 4 <= x.nonce < NONCE_LIMIT
          && x.box.secret == GetSharedSecret(x.ourTemp, x.herTemp, None)
          && x.box.nonce == CounterNonce(x.nonce, x.initiator))
  }

  ghost predicate KeysApart(setup: Setup, origins: map<Key, Origin>) {
    UNKNOWN !in origins && setup.alice.publicKey !in origins && setup.bob.publicKey !in origins
  }

  /** Traffic sealed under the temp key in use has a lower counter than the next one. */
  ghost predicate CounterAhead(w: World, side: Side) {
    forall i :: 0 <= i < |w.seals| && w.seals[i].who == side && w.seals[i].kind == Traffic
                && w.seals[i].ourTemp == w.Of(side).ourTemp
                ==> w.seals[i].nonce < w.Of(side).nextNonce
  }

  /** No two traffic packets share both secret and nonce. */
  ghost predicate NoncesFresh(seals: seq<Seal>) {
    forall i, j :: 0 <= i < j < |seals| && seals[i].kind == Traffic && seals[j].kind == Traffic
                   ==> seals[i].box.secret != seals[j].box.secret || seals[i].box.nonce != seals[j].box.nonce
  }

  /** What a receipt delivered the peer was given to send, under the same temp keys, in the other role. */
  ghost predicate Matches(x: Seal, r: Receipt) {
    && x.who == Other(r.who)
    && x.kind == Traffic
    && x.ourTemp == r.herTemp
    && x.herTemp == r.ourTemp
    && x.initiator == !r.initiator
    && x.nonce == r.nonce
    && x.box == r.box
    && x.body == r.body
  }

  ghost predicate Answered(seals: seq<Seal>, r: Receipt) {
    exists i :: 0 <= i < |seals| && Matches(seals[i], r)
  }

  ghost predicate Agreement(w: World) {
    forall j :: 0 <= j < |w.receipts| ==> Answered(w.seals, w.receipts[j])
  }

  /** What was received under the temp key in use will not be received again. */
  ghost predicate WindowCovers(w: World, side: Side) {
    forall j :: 0 <= j < |w.receipts| && w.receipts[j].who == side
                && w.receipts[j].ourTemp == w.Of(side).ourTemp
                ==> w.Of(side).established && RP.Covered(w.Of(side).window, w.receipts[j].nonce)
  }

  ghost predicate AtMostOnce(receipts: seq<Receipt>) {
    forall i, j :: 0 <= i < j < |receipts| && receipts[i].who == receipts[j].who
                   ==> receipts[i].box != receipts[j].box
  }

  ghost predicate EndOk(w: World, side: Side) {
    && SessionOk(w.origins, side, w.Of(side))
    && CounterAhead(w, side)
    && WindowCovers(w, side)
  }

  ghost predicate SealsOk(setup: Setup, origins: map<Key, Origin>, seals: seq<Seal>) {
    forall i :: 0 <= i < |seals| ==> SealOk(setup, origins, seals[i])
  }

  ghost predicate Inv(setup: Setup, w: World) {
    && KeysApart(setup, w.origins)
    && EndOk(w, Alice)
    && EndOk(w, Bob)
    && SealsOk(setup, w.origins, w.seals)
    && NoncesFresh(w.seals)
    && Agreement(w)
    && AtMostOnce(w.receipts)
  }

  /** Two new sessions, nothing sent. */
  ghost predicate Start(w: World) {
    && (exists now :: w.alice == NewSession(now))
    && (exists now :: w.bob == NewSession(now))
    && w.origins == map[]
    && w.seals == []
    && w.receipts == []
  }

  // ---- Secrets ----

  /** A secret names its two keys and its password. */
  lemma SecretNamesKeys(a: Key, b: Key, p: Option<nat>, c: Key, d: Key, q: Option<nat>)
    requires GetSharedSecret(a, b, p) == GetSharedSecret(c, d, q)
    ensures p == q && ((a == c && b == d) || (a == d && b == c))
  {
  }

  /** Growing the table of temp keys by a fresh one. */
  ghost predicate Extends(small: map<Key, Origin>, big: map<Key, Origin>) {
    forall k :: k in small ==> k in big && big[k] == small[k]
  }

  lemma SealsOkExtends(setup: Setup, small: map<Key, Origin>, big: map<Key, Origin>, seals: seq<Seal>)
    requires Extends(small, big) && SealsOk(setup, small, seals)
    ensures SealsOk(setup, big, seals)
  {
    forall i | 0 <= i < |seals| ensures SealOk(setup, big, seals[i]) {
      assert SealOk(setup, small, seals[i]);
    }
  }

  // ---- Sending keeps the invariant ----

  lemma ResetSessionOk(origins: map<Key, Origin>, side: Side, s: State)
    ensures SessionOk(origins, side, Reset(s))
  {
    assert 0 < Bits.Pow2(64);
  }

  lemma BeforeSendOk(origins: map<Key, Origin>, side: Side, cfg: Config, s: State, now: nat)
    requires SessionOk(origins, side, s)
    ensures SessionOk(origins, side, BeforeSend(cfg, s, now))
    ensures BeforeSend(cfg, s, now).nextNonce < NONCE_LIMIT
    ensures var s1 := BeforeSend(cfg, s, now);
            || s1 == s
            || (s1.nextNonce == INIT && s1.ourTemp == UNKNOWN && !s1.established)
  {
    ResetSessionOk(origins, side, s.(timeOfLastPacket := now % TWO_32));
    ResetSessionOk(origins, side, ResetIfTimeout(cfg, s, now));
  }

  /** What a send that goes out does to the sender, and what it puts on the wire. */
  ghost predicate GoodSend(setup: Setup, w: World, e: Event)
    requires e.Send?
  {
    var s0 := w.Of(e.side);
    var (s, r) := Encrypt(setup.Of(e.side), s0, e.now, e.draw, e.body);
    var w' := AfterSend(setup, w, e);
    r.Sent? ==>
      && Extends(w.origins, w'.origins)
      && KeysApart(setup, w'.origins)
      && SessionOk(w'.origins, e.side, s)
      && SealOk(setup, w'.origins, w'.seals[|w.seals|])
      && (s.ourTemp == e.draw.tempKey || (s.ourTemp == s0.ourTemp && s.nextNonce >= s0.nextNonce))
      && (s.established ==> s.window == s0.window && s0.established)
      && (!s.established && s.ourTemp != e.draw.tempKey ==> !s0.established)
      && (KindOf(r.packet.nonce) == Traffic ==>
            && s.ourTemp == s0.ourTemp
            && r.packet.nonce == s0.nextNonce
            && s.nextNonce == r.packet.nonce + 1)
  }

  lemma HandshakeSendEffect(setup: Setup, w: World, e: Event)
    requires GoodSetup(setup) && Inv(setup, w) && Possible(setup, w, e) && e.Send?
    requires BeforeSend(setup.Of(e.side), w.Of(e.side), e.now).nextNonce < RECEIVED_KEY
    ensures GoodSend(setup, w, e)
  {
    var cfg, s0 := setup.Of(e.side), w.Of(e.side);
    assert EndOk(w, e.side);
    BeforeSendOk(w.origins, e.side, cfg, s0, e.now);
    var s1 := BeforeSend(cfg, s0, e.now);
    var (s, r) := EncryptHandshake(cfg, s1, e.draw, e.body);
    if r.Sent? {
      if s1.nextNonce < RECEIVED_HELLO {
        assert r.packet.box.secret == GetSharedSecret(setup.alice.publicKey, setup.bob.publicKey, PasswordOf(s1));
      } else {
        assert r.packet.box.secret == GetSharedSecret(cfg.publicKey, s.herTemp, PasswordOf(s1));
      }
    }
  }

  /** A send past the handshake is a traffic packet under the secret of the temp keys. */
  lemma SendIsTraffic(cfg: Config, s: State, now: nat, draw: Draw, body: seq<Byte>)
    requires BeforeSend(cfg, s, now) == s && s.nextNonce >= RECEIVED_KEY
    requires s.nextNonce > RECEIVED_KEY ==> s.sharedSecret == GetSharedSecret(s.ourTemp, s.herTemp, None)
    ensures var s1 := s.(sharedSecret := GetSharedSecret(s.ourTemp, s.herTemp, None));
            || Encrypt(cfg, s, now, draw, body) == EncryptTraffic(cfg, s1, body)
            || Encrypt(cfg, s, now, draw, body).1.SendAborted?
  {
  }

  lemma TrafficSendEffect(setup: Setup, w: World, e: Event)
    requires GoodSetup(setup) && Inv(setup, w) && Possible(setup, w, e) && e.Send?
    requires BeforeSend(setup.Of(e.side), w.Of(e.side), e.now).nextNonce >= RECEIVED_KEY
    ensures GoodSend(setup, w, e)
  {
    hide SealsOk, NoncesFresh, Agreement, AtMostOnce, WindowCovers, CounterAhead, Encrypt, BeforeSend;
    var cfg, s0 := setup.Of(e.side), w.Of(e.side);
    assert EndOk(w, e.side);
    BeforeSendOk(w.origins, e.side, cfg, s0, e.now);
    var s1 := s0.(sharedSecret := GetSharedSecret(s0.ourTemp, s0.herTemp, None));
    var (s, r) := EncryptTraffic(cfg, s1, e.body);
    SendIsTraffic(cfg, s0, e.now, e.draw, e.body);
    if r.Sent? {
      TrafficSealOk(setup, w.origins, e.side, cfg, s1, e.body, s, r.packet);
      assert s.ourTemp != e.draw.tempKey;
    }
  }

  lemma TrafficSealOk(
    setup: Setup, origins: map<Key, Origin>, side: Side, cfg: Config, s: State, body: seq<Byte>, s': State, p: Packet)
    requires SessionOk(origins, side, s) && RECEIVED_KEY <= s.nextNonce < NONCE_LIMIT
    requires s.sharedSecret == GetSharedSecret(s.ourTemp, s.herTemp, None)
    requires (s', Sent(p)) == EncryptTraffic(cfg, s, body)
    ensures SessionOk(origins, side, s')
    ensures SealOk(setup, origins, Seal(side, Traffic, s'.ourTemp, s'.herTemp, s'.isInitiator, p.nonce, p.box, body))
  {
  }

  lemma EncryptEffect(setup: Setup, w: World, e: Event)
    requires GoodSetup(setup) && Inv(setup, w) && Possible(setup, w, e) && e.Send?
    ensures GoodSend(setup, w, e)
  {
    if BeforeSend(setup.Of(e.side), w.Of(e.side), e.now).nextNonce < RECEIVED_KEY {
      HandshakeSendEffect(setup, w, e);
    } else {
      TrafficSendEffect(setup, w, e);
    }
  }

  /** A new traffic packet repeats no earlier pair of secret and nonce, at either end. */
  lemma TrafficIsFresh(setup: Setup, origins: map<Key, Origin>, earlier: Seal, later: Seal)
    requires SealOk(setup, origins, earlier) && SealOk(setup, origins, later)
    requires earlier.kind == Traffic && later.kind == Traffic
    requires earlier.who == later.who && earlier.ourTemp == later.ourTemp ==> earlier.nonce < later.nonce
    ensures earlier.box.secret != later.box.secret || earlier.box.nonce != later.box.nonce
  {
    if earlier.box.secret == later.box.secret {
      SecretNamesKeys(earlier.ourTemp, earlier.herTemp, None, later.ourTemp, later.herTemp, None);
    }
  }

  lemma SendKeepsSeals(setup: Setup, w: World, e: Event)
    requires GoodSetup(setup) && Inv(setup, w) && Possible(setup, w, e) && e.Send?
    ensures var w' := AfterSend(setup, w, e);
            && SealsOk(setup, w'.origins, w'.seals)
            && NoncesFresh(w'.seals)
  {
    hide Encrypt, AtMostOnce, Possible, Agreement, GoodSetup;
    var w' := AfterSend(setup, w, e);
    EncryptEffect(setup, w, e);
    if w'.seals != w.seals {
      SealsOkExtends(setup, w.origins, w'.origins, w.seals);
      var k := |w.seals|;
      forall i | 0 <= i < k && w.seals[i].kind == Traffic && w'.seals[k].kind == Traffic
        ensures w.seals[i].box.secret != w'.seals[k].box.secret || w.seals[i].box.nonce != w'.seals[k].box.nonce
      {
        assert SealOk(setup, w'.origins, w'.seals[i]);
        assert EndOk(w, e.side);
        TrafficIsFresh(setup, w'.origins, w.seals[i], w'.seals[k]);
      }
    }
  }

  lemma SendKeepsSender(setup: Setup, w: World, e: Event)
    requires GoodSetup(setup) && Inv(setup, w) && Possible(setup, w, e) && e.Send?
    ensures EndOk(AfterSend(setup, w, e), e.side)
  {
    hide Encrypt, KeysApart, NoncesFresh, AtMostOnce, GoodSetup;
    var w', side := AfterSend(setup, w, e), e.side;
    assert EndOk(w, side);
    EncryptEffect(setup, w, e);
    if w'.seals != w.seals {
      forall i | 0 <= i < |w'.seals| && w'.seals[i].who == side && w'.seals[i].kind == Traffic
                 && w'.seals[i].ourTemp == w'.Of(side).ourTemp
        ensures w'.seals[i].nonce < w'.Of(side).nextNonce
      {
        if i < |w.seals| {
          assert SealOk(setup, w.origins, w.seals[i]);
        }
      }
      forall j | 0 <= j < |w.receipts| && w.receipts[j].who == side
                 && w.receipts[j].ourTemp == w'.Of(side).ourTemp
        ensures w'.Of(side).established && RP.Covered(w'.Of(side).window, w.receipts[j].nonce)
      {
        ReceiptKeys(setup, w, j);
      }
    }
  }

  /** Both temp keys of a receipt are known, ours as drawn by us. */
  lemma ReceiptKeys(setup: Setup, w: World, j: nat)
    requires SealsOk(setup, w.origins, w.seals) && Agreement(w) && j < |w.receipts|
    ensures var r := w.receipts[j];
            && From(w.origins, r.ourTemp, r.who, r.initiator)
            && From(w.origins, r.herTemp, Other(r.who), !r.initiator)
            && r.box.secret == GetSharedSecret(r.ourTemp, r.herTemp, None)
            && r.box.nonce == CounterNonce(r.nonce, !r.initiator)
            && 4 <= r.nonce < NONCE_LIMIT
  {
    var r := w.receipts[j];
    assert Answered(w.seals, r);
    var i :| 0 <= i < |w.seals| && Matches(w.seals[i], r);
    assert SealOk(setup, w.origins, w.seals[i]);
  }

  lemma SessionOkExtends(small: map<Key, Origin>, big: map<Key, Origin>, side: Side, s: State)
    requires Extends(small, big) && SessionOk(small, side, s)
    ensures SessionOk(big, side, s)
  {
  }

  lemma SendKeepsPeer(setup: Setup, w: World, e: Event)
    requires GoodSetup(setup) && Inv(setup, w) && Possible(setup, w, e) && e.Send?
    ensures EndOk(AfterSend(setup, w, e), Other(e.side))
  {
    var w', peer := AfterSend(setup, w, e), Other(e.side);
    assert EndOk(w, peer);
    EncryptEffect(setup, w, e);
    assert w'.Of(peer) == w.Of(peer) && w'.receipts == w.receipts;
    if w'.seals != w.seals {
      SessionOkExtends(w.origins, w'.origins, peer, w.Of(peer));
      assert w'.seals == w.seals + [w'.seals[|w.seals|]] && w'.seals[|w.seals|].who == e.side;
    }
  }

  lemma AgreementGrows(w: World, w': World)
    requires Agreement(w) && w'.receipts == w.receipts
    requires |w.seals| <= |w'.seals| && w'.seals[..|w.seals|] == w.seals
    ensures Agreement(w')
  {
    forall j | 0 <= j < |w'.receipts| ensures Answered(w'.seals, w'.receipts[j]) {
      assert Answered(w.seals, w.receipts[j]);
      var i :| 0 <= i < |w.seals| && Matches(w.seals[i], w.receipts[j]);
      assert w'.seals[i] == w.seals[i];
    }
  }

  lemma SendKeepsInv(setup: Setup, w: World, e: Event)
    requires GoodSetup(setup) && Inv(setup, w) && Possible(setup, w, e) && e.Send?
    ensures Inv(setup, AfterSend(setup, w, e))
  {
    EncryptEffect(setup, w, e);
    SendKeepsSeals(setup, w, e);
    SendKeepsSender(setup, w, e);
    SendKeepsPeer(setup, w, e);
    AgreementGrows(w, AfterSend(setup, w, e));
  }

  // ---- Receiving keeps the invariant ----

  /** The network hands over this packet. */
  ghost predicate Arrives(setup: Setup, w: World, p: Packet) {
    p.nonce < TWO_32 && (HonestSecret(setup, w, p.box.secret) ==> WasSealed(w, p.box))
  }

  /** A box under the two permanent keys is a hello of one of the two ends. */
  lemma OpenedHello(setup: Setup, w: World, side: Side, p: Packet, pw: Option<nat>)
    requires GoodSetup(setup) && Inv(setup, w) && Arrives(setup, w, p)
    requires p.box.secret == GetSharedSecret(setup.Of(side).publicKey, setup.Of(side).herPublicKey, pw)
    ensures p.box.plain.tempKey in w.origins
  {
    var i :| 0 <= i < |w.seals| && w.seals[i].box == p.box;
    var x := w.seals[i];
    assert SealOk(setup, w.origins, x);
    if x.kind == KeyReply {
      var pw' :| x.box.secret == GetSharedSecret(setup.Of(x.who).publicKey, x.herTemp, pw');
      SecretNamesKeys(setup.Of(x.who).publicKey, x.herTemp, pw',
                      setup.Of(side).publicKey, setup.Of(side).herPublicKey, pw);
    } else if x.kind == Traffic {
      SecretNamesKeys(x.ourTemp, x.herTemp, None,
                      setup.Of(side).publicKey, setup.Of(side).herPublicKey, pw);
    }
  }

  /** A box under the initiator's temp key and the peer's permanent key is the peer's key packet. */
  lemma OpenedKey(setup: Setup, w: World, side: Side, temp: Key, p: Packet, pw: Option<nat>)
    requires GoodSetup(setup) && Inv(setup, w) && Arrives(setup, w, p)
    requires temp in w.origins
    requires p.box.secret == GetSharedSecret(temp, setup.Of(side).herPublicKey, pw)
    ensures From(w.origins, p.box.plain.tempKey, Other(side), false)
  {
    var i :| 0 <= i < |w.seals| && w.seals[i].box == p.box;
    var x := w.seals[i];
    var her := setup.Of(side).herPublicKey;
    assert SealOk(setup, w.origins, x);
    if x.kind == Hello {
      var pw' :| x.box.secret == GetSharedSecret(setup.alice.publicKey, setup.bob.publicKey, pw');
      SecretNamesKeys(setup.alice.publicKey, setup.bob.publicKey, pw', temp, her, pw);
    } else if x.kind == Traffic {
      SecretNamesKeys(x.ourTemp, x.herTemp, None, temp, her, pw);
    } else {
      var pw' :| x.box.secret == GetSharedSecret(setup.Of(x.who).publicKey, x.herTemp, pw');
      SecretNamesKeys(setup.Of(x.who).publicKey, x.herTemp, pw', temp, her, pw);
    }
  }

  /** A box under the two temp keys, with the peer's nonce word, is the peer's traffic. */
  lemma OpenedTraffic(setup: Setup, w: World, side: Side, p: Packet)
    requires GoodSetup(setup) && Inv(setup, w) && Arrives(setup, w, p)
    requires w.Of(side).nextNonce >= SENT_KEY && p.nonce >= NONCE_FIRST_TRAFFIC_PACKET
    requires var s := w.Of(side);
             && p.box.secret == GetSharedSecret(s.ourTemp, s.herTemp, None)
             && p.box.nonce == CounterNonce(p.nonce, !s.isInitiator)
    ensures var s := w.Of(side);
            && Answered(w.seals, ReceiptOf(side, s, p, p.box.plain.body))
            && From(w.origins, s.herTemp, Other(side), !s.isInitiator)
            && p.nonce < NONCE_LIMIT
  {
    var s := w.Of(side);
    assert EndOk(w, side);
    var i :| 0 <= i < |w.seals| && w.seals[i].box == p.box;
    var x := w.seals[i];
    assert SealOk(setup, w.origins, x);
    if x.kind == Hello {
      var pw :| x.box.secret == GetSharedSecret(setup.alice.publicKey, setup.bob.publicKey, pw);
      SecretNamesKeys(setup.alice.publicKey, setup.bob.publicKey, pw, s.ourTemp, s.herTemp, None);
    } else if x.kind == KeyReply {
      var pw :| x.box.secret == GetSharedSecret(setup.Of(x.who).publicKey, x.herTemp, pw);
      SecretNamesKeys(setup.Of(x.who).publicKey, x.herTemp, pw, s.ourTemp, s.herTemp, None);
    } else {
      SecretNamesKeys(x.ourTemp, x.herTemp, None, s.ourTemp, s.herTemp, None);
      assert Matches(x, ReceiptOf(side, s, p, p.box.plain.body));
    }
  }

  /** An opened handshake packet carries a temp key the invariant knows about. */
  ghost predicate Authentic(origins: map<Key, Origin>, side: Side, nonce: nat, temp: Key) {
    if nonce < NONCE_KEY then temp in origins else From(origins, temp, Other(side), false)
  }

  /** How a session may change while it receives. */
  ghost predicate GoodReceive(origins: map<Key, Origin>, side: Side, s: State, s': State) {
    && SessionOk(origins, side, s')
    && (s'.ourTemp == UNKNOWN || (s'.ourTemp == s.ourTemp && s'.nextNonce >= s.nextNonce))
    && (s'.ourTemp != UNKNOWN && s.established ==> s'.established)
  }

  /** Acting on an opened handshake packet: no assertion fails and the session stays in order. */
  ghost predicate GoodShake(origins: map<Key, Origin>, side: Side, s: State, s': State, v: Verdict) {
    && v != Aborted
    && GoodReceive(origins, side, s, s')
    && (v.Accepted? ==> !v.traffic)
    && (s' == s || !s'.established)
  }

  lemma OnHelloKeeps(cfg: Config, origins: map<Key, Origin>, side: Side, s: State, temp: Key, body: seq<Byte>)
    requires UNKNOWN !in origins && SessionOk(origins, side, s) && temp in origins
    ensures var (s', v) := Finish(s, OnHello(cfg, s, temp), body);
            GoodShake(origins, side, s, s', v)
  {
    ResetSessionOk(origins, side, s);
  }

  lemma OnKeyKeeps(origins: map<Key, Origin>, side: Side, s: State, nonce: nat, temp: Key, body: seq<Byte>)
    requires UNKNOWN !in origins && SessionOk(origins, side, s) && From(origins, temp, Other(side), false)
    requires s.isInitiator && !s.established && s.nextNonce <= 0xffff_fffe
    requires nonce == NONCE_KEY || (nonce == NONCE_REPEAT_KEY && (s.nextNonce >= RECEIVED_KEY ==> s.herTemp == temp))
    ensures var (s', v) := Finish(s, OnKey(s, nonce, temp), body);
            GoodShake(origins, side, s, s', v)
  {
    ResetSessionOk(origins, side, s);
  }

  lemma AfterOpenKeeps(cfg: Config, origins: map<Key, Origin>, side: Side, s: State, nonce: nat, temp: Key, body: seq<Byte>)
    requires UNKNOWN !in origins && SessionOk(origins, side, s)
    requires nonce <= NONCE_REPEAT_KEY && Authentic(origins, side, nonce, temp)
    requires nonce >= NONCE_KEY ==> s.isInitiator && !s.established && s.nextNonce <= 0xffff_fffe
    ensures var (s', v) := Finish(s, AfterOpen(cfg, s, nonce, temp), body);
            GoodShake(origins, side, s, s', v)
  {
    if nonce < NONCE_KEY {
      OnHelloKeeps(cfg, origins, side, s, temp, body);
    } else if nonce == NONCE_REPEAT_KEY ==> s.nextNonce < RECEIVED_KEY || s.herTemp == temp {
      OnKeyKeeps(origins, side, s, nonce, temp, body);
    }
  }

  /** A handshake packet is refused, or its box opened under the secret of its step. */
  lemma HandshakeOpens(cfg: Config, s: State, p: Packet, r: (State, Verdict)) returns (password: Option<nat>)
    requires r == DecryptHandshake(cfg, s, p) && p.nonce <= NONCE_REPEAT_KEY && cfg.herPublicKey != UNKNOWN
    requires (s.nextNonce < RECEIVED_HELLO) == (s.herTemp == UNKNOWN)
    ensures (r.0 == s && r.1.Rejected?) ||
            (&& HandshakeSecret(cfg, s, p.nonce, password) == Some(p.box.secret)
             && r == Finish(s, AfterOpen(cfg, s, p.nonce, p.box.plain.tempKey), p.box.plain.body))
  {
    var user := GetAuth(cfg, p.auth);
    password := if user.Some? then Some(user.value.secret) else None;
  }

  lemma OpenedKeeps(setup: Setup, w: World, side: Side, p: Packet, password: Option<nat>, r: (State, Verdict))
    requires GoodSetup(setup) && Inv(setup, w) && Arrives(setup, w, p)
    requires p.nonce <= NONCE_REPEAT_KEY
    requires w.Of(side).established ==> p.nonce < NONCE_KEY
    requires CounterHasRoom(w.Of(side))
    requires HandshakeSecret(setup.Of(side), w.Of(side), p.nonce, password) == Some(p.box.secret)
    requires r == Finish(w.Of(side), AfterOpen(setup.Of(side), w.Of(side), p.nonce, p.box.plain.tempKey),
                         p.box.plain.body)
    ensures GoodShake(w.origins, side, w.Of(side), r.0, r.1)
  {
    var cfg, s := setup.Of(side), w.Of(side);
    assert EndOk(w, side);
    if p.nonce < NONCE_KEY {
      OpenedHello(setup, w, side, p, password);
    } else {
      OpenedKey(setup, w, side, s.ourTemp, p, password);
    }
    AfterOpenKeeps(cfg, w.origins, side, s, p.nonce, p.box.plain.tempKey, p.box.plain.body);
  }

  lemma HandshakeKeeps(setup: Setup, w: World, side: Side, p: Packet, r: (State, Verdict))
    requires GoodSetup(setup) && Inv(setup, w) && Arrives(setup, w, p)
    requires p.nonce <= NONCE_REPEAT_KEY
    requires w.Of(side).established ==> p.nonce < NONCE_KEY
    requires CounterHasRoom(w.Of(side))
    requires r == DecryptHandshake(setup.Of(side), w.Of(side), p)
    ensures GoodShake(w.origins, side, w.Of(side), r.0, r.1)
  {
    var s := w.Of(side);
    assert EndOk(w, side);
    assert (s.nextNonce < RECEIVED_HELLO) == (s.herTemp == UNKNOWN);
    var password := HandshakeOpens(setup.Of(side), s, p, r);
    if r.0 != s || !r.1.Rejected? {
      OpenedKeeps(setup, w, side, p, password, r);
    }
  }

  /** A traffic packet on its way in: what the receiving end may have become. */
  ghost predicate GoodTraffic(w: World, side: Side, p: Packet, s': State, v: Verdict) {
    var s := w.Of(side);
    && v != Aborted
    && GoodReceive(w.origins, side, s, s')
    && s'.ourTemp == s.ourTemp && s'.herTemp == s.herTemp && s'.isInitiator == s.isInitiator
    && (s.established ==> forall n: nat :: RP.Covered(s.window, n) ==> RP.Covered(s'.window, n))
    && (!v.Accepted? ==> s'.established == s.established)
    && (v.Accepted? ==>
          && v.traffic
          && s'.established
          && RP.Covered(s'.window, p.nonce)
          && (s.established ==> !RP.Covered(s.window, p.nonce))
          && Answered(w.seals, ReceiptOf(side, s, p, v.body)))
  }

  lemma RestartedWindow(w: RP.Window, nonce: nat)
    requires RP.Fits(w) && nonce < TWO_32
    ensures var w' := w.(baseOffset := (nonce + 1) % TWO_32, bitfield := 0);
            && RP.Fits(w')
            && (nonce < NONCE_LIMIT ==> RP.Covered(w', nonce))
  {
    assert 0 < Bits.Pow2(64);
  }

  /** The session after a final step that opened: in order, provided its peer's temp key is known. */
  lemma EstablishedOk(origins: map<Key, Origin>, side: Side, s: State, s': State)
    requires SessionOk(origins, side, s) && SENT_KEY <= s.nextNonce <= 0xffff_fffc
    requires From(origins, s.herTemp, Other(side), !s.isInitiator)
    requires RP.Fits(s'.window)
    requires exists now: nat ::
               s' == s.(window := s'.window, sharedSecret := GetSharedSecret(s.ourTemp, s.herTemp, None),
                        established := true, nextNonce := (s.nextNonce + 3) % TWO_32,
                        timeOfLastPacket := now % TWO_32)
    ensures GoodReceive(origins, side, s, s')
  {
    var now: nat :| s' == s.(window := s'.window, sharedSecret := GetSharedSecret(s.ourTemp, s.herTemp, None),
                        established := true, nextNonce := (s.nextNonce + 3) % TWO_32,
                        timeOfLastPacket := now % TWO_32);
    assert (s.nextNonce + 3) % TWO_32 == s.nextNonce + 3;
  }

  lemma FinalStepKeeps(setup: Setup, w: World, side: Side, now: nat, p: Packet, undefined: int)
    requires GoodSetup(setup) && Inv(setup, w) && Arrives(setup, w, p)
    requires p.nonce >= NONCE_FIRST_TRAFFIC_PACKET && !w.Of(side).established
    requires w.Of(side).nextNonce <= 0xffff_fffc
    ensures var (s', v) := FinalStep(w.Of(side), now, p, undefined);
            GoodTraffic(w, side, p, s', v)
  {
    var s := w.Of(side);
    assert EndOk(w, side);
    if s.nextNonce >= SENT_KEY {
      FinalWindow(s, now, p, undefined);
      var (s', v) := FinalStep(s, now, p, undefined);
      if v.Accepted? {
        OpenedTraffic(setup, w, side, p);
        EstablishedOk(w.origins, side, s, s');
      }
    }
  }

  /** What the final step does to the window, and what has opened when it accepts. */
  lemma FinalWindow(s: State, now: nat, p: Packet, undefined: int)
    requires RP.Fits(s.window) && p.nonce < TWO_32 && s.nextNonce >= SENT_KEY
    requires s.ourTemp != UNKNOWN && s.herTemp != UNKNOWN
    ensures var (s', v) := FinalStep(s, now, p, undefined);
            && RP.Fits(s'.window) && v != Aborted
            && (v.Accepted? ==> p.box.secret == GetSharedSecret(s.ourTemp, s.herTemp, None) && v.body == p.box.plain.body)
            && (v.Accepted? && p.nonce < NONCE_LIMIT ==> RP.Covered(s'.window, p.nonce))
  {
    RP.CheckCovers(s.window, p.nonce, undefined);
    var w := DecryptMessage(s, p, GetSharedSecret(s.ourTemp, s.herTemp, None), undefined).0;
    RestartedWindow(w, p.nonce);
  }

  lemma RunMessageKeeps(setup: Setup, w: World, side: Side, now: nat, p: Packet, undefined: int)
    requires GoodSetup(setup) && Inv(setup, w) && Arrives(setup, w, p)
    requires p.nonce >= NONCE_FIRST_TRAFFIC_PACKET && w.Of(side).established
    ensures var (s', v) := RunMessage(w.Of(side), now, p, undefined);
            GoodTraffic(w, side, p, s', v)
  {
    var s := w.Of(side);
    assert EndOk(w, side);
    RP.CheckCovers(s.window, p.nonce, undefined);
    if Open(p.box, s.sharedSecret, CounterNonce(p.nonce, !s.isInitiator)).Some? {
      OpenedTraffic(setup, w, side, p);
    }
  }

  /** The end that did not move keeps its part of the invariant. */
  lemma PeerKeeps(w: World, w': World, side: Side)
    requires EndOk(w, side)
    requires w'.Of(side) == w.Of(side) && w'.origins == w.origins && w'.seals == w.seals
    requires |w.receipts| <= |w'.receipts| && w'.receipts[..|w.receipts|] == w.receipts
    requires forall j :: |w.receipts| <= j < |w'.receipts| ==> w'.receipts[j].who != side
    ensures EndOk(w', side)
  {
    forall j | 0 <= j < |w'.receipts| && w'.receipts[j].who == side
               && w'.receipts[j].ourTemp == w'.Of(side).ourTemp
      ensures w'.Of(side).established && RP.Covered(w'.Of(side).window, w'.receipts[j].nonce)
    {
      assert w'.receipts[j] == w.receipts[j];
    }
  }

  lemma CounterStaysAhead(setup: Setup, w: World, side: Side, s': State)
    requires Inv(setup, w)
    requires GoodReceive(w.origins, side, w.Of(side), s')
    ensures CounterAhead(w.With(side, s'), side)
  {
    assert EndOk(w, side);
    forall i | 0 <= i < |w.seals| && w.seals[i].who == side && w.seals[i].kind == Traffic
               && w.seals[i].ourTemp == s'.ourTemp
      ensures w.seals[i].nonce < s'.nextNonce
    {
      assert SealOk(setup, w.origins, w.seals[i]);
    }
  }

  lemma QuietEnd(setup: Setup, w: World, side: Side, s': State)
    requires Inv(setup, w)
    requires GoodReceive(w.origins, side, w.Of(side), s')
    requires s'.established && s'.ourTemp == w.Of(side).ourTemp ==>
               w.Of(side).established &&
               forall n: nat :: RP.Covered(w.Of(side).window, n) ==> RP.Covered(s'.window, n)
    ensures EndOk(w.With(side, s'), side)
  {
    var w' := w.With(side, s');
    assert EndOk(w, side);
    CounterStaysAhead(setup, w, side, s');
    forall j | 0 <= j < |w.receipts| && w.receipts[j].who == side && w.receipts[j].ourTemp == s'.ourTemp
      ensures s'.established && RP.Covered(s'.window, w.receipts[j].nonce)
    {
      ReceiptKeys(setup, w, j);
    }
  }

  /** After a receive that accepts no traffic. */
  lemma QuietReceive(setup: Setup, w: World, side: Side, s': State)
    requires Inv(setup, w)
    requires GoodReceive(w.origins, side, w.Of(side), s')
    requires s'.established && s'.ourTemp == w.Of(side).ourTemp ==>
               w.Of(side).established &&
               forall n: nat :: RP.Covered(w.Of(side).window, n) ==> RP.Covered(s'.window, n)
    ensures Inv(setup, w.With(side, s'))
  {
    QuietEnd(setup, w, side, s');
    PeerKeeps(w, w.With(side, s'), Other(side));
  }

  /** One box is opened under one pair of temp keys and one counter only. */
  lemma SameBoxSameKeys(setup: Setup, w: World, side: Side, s: State, p: Packet, body: seq<Byte>, i: nat)
    requires SealsOk(setup, w.origins, w.seals) && Agreement(w)
    requires Answered(w.seals, ReceiptOf(side, s, p, body)) && From(w.origins, s.ourTemp, side, s.isInitiator)
    requires i < |w.receipts| && w.receipts[i].who == side && w.receipts[i].box == p.box
    ensures w.receipts[i].ourTemp == s.ourTemp && w.receipts[i].nonce == p.nonce
  {
    var r := w.receipts[i];
    ReceiptKeys(setup, w, i);
    var k :| 0 <= k < |w.seals| && Matches(w.seals[k], ReceiptOf(side, s, p, body));
    assert SealOk(setup, w.origins, w.seals[k]);
    SecretNamesKeys(r.ourTemp, r.herTemp, None, s.ourTemp, s.herTemp, None);
  }

  /** The packet just accepted was not accepted before. */
  lemma NotAcceptedBefore(setup: Setup, w: World, side: Side, p: Packet, s': State, v: Verdict, i: nat)
    requires GoodSetup(setup) && Inv(setup, w)
    requires GoodTraffic(w, side, p, s', v) && v.Accepted?
    requires i < |w.receipts| && w.receipts[i].who == side
    ensures w.receipts[i].box != p.box
  {
    assert EndOk(w, side);
    if w.receipts[i].box == p.box { SameBoxSameKeys(setup, w, side, w.Of(side), p, v.body, i); }
  }

  lemma AcceptKeepsEnd(setup: Setup, w: World, side: Side, p: Packet, s': State, v: Verdict)
    requires GoodSetup(setup) && Inv(setup, w)
    requires GoodTraffic(w, side, p, s', v) && v.Accepted?
    ensures EndOk(w.With(side, s').(receipts := w.receipts + [ReceiptOf(side, s', p, v.body)]), side)
  {
    var w' := w.With(side, s').(receipts := w.receipts + [ReceiptOf(side, s', p, v.body)]);
    assert EndOk(w, side);
    CounterStaysAhead(setup, w, side, s');
    forall j | 0 <= j < |w'.receipts| && w'.receipts[j].who == side && w'.receipts[j].ourTemp == s'.ourTemp
      ensures s'.established && RP.Covered(s'.window, w'.receipts[j].nonce)
    {
      if j < |w.receipts| { assert w'.receipts[j] == w.receipts[j]; }
    }
  }

  /** After a receive that accepts a traffic packet. */
  lemma AcceptKeeps(setup: Setup, w: World, side: Side, p: Packet, s': State, v: Verdict)
    requires GoodSetup(setup) && Inv(setup, w)
    requires GoodTraffic(w, side, p, s', v) && v.Accepted?
    ensures Inv(setup, w.With(side, s').(receipts := w.receipts + [ReceiptOf(side, s', p, v.body)]))
  {
    var w' := w.With(side, s').(receipts := w.receipts + [ReceiptOf(side, s', p, v.body)]);
    AcceptKeepsEnd(setup, w, side, p, s', v);
    PeerKeeps(w, w', Other(side));
    forall j | 0 <= j < |w'.receipts| ensures Answered(w'.seals, w'.receipts[j]) {
      if j < |w.receipts| { assert Answered(w.seals, w.receipts[j]); }
    }
    forall i | 0 <= i < |w.receipts| && w.receipts[i].who == side ensures w.receipts[i].box != p.box {
      NotAcceptedBefore(setup, w, side, p, s', v, i);
    }
  }

  lemma ReceiveKeepsInv(setup: Setup, w: World, e: Event)
    requires GoodSetup(setup) && Inv(setup, w) && Possible(setup, w, e) && Unwrapped(w, e) && e.Receive?
    ensures Inv(setup, AfterReceive(setup, w, e))
    ensures Decrypt(setup.Of(e.side), w.Of(e.side), e.now, e.packet, e.undefined).1 != Aborted
  {
    var side, s, p := e.side, w.Of(e.side), e.packet;
    var (s', v) := Decrypt(setup.Of(side), s, e.now, p, e.undefined);
    assert EndOk(w, side);
    if p.length >= TRAFFIC_OVERHEAD && p.nonce >= NONCE_FIRST_TRAFFIC_PACKET {
      if s.established {
        RunMessageKeeps(setup, w, side, e.now, p, e.undefined);
      } else {
        FinalStepKeeps(setup, w, side, e.now, p, e.undefined);
      }
      if v.Accepted? {
        AcceptKeeps(setup, w, side, p, s', v);
      } else {
        QuietReceive(setup, w, side, s');
      }
    } else {
      if p.length >= TRAFFIC_OVERHEAD && (!s.established || p.nonce <= NONCE_REPEAT_HELLO) {
        HandshakeKeeps(setup, w, side, p, DecryptHandshake(setup.Of(side), w.Of(side), p));
      }
      QuietReceive(setup, w, side, s');
    }
  }

  lemma ResetKeepsInv(setup: Setup, w: World, side: Side, s: State)
    requires GoodSetup(setup) && Inv(setup, w)
    ensures Inv(setup, w.With(side, Reset(s)))
  {
    ResetSessionOk(w.origins, side, s);
    QuietReceive(setup, w, side, Reset(s));
  }

  lemma WithOwnState(w: World, side: Side)
    ensures w.With(side, w.Of(side)) == w
  {
  }

  /** Changing the credentials leaves the session alone or resets it. */
  lemma NewAuthResets(s: State, given: Option<Credentials>, withLogin: bool) returns (before: State)
    ensures SetAuth(s, given, withLogin) == s || SetAuth(s, given, withLogin) == Reset(before)
  {
    before := match given
      case None =>
        if s.credentials.Some? || s.authKind != 0 then s.(credentials := None, authKind := 0)
        else s.(credentials := None, authKind := if withLogin then 2 else 1)
      case Some(c) => s.(credentials := given, authKind := c.challenge.kind);
  }

  lemma OwnStepKeepsInv(setup: Setup, w: World, side: Side, before: State, s': State)
    requires GoodSetup(setup) && Inv(setup, w)
    requires s' == w.Of(side) || s' == Reset(before)
    ensures Inv(setup, w.With(side, s'))
  {
    if s' == w.Of(side) {
      WithOwnState(w, side);
    } else {
      ResetKeepsInv(setup, w, side, before);
    }
  }

  lemma StepKeepsInv(setup: Setup, w: World, e: Event)
    requires GoodSetup(setup) && Inv(setup, w) && Possible(setup, w, e) && Unwrapped(w, e)
    ensures Inv(setup, Step(setup, w, e))
  {
    match e
    case Send(_, _, _, _) =>
      SendKeepsInv(setup, w, e);
    case Receive(_, _, _, _) =>
      ReceiveKeepsInv(setup, w, e);
    case ResetSession(side) =>
      ResetKeepsInv(setup, w, side, w.Of(side));
    case Timeout(side, now) =>
      var before := w.Of(side).(timeOfLastPacket := now % TWO_32);
      OwnStepKeepsInv(setup, w, side, before, ResetIfTimeout(setup.Of(side), w.Of(side), now));
    case NewAuth(side, given, withLogin) =>
      var before := NewAuthResets(w.Of(side), given, withLogin);
      OwnStepKeepsInv(setup, w, side, before, SetAuth(w.Of(side), given, withLogin));
  }

  // ---- Whole runs ----

  ghost predicate Runs(setup: Setup, w: World, events: seq<Event>)
    decreases |events|
  {
    events == [] ||
    (Possible(setup, w, events[0]) && Unwrapped(w, events[0]) && Runs(setup, Step(setup, w, events[0]), events[1..]))
  }

  ghost function Outcome(setup: Setup, w: World, events: seq<Event>): World
    decreases |events|
  {
    if events == [] then w else Outcome(setup, Step(setup, w, events[0]), events[1..])
  }

  lemma {:induction false} RunKeepsInv(setup: Setup, w: World, events: seq<Event>)
    requires GoodSetup(setup) && Inv(setup, w) && Runs(setup, w, events)
    ensures Inv(setup, Outcome(setup, w, events))
    decreases |events|
  {
    if events != [] {
      StepKeepsInv(setup, w, events[0]);
      RunKeepsInv(setup, Step(setup, w, events[0]), events[1..]);
    }
  }

  lemma StartOk(setup: Setup, w: World)
    requires GoodSetup(setup) && Start(w)
    ensures Inv(setup, w)
  {
    hide SessionOk, GoodSetup;
    var now :| w.alice == NewSession(now);
    var now' :| w.bob == NewSession(now');
    NewSessionOk(w.origins, Alice, now);
    NewSessionOk(w.origins, Bob, now');
  }

  lemma NewSessionOk(origins: map<Key, Origin>, side: Side, now: nat)
    ensures SessionOk(origins, side, NewSession(now))
  {
    ResetSessionOk(origins, side, NewSession(now));
    assert Reset(NewSession(now)) == NewSession(now);
  }
}
