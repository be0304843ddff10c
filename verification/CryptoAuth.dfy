/**
 * One CryptoAuth session as a value and its operations as functions on that value
 * (crypto/CryptoAuth.c, with the fields of crypto/CryptoAuth_pvt.h).
 *
 * Keys are symbols.  A key pair is one number that stands for both halves, 0 being the all-zero
 * "unknown" key.  Diffie-Hellman gives the same secret from either side, and a box opens only under
 * the secret and the 24-byte nonce it was sealed with.  The clock, the random generator and the
 * value of an undefined C shift are arguments.
 */
module CryptoAuth {
  import opened Prelude
  import RP = ReplayProtector

  // enum CryptoAuth_State
  const INIT: nat := 0
  const SENT_HELLO: nat := 1
  const RECEIVED_HELLO: nat := 2
  const SENT_KEY: nat := 3
  const RECEIVED_KEY: nat := 4

  // enum Nonce
  const NONCE_HELLO: nat := 0
  const NONCE_REPEAT_HELLO: nat := 1
  const NONCE_KEY: nat := 2
  const NONCE_REPEAT_KEY: nat := 3
  const NONCE_FIRST_TRAFFIC_PACKET: nat := 4

  /** From here up the next send starts over. */
  const NONCE_LIMIT: nat := 0xffff_fff0

  const HEADER_SIZE: nat := 120
  const TRAFFIC_OVERHEAD: nat := 20

  type Key = nat
  const UNKNOWN: Key := 0

  datatype Secret = NoSecret | Shared(low: Key, high: Key, password: Option<nat>)

  function GetSharedSecret(mine: Key, hers: Key, password: Option<nat>): Secret {
    if mine <= hers then Shared(mine, hers, password) else Shared(hers, mine, password)
  }

  /** The handshake uses random nonces; traffic puts its counter in one of the first two words. */
  datatype Nonce24 = Random(id: nat) | Counter(first: nat, second: nat)

  function CounterNonce(nonce: nat, secondWord: bool): Nonce24 {
    if secondWord then Counter(0, nonce) else Counter(nonce, 0)
  }

  /** A handshake box holds a temp public key in front of the body; traffic holds a body alone. */
  datatype Plain = Plain(tempKey: Key, body: seq<Byte>)

  datatype Box = Box(secret: Secret, nonce: Nonce24, plain: Plain)

  function Open(box: Box, secret: Secret, nonce: Nonce24): Option<Plain> {
    if box.secret == secret && box.nonce == nonce then Some(box.plain) else None
  }

  /** The bytes of the auth field that look a user up. */
  datatype Challenge = Challenge(kind: nat, lookup: nat)

  /** `allowed` is false for a user bound to an address other than the one of the session's peer. */
  datatype User = User(secret: nat, allowed: bool)

  datatype Credentials = Credentials(passwordHash: nat, challenge: Challenge)

  datatype Config = Config(
    publicKey: Key,
    herPublicKey: Key,
    requireAuth: bool,
    users: map<Challenge, User>,
    resetAfterInactivity: nat,
    setupResetAfterInactivity: nat)

  function GetAuth(cfg: Config, auth: Challenge): Option<User> {
    if auth.kind == 0 then None
    else if (auth.kind == 1 || auth.kind == 2) && auth in cfg.users then Some(cfg.users[auth])
    else None
  }

  datatype State = State(
    nextNonce: nat,
    isInitiator: bool,
    established: bool,
    ourTemp: Key,
    herTemp: Key,
    sharedSecret: Secret,
    window: RP.Window,
    timeOfLastPacket: nat,
    credentials: Option<Credentials>,
    authKind: nat)

  /** What CryptoAuth_newSession leaves. */
  function NewSession(now: nat): State {
    State(INIT, false, false, UNKNOWN, UNKNOWN, NoSecret, RP.EMPTY, now % TWO_32, None, 0)
  }

  datatype Packet = Packet(
    nonce: nat,
    length: nat,
    publicKey: Key,
    auth: Challenge,
    shakeNonce: Nonce24,
    box: Box)

  /** What one send draws from the random generator. */
  datatype Draw = Draw(tempKey: Key, shakeNonce: nat, lookup: nat)

  datatype SendResult = Sent(packet: Packet) | SendAborted

  datatype DecryptErr =
    | Runt
    | NoSession
    | KeyPktEstablishedSession
    | WrongPermPubkey
    | IpRestricted
    | AuthRequired
    | UnrecognizedAuth
    | StrayKey
    | HandshakeDecryptFailed
    | WiseGuy
    | InvalidPacket
    | Replay
    | DecryptFailed

  /** Aborted means that a runtime assertion of the program fails. */
  datatype Verdict =
    | Accepted(body: seq<Byte>, traffic: bool)
    | Rejected(error: DecryptErr)
    | Aborted

  // ---- Resets ----

  function Reset(s: State): State {
    s.(nextNonce := INIT, isInitiator := false, ourTemp := UNKNOWN, herTemp := UNKNOWN,
       sharedSecret := NoSecret, established := false, window := RP.EMPTY)
  }

  /** An unsigned 64-bit difference: a clock that runs backwards looks like a very long wait. */
  function Elapsed(now: nat, last: nat): nat {
    if now >= last then now - last else (TWO_64 - (last - now) % TWO_64) % TWO_64
  }

  predicate TimedOut(cfg: Config, s: State, now: nat) {
    var quiet := Elapsed(now, s.timeOfLastPacket);
    && s.nextNonce != SENT_HELLO
    && quiet >= cfg.setupResetAfterInactivity
    && (quiet < cfg.resetAfterInactivity ==> !s.established)
  }

  function ResetIfTimeout(cfg: Config, s: State, now: nat): State {
    if TimedOut(cfg, s, now) then Reset(s.(timeOfLastPacket := now % TWO_32)) else s
  }

  /**
   * New credentials start the session over.  Taking the password away from a session that has none
   * marks it as if it had one: its next packets carry that auth type over a random lookup.
   */
  function SetAuth(s: State, given: Option<Credentials>, withLogin: bool): State {
    match given
    case None =>
      if s.credentials.Some? || s.authKind != 0 then
        Reset(s.(credentials := None, authKind := 0))
      else
        Reset(s.(credentials := None, authKind := if withLogin then 2 else 1))
    case Some(c) =>
      if s.credentials.None? || s.credentials.value.passwordHash != c.passwordHash then
        Reset(s.(credentials := given, authKind := c.challenge.kind))
      else
        s
  }

  // ---- Sending ----

  function PasswordOf(s: State): Option<nat> {
    match s.credentials
    case None => None
    case Some(c) => Some(c.passwordHash)
  }

  function EncryptHandshake(cfg: Config, s: State, draw: Draw, body: seq<Byte>): (State, SendResult) {
    var auth := if s.credentials.Some? then s.credentials.value.challenge else Challenge(s.authKind, draw.lookup);
    var s1 := if s.nextNonce == INIT || s.nextNonce == RECEIVED_HELLO
              then s.(ourTemp := draw.tempKey) else s;
    var hello := s.nextNonce < RECEIVED_HELLO;
    var secret := GetSharedSecret(cfg.publicKey, if hello then cfg.herPublicKey else s1.herTemp, PasswordOf(s));
    var s2 := if hello then s1.(isInitiator := true, nextNonce := SENT_HELLO)
              else s1.(nextNonce := SENT_KEY);
    if cfg.herPublicKey == UNKNOWN
       || (!hello && (s1.herTemp == UNKNOWN || s1.nextNonce > SENT_KEY))
       || (s2.nextNonce < RECEIVED_HELLO) != (s2.herTemp == UNKNOWN)
    then (s, SendAborted)
    else
      var box := Box(secret, Random(draw.shakeNonce), Plain(s2.ourTemp, body));
      (s2, Sent(Packet(s.nextNonce, HEADER_SIZE + |body|, cfg.publicKey, auth, Random(draw.shakeNonce), box)))
  }

  function EncryptTraffic(cfg: Config, s: State, body: seq<Byte>): (State, SendResult) {
    if body == [] then (s, SendAborted)
    else
      var nonce24 := CounterNonce(s.nextNonce, s.isInitiator);
      var box := Box(s.sharedSecret, nonce24, Plain(UNKNOWN, body));
      (s.(nextNonce := (s.nextNonce + 1) % TWO_32),
       Sent(Packet(s.nextNonce, TRAFFIC_OVERHEAD + |body|, cfg.publicKey, Challenge(0, 0), nonce24, box)))
  }

  /** The resets a send goes through before anything else. */
  function BeforeSend(cfg: Config, s: State, now: nat): State {
    var s1 := ResetIfTimeout(cfg, s, now);
    if s1.nextNonce >= NONCE_LIMIT then Reset(s1) else s1
  }

  function Encrypt(cfg: Config, s: State, now: nat, draw: Draw, body: seq<Byte>): (State, SendResult) {
    var s1 := BeforeSend(cfg, s, now);
    if s1.nextNonce < RECEIVED_KEY then
      EncryptHandshake(cfg, s1, draw, body)
    else if s1.nextNonce == RECEIVED_KEY then
      if s1.ourTemp == UNKNOWN || s1.herTemp == UNKNOWN then (s1, SendAborted)
      else EncryptTraffic(cfg, s1.(sharedSecret := GetSharedSecret(s1.ourTemp, s1.herTemp, None)), body)
    else
      EncryptTraffic(cfg, s1, body)
  }

  // ---- Receiving ----

  function DecryptMessage(s: State, p: Packet, secret: Secret, undefined: int): (RP.Window, Verdict) {
    match Open(p.box, secret, CounterNonce(p.nonce, !s.isInitiator))
    case None => (s.window, Rejected(DecryptFailed))
    case Some(plain) =>
      var (w, ok) := RP.Check(s.window, p.nonce, undefined);
      (w, if ok then Accepted(plain.body, true) else Rejected(Replay))
  }

  /** What an opened handshake packet does to the session before the closing assignment. */
  datatype Effect =
    | Advance(state: State, next: nat)
    | Ignore
    | Refuse(error: DecryptErr)
    | Fail

  function OnKey(s: State, nonce: nat, temp: Key): Effect {
    if s.nextNonce == INIT || s.nextNonce == RECEIVED_HELLO || s.nextNonce == SENT_KEY then
      Refuse(StrayKey)
    else if s.nextNonce == SENT_HELLO then
      Advance(s.(herTemp := temp), RECEIVED_KEY)
    else if s.nextNonce == RECEIVED_KEY then
      if nonce == NONCE_KEY then Advance(s.(herTemp := temp), RECEIVED_KEY)
      else if s.herTemp != temp then Fail
      else Advance(s, RECEIVED_KEY)
    else if s.established then
      Fail
    else if nonce == NONCE_KEY then
      if s.ourTemp == UNKNOWN || temp == UNKNOWN then Fail
      else
        Advance(s.(herTemp := temp, sharedSecret := GetSharedSecret(s.ourTemp, temp, None)),
                (s.nextNonce + 1) % TWO_32)
    else if s.herTemp != temp then
      Fail
    else
      Advance(s, (s.nextNonce + 1) % TWO_32)
  }

  function OnHello(cfg: Config, s: State, temp: Key): Effect {
    if s.herTemp != temp then
      if s.nextNonce == SENT_HELLO then
        if cfg.herPublicKey < cfg.publicKey then
          Advance(Reset(s).(herTemp := temp), RECEIVED_HELLO)
        else
          Ignore
      else if s.nextNonce == INIT then
        Advance(s.(herTemp := temp), RECEIVED_HELLO)
      else
        Advance(Reset(s).(herTemp := temp), RECEIVED_HELLO)
    else if s.nextNonce == RECEIVED_HELLO || s.nextNonce == SENT_KEY then
      Advance(s, s.nextNonce)
    else
      Refuse(InvalidPacket)
  }

  /** The checks between opening the box and acting on it. */
  function AfterOpen(cfg: Config, s: State, nonce: nat, temp: Key): Effect {
    if temp == UNKNOWN then
      Refuse(WiseGuy)
    else if nonce == NONCE_HELLO && s.herTemp == temp then
      Refuse(InvalidPacket)
    else if nonce == NONCE_KEY && s.nextNonce >= RECEIVED_KEY && s.herTemp == temp then
      Refuse(InvalidPacket)
    else if nonce == NONCE_REPEAT_KEY && s.nextNonce >= RECEIVED_KEY && s.herTemp != temp then
      if s.herTemp == UNKNOWN then Fail else Refuse(InvalidPacket)
    else if nonce < NONCE_KEY then
      OnHello(cfg, s, temp)
    else
      OnKey(s, nonce, temp)
  }

  /** Nonces never go backward, and stand still only in the handshake. */
  function Finish(s: State, effect: Effect, body: seq<Byte>): (State, Verdict) {
    match effect
    case Fail => (s, Aborted)
    case Refuse(e) => (s, Rejected(e))
    case Ignore => (s, Accepted(body, false))
    case Advance(s', next) =>
      if s'.nextNonce < next || (s'.nextNonce <= RECEIVED_KEY && next == s'.nextNonce) then
        (s'.(nextNonce := next, window := RP.EMPTY), Accepted(body, false))
      else
        (s, Aborted)
  }

  /** The secret that should open a handshake packet, None when it is a stray key packet. */
  function HandshakeSecret(cfg: Config, s: State, nonce: nat, password: Option<nat>): Option<Secret> {
    if nonce < NONCE_KEY then Some(GetSharedSecret(cfg.publicKey, cfg.herPublicKey, password))
    else if !s.isInitiator then None
    else Some(GetSharedSecret(s.ourTemp, cfg.herPublicKey, password))
  }

  function DecryptHandshake(cfg: Config, s: State, p: Packet): (State, Verdict) {
    if p.length < HEADER_SIZE then
      (s, Rejected(Runt))
    else if cfg.herPublicKey == UNKNOWN then
      (s, Aborted)
    else if p.publicKey != cfg.herPublicKey then
      (s, Rejected(WrongPermPubkey))
    else if (s.nextNonce < RECEIVED_HELLO) != (s.herTemp == UNKNOWN) then
      (s, Aborted)
    else
      var user := GetAuth(cfg, p.auth);
      if user.Some? && !user.value.allowed then
        (s, Rejected(IpRestricted))
      else if cfg.requireAuth && user.None? then
        (s, Rejected(AuthRequired))
      else if user.None? && p.auth.kind != 0 then
        (s, Rejected(UnrecognizedAuth))
      else if p.nonce > NONCE_REPEAT_KEY then
        (s, Aborted)
      else
        var password := if user.Some? then Some(user.value.secret) else None;
        match HandshakeSecret(cfg, s, p.nonce, password)
        case None => (s, Rejected(StrayKey))
        case Some(secret) =>
          match Open(p.box, secret, p.shakeNonce)
          case None => (s, Rejected(HandshakeDecryptFailed))
          case Some(plain) => Finish(s, AfterOpen(cfg, s, p.nonce, plain.tempKey), plain.body)
  }

  /** The last handshake step, tried on every traffic packet until one opens. */
  function FinalStep(s: State, now: nat, p: Packet, undefined: int): (State, Verdict) {
    if s.nextNonce < SENT_KEY then
      (s, Rejected(NoSession))
    else if s.ourTemp == UNKNOWN || s.herTemp == UNKNOWN then
      (s, Aborted)
    else
      var secret := GetSharedSecret(s.ourTemp, s.herTemp, None);
      var (w, v) := DecryptMessage(s, p, secret, undefined);
      var s1 := s.(window := w.(baseOffset := (p.nonce + 1) % TWO_32, bitfield := 0));
      if v.Accepted? then
        (s1.(sharedSecret := secret, established := true, nextNonce := (s.nextNonce + 3) % TWO_32,
             timeOfLastPacket := now % TWO_32), v)
      else
        (s1, v)
  }

  function RunMessage(s: State, now: nat, p: Packet, undefined: int): (State, Verdict) {
    if s.sharedSecret == NoSecret then (s, Aborted)
    else
      var (w, v) := DecryptMessage(s, p, s.sharedSecret, undefined);
      (if v.Accepted? then s.(window := w, timeOfLastPacket := now % TWO_32) else s.(window := w), v)
  }

  function Decrypt(cfg: Config, s: State, now: nat, p: Packet, undefined: int): (State, Verdict) {
    if p.length < TRAFFIC_OVERHEAD then
      (s, Rejected(Runt))
    else if !s.established then
      if p.nonce >= NONCE_FIRST_TRAFFIC_PACKET then FinalStep(s, now, p, undefined)
      else DecryptHandshake(cfg, s, p)
    else if p.nonce >= NONCE_FIRST_TRAFFIC_PACKET then
      RunMessage(s, now, p, undefined)
    else if p.nonce <= NONCE_REPEAT_HELLO then
      DecryptHandshake(cfg, s, p)
    else
      (s, Rejected(KeyPktEstablishedSession))
  }
}
