/**
 * The session as the program keeps it: one object whose fields the calls update in place.  Each
 * method is proved to do to those fields what the function of the same name does to the value.
 */
module Session {
  import opened Prelude
  import opened CryptoAuth
  import RP = ReplayProtector

  class Session {
    const config: Config
    const replayProtector: RP.ReplayProtector

    var nextNonce: nat
    var isInitiator: bool
    var established: bool
    var ourTemp: Key
    var herTemp: Key
    var sharedSecret: Secret
    var timeOfLastPacket: nat
    var credentials: Option<Credentials>
    var authKind: nat

    function View(): State
      reads this, replayProtector
    {
      State(nextNonce, isInitiator, established, ourTemp, herTemp, sharedSecret,
            replayProtector.View(), timeOfLastPacket, credentials, authKind)
    }

    constructor (config: Config, now: nat)
      ensures View() == NewSession(now) && this.config == config && fresh(replayProtector)
    {
      this.config := config;
      replayProtector := new RP.ReplayProtector();
      nextNonce, isInitiator, established := INIT, false, false;
      ourTemp, herTemp, sharedSecret := UNKNOWN, UNKNOWN, NoSecret;
      timeOfLastPacket, credentials, authKind := now % TWO_32, None, 0;
    }

    method Reset()
      modifies this, replayProtector
      ensures View() == CryptoAuth.Reset(old(View()))
    {
      nextNonce := INIT;
      isInitiator := false;
      ourTemp := UNKNOWN;
      herTemp := UNKNOWN;
      sharedSecret := NoSecret;
      established := false;
      replayProtector.Clear();
    }

    method ResetIfTimeout(now: nat)
      modifies this, replayProtector
      ensures View() == CryptoAuth.ResetIfTimeout(config, old(View()), now)
    {
      if nextNonce == SENT_HELLO {
        return;
      }
      var quiet := Elapsed(now, timeOfLastPacket);
      if quiet < config.setupResetAfterInactivity {
        return;
      } else if quiet < config.resetAfterInactivity {
        if established { return; }
      }
      timeOfLastPacket := now % TWO_32;
      Reset();
    }

    method SetAuth(given: Option<Credentials>, withLogin: bool)
      modifies this, replayProtector
      ensures View() == CryptoAuth.SetAuth(old(View()), given, withLogin)
    {
      if given.None? && (credentials.Some? || authKind != 0) {
        credentials := None;
        authKind := 0;
      } else if credentials.None? || given.None? || credentials.value.passwordHash != given.value.passwordHash {
        credentials := given;
        authKind := match given
          case None => if withLogin then 2 else 1
          case Some(c) => c.challenge.kind;
      } else {
        return;
      }
      Reset();
    }

    /** Only called before the key packet has been received. */
    method EncryptHandshake(draw: Draw, body: seq<Byte>) returns (result: SendResult)
      requires nextNonce < RECEIVED_KEY
      modifies this
      ensures var (s, r) := CryptoAuth.EncryptHandshake(config, old(View()), draw, body);
              result == r && (r.Sent? ==> View() == s)
    {
      if config.herPublicKey == UNKNOWN {
        return SendAborted;
      }
      var auth := Challenge(authKind, draw.lookup);
      var passwordHash := None;
      if credentials.Some? {
        auth := credentials.value.challenge;
        passwordHash := Some(credentials.value.passwordHash);
      }
      var nonce := nextNonce;
      if nextNonce == INIT || nextNonce == RECEIVED_HELLO {
        ourTemp := draw.tempKey;
      }
      var secret;
      if nextNonce < RECEIVED_HELLO {
        secret := GetSharedSecret(config.publicKey, config.herPublicKey, passwordHash);
        isInitiator := true;
        nextNonce := SENT_HELLO;
      } else {
        if herTemp == UNKNOWN {
          return SendAborted;
        }
        secret := GetSharedSecret(config.publicKey, herTemp, passwordHash);
        nextNonce := SENT_KEY;
      }
      if (nextNonce < RECEIVED_HELLO) != (herTemp == UNKNOWN) {
        return SendAborted;
      }
      var box := Box(secret, Random(draw.shakeNonce), Plain(ourTemp, body));
      return Sent(Packet(nonce, HEADER_SIZE + |body|, config.publicKey, auth, Random(draw.shakeNonce), box));
    }

    method Encrypt(now: nat, draw: Draw, body: seq<Byte>) returns (result: SendResult)
      modifies this, replayProtector
      ensures var (s, r) := CryptoAuth.Encrypt(config, old(View()), now, draw, body);
              result == r && (r.Sent? ==> View() == s)
    {
      ResetIfTimeout(now);
      if nextNonce >= NONCE_LIMIT {
        Reset();
      }
      if nextNonce <= RECEIVED_KEY {
        if nextNonce < RECEIVED_KEY {
          result := EncryptHandshake(draw, body);
          return;
        } else {
          if ourTemp == UNKNOWN || herTemp == UNKNOWN {
            return SendAborted;
          }
          sharedSecret := GetSharedSecret(ourTemp, herTemp, None);
        }
      }
      if body == [] {
        return SendAborted;
      }
      var nonce24 := CounterNonce(nextNonce, isInitiator);
      var box := Box(sharedSecret, nonce24, Plain(UNKNOWN, body));
      var packet := Packet(nextNonce, TRAFFIC_OVERHEAD + |body|, config.publicKey, Challenge(0, 0), nonce24, box);
      nextNonce := (nextNonce + 1) % TWO_32;
      return Sent(packet);
    }

    method DecryptMessage(p: Packet, secret: Secret, undefined: int) returns (verdict: Verdict)
      requires p.nonce < TWO_32
      modifies replayProtector
      ensures (replayProtector.View(), verdict) == CryptoAuth.DecryptMessage(old(View()), p, secret, undefined)
    {
      var plain := Open(p.box, secret, CounterNonce(p.nonce, !isInitiator));
      if plain.None? {
        return Rejected(DecryptFailed);
      }
      var ok := replayProtector.CheckNonce(p.nonce, undefined);
      if !ok {
        return Rejected(Replay);
      }
      return Accepted(plain.value.body, true);
    }

    /** What an opened key packet does; false when an assertion fails. */
    method ApplyKey(nonce: nat, temp: Key) returns (next: nat, refused: bool, ok: bool)
      modifies this
      ensures match OnKey(old(View()), nonce, temp)
              case Advance(s, n) => ok && !refused && View() == s && next == n
              case Refuse(e) => ok && refused && e == StrayKey && View() == old(View())
              case _ => !ok
    {
      next, refused, ok := RECEIVED_KEY, false, true;
      if nextNonce == INIT || nextNonce == RECEIVED_HELLO || nextNonce == SENT_KEY {
        refused := true;
      } else if nextNonce == SENT_HELLO {
        herTemp := temp;
      } else if nextNonce == RECEIVED_KEY {
        if nonce == NONCE_KEY {
          herTemp := temp;
        } else if herTemp != temp {
          ok := false;
        }
      } else {
        if established {
          ok := false;
          return;
        }
        if nonce == NONCE_KEY {
          if ourTemp == UNKNOWN || temp == UNKNOWN {
            ok := false;
            return;
          }
          herTemp := temp;
          sharedSecret := GetSharedSecret(ourTemp, herTemp, None);
        } else if herTemp != temp {
          ok := false;
        }
        next := (nextNonce + 1) % TWO_32;
      }
    }

    /** What an opened hello does; `done` means accepted without touching the session. */
    method ApplyHello(temp: Key) returns (next: nat, refused: bool, done: bool)
      modifies this, replayProtector
      ensures match OnHello(config, old(View()), temp)
              case Advance(s, n) => !refused && !done && View() == s && next == n
              case Refuse(e) => refused && e == InvalidPacket && View() == old(View())
              case Ignore => !refused && done && View() == old(View())
              case Fail => false
    {
      next, refused, done := RECEIVED_HELLO, false, false;
      if herTemp != temp {
        if nextNonce == SENT_HELLO {
          if config.herPublicKey < config.publicKey {
            Reset();
            herTemp := temp;
          } else {
            done := true;
          }
        } else if nextNonce == INIT {
          herTemp := temp;
        } else {
          Reset();
          herTemp := temp;
        }
      } else if nextNonce == RECEIVED_HELLO || nextNonce == SENT_KEY {
        next := nextNonce;
      } else {
        refused := true;
      }
    }

    /** The closing assertion and assignment of a handshake packet. */
    method Conclude(next: nat, body: seq<Byte>) returns (verdict: Verdict)
      modifies this, replayProtector
      ensures var (s, v) := Finish(old(View()), Advance(old(View()), next), body);
              verdict == v && (v != Aborted ==> View() == s)
    {
      if !(nextNonce < next || (nextNonce <= RECEIVED_KEY && next == nextNonce)) {
        return Aborted;
      }
      nextNonce := next;
      replayProtector.Clear();
      return Accepted(body, false);
    }

    method ActOn(nonce: nat, plain: Plain) returns (verdict: Verdict)
      requires nonce <= NONCE_REPEAT_KEY
      modifies this, replayProtector
      ensures var (s, v) := Finish(old(View()), AfterOpen(config, old(View()), nonce, plain.tempKey), plain.body);
              verdict == v && (v != Aborted ==> View() == s)
    {
      var temp := plain.tempKey;
      if temp == UNKNOWN {
        return Rejected(WiseGuy);
      }
      if nonce == NONCE_HELLO {
        if herTemp == temp {
          return Rejected(InvalidPacket);
        }
      } else if nonce == NONCE_KEY && nextNonce >= RECEIVED_KEY {
        if herTemp == temp {
          return Rejected(InvalidPacket);
        }
      } else if nonce == NONCE_REPEAT_KEY && nextNonce >= RECEIVED_KEY {
        if herTemp != temp {
          if herTemp == UNKNOWN { return Aborted; }
          return Rejected(InvalidPacket);
        }
      }
      var next, refused;
      if nonce >= NONCE_KEY {
        var ok;
        next, refused, ok := ApplyKey(nonce, temp);
        if !ok { return Aborted; }
        if refused { return Rejected(StrayKey); }
      } else {
        var done;
        next, refused, done := ApplyHello(temp);
        if refused { return Rejected(InvalidPacket); }
        if done { return Accepted(plain.body, false); }
      }
      verdict := Conclude(next, plain.body);
    }

    method DecryptHandshake(p: Packet) returns (verdict: Verdict)
      modifies this, replayProtector
      ensures var (s, v) := CryptoAuth.DecryptHandshake(config, old(View()), p);
              verdict == v && (v != Aborted ==> View() == s)
    {
      if p.length < HEADER_SIZE {
        return Rejected(Runt);
      }
      if config.herPublicKey == UNKNOWN {
        return Aborted;
      }
      if p.publicKey != config.herPublicKey {
        return Rejected(WrongPermPubkey);
      }
      if (nextNonce < RECEIVED_HELLO) != (herTemp == UNKNOWN) {
        return Aborted;
      }
      var user := GetAuth(config, p.auth);
      var passwordHash := None;
      if user.Some? {
        passwordHash := Some(user.value.secret);
        if !user.value.allowed {
          return Rejected(IpRestricted);
        }
      }
      if config.requireAuth && user.None? {
        return Rejected(AuthRequired);
      }
      if user.None? && p.auth.kind != 0 {
        return Rejected(UnrecognizedAuth);
      }
      var secret;
      if p.nonce < NONCE_KEY {
        secret := GetSharedSecret(config.publicKey, config.herPublicKey, passwordHash);
      } else {
        if p.nonce > NONCE_REPEAT_KEY {
          return Aborted;
        }
        if !isInitiator {
          return Rejected(StrayKey);
        }
        secret := GetSharedSecret(ourTemp, config.herPublicKey, passwordHash);
      }
      var plain := Open(p.box, secret, p.shakeNonce);
      if plain.None? {
        return Rejected(HandshakeDecryptFailed);
      }
      verdict := ActOn(p.nonce, plain.value);
    }

    method Decrypt(now: nat, p: Packet, undefined: int) returns (verdict: Verdict)
      requires p.nonce < TWO_32
      modifies this, replayProtector
      ensures var (s, v) := CryptoAuth.Decrypt(config, old(View()), now, p, undefined);
              verdict == v && (v != Aborted ==> View() == s)
    {
      hide CryptoAuth.DecryptHandshake, CryptoAuth.DecryptMessage;
      if p.length < TRAFFIC_OVERHEAD {
        return Rejected(Runt);
      }
      if !established {
        if p.nonce >= NONCE_FIRST_TRAFFIC_PACKET {
          if nextNonce < SENT_KEY {
            return Rejected(NoSession);
          }
          if ourTemp == UNKNOWN || herTemp == UNKNOWN {
            return Aborted;
          }
          var secret := GetSharedSecret(ourTemp, herTemp, None);
          verdict := DecryptMessage(p, secret, undefined);
          replayProtector.baseOffset := (p.nonce + 1) % TWO_32;
          replayProtector.bitfield := 0;
          if verdict.Accepted? {
            sharedSecret := secret;
            established := true;
            nextNonce := (nextNonce + 3) % TWO_32;
            timeOfLastPacket := now % TWO_32;
          }
          return;
        }
        verdict := DecryptHandshake(p);
      } else if p.nonce >= NONCE_FIRST_TRAFFIC_PACKET {
        if sharedSecret == NoSecret {
          return Aborted;
        }
        verdict := DecryptMessage(p, sharedSecret, undefined);
        if verdict.Accepted? {
          timeOfLastPacket := now % TWO_32;
        }
      } else if p.nonce <= NONCE_REPEAT_HELLO {
        verdict := DecryptHandshake(p);
      } else {
        verdict := Rejected(KeyPktEstablishedSession);
      }
    }
  }
}
