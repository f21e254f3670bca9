/** The live-share object itself: each method is the stretch of a handler between two awaits. */
module LiveShareObject {
  import opened Wrappers
  import opened LiveShare
  import opened Bytes
  import opened Base64Url
  import opened Pin
  import opened PinCheck
  import PinBudget

  /** The parsed body of an admission request. */
  datatype AdmitBody = AdmitBody(clientKey: Option<string>, clientProof: Option<string>, pin: Option<string>)

  /** The test of the handler: 43 characters of the alphabet. */
  predicate EncodedKey(text: Option<string>) {
    text.Some? && |text.value| == 43 && InAlphabet(text.value)
  }

  /** What it stands for: the text of 32 bytes. */
  predicate IsKey(text: Option<string>) {
    text.Some? && Decode(text.value).Some? && |Decode(text.value).value| == 32
  }

  /** The test accepts exactly the texts of 32 bytes. */
  lemma EncodedKeyIs(text: Option<string>)
    ensures EncodedKey(text) <==> IsKey(text)
  {
    hide Decode, InAlphabet;
    if text.Some? {
      DecodesExactly(text.value);
    }
  }

  /** So of the encodings it accepts exactly those of 32 bytes. */
  lemma EncodingsAccepted(key: seq<byte>)
    ensures EncodedKey(Some(Encode(key))) <==> |key| == 32
  {
    hide Encode, InAlphabet;
    EncodedIs(key);
  }

  /** The request names a key and a proof. */
  predicate NamesKeys(body: Option<AdmitBody>) {
    body.Some? && IsKey(body.value.clientKey) && IsKey(body.value.clientProof)
  }

  /** The request of a receiver, built from its key, its proof and the PIN the user typed, if any. */
  function RequestOf(key: seq<byte>, proof: seq<byte>, typed: Option<string>): AdmitBody {
    AdmitBody(Some(Encode(key)), Some(Encode(proof)), typed)
  }

  lemma TypedIsSent(key: seq<byte>, proof: seq<byte>, typed: Option<string>)
    ensures RequestOf(key, proof, typed).pin == typed
  {
  }

  lemma RequestsNameKeys(key: seq<byte>, proof: seq<byte>, typed: Option<string>)
    ensures NamesKeys(Some(RequestOf(key, proof, typed))) <==> |key| == 32 && |proof| == 32
  {
    EncodingsAccepted(key);
    EncodingsAccepted(proof);
    EncodedKeyIs(Some(Encode(key)));
    EncodedKeyIs(Some(Encode(proof)));
    hide EncodedKey, IsKey, Encode;
  }

  class LiveShareDO {
    const shareId: nat
    const pin: PinMaterial
    var status: Status
    var joinToken: Option<Token>
    var joinTokenExpiresAt: Option<nat>
    var joinVersion: nat
    var admissionPending: bool
    var senderSocket: Option<Socket>
    var receiverSocket: Option<Socket>
    var joinWaiters: map<nat, nat>
    var pendingReceiverBinary: seq<Message>
    var openSockets: set<Socket>

    /** Token and expiry are set and cleared together. */
    ghost predicate Valid()
      reads this
    {
      joinToken.Some? == joinTokenExpiresAt.Some?
    }

    ghost function View(): Share
      reads this
      requires Valid()
    {
      Share(status, if joinToken.Some? then Some(JoinToken(joinToken.value, joinTokenExpiresAt.value)) else None, joinVersion,
            admissionPending, senderSocket, receiverSocket, joinWaiters, pendingReceiverBinary, openSockets)
    }

    constructor (shareId: nat, pin: PinMaterial)
      ensures Valid() && View() == Share(Waiting, None, 0, false, None, None, map[], [], {})
      ensures this.shareId == shareId && this.pin == pin
    {
      this.shareId, this.pin := shareId, pin;
      status, joinToken, joinTokenExpiresAt, joinVersion, admissionPending := Waiting, None, None, 0, false;
      senderSocket, receiverSocket, joinWaiters, pendingReceiverBinary, openSockets := None, None, map[], [], {};
    }

    method Admit(token: Token, now: nat) returns (version: Option<nat>)
      requires Valid()
      modifies this
      ensures Valid() && (View(), version.Some?) == BeginAdmission(old(View()), token, now)
      ensures version.Some? <==> old(status) == Waiting && !old(admissionPending)
      ensures View() == if version.None? then old(View())
                        else old(View()).(admissionPending := true, joinVersion := old(joinVersion) + 1,
                                          joinToken := Some(JoinToken(token, now + 90_000)))
      ensures version.Some? ==> version.value == joinVersion
    {
      if admissionPending || status != Waiting {
        return None;
      }
      admissionPending := true;
      joinVersion := joinVersion + 1;
      joinToken, joinTokenExpiresAt := Some(token), Some(now + JOIN_TOKEN_TTL_MS);
      status := Waiting;
      return Some(joinVersion);
    }

    method AskSender(version: nat, handler: nat) returns (ok: bool)
      requires Valid()
      modifies this
      ensures Valid() && (View(), ok) == RequestSenderJoin(old(View()), version, handler)
      ensures ok <==> old(senderSocket).Some? && old(senderSocket).value in old(openSockets)
      ensures View() == if ok then old(View()).(waiters := old(joinWaiters)[version := handler]) else old(View())
    {
      if senderSocket.None? || senderSocket.value !in openSockets {
        return false;
      }
      joinWaiters := joinWaiters[version := handler];
      return true;
    }

    method JoinSucceeded()
      requires Valid()
      modifies this
      ensures Valid() && View() == Activate(old(View())) == old(View()).(status := Active)
    {
      status := Active;
    }

    method ClearJoinToken()
      modifies this
      ensures Valid() && joinToken.None?
      ensures old(Valid()) ==> View() == old(View()).(joinToken := None)
    {
      joinToken, joinTokenExpiresAt := None, None;
    }

    method JoinFailed()
      requires Valid()
      modifies this
      ensures Valid() && View() == FailJoin(old(View())) == old(View()).(joinToken := None, status := Waiting)
    {
      ClearJoinToken();
      status := Waiting;
    }

    method AdmissionEnded()
      requires Valid()
      modifies this
      ensures Valid() && View() == EndAdmission(old(View())) == old(View()).(admissionPending := false)
    {
      admissionPending := false;
    }

    /** Hands the sender's answer to the handler waiting for it, if any. */
    method TakeWaiter(version: nat) returns (handler: Option<nat>)
      requires Valid()
      modifies this
      ensures Valid() && handler == (if version in old(joinWaiters) then Some(old(joinWaiters)[version]) else None)
      ensures View() == old(View()).(waiters := old(joinWaiters) - {version})
    {
      if version in joinWaiters {
        handler := Some(joinWaiters[version]);
        joinWaiters := joinWaiters - {version};
      } else {
        handler := None;
        assert joinWaiters - {version} == joinWaiters;
      }
    }

    method ConnectSenderSocket(socket: Socket)
      requires Valid()
      modifies this
      ensures Valid() && View() == ConnectSender(old(View()), socket)
      ensures senderSocket == Some(socket) && socket in openSockets
      ensures forall other :: other != socket && old(senderSocket) != Some(other) ==>
                (other in openSockets <==> other in old(openSockets))
      ensures forall other :: other != socket && old(senderSocket) == Some(other) ==> other !in openSockets
    {
      if senderSocket.Some? {
        openSockets := openSockets - {senderSocket.value};
      }
      senderSocket := Some(socket);
      openSockets := openSockets + {socket};
    }

    method ConnectReceiverSocket(token: Token, now: nat) returns (accepted: bool)
      requires Valid()
      modifies this
      ensures Valid() && (View(), accepted) == SpendJoinToken(old(View()), token, now)
      ensures accepted <==> old(joinToken) == Some(token) && now <= old(joinTokenExpiresAt).value && old(receiverSocket).None?
      ensures View() == if accepted then old(View()).(joinToken := None) else old(View())
    {
      if joinToken != Some(token) || joinTokenExpiresAt.None? || now > joinTokenExpiresAt.value {
        return false;
      }
      if receiverSocket.Some? {
        return false;
      }
      ClearJoinToken();
      return true;
    }

    method AttachReceiverSocket(socket: Socket) returns (sent: seq<Message>)
      requires Valid()
      modifies this
      ensures Valid() && (View(), sent) == AttachReceiver(old(View()), socket)
      ensures receiverSocket == Some(socket)
      ensures if socket in openSockets then sent == old(pendingReceiverBinary) && pendingReceiverBinary == []
              else sent == [] && pendingReceiverBinary == old(pendingReceiverBinary)
    {
      receiverSocket := Some(socket);
      sent := FlushPendingReceiverBinary();
    }

    /** Sends the buffered messages one by one, in order, to an open receiver. */
    method FlushPendingReceiverBinary() returns (sent: seq<Message>)
      requires Valid()
      modifies this`pendingReceiverBinary
      ensures Valid()
      ensures if ReceiverOpen(old(View())) then sent == old(pendingReceiverBinary) && pendingReceiverBinary == []
              else sent == [] && pendingReceiverBinary == old(pendingReceiverBinary)
    {
      sent := [];
      if receiverSocket.None? || receiverSocket.value !in openSockets {
        return;
      }
      for i := 0 to |pendingReceiverBinary|
        invariant sent == pendingReceiverBinary[..i]
        invariant pendingReceiverBinary == old(pendingReceiverBinary)
      {
        sent := sent + [pendingReceiverBinary[i]];
      }
      pendingReceiverBinary := [];
    }

    method RelayToReceiver(data: Message) returns (sent: seq<Message>)
      requires Valid()
      modifies this`pendingReceiverBinary
      ensures Valid() && (View(), sent) == Relay(old(View()), data)
      ensures if receiverSocket.Some? && receiverSocket.value in openSockets
              then sent == [data] && pendingReceiverBinary == old(pendingReceiverBinary)
              else sent == [] && pendingReceiverBinary == old(pendingReceiverBinary) + [data]
    {
      if receiverSocket.None? || receiverSocket.value !in openSockets {
        pendingReceiverBinary := pendingReceiverBinary + [data];
        return [];
      }
      return [data];
    }

    method StartCompletion() returns (accepted: bool)
      requires Valid()
      modifies this
      ensures Valid() && (View(), accepted) == BeginComplete(old(View()))
      ensures accepted <==> old(status) == Waiting || old(status) == Active
      ensures View() == if accepted then old(View()).(status := Completed, joinToken := None) else old(View())
    {
      if status == Completed || status == Expired || status == Cancelled || status == Failed {
        return false;
      }
      status := Completed;
      ClearJoinToken();
      return true;
    }

    /** `told` says whether the completion was sent to the receiver, `rejected` are the handlers whose join fails. */
    method EndCompletion() returns (told: bool, rejected: set<nat>)
      requires Valid()
      modifies this
      ensures Valid() && (View(), told) == FinishComplete(old(View()))
      ensures told <==> old(receiverSocket).Some? && old(receiverSocket).value in old(openSockets)
      ensures joinWaiters == map[] && senderSocket == None && receiverSocket == old(receiverSocket) && status == old(status)
      ensures forall socket :: socket in openSockets <==> socket in old(openSockets) && old(senderSocket) != Some(socket)
      ensures rejected == old(joinWaiters).Values
    {
      rejected := joinWaiters.Values;
      joinWaiters := map[];
      told := receiverSocket.Some? && receiverSocket.value in openSockets;
      if senderSocket.Some? {
        openSockets := openSockets - {senderSocket.value};
      }
      senderSocket := None;
    }

    method StartClosing(reason: Status)
      requires Valid()
      modifies this
      ensures Valid() && View() == BeginClose(old(View()), reason) == old(View()).(status := reason)
    {
      status := reason;
    }

    method EndClosing() returns (rejected: set<nat>)
      requires Valid()
      modifies this
      ensures Valid() && View() == FinishClose(old(View())) && rejected == old(joinWaiters).Values
      ensures joinWaiters == map[] && senderSocket == None && receiverSocket == None && pendingReceiverBinary == []
      ensures status == old(status) && joinToken == old(joinToken)
      ensures forall socket :: socket in openSockets
                <==> socket in old(openSockets) && old(senderSocket) != Some(socket) && old(receiverSocket) != Some(socket)
    {
      rejected := joinWaiters.Values;
      joinWaiters := map[];
      if senderSocket.Some? {
        openSockets := openSockets - {senderSocket.value};
      }
      if receiverSocket.Some? {
        openSockets := openSockets - {receiverSocket.value};
      }
      senderSocket, receiverSocket := None, None;
      pendingReceiverBinary := [];
    }

    // ---------- whole handlers, undisturbed ----------

    /**
     One admission from request to answer: `answer` is the sender's, or none when it times out.  A failed admission
     leaves the share waiting with no token and nobody waiting for an answer.  Exactly a missing or wrong PIN in a
     well-formed request to a share that may be joined costs an attempt.
     */
    method HandleAdmit(guard: PinBudget.AccessGuard, derive: Derive, ip: nat, body: Option<AdmitBody>, token: Token,
                       handler: nat, pinAt: nat, now: nat, answer: Option<bool>)
      returns (disclosed: Option<Token>)
      requires Valid() && pinAt <= now
      modifies this, guard
      ensures Valid()
      ensures var begins := && old(status) == Waiting && !old(admissionPending)
                            && old(senderSocket).Some? && old(senderSocket).value in old(openSockets) && NamesKeys(body)
                            && (pin.hash != "" ==> HasBudget(old(guard.rows), ip, shareId, pinAt)
                                                   && Guessed(derive, pin, body.value.pin));
              var after := old(View()).(joinVersion := old(joinVersion) + 1, waiters := old(joinWaiters) - {old(joinVersion) + 1});
              && disclosed == (if begins && answer == Some(true) then Some(token) else None)
              && View() == if !begins then old(View())
                           else if answer == Some(true)
                           then after.(status := Active, joinToken := Some(JoinToken(token, now + JOIN_TOKEN_TTL_MS)))
                           else after.(status := Waiting, joinToken := None)
      ensures var wasted := && (old(status) == Waiting || old(status) == Failed)
                            && old(senderSocket).Some? && old(senderSocket).value in old(openSockets) && NamesKeys(body)
                            && Wasted(old(guard.rows), derive, pin, ip, shareId, body.value.pin, pinAt);
              forall scope :: PinBudget.Remaining(guard.rows, scope, pinAt)
                == PinBudget.Remaining(old(guard.rows), scope, pinAt) - if wasted && Charged(scope, ip, shareId) then 1 else 0
    {
      hide HasBudget, Guessed, Charged, EncodedKey, IsKey;
      if !(status == Waiting || status == Failed) || senderSocket.None? || senderSocket.value !in openSockets {
        return None;
      }
      if body.None? {
        return None;
      }
      EncodedKeyIs(body.value.clientKey);
      EncodedKeyIs(body.value.clientProof);
      if !EncodedKey(body.value.clientKey) || !EncodedKey(body.value.clientProof) {
        return None;
      }
      var passed := CheckPin(guard, derive, pin, ip, shareId, body.value.pin, pinAt);
      if !passed {
        return None;
      }
      disclosed := Join(token, handler, now, answer);
    }

    /** The admission proper, from its guard to its answer. */
    method Join(token: Token, handler: nat, now: nat, answer: Option<bool>) returns (disclosed: Option<Token>)
      requires Valid() && senderSocket.Some? && senderSocket.value in openSockets
      modifies this
      ensures Valid()
      ensures var begins := old(status) == Waiting && !old(admissionPending);
              var after := old(View()).(joinVersion := old(joinVersion) + 1, waiters := old(joinWaiters) - {old(joinVersion) + 1});
              && disclosed == (if begins && answer == Some(true) then Some(token) else None)
              && View() == if !begins then old(View())
                           else if answer == Some(true)
                           then after.(status := Active, joinToken := Some(JoinToken(token, now + JOIN_TOKEN_TTL_MS)))
                           else after.(status := Waiting, joinToken := None)
    {
      var version := Admit(token, now);
      if version.None? {
        return None;
      }
      var asked := AskSender(version.value, handler);
      var waiting := TakeWaiter(version.value);
      assert joinWaiters == old(joinWaiters) - {version.value};
      if asked && answer == Some(true) {
        JoinSucceeded();
        disclosed := Some(token);
      } else {
        JoinFailed();
        disclosed := None;
      }
      AdmissionEnded();
    }

    /** A receiver's connection: the socket is attached exactly when its token is valid, and gets all that was buffered. */
    method HandleReceiver(socket: Socket, token: Token, now: nat) returns (sent: seq<Message>)
      requires Valid()
      modifies this
      ensures Valid()
      ensures if old(joinToken) == Some(token) && now <= old(joinTokenExpiresAt).value && old(receiverSocket).None?
              then View() == old(View()).(joinToken := None, receiver := Some(socket), pending := [],
                                          open := old(openSockets) + {socket})
                   && sent == old(pendingReceiverBinary)
              else View() == old(View()) && sent == []
    {
      var accepted := ConnectReceiverSocket(token, now);
      if !accepted {
        return [];
      }
      openSockets := openSockets + {socket};
      sent := AttachReceiverSocket(socket);
    }

    /** A completion message: its effect in full, or none in a terminal status. */
    method HandleTransferComplete() returns (told: bool, rejected: set<nat>)
      requires Valid()
      modifies this
      ensures Valid()
      ensures if old(status) != Waiting && old(status) != Active then View() == old(View()) && !told && rejected == {}
              else && status == Completed && joinToken.None? && joinWaiters == map[] && senderSocket.None?
                   && receiverSocket == old(receiverSocket) && pendingReceiverBinary == old(pendingReceiverBinary)
                   && told == (old(receiverSocket).Some? && old(receiverSocket).value in old(openSockets))
                   && rejected == old(joinWaiters).Values
    {
      var accepted := StartCompletion();
      if !accepted {
        return false, {};
      }
      told, rejected := EndCompletion();
    }

    method CloseShare(reason: Status) returns (rejected: set<nat>)
      requires Valid()
      modifies this
      ensures Valid() && status == reason && joinToken == old(joinToken) && rejected == old(joinWaiters).Values
      ensures senderSocket.None? && receiverSocket.None? && pendingReceiverBinary == [] && joinWaiters == map[]
    {
      StartClosing(reason);
      rejected := EndClosing();
    }

    /** Relays messages one after the other. */
    method RelayAll(messages: seq<Message>) returns (sent: seq<Message>)
      requires Valid()
      modifies this`pendingReceiverBinary
      ensures Valid()
      ensures if ReceiverOpen(old(View())) then sent == messages && View() == old(View())
              else sent == [] && View() == old(View()).(pending := old(pendingReceiverBinary) + messages)
    {
      sent := [];
      assert old(pendingReceiverBinary) + messages[..0] == old(pendingReceiverBinary);
      for i := 0 to |messages|
        invariant Valid()
        invariant if ReceiverOpen(old(View())) then sent == messages[..i] && View() == old(View())
                  else sent == [] && View() == old(View()).(pending := old(pendingReceiverBinary) + messages[..i])
      {
        assert messages[..i + 1] == messages[..i] + [messages[i]];
        var out := RelayToReceiver(messages[i]);
        sent := sent + out;
      }
      assert messages[..|messages|] == messages;
    }

    /**
     A whole transfer, undisturbed: for any 32-byte key and proof of the receiver, on a share without a PIN or with the
     sender's PIN typed rightly, and whatever the sender sends before the receiver connects and after, the receiver gets
     exactly all of it in order, and then the completion.
     */
    method TransferUndisturbed(guard: PinBudget.AccessGuard, derive: Derive, salt: seq<byte>, typed: Option<string>, ip: nat,
                               key: seq<byte>, proof: seq<byte>, token: Token, handler: nat, senderEnd: Socket,
                               receiverEnd: Socket, now: nat, later: nat, early: seq<Message>, late: seq<Message>)
      returns (received: seq<Message>, told: bool)
      requires Valid() && View() == Share(Waiting, None, 0, false, None, None, map[], [], {})
      requires |key| == 32 && |proof| == 32
      requires pin == NO_PIN
               || (IsHash(derive) && |salt| == SALT_LEN && typed.Some? && FourDigits(typed.value)
                   && pin == HashPin(derive, salt, typed.value)
                   && PinBudget.Remaining(guard.rows, PinBudget.Global(ip), now) > 0
                   && PinBudget.Remaining(guard.rows, PinBudget.Share(shareId, ip), now) > 0)
      requires senderEnd != receiverEnd && later <= now + JOIN_TOKEN_TTL_MS
      modifies this, guard
      ensures Valid() && received == early + late && told && status == Completed && joinToken.None?
    {
      RequestsNameKeys(key, proof, typed);
      if typed.Some? && IsHash(derive) && |salt| == SALT_LEN {
        GuessesMatchExactly(derive, salt, typed.value, typed.value);
      }
      hide NamesKeys, RequestOf, PinMatches, HashPin;
      ConnectSenderSocket(senderEnd);
      var body := RequestOf(key, proof, typed);
      assert body.pin == typed by { TypedIsSent(key, proof, typed); }
      var disclosed := HandleAdmit(guard, derive, ip, Some(body), token, handler, now, now, Some(true));
      received, told := TransferAdmitted(token, receiverEnd, later, early, late);
    }

    /** From an admission that disclosed its token to the completion. */
    method TransferAdmitted(token: Token, receiverEnd: Socket, later: nat, early: seq<Message>, late: seq<Message>)
      returns (received: seq<Message>, told: bool)
      requires Valid() && status == Active && receiverSocket.None? && pendingReceiverBinary == []
      requires joinToken == Some(token) && later <= joinTokenExpiresAt.value
      modifies this
      ensures Valid() && received == early + late && told && status == Completed && joinToken.None?
    {
      var first := RelayAll(early);
      var second := HandleReceiver(receiverEnd, token, later);
      var third := RelayAll(late);
      received := first + second + third;
      var rejected;
      told, rejected := HandleTransferComplete();
    }
  }
}
