/** The browser's socket handlers, as the code updates its state; the runs are in LiveTransfer. */
module WebSocketReceiver {
  import opened Wrappers
  import opened Bytes
  import opened Bitwise
  import opened Frames
  import opened FrameReceiver
  import opened LiveTransfer

  const TAG_BYTES: nat := 32

  class ReceivingSocket {
    const contentKey: Key
    const expectedBytes: Option<nat>
    const decoder: FrameDecoder
    var transferComplete: bool
    var settled: bool
    var outcome: Outcome

    constructor (open: Opener, contentKey: Key, expectedBytes: Option<nat>)
      ensures Valid() && fresh(decoder) && decoder.open == open
      ensures View() == Receiver(contentKey, expectedBytes, INITIAL_FRAME_STATE, false, Unsettled)
    {
      this.contentKey, this.expectedBytes := contentKey, expectedBytes;
      decoder := new FrameDecoder(open, contentKey);
      transferComplete, settled, outcome := false, false, Unsettled;
    }

    ghost predicate Valid()
      reads this
    {
      decoder.contentKey == contentKey && settled == !outcome.Unsettled?
    }

    ghost function View(): Receiver
      reads this, decoder
    {
      Receiver(contentKey, expectedBytes, decoder.State(), transferComplete, outcome)
    }

    method Reject()
      requires Valid()
      modifies this`settled, this`outcome
      ensures Valid() && View() == Settle(old(View()), Rejected)
    {
      if !settled {
        settled, outcome := true, Rejected;
      }
    }

    method Finish()
      requires Valid()
      modifies this`settled, this`outcome
      ensures Valid() && View() == LiveTransfer.Finish(old(View()))
    {
      if settled {
        return;
      }
      settled := true;
      if decoder.frameBuffer != [] || !transferComplete {
        outcome := Rejected;
      } else if expectedBytes.Some? && expectedBytes.value <= MAX_SAFE_INTEGER
                && decoder.receivedBytes != expectedBytes.value {
        outcome := Rejected;
      } else {
        outcome := Resolved(Flatten(decoder.plainChunks));
      }
    }

    method OnBinary(ghost tag: Tagger, ghost proofs: set<(Key, nat)>, data: seq<byte>)
      requires Valid()
      modifies this, decoder
      ensures Valid() && View() == ReceiverNext(decoder.open, tag, proofs, old(View()), Binary(data))
    {
      var threw := decoder.AppendEncryptedFrames(data);
      if threw {
        Reject();
      }
    }

    /**
     `verifyLiveCompletion`: the count, then the tag under the own content key, compared byte by byte in constant time.
     The tag is ideal: its value for a count exists as a message only if the sender made it.
     */
    method OnTransferComplete(tag: Tagger, ghost proofs: set<(Key, nat)>, plaintextBytes: int, proof: seq<byte>)
      requires Valid()
      requires |tag(contentKey, decoder.receivedBytes)| == TAG_BYTES
      requires proof == tag(contentKey, decoder.receivedBytes) ==> (contentKey, decoder.receivedBytes) in proofs
      modifies this
      ensures Valid()
      ensures View() == ReceiverNext(decoder.open, tag, proofs, old(View()), TransferComplete(plaintextBytes, proof))
    {
      if !(0 <= plaintextBytes <= MAX_SAFE_INTEGER) || plaintextBytes != decoder.receivedBytes {
        Reject();
        return;
      }
      var expected := tag(contentKey, decoder.receivedBytes);
      var genuine := SameTag(expected, proof);
      if !genuine {
        Reject();
        return;
      }
      transferComplete := true;
      Finish();
    }

    /** Folds the differences of all bytes; no early exit. */
    static method SameTag(expected: seq<byte>, proof: seq<byte>) returns (same: bool)
      requires |expected| == TAG_BYTES
      ensures same <==> proof == expected
    {
      if |proof| != TAG_BYTES {
        return false;
      }
      var difference: nat := 0;
      for i := 0 to TAG_BYTES
        invariant difference == 0 <==> proof[..i] == expected[..i]
      {
        XorIsZero(expected[i], proof[i]);
        OrIsZero(difference, BitXor(expected[i], proof[i]));
        assert proof[..i + 1] == proof[..i] + [proof[i]] && expected[..i + 1] == expected[..i] + [expected[i]];
        difference := BitOr(difference, BitXor(expected[i], proof[i]));
      }
      assert proof[..TAG_BYTES] == proof && expected[..TAG_BYTES] == expected;
      return difference == 0;
    }

    method OnClose(ghost tag: Tagger, ghost proofs: set<(Key, nat)>)
      requires Valid()
      modifies this
      ensures Valid() && View() == ReceiverNext(decoder.open, tag, proofs, old(View()), SocketClosed)
    {
      if !settled {
        var receivedExpectedBytes :=
          expectedBytes.Some? && expectedBytes.value <= MAX_SAFE_INTEGER && decoder.receivedBytes == expectedBytes.value;
        if transferComplete || receivedExpectedBytes {
          Finish();
        } else {
          Reject();
        }
      }
    }
  }
}
