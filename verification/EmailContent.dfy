/** The recipients of a notification: at most five addresses, distinct up to letter case, in the order given. */
module EmailContent {
  import opened Wrappers
  import opened IpQuota

  const MAX_ADDRESS_LENGTH: nat := 254

  /** A JSON value of the request's recipient list. */
  datatype Value = Text(text: string) | OtherValue

  datatype ParseError = InvalidRecipients

  /** Trimming, lower-casing and the address pattern are the platform's own. */
  datatype Rules = Rules(trim: string -> string, lower: string -> string, looksValid: string -> bool)

  function Address(rules: Rules, value: Value): string {
    if value.Text? then rules.trim(value.text) else ""
  }

  function Addresses(rules: Rules, values: seq<Value>): seq<string> {
    if values == [] then [] else Addresses(rules, values[..|values| - 1]) + [Address(rules, values[|values| - 1])]
  }

  /** No earlier address has the same key. */
  predicate IsFirst(rules: Rules, addresses: seq<string>, i: nat)
    requires i < |addresses|
  {
    forall j :: 0 <= j < i ==> rules.lower(addresses[j]) != rules.lower(addresses[i])
  }

  /** The addresses that are the first with their key, in order. */
  function FirstOccurrences(rules: Rules, addresses: seq<string>): seq<string> {
    if addresses == [] then []
    else
      var n := |addresses| - 1;
      FirstOccurrences(rules, addresses[..n]) + if IsFirst(rules, addresses, n) then [addresses[n]] else []
  }

  function Keys(rules: Rules, addresses: seq<string>): set<string> {
    set a | a in addresses :: rules.lower(a)
  }

  lemma KeysSnoc(rules: Rules, addresses: seq<string>, last: string)
    ensures Keys(rules, addresses + [last]) == Keys(rules, addresses) + {rules.lower(last)}
  {
  }

  lemma KeysOf(rules: Rules, addresses: seq<string>, key: string)
    ensures key in Keys(rules, addresses) <==> exists i :: 0 <= i < |addresses| && rules.lower(addresses[i]) == key
  {
    if i :| 0 <= i < |addresses| && rules.lower(addresses[i]) == key {
      assert addresses[i] in addresses;
    }
  }

  /** Deduplication loses no key and keeps no key twice. */
  lemma {:induction false} FirstOccurrencesAreDistinct(rules: Rules, addresses: seq<string>)
    ensures var firsts := FirstOccurrences(rules, addresses);
            && Keys(rules, firsts) == Keys(rules, addresses)
            && (forall i, j :: 0 <= i < j < |firsts| ==> rules.lower(firsts[i]) != rules.lower(firsts[j]))
            && (forall a :: a in firsts ==> a in addresses)
            && |firsts| == |Keys(rules, addresses)|
    decreases |addresses|
  {
    hide Keys, IsFirst;
    if addresses == [] {
      NoKeys(rules);
    } else {
      var n := |addresses| - 1;
      var before, last := addresses[..n], addresses[n];
      FirstOccurrencesAreDistinct(rules, before);
      var firsts := FirstOccurrences(rules, before);
      assert addresses == before + [last];
      KeysSnoc(rules, before, last);
      KeysSnoc(rules, firsts, last);
      FirstMeansNewKey(rules, addresses, n);
      KeysOf(rules, firsts, rules.lower(last));
      if !IsFirst(rules, addresses, n) {
        assert Keys(rules, before) + {rules.lower(last)} == Keys(rules, before);
        assert firsts + [] == firsts;
      }
    }
  }

  lemma NoKeys(rules: Rules)
    ensures Keys(rules, []) == {}
  {
  }

  lemma FirstMeansNewKey(rules: Rules, addresses: seq<string>, n: nat)
    requires n < |addresses|
    ensures IsFirst(rules, addresses, n) <==> rules.lower(addresses[n]) !in Keys(rules, addresses[..n])
  {
    if rules.lower(addresses[n]) in Keys(rules, addresses[..n]) {
      var a :| a in addresses[..n] && rules.lower(a) == rules.lower(addresses[n]);
    } else {
      forall j | 0 <= j < n
        ensures rules.lower(addresses[j]) != rules.lower(addresses[n])
      {
        assert addresses[j] in addresses[..n];
      }
    }
  }

  lemma OneMore(rules: Rules, values: seq<Value>, i: nat)
    requires i < |values|
    ensures var before, after := Addresses(rules, values[..i]), Addresses(rules, values[..i + 1]);
            var address := Address(rules, values[i]);
            && Keys(rules, after) == Keys(rules, before) + {rules.lower(address)}
            && FirstOccurrences(rules, after)
               == FirstOccurrences(rules, before) + if rules.lower(address) in Keys(rules, before) then [] else [address]
  {
    hide Keys, IsFirst;
    assert values[..i + 1][..i] == values[..i];
    var before, after := Addresses(rules, values[..i]), Addresses(rules, values[..i + 1]);
    assert after[..|before|] == before;
    KeysSnoc(rules, before, Address(rules, values[i]));
    FirstMeansNewKey(rules, after, |before|);
  }

  method ParseRecipients(rules: Rules, values: seq<Value>) returns (r: Result<seq<string>, ParseError>)
    ensures r.Ok? <==>
              && (forall i :: 0 <= i < |values| ==>
                    && values[i].Text? && 1 <= |rules.trim(values[i].text)| <= 254
                    && rules.looksValid(rules.trim(values[i].text)))
              && 1 <= |FirstOccurrences(rules, Addresses(rules, values))| <= MAX_EMAIL_RECIPIENTS
    ensures r.Ok? ==> r.value == FirstOccurrences(rules, Addresses(rules, values))
    ensures r.Ok? ==> forall i :: 0 <= i < |values| ==>
              rules.lower(rules.trim(values[i].text)) in Keys(rules, r.value)
    ensures r.Ok? ==> forall k, l :: 0 <= k < l < |r.value| ==> rules.lower(r.value[k]) != rules.lower(r.value[l])
  {
    hide FirstOccurrences, Addresses, Keys;
    var recipients: seq<string>, seen: set<string> := [], {};
    NothingParsed(rules);
    for i := 0 to |values|
      invariant forall k :: 0 <= k < i ==>
                  && values[k].Text? && 1 <= |rules.trim(values[k].text)| <= MAX_ADDRESS_LENGTH
                  && rules.looksValid(rules.trim(values[k].text))
      invariant recipients == FirstOccurrences(rules, Addresses(rules, values[..i]))
      invariant seen == Keys(rules, Addresses(rules, values[..i]))
    {
      if !values[i].Text? {
        return Err(InvalidRecipients);
      }
      var address := rules.trim(values[i].text);
      var key := rules.lower(address);
      if |address| == 0 || |address| > MAX_ADDRESS_LENGTH || !rules.looksValid(address) {
        return Err(InvalidRecipients);
      }
      OneMore(rules, values, i);
      if key !in seen {
        seen := seen + {key};
        recipients := recipients + [address];
      }
    }
    assert values[..|values|] == values;
    if |recipients| < 1 || |recipients| > MAX_EMAIL_RECIPIENTS {
      return Err(InvalidRecipients);
    }
    NoneLostOrTwice(rules, values);
    return Ok(recipients);
  }

  /** Every address of the list is among the recipients, up to its key, and none is there twice. */
  lemma NoneLostOrTwice(rules: Rules, values: seq<Value>)
    ensures var r := FirstOccurrences(rules, Addresses(rules, values));
            && (forall i :: 0 <= i < |values| ==> rules.lower(Address(rules, values[i])) in Keys(rules, r))
            && forall k, l :: 0 <= k < l < |r| ==> rules.lower(r[k]) != rules.lower(r[l])
  {
    var addresses := Addresses(rules, values);
    FirstOccurrencesAreDistinct(rules, addresses);
    AddressesAre(rules, values);
    hide FirstOccurrences, Addresses, Keys, Address;
    forall i | 0 <= i < |values|
      ensures rules.lower(Address(rules, values[i])) in Keys(rules, addresses)
    {
      assert rules.lower(addresses[i]) == rules.lower(Address(rules, values[i]));
      KeysOf(rules, addresses, rules.lower(addresses[i]));
    }
  }

  lemma {:induction false} AddressesAre(rules: Rules, values: seq<Value>)
    ensures |Addresses(rules, values)| == |values|
    ensures forall i :: 0 <= i < |values| ==> Addresses(rules, values)[i] == Address(rules, values[i])
    decreases |values|
  {
    if values != [] {
      AddressesAre(rules, values[..|values| - 1]);
    }
  }

  lemma NothingParsed(rules: Rules)
    ensures FirstOccurrences(rules, Addresses(rules, [])) == [] && Keys(rules, Addresses(rules, [])) == {}
  {
  }

  /** A parsed notification asks its hourly bucket for no more than even the unguarded first reservation may hold. */
  lemma ParsedNotificationFits(rules: Rules, values: seq<Value>, pinSeparately: bool)
    requires |FirstOccurrences(rules, Addresses(rules, values))| <= MAX_EMAIL_RECIPIENTS
    ensures Messages(|FirstOccurrences(rules, Addresses(rules, values))|, pinSeparately) <= LimitOf(Bucket(Email, Hour, 0))
    ensures |Keys(rules, Addresses(rules, values))| <= MAX_EMAIL_RECIPIENTS
  {
    FirstOccurrencesAreDistinct(rules, Addresses(rules, values));
  }

  // ---------- sending ----------

  function Successes(results: seq<bool>): nat {
    if results == [] then 0 else Successes(results[..|results| - 1]) + if results[|results| - 1] then 1 else 0
  }

  lemma {:induction false} SuccessesBounded(results: seq<bool>)
    ensures Successes(results) <= |results|
    ensures Successes(results) == |results| <==> false !in results
    decreases |results|
  {
    if results != [] {
      SuccessesBounded(results[..|results| - 1]);
      assert results == results[..|results| - 1] + [results[|results| - 1]];
    }
  }

  /** How many recipients got both their link and their PIN message accepted. */
  function BothSent(linkSent: seq<bool>, pinSent: nat -> bool): nat {
    if linkSent == [] then 0
    else
      var n := |linkSent| - 1;
      BothSent(linkSent[..n], pinSent) + if linkSent[n] && pinSent(n) then 1 else 0
  }

  /** The recipients whose link message was accepted, by position. */
  function Queued(linkSent: seq<bool>): seq<nat> {
    if linkSent == [] then []
    else
      var n := |linkSent| - 1;
      Queued(linkSent[..n]) + if linkSent[n] then [n] else []
  }

  function PinsSent(queued: seq<nat>, pinSent: nat -> bool): nat {
    if queued == [] then 0
    else PinsSent(queued[..|queued| - 1], pinSent) + if pinSent(queued[|queued| - 1]) then 1 else 0
  }

  lemma {:induction false} PinsGoToQueued(linkSent: seq<bool>, pinSent: nat -> bool)
    ensures |Queued(linkSent)| == Successes(linkSent)
    ensures PinsSent(Queued(linkSent), pinSent) == BothSent(linkSent, pinSent) <= Successes(linkSent)
    decreases |linkSent|
  {
    if linkSent != [] {
      var n := |linkSent| - 1;
      PinsGoToQueued(linkSent[..n], pinSent);
      if linkSent[n] {
        assert Queued(linkSent)[..|Queued(linkSent)| - 1] == Queued(linkSent[..n]);
      } else {
        assert Queued(linkSent) == Queued(linkSent[..n]);
      }
    }
  }

  /**
   `linkSent` and `pinSent` say which messages the mail service accepts; a PIN message goes exactly to the recipients
   whose link message was accepted.
   */
  method SendRecipientEmails(linkSent: seq<bool>, pinSent: nat -> bool, sendPinSeparately: bool, pinGiven: bool)
    returns (queuedRecipients: nat, failedRecipients: nat, queuedMessages: nat, failedPinMessages: nat)
    ensures queuedRecipients == Successes(linkSent) && queuedRecipients + failedRecipients == |linkSent|
    ensures queuedMessages == queuedRecipients + if sendPinSeparately && pinGiven then BothSent(linkSent, pinSent) else 0
    ensures failedPinMessages == if sendPinSeparately then 2 * queuedRecipients - queuedMessages else 0
    ensures queuedMessages <= Messages(queuedRecipients, sendPinSeparately && pinGiven)
  {
    var queued: seq<nat> := [];
    for i := 0 to |linkSent|
      invariant queued == Queued(linkSent[..i])
    {
      assert linkSent[..i + 1][..i] == linkSent[..i];
      if linkSent[i] {
        queued := queued + [i];
      }
    }
    assert linkSent[..|linkSent|] == linkSent;
    PinsGoToQueued(linkSent, pinSent);
    SuccessesBounded(linkSent);
    var queuedPins := 0;
    if sendPinSeparately && pinGiven {
      for k := 0 to |queued|
        invariant queuedPins == PinsSent(queued[..k], pinSent)
      {
        assert queued[..k + 1][..k] == queued[..k];
        if pinSent(queued[k]) {
          queuedPins := queuedPins + 1;
        }
      }
      assert queued[..|queued|] == queued;
    }
    queuedRecipients, failedRecipients := |queued|, |linkSent| - |queued|;
    queuedMessages := |queued| + queuedPins;
    failedPinMessages := if sendPinSeparately then |queued| - queuedPins else 0;
  }
}
