/** The credits of an ERC-20 payment: the filter, the sum and the recorded amount of
    verifyErc20Payment in apps/backend/src/services/paymentTxVerifier.ts. */
module Erc20Credits {
  import opened Amounts
  import opened Text
  import opened Wrappers

  const TOPIC_FIRST_HALF := "0xddf252ad1be2c89b69c2b068fc378daa"
  const TOPIC_SECOND_HALF := "952ba7f163c4a11628f55a4df523b3ef"
  const TRANSFER_TOPIC := TOPIC_FIRST_HALF + TOPIC_SECOND_HALF

  /** A receipt log. The data is read as a number by BigInt, which fails on malformed data. */
  datatype Log = Log(address: string, topics: seq<string>, data: Option<nat>)

  /** The token contract and recipient an invoice expects. */
  datatype Expected = Expected(token: string, recipient: string)

  /** The contract configured for the invoice: none, an invalid address, or an address. */
  datatype Token = Missing | Invalid | Contract(address: string)

  /** What the contract says of itself. */
  datatype Metadata = Metadata(decimals: nat, symbol: string)

  datatype Refusal =
    | NoToken
    | BadToken
    | NoTransfer
    | NoMetadata
    | SymbolMismatch
    | Unrepresentable
    | TooLittle

  predicate AddressesEqual(a: string, b: string) {
    a != "" && b != "" && Lower(Trim(JsSpace, a)) == Lower(Trim(JsSpace, b))
  }

  predicate HexDigit(c: char) {
    '0' <= c <= '9' || 'a' <= c <= 'f' || 'A' <= c <= 'F'
  }

  predicate IsAddress(a: string) {
    |a| == 42 && a[..2] == "0x" && forall i :: 2 <= i < 42 ==> HexDigit(a[i])
  }

  /** topicToAddress; checksum is the spelling of an address with its checksum. */
  function TopicToAddress(topic: string, checksum: string -> string): Option<string> {
    if |topic| != 66 then None
    else if IsAddress("0x" + topic[26..]) then Some(checksum("0x" + topic[26..]))
    else None
  }

  /** A transfer of the expected token to the expected recipient. */
  predicate IsCredit(log: Log, e: Expected, checksum: string -> string) {
    && |log.topics| >= 3
    && Lower(log.topics[0]) == TRANSFER_TOPIC
    && AddressesEqual(log.address, e.token)
    && TopicToAddress(log.topics[2], checksum).Some?
    && AddressesEqual(TopicToAddress(log.topics[2], checksum).value, e.recipient)
  }

  /** What one log contributes. */
  function Worth(log: Log, e: Expected, checksum: string -> string): nat {
    if IsCredit(log, e, checksum) && log.data.Some? then log.data.value else 0
  }

  function Total(logs: seq<Log>, e: Expected, checksum: string -> string): nat {
    if logs == [] then 0 else Total(logs[..|logs| - 1], e, checksum) + Worth(logs[|logs| - 1], e, checksum)
  }

  predicate Pays(logs: seq<Log>, e: Expected, checksum: string -> string) {
    exists i :: 0 <= i < |logs| && IsCredit(logs[i], e, checksum)
  }

  /** The credits among the logs, with all their worth. */
  ghost predicate Kept(credits: seq<Log>, logs: seq<Log>, e: Expected, checksum: string -> string) {
    && Total(credits, e, checksum) == Total(logs, e, checksum)
    && (forall i :: 0 <= i < |credits| ==> IsCredit(credits[i], e, checksum))
    && (credits == [] <==> !Pays(logs, e, checksum))
  }

  lemma KeptCredit(credits: seq<Log>, logs: seq<Log>, log: Log, e: Expected, checksum: string -> string)
    requires Kept(credits, logs, e, checksum) && IsCredit(log, e, checksum)
    ensures Kept(credits + [log], logs + [log], e, checksum)
  {
    TotalPush(logs, log, e, checksum);
    TotalPush(credits, log, e, checksum);
    PaysPush(logs, log, e, checksum);
  }

  lemma KeptForeign(credits: seq<Log>, logs: seq<Log>, log: Log, e: Expected, checksum: string -> string)
    requires Kept(credits, logs, e, checksum) && !IsCredit(log, e, checksum)
    ensures Kept(credits, logs + [log], e, checksum)
  {
    TotalPush(logs, log, e, checksum);
    PaysPush(logs, log, e, checksum);
  }

  method Credits(logs: seq<Log>, e: Expected, checksum: string -> string) returns (credits: seq<Log>)
    ensures Kept(credits, logs, e, checksum)
  {
    credits := [];
    for k := 0 to |logs|
      invariant Kept(credits, logs[..k], e, checksum)
    {
      assert logs[..k + 1] == logs[..k] + [logs[k]];
      if IsCredit(logs[k], e, checksum) {
        KeptCredit(credits, logs[..k], logs[k], e, checksum);
        credits := credits + [logs[k]];
      } else {
        KeptForeign(credits, logs[..k], logs[k], e, checksum);
      }
    }
    assert logs[..|logs|] == logs;
  }

  method Sum(credits: seq<Log>, e: Expected, checksum: string -> string) returns (total: nat)
    requires forall i :: 0 <= i < |credits| ==> IsCredit(credits[i], e, checksum)
    ensures total == Total(credits, e, checksum)
  {
    total := 0;
    for k := 0 to |credits|
      invariant total == Total(credits[..k], e, checksum)
    {
      assert credits[..k + 1] == credits[..k] + [credits[k]];
      TotalPush(credits[..k], credits[k], e, checksum);
      if credits[k].data.Some? {
        total := total + credits[k].data.value;
      }
    }
    assert credits[..|credits|] == credits;
  }

  /** verifyErc20Payment: the first reason to refuse, or the whole sum, recorded as the decimal that
      denotes it. required gives the invoice amount in base units for a number of decimals. */
  method Verify(logs: seq<Log>, token: Token, recipient: string, symbol: string, metadata: Option<Metadata>,
      required: nat -> Option<nat>, checksum: string -> string)
    returns (r: Result<string, Refusal>)
    ensures token.Missing? <==> r == Err(NoToken)
    ensures token.Invalid? <==> r == Err(BadToken)
    ensures token.Contract? ==>
      var e := Expected(token.address, recipient);
      if !Pays(logs, e, checksum) then r == Err(NoTransfer)
      else if metadata.None? then r == Err(NoMetadata)
      else if !SymbolsMatch(metadata.value.symbol, symbol) then r == Err(SymbolMismatch)
      else if required(metadata.value.decimals).None? then r == Err(Unrepresentable)
      else if Total(logs, e, checksum) < required(metadata.value.decimals).value then r == Err(TooLittle)
      else r.Ok? && MeaningOf(Some(r.value)) == Number(Ratio(Total(logs, e, checksum), metadata.value.decimals))
  {
    if token.Missing? {
      return Err(NoToken);
    }
    if token.Invalid? {
      return Err(BadToken);
    }
    var credits := Credits(logs, Expected(token.address, recipient), checksum);
    if |credits| == 0 {
      return Err(NoTransfer);
    }
    if metadata.None? {
      return Err(NoMetadata);
    }
    var decimals := metadata.value.decimals;
    if !SymbolsMatch(metadata.value.symbol, symbol) {
      return Err(SymbolMismatch);
    }
    var expected := required(decimals);
    if expected.None? {
      return Err(Unrepresentable);
    }
    var total := Sum(credits, Expected(token.address, recipient), checksum);
    if total < expected.value {
      return Err(TooLittle);
    }
    FormatUnitsDenotes(total, decimals);
    MeaningOfWritten(Formatted(total, decimals));
    return Ok(FormatUnits(total, decimals));
  }

  lemma TotalPush(logs: seq<Log>, log: Log, e: Expected, checksum: string -> string)
    ensures Total(logs + [log], e, checksum) == Total(logs, e, checksum) + Worth(log, e, checksum)
  {
    assert (logs + [log])[..|logs|] == logs;
  }

  lemma PaysPush(logs: seq<Log>, log: Log, e: Expected, checksum: string -> string)
    ensures Pays(logs + [log], e, checksum) <==> Pays(logs, e, checksum) || IsCredit(log, e, checksum)
  {
    var all := logs + [log];
    assert all[|logs|] == log;
    if Pays(logs, e, checksum) {
      var i :| 0 <= i < |logs| && IsCredit(logs[i], e, checksum);
      assert IsCredit(all[i], e, checksum);
    }
  }

  /** The logs without the one at k. */
  function Without(logs: seq<Log>, k: nat): seq<Log>
    requires k < |logs|
  {
    logs[..k] + logs[k + 1..]
  }

  lemma WithoutLast(logs: seq<Log>)
    requires logs != []
    ensures Without(logs, |logs| - 1) == logs[..|logs| - 1]
  {
  }

  lemma WithoutInner(logs: seq<Log>, k: nat)
    requires k < |logs| - 1
    ensures Without(logs, k) == Without(logs[..|logs| - 1], k) + [logs[|logs| - 1]]
  {
  }

  lemma {:induction false} TotalWithout(logs: seq<Log>, k: nat, e: Expected, checksum: string -> string)
    requires k < |logs|
    ensures Total(logs, e, checksum) == Total(Without(logs, k), e, checksum) + Worth(logs[k], e, checksum)
  {
    var n := |logs| - 1;
    if k == n {
      WithoutLast(logs);
    } else {
      TotalWithout(logs[..n], k, e, checksum);
      WithoutInner(logs, k);
      TotalPush(Without(logs[..n], k), logs[n], e, checksum);
    }
  }

  lemma Removed(logs: seq<Log>, k: nat)
    requires k < |logs|
    ensures multiset(logs[..k] + logs[k + 1..]) == multiset(logs) - multiset{logs[k]}
  {
    assert logs == logs[..k] + [logs[k]] + logs[k + 1..];
  }

  lemma SameRest(a: seq<Log>, b: seq<Log>) returns (k: nat)
    requires a != [] && multiset(a) == multiset(b)
    ensures k < |b| && b[k] == a[|a| - 1] && multiset(a[..|a| - 1]) == multiset(b[..k] + b[k + 1..])
  {
    var n := |a| - 1;
    assert a[n] in multiset(b);
    k :| 0 <= k < |b| && b[k] == a[n];
    Removed(b, k);
    assert a == a[..n] + [a[n]];
  }

  /** The sum does not depend on the order of the logs, however a transfer is split over them. */
  lemma {:induction false} TotalIsOrderless(a: seq<Log>, b: seq<Log>, e: Expected, checksum: string -> string)
    requires multiset(a) == multiset(b)
    ensures Total(a, e, checksum) == Total(b, e, checksum)
    decreases |a|
  {
    if a == [] {
      assert |multiset(b)| == 0;
    } else {
      var k := SameRest(a, b);
      TotalIsOrderless(a[..|a| - 1], b[..k] + b[k + 1..], e, checksum);
      TotalWithout(b, k, e, checksum);
    }
  }

  /** Logs of other tokens, to other recipients or of other kinds never count. */
  lemma ForeignLogsDoNotCount(logs: seq<Log>, k: nat, e: Expected, checksum: string -> string)
    requires k < |logs| && !IsCredit(logs[k], e, checksum)
    ensures Total(logs, e, checksum) == Total(logs[..k] + logs[k + 1..], e, checksum)
  {
    TotalWithout(logs, k, e, checksum);
  }

  // ---- transfers -----------------------------------------------------------------------------------------

  /** An ERC-20 transfer: the token contract, who paid, who was paid, how much. */
  datatype Transfer = Transfer(token: string, from: string, to: string, value: nat)

  predicate WellFormed(t: Transfer) {
    IsAddress(t.token) && IsAddress(t.from) && IsAddress(t.to)
  }

  /** An address as an indexed argument: thirty-two bytes, the first twelve of them zero. */
  function AddressTopic(a: string): string
    requires IsAddress(a)
  {
    "0x" + seq(24, _ => '0') + a[2..]
  }

  /** The event log of a transfer: topic, sender, recipient; the value is the data. */
  function LogOf(t: Transfer): Log
    requires WellFormed(t)
  {
    Log(t.token, [TransferEvent(), AddressTopic(t.from), AddressTopic(t.to)], Some(t.value))
  }

  /** A checksum changes nothing but the case of letters. */
  ghost predicate Spells(checksum: string -> string) {
    forall a :: SameUpToCase(checksum(a), a)
  }

  /** Addresses are equal exactly when both are there and they are equal up to case and outer white
      space. */
  lemma AddressesEqualIff(a: string, b: string)
    ensures AddressesEqual(a, b) <==> a != "" && b != "" && Alike(a, b)
  {
    LowerAlike(a, b);
  }

  const HEX_DIGITS := "0123456789abcdefABCDEF"

  lemma HexDigitIff(c: char)
    ensures HexDigit(c) <==> c in HEX_DIGITS
  {
  }

  /** What the library takes for an address: 0x and forty hexadecimal digits. */
  lemma AddressIff(a: string)
    ensures IsAddress(a) <==>
      |a| == 42 && a[0] == '0' && a[1] == 'x' && forall i :: 2 <= i < 42 ==> a[i] in HEX_DIGITS
  {
    forall c ensures HexDigit(c) <==> c in HEX_DIGITS {
      HexDigitIff(c);
    }
    if |a| == 42 {
      assert a[..2] == [a[0], a[1]];
    }
  }

  lemma AddressIsNoBlank(a: string, b: string)
    requires IsAddress(a) && Alike(a, b)
    ensures b != ""
  {
    assert Lower(Trim(JsSpace, "")) == "";
    LowerAlike(a, b);
    TrimOfAddress(a);
  }

  lemma TrimOfAddress(a: string)
    requires IsAddress(a)
    ensures Trim(JsSpace, a) == a
  {
    assert a[0] == a[..2][0];
  }

  lemma TopicRoundTrip(a: string, checksum: string -> string)
    requires IsAddress(a)
    ensures TopicToAddress(AddressTopic(a), checksum) == Some(checksum(a))
  {
    assert AddressTopic(a)[26..] == a[2..];
    assert "0x" + a[2..] == a;
  }

  lemma SpellingDoesNotMatter(a: string, spelled: string, b: string)
    requires IsAddress(a) && SameUpToCase(spelled, a)
    ensures AddressesEqual(spelled, b) <==> Alike(a, b)
  {
    LowerIff(spelled, a);
    LowerTrim(spelled);
    LowerTrim(a);
    AddressesEqualIff(a, b);
    if Alike(a, b) {
      AddressIsNoBlank(a, b);
    }
  }

  /** What a transfer is worth: its value, exactly if the token is the expected one and the recipient,
      not the sender, is the one the invoice names, up to case and outer white space. */
  lemma TransferWorth(t: Transfer, e: Expected, checksum: string -> string)
    requires WellFormed(t) && Spells(checksum)
    ensures IsCredit(LogOf(t), e, checksum) <==> Alike(t.token, e.token) && Alike(t.to, e.recipient)
    ensures Worth(LogOf(t), e, checksum) == if Alike(t.token, e.token) && Alike(t.to, e.recipient) then t.value else 0
  {
    TopicIsTransfer();
    TopicIsLower();
    SpellingDoesNotMatter(t.token, t.token, e.token);
    TopicRoundTrip(t.to, checksum);
    SpellingDoesNotMatter(t.to, checksum(t.to), e.recipient);
    LogReads(t, e, checksum);
  }

  lemma LogReads(t: Transfer, e: Expected, checksum: string -> string)
    requires WellFormed(t) && Lower(TRANSFER_TOPIC) == TRANSFER_TOPIC == TransferEvent()
    requires TopicToAddress(AddressTopic(t.to), checksum) == Some(checksum(t.to))
    ensures IsCredit(LogOf(t), e, checksum) <==>
      AddressesEqual(t.token, e.token) && AddressesEqual(checksum(t.to), e.recipient)
  {
    var topics := LogOf(t).topics;
    assert topics[0] == TransferEvent() && topics[2] == AddressTopic(t.to);
  }

  /** The case of the first topic does not matter. */
  lemma TopicInAnyCase(log: Log, topic: string, e: Expected, checksum: string -> string)
    requires log.topics != [] && SameUpToCase(log.topics[0], topic)
    ensures Worth(log.(topics := log.topics[0 := topic]), e, checksum) == Worth(log, e, checksum)
  {
    LowerIff(log.topics[0], topic);
  }

  /** A log with another first topic, with fewer than three topics, or with a third topic that is not
      thirty-two bytes ending in an address, is worth nothing. */
  lemma OtherLogsAreWorthless(log: Log, e: Expected, checksum: string -> string)
    requires
      || |log.topics| < 3
      || !SameUpToCase(log.topics[0], TransferEvent())
      || |log.topics[2]| != 66
      || exists i :: 26 <= i < 66 && !HexDigit(log.topics[2][i])
    ensures !IsCredit(log, e, checksum) && Worth(log, e, checksum) == 0
  {
    if |log.topics| >= 3 {
      TopicIsTransfer();
      LowerIff(log.topics[0], TRANSFER_TOPIC);
      TopicIsLower();
      if i :| 26 <= i < 66 && |log.topics[2]| == 66 && !HexDigit(log.topics[2][i]) {
        assert ("0x" + log.topics[2][26..])[i - 24] == log.topics[2][i];
      }
    }
  }

  predicate Lowered(s: string) {
    forall i :: 0 <= i < |s| ==> LowerChar(s[i]) == s[i]
  }

  lemma LoweredIsLower(s: string)
    requires Lowered(s)
    ensures Lower(s) == s
  {
  }

  lemma FirstHalfIsLower()
    ensures Lowered(TOPIC_FIRST_HALF)
  {
  }

  lemma SecondHalfIsLower()
    ensures Lowered(TOPIC_SECOND_HALF)
  {
  }

  lemma LoweredSum(s: string, t: string)
    requires Lowered(s) && Lowered(t)
    ensures Lowered(s + t)
  {
  }

  /** The hash of the event signature Transfer(address,address,uint256), as a log carries it. */
  function TransferEvent(): string {
    "0xddf252ad1be2c89b69c2b068fc378daa" + "952ba7f163c4a11628f55a4df523b3ef"
  }

  lemma TopicIsTransfer()
    ensures TRANSFER_TOPIC == TransferEvent()
  {
  }

  lemma TopicIsLower()
    ensures Lower(TRANSFER_TOPIC) == TRANSFER_TOPIC
  {
    FirstHalfIsLower();
    SecondHalfIsLower();
    LoweredSum(TOPIC_FIRST_HALF, TOPIC_SECOND_HALF);
    LoweredIsLower(TRANSFER_TOPIC);
  }

  /** The logs of these transfers, in this order. */
  function LogsOf(ts: seq<Transfer>): (logs: seq<Log>)
    requires forall k :: 0 <= k < |ts| ==> WellFormed(ts[k])
    ensures |logs| == |ts|
  {
    if ts == [] then [] else LogsOf(ts[..|ts| - 1]) + [LogOf(ts[|ts| - 1])]
  }

  /** What the transfers paid to the recipient in the token. */
  ghost function PaidTo(ts: seq<Transfer>, e: Expected): nat {
    if ts == [] then 0
    else
      var t := ts[|ts| - 1];
      PaidTo(ts[..|ts| - 1], e) + if Alike(t.token, e.token) && Alike(t.to, e.recipient) then t.value else 0
  }

  /** The sum over the logs of any transfers is what they paid to the invoice's recipient in its
      token, whoever paid. */
  lemma {:induction false} TotalIsPaidTo(ts: seq<Transfer>, e: Expected, checksum: string -> string)
    requires Spells(checksum) && forall k :: 0 <= k < |ts| ==> WellFormed(ts[k])
    ensures Total(LogsOf(ts), e, checksum) == PaidTo(ts, e)
  {
    if ts != [] {
      var n := |ts| - 1;
      TotalIsPaidTo(ts[..n], e, checksum);
      TotalPush(LogsOf(ts[..n]), LogOf(ts[n]), e, checksum);
      TransferWorth(ts[n], e, checksum);
    }
  }
}
