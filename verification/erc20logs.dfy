/**
  The log matcher of the ERC-20 swap-in path: a single, order-preserving scan
  over a receipt's event logs that picks the first EIP-20
  `Transfer(address indexed from, address indexed to, uint256 value)` event of
  the token contract whose recipient is the deposit address.
 */
module Erc20Logs {
  import opened Common
  import opened Tokens

  /** One event log of a receipt (`RPCLog`). `removed` is absent or set after a reorganisation. */
  datatype Log = Log(address: Address, topics: seq<Hash>, data: Option<seq<byte>>, removed: Option<bool>)

  /** What the matcher extracts from the selected event. */
  datatype Transfer = Transfer(from: string, to: string, value: nat)

  /** keccak256("Transfer(address,address,uint256)"), the topic0 of every EIP-20 transfer event. */
  const LogTransferTopic: Hash := [
    0xdd, 0xf2, 0x52, 0xad, 0x1b, 0xe2, 0xc8, 0x9b, 0x69, 0xc2, 0xb0, 0x68, 0xfc, 0x37, 0x8d, 0xaa,
    0x95, 0x2b, 0xa7, 0xf1, 0x63, 0xc4, 0xa1, 0x16, 0x28, 0xf5, 0x5a, 0x4d, 0xf5, 0x23, 0xb3, 0xef]

  /** A log invalidated by a chain reorganisation. */
  predicate IsRemoved(l: Log) {
    l.removed == Some(true)
  }

  /** A live transfer event of the token contract, with two indexed arguments and a data payload. */
  predicate IsTransferLog(l: Log, contractAddress: string) {
    && !IsRemoved(l)
    && EqualIgnoreCase(Hex(l.address), contractAddress)
    && |l.topics| == 3
    && l.data.Some?
    && l.topics[0] == LogTransferTopic
  }

  /** The indexed `to` argument of a three-topic log, as an address string. */
  function Recipient(l: Log): string
    requires |l.topics| == 3
  {
    Hex(BytesToAddress(l.topics[2]))
  }

  /** A transfer event of the token contract whose recipient is `checkToAddress`. */
  predicate IsDeposit(l: Log, contractAddress: string, checkToAddress: string) {
    IsTransferLog(l, contractAddress) && EqualIgnoreCase(Recipient(l), checkToAddress)
  }

  /** `from`, `to` and the first 32-byte data slot of a transfer event. */
  function DecodeTransfer(l: Log): Transfer
    requires |l.topics| == 3 && l.data.Some?
  {
    Transfer(Hex(BytesToAddress(l.topics[1])), Recipient(l), GetBigInt(l.data.value, 0, 32))
  }

  /** `i` is the earliest deposit event of `logs`. */
  ghost predicate FirstDepositAt(logs: seq<Log>, contractAddress: string, checkToAddress: string, i: int) {
    && 0 <= i < |logs|
    && IsDeposit(logs[i], contractAddress, checkToAddress)
    && forall j :: 0 <= j < i ==> !IsDeposit(logs[j], contractAddress, checkToAddress)
  }

  ghost predicate HasDeposit(logs: seq<Log>, contractAddress: string, checkToAddress: string) {
    exists i :: 0 <= i < |logs| && IsDeposit(logs[i], contractAddress, checkToAddress)
  }

  ghost predicate HasTransferLog(logs: seq<Log>, contractAddress: string) {
    exists i :: 0 <= i < |logs| && IsTransferLog(logs[i], contractAddress)
  }

  /**
    `ParseErc20SwapinTxLogs`. A receiver mismatch keeps the scan going but
    upgrades the eventual error from "no deposit log" to "wrong receiver".
   */
  function ParseErc20SwapinTxLogs(logs: seq<Log>, contractAddress: string, checkToAddress: string): (r: Result<Transfer>)
    ensures r.Success? <==> HasDeposit(logs, contractAddress, checkToAddress)
    ensures r.Success? ==>
      exists i :: FirstDepositAt(logs, contractAddress, checkToAddress, i) && r.value == DecodeTransfer(logs[i])
    ensures r.Failure? && HasTransferLog(logs, contractAddress) ==> r.error == ErrTxWithWrongReceiver
    ensures r.Failure? && !HasTransferLog(logs, contractAddress) ==> r.error == ErrDepositLogNotFound
  {
    if |logs| == 0 then Failure(ErrDepositLogNotFound)
    else
      var l := logs[0];
      var rest := ParseErc20SwapinTxLogs(logs[1..], contractAddress, checkToAddress);
      ScanStep(logs, contractAddress, checkToAddress);
      if !IsTransferLog(l, contractAddress) then
        rest
      else if !EqualIgnoreCase(Recipient(l), checkToAddress) then
        if rest.Success? then rest else Failure(ErrTxWithWrongReceiver)
      else
        assert FirstDepositAt(logs, contractAddress, checkToAddress, 0);
        Success(DecodeTransfer(l))
  }

  /** How the properties of a log sequence follow from its head and its tail. */
  lemma ScanStep(logs: seq<Log>, contractAddress: string, checkToAddress: string)
    requires |logs| > 0
    ensures HasDeposit(logs, contractAddress, checkToAddress) <==>
      IsDeposit(logs[0], contractAddress, checkToAddress) || HasDeposit(logs[1..], contractAddress, checkToAddress)
    ensures HasTransferLog(logs, contractAddress) <==>
      IsTransferLog(logs[0], contractAddress) || HasTransferLog(logs[1..], contractAddress)
    ensures !IsDeposit(logs[0], contractAddress, checkToAddress) ==>
      forall i :: FirstDepositAt(logs[1..], contractAddress, checkToAddress, i) ==>
        FirstDepositAt(logs, contractAddress, checkToAddress, i + 1) && logs[1..][i] == logs[i + 1]
  {
    assert forall j :: 0 < j < |logs| ==> logs[j] == logs[1..][j - 1];
  }

  /** The earliest deposit event is unique. */
  lemma FirstDepositUnique(logs: seq<Log>, contractAddress: string, checkToAddress: string, i: int, k: int)
    requires FirstDepositAt(logs, contractAddress, checkToAddress, i)
    requires FirstDepositAt(logs, contractAddress, checkToAddress, k)
    ensures i == k
  {
  }

  /** Once the logs hold a deposit event, no later log can change the result. */
  lemma {:induction false} LaterLogsIgnored(logs: seq<Log>, later: seq<Log>, contractAddress: string, checkToAddress: string, k: int)
    requires 0 <= k < |logs| && IsDeposit(logs[k], contractAddress, checkToAddress)
    ensures ParseErc20SwapinTxLogs(logs + later, contractAddress, checkToAddress)
         == ParseErc20SwapinTxLogs(logs, contractAddress, checkToAddress)
  {
    var r := ParseErc20SwapinTxLogs(logs, contractAddress, checkToAddress);
    var i :| FirstDepositAt(logs, contractAddress, checkToAddress, i) && r.value == DecodeTransfer(logs[i]);
    var all := logs + later;
    assert all[i] == logs[i];
    assert forall j :: 0 <= j < i ==> all[j] == logs[j];
    assert FirstDepositAt(all, contractAddress, checkToAddress, i);
    var r' := ParseErc20SwapinTxLogs(all, contractAddress, checkToAddress);
    var k' :| FirstDepositAt(all, contractAddress, checkToAddress, k') && r'.value == DecodeTransfer(all[k']);
    FirstDepositUnique(all, contractAddress, checkToAddress, i, k');
  }

  /** Logs before the first deposit event that are not deposits are passed over. */
  lemma {:induction false} FirstMatchWins(before: seq<Log>, l: Log, after: seq<Log>, contractAddress: string, checkToAddress: string)
    requires forall j :: 0 <= j < |before| ==> !IsDeposit(before[j], contractAddress, checkToAddress)
    requires IsDeposit(l, contractAddress, checkToAddress)
    ensures ParseErc20SwapinTxLogs(before + [l] + after, contractAddress, checkToAddress) == Success(DecodeTransfer(l))
  {
    var all := before + [l] + after;
    assert all[|before|] == l;
    assert forall j :: 0 <= j < |before| ==> all[j] == before[j];
    assert FirstDepositAt(all, contractAddress, checkToAddress, |before|);
    var r := ParseErc20SwapinTxLogs(all, contractAddress, checkToAddress);
    var k :| FirstDepositAt(all, contractAddress, checkToAddress, k) && r.value == DecodeTransfer(all[k]);
    FirstDepositUnique(all, contractAddress, checkToAddress, |before|, k);
  }

  /** One step of the scan: the head log decides unless it is not a deposit. */
  lemma ParseCons(l: Log, rest: seq<Log>, contractAddress: string, checkToAddress: string)
    ensures ParseErc20SwapinTxLogs([l] + rest, contractAddress, checkToAddress) ==
      if !IsTransferLog(l, contractAddress) then ParseErc20SwapinTxLogs(rest, contractAddress, checkToAddress)
      else if !EqualIgnoreCase(Recipient(l), checkToAddress) then
        (if ParseErc20SwapinTxLogs(rest, contractAddress, checkToAddress).Success?
         then ParseErc20SwapinTxLogs(rest, contractAddress, checkToAddress)
         else Failure(ErrTxWithWrongReceiver))
      else Success(DecodeTransfer(l))
  {
    assert ([l] + rest)[0] == l;
    assert ([l] + rest)[1..] == rest;
  }

  /** A log marked removed is never selected and never counts as a transfer event. */
  lemma {:induction false} RemovedLogIgnored(before: seq<Log>, l: Log, after: seq<Log>, contractAddress: string, checkToAddress: string)
    requires IsRemoved(l)
    ensures ParseErc20SwapinTxLogs(before + [l] + after, contractAddress, checkToAddress)
         == ParseErc20SwapinTxLogs(before + after, contractAddress, checkToAddress)
  {
    if |before| == 0 {
      assert before + [l] + after == [l] + after;
      assert before + after == after;
      ParseCons(l, after, contractAddress, checkToAddress);
    } else {
      var h, t := before[0], before[1..];
      RemovedLogIgnored(t, l, after, contractAddress, checkToAddress);
      var withL, withoutL := t + [l] + after, t + after;
      assert before + [l] + after == [h] + withL;
      assert before + after == [h] + withoutL;
      ParseCons(h, withL, contractAddress, checkToAddress);
      ParseCons(h, withoutL, contractAddress, checkToAddress);
    }
  }

  /** The scan only sees the addresses it is given through case-insensitive comparison. */
  lemma {:induction false} ParseIgnoresCase(logs: seq<Log>, contractAddress: string, checkToAddress: string)
    ensures ParseErc20SwapinTxLogs(logs, contractAddress, checkToAddress)
         == ParseErc20SwapinTxLogs(logs, ToLower(contractAddress), ToLower(checkToAddress))
  {
    if |logs| > 0 {
      EqualIgnoreCaseLower(Hex(logs[0].address), contractAddress);
      if |logs[0].topics| == 3 {
        EqualIgnoreCaseLower(Recipient(logs[0]), checkToAddress);
      }
      ParseIgnoresCase(logs[1..], contractAddress, checkToAddress);
    }
  }

  // ---------------------------------------------------------------------------
  // Events as the token contract emits them

  /** The log an EIP-20 token at `token` emits for `Transfer(from, to, value)` (Solidity ABI event encoding). */
  function TransferEvent(token: Address, from: Address, to: Address, value: nat): Log {
    Log(token, [LogTransferTopic, AddressToTopic(from), AddressToTopic(to)], Some(EncodeUint(value, 32)), None)
  }

  /** An emitted transfer event is a deposit exactly when it goes to the deposit address. */
  lemma TransferEventIsDeposit(token: Address, from: Address, to: Address, value: nat, deposit: Address)
    ensures IsTransferLog(TransferEvent(token, from, to, value), Hex(token))
    ensures IsDeposit(TransferEvent(token, from, to, value), Hex(token), Hex(deposit)) <==> to == deposit
  {
    TopicAddressRoundTrip(to);
    HexInjective(to, deposit);
  }

  /** Decoding an emitted transfer event gives back its arguments. */
  lemma TransferEventRoundTrip(token: Address, from: Address, to: Address, value: nat)
    requires value < Pow256(32)
    ensures DecodeTransfer(TransferEvent(token, from, to, value)) == Transfer(Hex(from), Hex(to), value)
  {
    TopicAddressRoundTrip(from);
    TopicAddressRoundTrip(to);
    Uint256RoundTrip(value);
  }

  /** A transfer to another recipient followed by a deposit: the deposit is picked. */
  lemma MisdirectedThenDeposit(token: Address, from: Address, other: Address, deposit: Address, v1: nat, v2: nat)
    requires other != deposit && v2 < Pow256(32)
    ensures ParseErc20SwapinTxLogs([TransferEvent(token, from, other, v1), TransferEvent(token, from, deposit, v2)], Hex(token), Hex(deposit))
         == Success(Transfer(Hex(from), Hex(deposit), v2))
  {
    var first, second := TransferEvent(token, from, other, v1), TransferEvent(token, from, deposit, v2);
    TransferEventIsDeposit(token, from, other, v1, deposit);
    TransferEventIsDeposit(token, from, deposit, v2, deposit);
    TransferEventRoundTrip(token, from, deposit, v2);
    FirstMatchWins([first], second, [], Hex(token), Hex(deposit));
    assert [first] + [second] + [] == [first, second];
  }

  /** Two deposits in one receipt: the earlier one is picked. */
  lemma EarlierDepositWins(token: Address, from: Address, deposit: Address, v1: nat, v2: nat)
    requires v1 < Pow256(32)
    ensures ParseErc20SwapinTxLogs([TransferEvent(token, from, deposit, v1), TransferEvent(token, from, deposit, v2)], Hex(token), Hex(deposit))
         == Success(Transfer(Hex(from), Hex(deposit), v1))
  {
    var first, second := TransferEvent(token, from, deposit, v1), TransferEvent(token, from, deposit, v2);
    TransferEventIsDeposit(token, from, deposit, v1, deposit);
    TransferEventRoundTrip(token, from, deposit, v1);
    FirstMatchWins([], first, [second], Hex(token), Hex(deposit));
    assert [] + [first] + [second] == [first, second];
  }

  /** Transfer events that all go elsewhere are reported as a wrong receiver, not as a missing deposit. */
  lemma OnlyMisdirected(token: Address, from: Address, other: Address, deposit: Address, value: nat)
    requires other != deposit
    ensures ParseErc20SwapinTxLogs([TransferEvent(token, from, other, value)], Hex(token), Hex(deposit))
         == Failure(ErrTxWithWrongReceiver)
  {
    var e := TransferEvent(token, from, other, value);
    TransferEventIsDeposit(token, from, other, value, deposit);
    assert [e][0] == e;
  }
}
