/**
  ERC-20 swap-in verification of the Ethereum bridge: the receipt stage (target
  contract check, deposit extraction, filling of the swap record) followed by an
  ordered chain of short-circuiting checks, each failing with its own error.
  Every configuration, registry and RPC lookup is an oracle field of `Oracles`.
 */
module SwapinVerify {
  import opened Common
  import opened Tokens
  import opened Erc20Logs

  /** The parts of a transaction receipt the swap-in path reads (`RPCTxReceipt`). */
  datatype Receipt = Receipt(from: Address, recipient: Option<Address>, logs: seq<Log>)

  /** The lookups the verification consults; none of them is implemented here. */
  datatype Oracles = Oracles(
    /** `b.IsSrc`: this bridge watches the source chain. */
    isSrc: bool,
    /** `ChainConfig.IsInCallByContractWhitelist`. */
    isInCallByContractWhitelist: string -> bool,
    /** `tokens.CheckSwapValue(pairID, value, isSrc)`. */
    checkSwapValue: (string, nat, bool) -> bool,
    /** `b.GetTokenConfig(pairID)`; `None` is a nil configuration. */
    getTokenConfig: string -> Option<TokenConfig>,
    /** `tokens.DstBridge.IsValidAddress`. */
    isValidAddress: string -> bool,
    /** `params.MustRegisterAccount()`. */
    mustRegisterAccount: bool,
    /** `tools.IsAddressRegistered`. */
    isAddressRegistered: string -> bool,
    /** `params.IsSwapServer`. */
    isSwapServer: bool,
    /** `b.IsContractAddress`; `None` is a failed query. */
    isContractAddress: string -> Option<bool>)

  /** The swap record after a verification call together with the error it returned. */
  datatype Verified = Verified(info: SwapInfo, outcome: Outcome)

  // ---------------------------------------------------------------------------
  // The ordered chain of checks, as a table

  /** One link of a short-circuiting check chain: whether it holds, and the error if it does not. */
  datatype Check = Check(holds: bool, error: SwapError)

  /** Runs a chain of checks in order and stops at the first one that does not hold. */
  function FirstFailure(checks: seq<Check>): (r: Outcome)
    ensures r.Pass? <==> forall i :: 0 <= i < |checks| ==> checks[i].holds
    ensures r.Fail? ==>
      exists i :: 0 <= i < |checks| && !checks[i].holds && r.error == checks[i].error &&
        forall j :: 0 <= j < i ==> checks[j].holds
  {
    if |checks| == 0 then Pass
    else if !checks[0].holds then Fail(checks[0].error)
    else
      var r := FirstFailure(checks[1..]);
      assert forall j :: 0 < j < |checks| ==> checks[j] == checks[1..][j - 1];
      r
  }

  /** The error of a chain is the error of its first check that does not hold. */
  lemma FirstFailureAt(checks: seq<Check>, k: int)
    requires 0 <= k < |checks| && !checks[k].holds
    requires forall j :: 0 <= j < k ==> checks[j].holds
    ensures FirstFailure(checks) == Fail(checks[k].error)
  {
    var r := FirstFailure(checks);
    var i :| 0 <= i < |checks| && !checks[i].holds && r.error == checks[i].error &&
      forall j :: 0 <= j < i ==> checks[j].holds;
    assert i == k;
  }

  /** Whether the bind address must be looked up as a possible contract. */
  predicate NeedsContractQuery(env: Oracles, bindAddr: string, allowContractAddress: bool) {
    env.isSwapServer && !allowContractAddress && !env.isInCallByContractWhitelist(bindAddr)
  }

  /** The bind-address checks in the order the bridge applies them. */
  function BindAddressChecks(env: Oracles, bindAddr: string, allowContractAddress: bool): seq<Check> {
    var query := NeedsContractQuery(env, bindAddr, allowContractAddress);
    [ Check(env.isValidAddress(bindAddr), ErrTxWithWrongMemo),
      Check(!env.mustRegisterAccount || env.isAddressRegistered(bindAddr), ErrTxSenderNotRegistered),
      Check(query ==> env.isContractAddress(bindAddr).Some?, ErrRPCQueryError),
      Check(query ==> env.isContractAddress(bindAddr) != Some(true), ErrBindAddrIsContract) ]
  }

  /**
    All checks of a swap record in the order the bridge applies them. The bind
    checks use the `allowSwapinFromContract` flag of the pair's configuration;
    they are only reached when that configuration exists.
   */
  function SwapinChecks(env: Oracles, info: SwapInfo): seq<Check> {
    var token := env.getTokenConfig(info.pairID);
    var allow := token.Some? && token.value.allowSwapinFromContract;
    [ Check(info.bind != info.to, ErrTxWithWrongSender),
      Check(env.checkSwapValue(info.pairID, info.value, env.isSrc), ErrTxWithWrongValue),
      Check(token.Some?, ErrUnknownPairID) ]
    + BindAddressChecks(env, info.bind, allow)
  }

  // ---------------------------------------------------------------------------
  // The checks as the bridge writes them

  /** `checkSwapinBindAddress`. */
  function CheckSwapinBindAddress(env: Oracles, bindAddr: string, allowContractAddress: bool): (r: Outcome)
    ensures r == FirstFailure(BindAddressChecks(env, bindAddr, allowContractAddress))
    ensures r == Fail(ErrRPCQueryError) || r == Fail(ErrBindAddrIsContract) ==>
      NeedsContractQuery(env, bindAddr, allowContractAddress)
  {
    var checks := BindAddressChecks(env, bindAddr, allowContractAddress);
    if !env.isValidAddress(bindAddr) then
      FirstFailureAt(checks, 0);
      Fail(ErrTxWithWrongMemo)
    else if env.mustRegisterAccount && !env.isAddressRegistered(bindAddr) then
      FirstFailureAt(checks, 1);
      Fail(ErrTxSenderNotRegistered)
    else if NeedsContractQuery(env, bindAddr, allowContractAddress) then
      match env.isContractAddress(bindAddr)
      case None =>
        FirstFailureAt(checks, 2);
        Fail(ErrRPCQueryError)
      case Some(isContract) =>
        if isContract then
          FirstFailureAt(checks, 3);
          Fail(ErrBindAddrIsContract)
        else Pass
    else Pass
  }

  /** `checkSwapinInfo`. */
  function CheckSwapinInfo(env: Oracles, info: SwapInfo): (r: Outcome)
    ensures r == FirstFailure(SwapinChecks(env, info))
    ensures info.bind == info.to ==> r == Fail(ErrTxWithWrongSender)
  {
    var checks := SwapinChecks(env, info);
    if info.bind == info.to then
      FirstFailureAt(checks, 0);
      Fail(ErrTxWithWrongSender)
    else if !env.checkSwapValue(info.pairID, info.value, env.isSrc) then
      FirstFailureAt(checks, 1);
      Fail(ErrTxWithWrongValue)
    else
      match env.getTokenConfig(info.pairID)
      case None =>
        FirstFailureAt(checks, 2);
        Fail(ErrUnknownPairID)
      case Some(token) =>
        assert checks[3..] == BindAddressChecks(env, info.bind, token.allowSwapinFromContract);
        assert forall j :: 3 <= j < |checks| ==> checks[j] == checks[3..][j - 3];
        CheckSwapinBindAddress(env, info.bind, token.allowSwapinFromContract)
  }

  /** The receipt's target is acceptable as the token contract (or a whitelisted forwarder). */
  predicate TargetAllowed(env: Oracles, token: TokenConfig, txTo: string) {
    token.allowSwapinFromContract || EqualIgnoreCase(txTo, token.contractAddress) || env.isInCallByContractWhitelist(txTo)
  }

  /** `verifyErc20SwapinTxReceipt`. */
  function VerifyErc20SwapinTxReceipt(env: Oracles, info: SwapInfo, receipt: Receipt, token: TokenConfig): (r: Verified)
    ensures SameOrigin(r.info, info)
    ensures receipt.recipient.None? ==> r == Verified(info, Fail(ErrTxWithWrongContract))
    ensures receipt.recipient.Some? ==>
      r.info.txTo == Hex(receipt.recipient.value) && r.info.from == Hex(receipt.from)
    ensures r.outcome == Fail(ErrTxWithWrongContract) <==>
      receipt.recipient.None? || !TargetAllowed(env, token, Hex(receipt.recipient.value))
    ensures r.outcome.Fail? ==> r.info.to == info.to && r.info.value == info.value && r.info.bind == info.bind
    ensures r.outcome.Fail? && r.outcome != Fail(ErrTxWithWrongContract) ==>
      ParseErc20SwapinTxLogs(receipt.logs, token.contractAddress, token.depositAddress) == Failure(r.outcome.error)
    ensures r.outcome.Pass? ==>
      exists i :: FirstDepositAt(receipt.logs, token.contractAddress, token.depositAddress, i) &&
        var t := DecodeTransfer(receipt.logs[i]);
        r.info.to == ToLower(t.to) && r.info.value == t.value && r.info.bind == ToLower(t.from)
  {
    match receipt.recipient
    case None => Verified(info, Fail(ErrTxWithWrongContract))
    case Some(recipient) =>
      HexIsLower(recipient);
      HexIsLower(receipt.from);
      var info1 := info.(txTo := ToLower(Hex(recipient)), from := ToLower(Hex(receipt.from)));
      if !TargetAllowed(env, token, info1.txTo) then Verified(info1, Fail(ErrTxWithWrongContract))
      else
        match ParseErc20SwapinTxLogs(receipt.logs, token.contractAddress, token.depositAddress)
        case Failure(err) =>
          assert err != ErrTxWithWrongContract;
          Verified(info1, Fail(err))
        case Success(t) =>
          Verified(info1.(to := ToLower(t.to), value := t.value, bind := ToLower(t.from)), Pass)
  }

  /** `verifyErc20SwapinTx`: the receipt stage, then the checks on the filled record. */
  function VerifyErc20SwapinTx(env: Oracles, info: SwapInfo, allowUnstable: bool, token: TokenConfig, receipt: Receipt): (r: Verified)
    ensures r.info == VerifyErc20SwapinTxReceipt(env, info, receipt, token).info
    ensures VerifyErc20SwapinTxReceipt(env, info, receipt, token).outcome.Fail? ==>
      r.outcome == VerifyErc20SwapinTxReceipt(env, info, receipt, token).outcome
    ensures VerifyErc20SwapinTxReceipt(env, info, receipt, token).outcome.Pass? ==>
      r.outcome == FirstFailure(SwapinChecks(env, r.info))
  {
    var stage := VerifyErc20SwapinTxReceipt(env, info, receipt, token);
    if stage.outcome.Fail? then stage
    else Verified(stage.info, CheckSwapinInfo(env, stage.info))
  }

  // ---------------------------------------------------------------------------
  // Properties of the whole pipeline

  /** The checks pass exactly when every condition of the chain holds of the record. */
  lemma CheckSwapinInfoPassIff(env: Oracles, info: SwapInfo)
    ensures CheckSwapinInfo(env, info).Pass? <==>
      && info.bind != info.to
      && env.checkSwapValue(info.pairID, info.value, env.isSrc)
      && env.getTokenConfig(info.pairID).Some?
      && env.isValidAddress(info.bind)
      && (env.mustRegisterAccount ==> env.isAddressRegistered(info.bind))
      && (NeedsContractQuery(env, info.bind, env.getTokenConfig(info.pairID).value.allowSwapinFromContract) ==>
            env.isContractAddress(info.bind) == Some(false))
  {
    var checks := SwapinChecks(env, info);
    if CheckSwapinInfo(env, info).Pass? {
      assert checks[0].holds && checks[1].holds && checks[2].holds;
      assert checks[3].holds && checks[4].holds && checks[5].holds && checks[6].holds;
    }
  }

  /** The receipt stage passes exactly when the target is allowed and a deposit event exists. */
  lemma ReceiptPassIff(env: Oracles, info: SwapInfo, receipt: Receipt, token: TokenConfig)
    ensures VerifyErc20SwapinTxReceipt(env, info, receipt, token).outcome.Pass? <==>
      && receipt.recipient.Some?
      && TargetAllowed(env, token, Hex(receipt.recipient.value))
      && HasDeposit(receipt.logs, token.contractAddress, token.depositAddress)
  {
  }

  /**
    A swap-in is accepted exactly when the receipt targets the token contract
    (or an allowed forwarder), carries a deposit event, and the record filled
    from the first deposit event passes every check.
   */
  lemma SwapinAcceptedIff(env: Oracles, info: SwapInfo, allowUnstable: bool, token: TokenConfig, receipt: Receipt)
    ensures var r := VerifyErc20SwapinTx(env, info, allowUnstable, token, receipt);
      r.outcome.Pass? <==>
        && receipt.recipient.Some?
        && TargetAllowed(env, token, Hex(receipt.recipient.value))
        && HasDeposit(receipt.logs, token.contractAddress, token.depositAddress)
        && r.info.bind != r.info.to
        && env.checkSwapValue(r.info.pairID, r.info.value, env.isSrc)
        && env.getTokenConfig(r.info.pairID).Some?
        && env.isValidAddress(r.info.bind)
        && (env.mustRegisterAccount ==> env.isAddressRegistered(r.info.bind))
        && (NeedsContractQuery(env, r.info.bind, env.getTokenConfig(r.info.pairID).value.allowSwapinFromContract) ==>
              env.isContractAddress(r.info.bind) == Some(false))
  {
    var stage := VerifyErc20SwapinTxReceipt(env, info, receipt, token);
    ReceiptPassIff(env, info, receipt, token);
    CheckSwapinInfoPassIff(env, stage.info);
  }

  /**
    Nothing depends on the contract-code lookup when the pair allows contract
    bind addresses, the bind address is whitelisted, or this is not a swap server:
    the lookup is never made.
   */
  lemma ContractQuerySkipped(env: Oracles, query: string -> Option<bool>, info: SwapInfo, allowUnstable: bool, token: TokenConfig, receipt: Receipt)
    requires var bind := VerifyErc20SwapinTxReceipt(env, info, receipt, token).info.bind;
      var pair := env.getTokenConfig(info.pairID);
      || (pair.Some? && pair.value.allowSwapinFromContract)
      || env.isInCallByContractWhitelist(bind)
      || !env.isSwapServer
    ensures VerifyErc20SwapinTx(env.(isContractAddress := query), info, allowUnstable, token, receipt)
         == VerifyErc20SwapinTx(env, info, allowUnstable, token, receipt)
  {
    var env' := env.(isContractAddress := query);
    var stage := VerifyErc20SwapinTxReceipt(env, info, receipt, token);
    assert VerifyErc20SwapinTxReceipt(env', info, receipt, token) == stage;
    if stage.outcome.Pass? {
      CheckSwapinInfoIgnoresQuery(env, query, stage.info);
    }
  }

  /** The checks on a record never consult the contract lookup when it is not required. */
  lemma CheckSwapinInfoIgnoresQuery(env: Oracles, query: string -> Option<bool>, info: SwapInfo)
    requires var pair := env.getTokenConfig(info.pairID);
      || (pair.Some? && pair.value.allowSwapinFromContract)
      || env.isInCallByContractWhitelist(info.bind)
      || !env.isSwapServer
    ensures CheckSwapinInfo(env.(isContractAddress := query), info) == CheckSwapinInfo(env, info)
  {
    var env' := env.(isContractAddress := query);
    var pair := env.getTokenConfig(info.pairID);
    if info.bind != info.to && env.checkSwapValue(info.pairID, info.value, env.isSrc) && pair.Some? {
      var allow := pair.value.allowSwapinFromContract;
      assert !NeedsContractQuery(env, info.bind, allow);
      assert CheckSwapinBindAddress(env', info.bind, allow) == CheckSwapinBindAddress(env, info.bind, allow);
    }
  }

  /** A failed contract-code lookup is the only transient rejection, and only a lookup that was made can fail. */
  lemma TransientOnlyFromQuery(env: Oracles, info: SwapInfo, allowUnstable: bool, token: TokenConfig, receipt: Receipt)
    ensures var r := VerifyErc20SwapinTx(env, info, allowUnstable, token, receipt);
      r.outcome.Fail? && IsTransient(r.outcome.error) ==>
        && env.getTokenConfig(r.info.pairID).Some?
        && NeedsContractQuery(env, r.info.bind, env.getTokenConfig(r.info.pairID).value.allowSwapinFromContract)
        && env.isContractAddress(r.info.bind).None?
  {
    var stage := VerifyErc20SwapinTxReceipt(env, info, receipt, token);
    if stage.outcome.Fail? && receipt.recipient.Some? && TargetAllowed(env, token, Hex(receipt.recipient.value)) {
      var p := ParseErc20SwapinTxLogs(receipt.logs, token.contractAddress, token.depositAddress);
      assert p.error == ErrTxWithWrongReceiver || p.error == ErrDepositLogNotFound;
    }
  }

  /**
    An accepted swap-in records the first live transfer event of the token
    contract to the deposit address: its value, its sender as the bind address,
    and the deposit address as the recipient.
   */
  lemma AcceptedSwapinRecordsDeposit(env: Oracles, info: SwapInfo, allowUnstable: bool, token: TokenConfig, receipt: Receipt)
    ensures var r := VerifyErc20SwapinTx(env, info, allowUnstable, token, receipt);
      r.outcome.Pass? ==>
        && EqualIgnoreCase(r.info.to, token.depositAddress)
        && r.info.bind != r.info.to
        && exists i ::
             && FirstDepositAt(receipt.logs, token.contractAddress, token.depositAddress, i)
             && !IsRemoved(receipt.logs[i])
             && EqualIgnoreCase(Hex(receipt.logs[i].address), token.contractAddress)
             && r.info.value == DecodeTransfer(receipt.logs[i]).value
             && r.info.bind == ToLower(DecodeTransfer(receipt.logs[i]).from)
  {
    var r := VerifyErc20SwapinTx(env, info, allowUnstable, token, receipt);
    if r.outcome.Pass? {
      var i :| FirstDepositAt(receipt.logs, token.contractAddress, token.depositAddress, i) &&
        var t := DecodeTransfer(receipt.logs[i]);
        r.info.to == ToLower(t.to) && r.info.value == t.value && r.info.bind == ToLower(t.from);
      EqualIgnoreCaseLower(Recipient(receipt.logs[i]), token.depositAddress);
    }
  }
}
