# ERC-20 swap-in verification and Fusion chain-ID bootstrap, in Dafny

This project models the verification core of a cross-chain swap bridge.

**Swap-in verification (Ethereum bridge).** A source-chain receipt is checked in
three steps:

- The transaction must target the token contract, or a whitelisted forwarder,
  unless the token allows swap-ins from contracts.
- The receipt's event logs are scanned for the first live EIP-20
  `Transfer(address,address,uint256)` event of the token contract whose
  recipient is the deposit address. The swap record is filled from that event.
- The filled record then goes through an ordered chain of checks. Each check
  fails with its own typed error: self transfer, value bounds, pair
  configuration, bind-address validity, registration, and a contract-code lookup.

**Chain-ID bootstrap (Fusion bridge).** The configured network id is
lower-cased and resolved against the network table. An unknown network that is
not custom is fatal. The gateway is polled until it answers. A chain ID that
differs from the one a known network expects is fatal. Otherwise the chain ID
and its EIP-155 signer are committed, and only then is the bridge initialised.

Files and modules:

- `common.dfy` (`Common`): bytes, 32-byte topics and 20-byte addresses. Also
  case folding and case-insensitive comparison, the textual form of an address,
  `BytesToAddress` and `GetBigInt`, and the ABI encodings that these decoders invert.
- `tokens.dfy` (`Tokens`): the typed errors, the token configuration and the
  swap record (`TxSwapInfo`).
- `erc20logs.dfy` (`Erc20Logs`): the log matcher `ParseErc20SwapinTxLogs`.
- `swapin.dfy` (`SwapinVerify`): the receipt stage, the check chain and the
  whole `verifyErc20SwapinTx`. Every external lookup is a field of `Oracles`.
- `fsnbridge.dfy` (`FsnBridge`): `VerifyChainID` and `SetChainAndGateway`. The
  gateway's answers are a finite sequence, where `None` is a failed query.

The Go code changes the swap record through a pointer. The model returns the
updated record instead, next to the error (`Verified(info, outcome)`). Every
operation is a pure function of its inputs and oracles. Repeating a
verification with the same inputs therefore gives the same record and the same
error by construction.

Two details of the code that the model keeps:

- With no recipient, nothing is recorded and `ErrTxWithWrongContract` is
  returned at once (tokens/eth/verifyerc20tx.go:40-42).
- An indexed address is the last 20 bytes of its 32-byte topic, so it is
  left-padded (`BytesToAddress`). `AddressToTopic` and `TopicAddressRoundTrip`
  model that layout.

## Model

| member | source | states |
|---|---|---|
| `Common.ToLowerIsLower` | tokens/eth/verifyerc20tx.go:44-45 | a lower-cased string has no upper-case letter, and lower-casing leaves an already lower-case string unchanged |
| `Common.HexIsLower` | tokens/eth/verifyerc20tx.go:44-45 | an address's textual form is lower case, so lower-casing it changes nothing |
| `Common.EqualIgnoreCaseLower` | tokens/eth/verifyerc20tx.go:73-84 | lower-casing either side never changes a case-insensitive comparison |
| `Common.HexInjective` | tokens/eth/verifyerc20tx.go:83-84 | two addresses' textual forms are equal ignoring case exactly when the addresses are equal |
| `Common.TopicAddressRoundTrip` | tokens/eth/verifyerc20tx.go:83-87 | the address decoded from a topic holding an indexed address argument is that address |
| `Common.BigEndianBound` | tokens/eth/verifyerc20tx.go:88 | an n-byte big-endian value is below 256^n |
| `Common.EncodeUintRoundTrip` | tokens/eth/verifyerc20tx.go:88 | decoding the n-byte big-endian encoding of a value below 256^n gives the value back |
| `Common.GetData` | tokens/eth/verifyerc20tx.go:88 | the slice has the requested size; each byte is the data byte at that offset, or zero past the end |
| `Common.GetBigInt` | tokens/eth/verifyerc20tx.go:88 | the value is below 256^size; when the data covers the slice, it is the big-endian value of those bytes |
| `Common.Uint256RoundTrip` | tokens/eth/verifyerc20tx.go:88 | an ABI-encoded uint256 slot decodes to the value it encodes |
| `Erc20Logs.ParseErc20SwapinTxLogs` | tokens/eth/verifyerc20tx.go:67-97 | success iff some log is a deposit event; on success the result is decoded from the earliest deposit event; on failure the error is ErrTxWithWrongReceiver iff a live transfer event of the contract exists, else ErrDepositLogNotFound |
| `Erc20Logs.LaterLogsIgnored` | tokens/eth/verifyerc20tx.go:83-89 | when the logs hold a deposit event, appending any logs leaves the result unchanged |
| `Erc20Logs.FirstMatchWins` | tokens/eth/verifyerc20tx.go:69-89 | a deposit event preceded only by non-deposit logs is the one returned, whatever follows |
| `Erc20Logs.RemovedLogIgnored` | tokens/eth/verifyerc20tx.go:70-72 | inserting a log marked removed anywhere never changes the result, not even the kind of error |
| `Erc20Logs.ParseIgnoresCase` | tokens/eth/verifyerc20tx.go:73-84 | the result is the same when the contract and deposit addresses are lower-cased first |
| `Erc20Logs.TransferEventIsDeposit` | tokens/eth/verifyerc20tx.go:73-84 | a transfer event emitted by the token is a live transfer log of it, and is a deposit exactly when its recipient is the deposit address |
| `Erc20Logs.TransferEventRoundTrip` | tokens/eth/verifyerc20tx.go:83-88 | decoding an emitted transfer event gives back its from, to and value |
| `Erc20Logs.MisdirectedThenDeposit` | tokens/eth/verifyerc20tx.go:82-89 | a transfer to another address followed by a deposit: the deposit is returned |
| `Erc20Logs.EarlierDepositWins` | tokens/eth/verifyerc20tx.go:83-89 | two deposits: the earlier one's value is returned |
| `Erc20Logs.OnlyMisdirected` | tokens/eth/verifyerc20tx.go:91-96 | a transfer event only to another address gives ErrTxWithWrongReceiver, not ErrDepositLogNotFound |
| `SwapinVerify.FirstFailure` | tokens/eth/verifyerc20tx.go:99-131 | a check chain passes iff every check holds; otherwise its error is that of a failing check with all earlier checks holding |
| `SwapinVerify.FirstFailureAt` | tokens/eth/verifyerc20tx.go:99-131 | the error of a chain is the error of its first check that does not hold |
| `SwapinVerify.CheckSwapinBindAddress` | tokens/eth/verifyerc20tx.go:113-133 | equals the first failure of the ordered checks valid address, registration, lookup success, not a contract; a lookup error or a contract verdict only arise when the lookup is required |
| `SwapinVerify.CheckSwapinInfo` | tokens/eth/verifyerc20tx.go:99-111 | equals the first failure of the ordered checks self transfer, value bounds, pair configuration, then the bind checks; bind == to always gives ErrTxWithWrongSender |
| `SwapinVerify.CheckSwapinInfoPassIff` | tokens/eth/verifyerc20tx.go:99-133 | the checks pass exactly when every condition of the chain holds of the record |
| `SwapinVerify.VerifyErc20SwapinTxReceipt` | tokens/eth/verifyerc20tx.go:39-64 | no recipient gives ErrTxWithWrongContract with the record untouched; otherwise TxTo and From are set first; ErrTxWithWrongContract iff the target is not allowed; a matcher error is returned as is, with To, Value and Bind untouched; on success To, Value and Bind come from the earliest deposit event, lower-cased |
| `SwapinVerify.ReceiptPassIff` | tokens/eth/verifyerc20tx.go:39-64 | the receipt stage passes exactly when the receipt has an allowed target and a deposit event |
| `SwapinVerify.VerifyErc20SwapinTx` | tokens/eth/verifyerc20tx.go:18-37 | the record returned is the one the receipt stage filled; a receipt-stage error is returned without running the checks; otherwise the error is the first failing check |
| `SwapinVerify.SwapinAcceptedIff` | tokens/eth/verifyerc20tx.go:18-28 | a swap-in is accepted exactly when the target is allowed, a deposit event exists and every check holds of the filled record |
| `SwapinVerify.AcceptedSwapinRecordsDeposit` | tokens/eth/verifyerc20tx.go:53-63 | an accepted record's recipient is the deposit address (ignoring case), and its value and bind come from the earliest live transfer event of the token contract |
| `SwapinVerify.ContractQuerySkipped` | tokens/eth/verifyerc20tx.go:121-123 | when the pair allows contracts, the bind address is whitelisted, or this is not a swap server, the contract lookup's answer cannot affect the result |
| `SwapinVerify.CheckSwapinInfoIgnoresQuery` | tokens/eth/verifyerc20tx.go:121-123 | under the same conditions the record checks alone give the same outcome whatever the contract lookup answers |
| `SwapinVerify.TransientOnlyFromQuery` | tokens/eth/verifyerc20tx.go:123-127 | ErrRPCQueryError only arises when the contract lookup was required and failed |
| `FsnBridge.PollGateway` | tokens/fsn/bridge.go:48-56 | exhausted iff every answer failed; otherwise it returns the first successful answer and the number of queries up to and including it |
| `FsnBridge.CommitChainID` | tokens/fsn/bridge.go:62-63 | the committed identity's chain ID and its signer's chain ID are the given chain ID |
| `FsnBridge.VerifyChainID` | tokens/fsn/bridge.go:35-66 | an abort names the configured network id; it aborts for an unsupported network (after lower-casing) exactly when the network is not supported, and does so without a query; a supported network whose queries all fail is still polling; a mismatch aborts only on a known non-custom network with a different first answer; a commit takes the first answer and sets the identity; nothing but a commit changes the identity |
| `FsnBridge.SetChainAndGateway` | tokens/fsn/bridge.go:28-32 | the configuration is stored, the chain ID is verified against the new configuration, the bridge is initialised only after a commit, and a commit installs the committed chain ID and its EIP155 signer |
| `FsnBridge.PollStopsAtFirstAnswer` | tokens/fsn/bridge.go:48-52 | after a run of failures, the first answer ends polling, whatever comes after it |
| `FsnBridge.FailedQueryRetried` | tokens/fsn/bridge.go:48-56 | a failed query leads to another query and changes only the query count and the time slept |
| `FsnBridge.LaterAnswersIgnored` | tokens/fsn/bridge.go:48-52 | answers after the first successful one do not influence the bootstrap |
| `FsnBridge.FirstAnswerDecides` | tokens/fsn/bridge.go:58-63 | on a supported network the first answer is committed when the network is custom or expects it, otherwise the process aborts with the identity unchanged |
| `FsnBridge.NetIDCaseIgnored` | tokens/fsn/bridge.go:36-38 | network ids differing only in letter case give the same identity, query count, time slept and kind of verdict, and the same committed chain ID |
| `FsnBridge.TwoFailuresThenCommit` | tokens/fsn/bridge.go:48-63 | a gateway that fails twice and then answers the expected chain ID leads to a commit after three queries and two delays |

## Left out

- worker/scan.go (`StartScanJob`) is not part of this model. It launches goroutines on global bridge singletons; its flag decision cannot be separated from that concurrency.
- Logging calls are not modelled. The `allowUnstable` flag of `VerifyErc20SwapinTx` only controls an audit log line, so the model ignores it.
- `Common.Hex`: the EIP-55 mixed-case checksum spelling of addresses is not modelled; addresses are spelled in lower case. Every use either compares case-insensitively or lower-cases the string, so the recorded fields are the same.
- `Common.ToLower`: folds ASCII letters only. Go's `strings.ToLower` also maps non-ASCII letters, for example U+0130 'İ' to 'i' and U+212A (Kelvin sign) to 'k'. Hex addresses never contain such letters; configured strings such as the network id can.
- `Common.EqualIgnoreCase` (`common.IsEqualIgnoreCase`, tokens/eth/verifyerc20tx.go:48, 73, 84): compares after ASCII-only lower-casing, where Go's `strings.EqualFold` uses Unicode case folding. At these three lines one side is always an address's text ("0x" and hexadecimal digits). The only non-ASCII letters with a simple case fold into ASCII are the Kelvin sign and the long s, which fold to 'k' and 's'. Neither is a hexadecimal digit or 'x', so these comparisons agree with Go's.
- `FsnBridge.VerifyChainID`: the network id is lower-cased ASCII-only. A network id such as "MAİNNET" lower-cases to "mainnet" in Go, so Go would find the table entry and go on to poll the gateway; the model keeps 'İ' and returns a `Fatal` verdict for an unsupported network.
- `FsnBridge.NetIDCaseIgnored`: relates network ids equal under ASCII lower-casing only; ids that Go's Unicode lower-casing makes equal (such as "MAİNNET" and "mainnet") are not covered.
- `Common.GetBigInt`: the Go helper's code is not part of this model. The model clips the slice to the data and pads it with zeros on the right, as go-ethereum's getData does. For data of at least 32 bytes it is the big-endian value of bytes [0, 32).
- `Erc20Logs.LogTransferTopic`: the `erc20CodeParts` table is not part of this model. The constant is the standard keccak-256 hash of `Transfer(address,address,uint256)`.
- `Common.BytesToAddress` is modelled as the last 20 bytes of a 32-byte topic, following the Ethereum convention. Its Go code is not part of this model.
- External lookups are oracle fields (`SwapinVerify.Oracles`, `FsnBridge.Networks`), not real I/O. These are the whitelist, the value bounds, the token configuration, address validity, registration, the `MustRegisterAccount` and `IsSwapServer` flags, the contract-code query, the network table and the custom-network test.
- `FsnBridge.VerifyChainID`: `time.Sleep` and the unbounded retry loop become a finite sequence of gateway answers; running out of answers is `StillPolling`. `log.Fatalf` becomes a `Fatal` verdict instead of a process exit.
- `FsnBridge.SetChainAndGateway`: the base `SetChainAndGateway` and `Init` are not part of this model. The first stores the configuration; the second is recorded as an `initialized` flag.
- `types.MakeSigner` is kept as the pair of its arguments (`Signer`).
- `NewCrossChainBridge` and the `Inherit` self-reference are object wiring with no behaviour to verify.
- `Tokens.SwapInfo`: an unset (nil) `Value` is not distinguished from zero. `To`, `Value` and `Bind` are only read after the receipt stage has set them.
