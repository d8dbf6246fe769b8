/**
  Chain-identity bootstrap of the Fusion bridge: resolve the configured network,
  poll the gateway until it reports a chain ID, abort on an unknown network or a
  mismatching chain ID, otherwise commit the chain ID and its signer. The
  gateway's answers are a finite sequence; running out of answers means the
  bridge is still polling.
 */
module FsnBridge {
  import opened Common

  /** Seconds slept after each failed gateway query. */
  const RetryDelaySeconds: nat := 3

  /** The signing scheme the bridge builds its signer with. */
  const SignerScheme: string := "EIP155"

  datatype ChainConfig = ChainConfig(netID: string)

  datatype GatewayConfig = GatewayConfig(apiAddress: string)

  /**
    The network table and the custom-network test: `FsnNetworkAndChainIDMap`
    with `GetChainIDOfNetwork`, and `IsCustomNetwork`.
   */
  datatype Networks = Networks(chainIDs: map<string, nat>, isCustom: string -> bool)

  /** `types.MakeSigner(scheme, chainID)`, kept as the pair of its arguments. */
  datatype Signer = Signer(scheme: string, chainID: nat)

  /** The identity a bridge signs and verifies with; `None` until committed. */
  datatype Identity = Identity(signerChainID: Option<nat>, signer: Option<Signer>)

  /** Why the process would abort (`log.Fatalf`), with the configured network id. */
  datatype FatalReason =
    | UnsupportedNetwork(netID: string)
    | ChainIDMismatch(gatewayChainID: nat, netID: string)

  datatype Verdict = Fatal(reason: FatalReason) | Committed(chainID: nat) | StillPolling

  /** The verdict, the number of gateway queries made, the seconds slept, and the resulting identity. */
  datatype Bootstrap = Bootstrap(verdict: Verdict, queries: nat, slept: nat, identity: Identity)

  /** The first successful gateway answer and how many queries it took. */
  datatype Poll = Answered(chainID: nat, queries: nat) | Exhausted

  /** Queries the gateway until an answer arrives; `None` is a failed query. */
  function PollGateway(answers: seq<Option<nat>>): (r: Poll)
    ensures r.Exhausted? <==> forall i :: 0 <= i < |answers| ==> answers[i].None?
    ensures r.Answered? ==>
      && 1 <= r.queries <= |answers|
      && answers[r.queries - 1] == Some(r.chainID)
      && forall i :: 0 <= i < r.queries - 1 ==> answers[i].None?
  {
    if |answers| == 0 then Exhausted
    else if answers[0].Some? then Answered(answers[0].value, 1)
    else
      assert forall i :: 0 < i < |answers| ==> answers[i] == answers[1..][i - 1];
      match PollGateway(answers[1..])
      case Exhausted => Exhausted
      case Answered(c, q) => Answered(c, q + 1)
  }

  /** The identity the bridge holds after committing `chainID`. */
  function CommitChainID(chainID: nat): (id: Identity)
    ensures id.signerChainID == Some(chainID)
    ensures id.signer.Some? && id.signer.value.chainID == chainID
  {
    Identity(Some(chainID), Some(Signer(SignerScheme, chainID)))
  }

  /** The expected chain ID of a known network (`GetChainIDOfNetwork`), if any. */
  function TargetChainID(nets: Networks, networkID: string): Option<nat> {
    if networkID in nets.chainIDs then Some(nets.chainIDs[networkID]) else None
  }

  /** `VerifyChainID`, run on the bridge's current identity. */
  function VerifyChainID(cfg: ChainConfig, nets: Networks, answers: seq<Option<nat>>, id: Identity): (r: Bootstrap)
    ensures !r.verdict.Committed? ==> r.identity == id
    ensures r.verdict.Fatal? ==> r.verdict.reason.netID == cfg.netID
    ensures r.verdict.Fatal? && r.verdict.reason.UnsupportedNetwork? <==> !Supported(nets, cfg.netID)
    ensures Supported(nets, cfg.netID) && PollGateway(answers).Exhausted? ==> r.verdict.StillPolling?
    ensures r.verdict.Fatal? && r.verdict.reason.UnsupportedNetwork? ==> r.queries == 0
    ensures r.verdict.Fatal? && r.verdict.reason.ChainIDMismatch? ==>
      && !nets.isCustom(ToLower(cfg.netID))
      && TargetChainID(nets, ToLower(cfg.netID)).Some?
      && r.verdict.reason.gatewayChainID != TargetChainID(nets, ToLower(cfg.netID)).value
      && PollGateway(answers) == Answered(r.verdict.reason.gatewayChainID, r.queries)
    ensures r.verdict.Committed? ==>
      && r.identity == CommitChainID(r.verdict.chainID)
      && PollGateway(answers) == Answered(r.verdict.chainID, r.queries)
      && (nets.isCustom(ToLower(cfg.netID)) || TargetChainID(nets, ToLower(cfg.netID)) == Some(r.verdict.chainID))
    ensures r.verdict.StillPolling? ==> PollGateway(answers).Exhausted? && r.queries == |answers|
    ensures r.queries <= |answers|
    ensures r.verdict.StillPolling? ==> r.slept == RetryDelaySeconds * r.queries
    ensures !r.verdict.StillPolling? ==> r.slept == if r.queries == 0 then 0 else RetryDelaySeconds * (r.queries - 1)
  {
    var networkID := ToLower(cfg.netID);
    var target := TargetChainID(nets, networkID);
    var isCustom := nets.isCustom(networkID);
    if !isCustom && target.None? then
      Bootstrap(Fatal(UnsupportedNetwork(cfg.netID)), 0, 0, id)
    else
      match PollGateway(answers)
      case Exhausted =>
        Bootstrap(StillPolling, |answers|, RetryDelaySeconds * |answers|, id)
      case Answered(chainID, queries) =>
        var slept := RetryDelaySeconds * (queries - 1);
        if !isCustom && chainID != target.value then
          Bootstrap(Fatal(ChainIDMismatch(chainID, cfg.netID)), queries, slept, id)
        else
          Bootstrap(Committed(chainID), queries, slept, CommitChainID(chainID))
  }

  /** The parts of a bridge instance that `SetChainAndGateway` touches. */
  datatype Bridge = Bridge(
    chainConfig: Option<ChainConfig>,
    gatewayConfig: Option<GatewayConfig>,
    identity: Identity,
    initialized: bool)

  datatype Startup = Startup(bridge: Bridge, boot: Bootstrap)

  /**
    `SetChainAndGateway`: store the configuration, verify the chain ID against
    it, then `Init`. A fatal verdict ends the process and a bridge still polling
    never returns, so in both cases `Init` is not reached.
   */
  function SetChainAndGateway(b: Bridge, chainCfg: ChainConfig, gatewayCfg: GatewayConfig, nets: Networks, answers: seq<Option<nat>>): (r: Startup)
    ensures r.bridge.chainConfig == Some(chainCfg) && r.bridge.gatewayConfig == Some(gatewayCfg)
    ensures r.boot == VerifyChainID(chainCfg, nets, answers, b.identity)
    ensures r.bridge.initialized <==> b.initialized || r.boot.verdict.Committed?
    ensures r.boot.verdict.Committed? ==> r.bridge.identity.signerChainID == Some(r.boot.verdict.chainID)
    ensures r.boot.verdict.Committed? ==> r.bridge.identity == r.boot.identity
    ensures !r.boot.verdict.Committed? ==> r.bridge.identity == b.identity
  {
    var configured := b.(chainConfig := Some(chainCfg), gatewayConfig := Some(gatewayCfg));
    var boot := VerifyChainID(chainCfg, nets, answers, configured.identity);
    if boot.verdict.Committed? then
      Startup(configured.(identity := boot.identity, initialized := true), boot)
    else
      Startup(configured, boot)
  }

  // ---------------------------------------------------------------------------
  // Properties of the bootstrap

  /** The network id is resolved and tested only after lower-casing. */
  predicate Supported(nets: Networks, netID: string) {
    nets.isCustom(ToLower(netID)) || ToLower(netID) in nets.chainIDs
  }

  /** The first answer ends polling: whatever the gateway would have said later is never asked for. */
  lemma {:induction false} PollStopsAtFirstAnswer(failures: seq<Option<nat>>, chainID: nat, later: seq<Option<nat>>)
    requires forall i :: 0 <= i < |failures| ==> failures[i].None?
    ensures PollGateway(failures + [Some(chainID)] + later) == Answered(chainID, |failures| + 1)
  {
    var all := failures + [Some(chainID)] + later;
    if |failures| > 0 {
      assert all[1..] == failures[1..] + [Some(chainID)] + later;
      PollStopsAtFirstAnswer(failures[1..], chainID, later);
    } else {
      assert all[0] == Some(chainID);
    }
  }

  /** A failed gateway query changes nothing but the query count and the time slept. */
  lemma FailedQueryRetried(cfg: ChainConfig, nets: Networks, answers: seq<Option<nat>>, id: Identity)
    requires Supported(nets, cfg.netID)
    ensures var before := VerifyChainID(cfg, nets, answers, id);
      var after := VerifyChainID(cfg, nets, [None] + answers, id);
      && after.verdict == before.verdict
      && after.identity == before.identity
      && after.queries == before.queries + 1
      && after.slept == before.slept + RetryDelaySeconds
  {
    assert ([None] + answers)[1..] == answers;
  }

  /** Answers after the first successful one never influence the bootstrap. */
  lemma LaterAnswersIgnored(cfg: ChainConfig, nets: Networks, failures: seq<Option<nat>>, chainID: nat, later: seq<Option<nat>>, id: Identity)
    requires forall i :: 0 <= i < |failures| ==> failures[i].None?
    ensures VerifyChainID(cfg, nets, failures + [Some(chainID)] + later, id)
         == VerifyChainID(cfg, nets, failures + [Some(chainID)], id)
  {
    PollStopsAtFirstAnswer(failures, chainID, later);
    PollStopsAtFirstAnswer(failures, chainID, []);
    assert failures + [Some(chainID)] + [] == failures + [Some(chainID)];
  }

  /** On a supported network the first answer decides: commit it unless a known network expects another chain ID. */
  lemma FirstAnswerDecides(cfg: ChainConfig, nets: Networks, failures: seq<Option<nat>>, chainID: nat, later: seq<Option<nat>>, id: Identity)
    requires Supported(nets, cfg.netID)
    requires forall i :: 0 <= i < |failures| ==> failures[i].None?
    ensures var r := VerifyChainID(cfg, nets, failures + [Some(chainID)] + later, id);
      var networkID := ToLower(cfg.netID);
      && r.queries == |failures| + 1
      && (if nets.isCustom(networkID) || nets.chainIDs[networkID] == chainID
          then r.verdict == Committed(chainID) && r.identity == CommitChainID(chainID)
          else r.verdict == Fatal(ChainIDMismatch(chainID, cfg.netID)) && r.identity == id)
  {
    PollStopsAtFirstAnswer(failures, chainID, later);
  }

  /** Two network ids that differ only in letter case bootstrap identically. */
  lemma NetIDCaseIgnored(a: string, b: string, nets: Networks, answers: seq<Option<nat>>, id: Identity)
    requires ToLower(a) == ToLower(b)
    ensures var ra, rb := VerifyChainID(ChainConfig(a), nets, answers, id), VerifyChainID(ChainConfig(b), nets, answers, id);
      && ra.identity == rb.identity
      && ra.queries == rb.queries
      && ra.slept == rb.slept
      && ra.verdict.Fatal? == rb.verdict.Fatal?
      && ra.verdict.StillPolling? == rb.verdict.StillPolling?
      && (ra.verdict.Committed? ==> ra.verdict == rb.verdict)
  {
  }

  /** A gateway that fails twice and then answers with the expected chain ID commits it without aborting. */
  lemma TwoFailuresThenCommit(cfg: ChainConfig, nets: Networks, chainID: nat, id: Identity)
    requires nets.isCustom(ToLower(cfg.netID)) || TargetChainID(nets, ToLower(cfg.netID)) == Some(chainID)
    ensures VerifyChainID(cfg, nets, [None, None, Some(chainID)], id)
         == Bootstrap(Committed(chainID), 3, 2 * RetryDelaySeconds, CommitChainID(chainID))
  {
    PollStopsAtFirstAnswer([None, None], chainID, []);
    assert [None, None] + [Some(chainID)] + [] == [None, None, Some(chainID)];
  }
}
