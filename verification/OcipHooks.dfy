/** Hooks on agent-to-agent messages: round counting, commitment gate, cross-org policy and audit
    (plugins/ocip-protocol/src/hooks.ts, loop-prevention/counter.ts, envelope/commitment.ts,
    classification/cross-org.ts, exchange-log/logger.ts).

    The classes follow the source; their methods are proved against the step functions `Outgoing` and
    `Incoming`, about which OcipRuns proves what holds over whole runs. */
module OcipHooks {
  import opened Common
  import opened Gateway
  import opened Levels
  import opened OcipEnvelope
  import opened OcipFilter
  import opened Picking

  // ----- Exchange state -----

  datatype Entry = Entry(round: real, sender: string, summary: string)

  datatype ExchangeState = ExchangeState(exchangeId: string, conversationId: string, currentRound: real,
                                         maxRounds: real, transcript: seq<Entry>)

  datatype Escalation = Escalation(exchangeId: string, conversationId: string, currentRound: real,
                                   maxRounds: real, transcript: seq<Entry>)

  type Exchanges = map<string, ExchangeState>

  function NewExchange(exchangeId: string, conversationId: string, maxRounds: Option<real>): ExchangeState {
    ExchangeState(exchangeId, conversationId, 0.0, maxRounds.GetOr(DEFAULT_MAX_ROUNDS), [])
  }

  /** The exchange tracked under an id, or else a new one. */
  function TrackedOrNew(exchanges: Exchanges, id: string, conversationId: string, maxRounds: Option<real>): ExchangeState {
    if id in exchanges then exchanges[id] else NewExchange(id, conversationId, maxRounds)
  }

  function NextRound(s: ExchangeState, sender: string, summary: string): ExchangeState {
    s.(currentRound := s.currentRound + 1.0,
       transcript := s.transcript + [Entry(s.currentRound + 1.0, sender, summary)])
  }

  function EscalationOf(s: ExchangeState): Escalation {
    Escalation(s.exchangeId, s.conversationId, s.currentRound, s.maxRounds, s.transcript)
  }

  // ----- Policy replies and errors -----

  /** What the policy engine answers, unless the call throws. */
  type PolicyReply = Reply<PolicyResponse, ()>

  datatype PolicyResponse = PolicyResponse(decision: Decision, policyApplied: string, reason: string)

  datatype Error =
    | RoundLimit(exchangeId: string, maxRounds: real)
    | CommitmentRequiresHuman(exchangeId: string)
    | CrossEnterpriseBlocked(source: string, target: string)
    | GatewayFailed

  // ----- Audit -----

  datatype Role = Initiator | Responder

  datatype Outcome = InProgress | Denied | Escalated

  datatype Shared = Shared(source: string, fields: seq<string>)

  datatype AuditRecord =
    | ExchangeLogged(exchangeId: string, conversationId: string, role: Role, exchangeType: ExchangeType,
                     currentRound: real, maxRounds: real, classification: Level,
                     counterpartyAgent: string, counterpartyUser: string,
                     dataShared: seq<Shared>, dataWithheld: seq<Withheld>, policyApplied: string,
                     outcome: Outcome, transcript: seq<Entry>)
    | DataWithheldLogged(exchangeId: string, withheld: seq<Withheld>)

  function SharedRecords(items: seq<Item>): seq<Shared> {
    seq(|items|, i requires 0 <= i < |items| => Shared(items[i].source, items[i].fields))
  }

  // ----- Commitments -----

  const COMMITMENT_KEYWORDS: seq<string> := [
    "schedule", "meeting", "agree", "approve", "allocate", "assign", "reserve",
    "commit", "confirm", "book", "deadline", "promise", "guarantee"]

  predicate MatchesAt(text: string, word: string, i: nat) {
    i + |word| <= |text| && text[i..i + |word|] == word
  }

  predicate Includes(text: string, word: string) {
    exists i :: 0 <= i <= |text| && MatchesAt(text, word, i)
  }

  function DetectKeywords(lowered: string, keywords: seq<string>): seq<string> {
    if keywords == [] then []
    else (if Includes(lowered, keywords[0]) then [keywords[0]] else []) + DetectKeywords(lowered, keywords[1..])
  }

  lemma {:induction false} DetectsEveryKeyword(lowered: string, keywords: seq<string>)
    ensures DetectKeywords(lowered, keywords) == [] <==> forall k :: k in keywords ==> !Includes(lowered, k)
  {
    if keywords != [] {
      DetectsEveryKeyword(lowered, keywords[1..]);
      assert keywords == [keywords[0]] + keywords[1..];
    }
  }

  /** A message that contains one of the words is found to, wherever the word stands in it. */
  lemma KeywordIsDetected(before: string, k: nat, after: string)
    requires k < |COMMITMENT_KEYWORDS|
    ensures DetectKeywords(before + COMMITMENT_KEYWORDS[k] + after, COMMITMENT_KEYWORDS) != []
  {
    var word := COMMITMENT_KEYWORDS[k];
    var text := before + word + after;
    assert text[|before|..|before| + |word|] == word;
    assert MatchesAt(text, word, |before|);
    assert Includes(text, word) && word in COMMITMENT_KEYWORDS;
    DetectsEveryKeyword(text, COMMITMENT_KEYWORDS);
  }

  /** The local agent, with the platform's lower-casing. */
  datatype Config = Config(agent: AgentIdentity, lower: string -> string)

  predicate RequiresHuman(cfg: Config, e: Envelope, content: string) {
    || e.requiresCommitment
    || e.replyPolicy == HumanOnly
    || (content != "" && DetectKeywords(cfg.lower(content), COMMITMENT_KEYWORDS) != [])
  }

  // ----- Cross-org policy -----

  datatype CrossOrg = Blocked | PolicyFailed | Checked(allowed: bool, policyApplied: string)

  function EnforceCrossOrg(source: SourceAgent, local: AgentIdentity, policy: PolicyReply): CrossOrg {
    if source.tenantId != local.tenantId then Blocked
    else if source.orgUnit == local.orgUnit then Checked(true, "none")
    else match policy
      case Threw(_) => PolicyFailed
      case Replied(p) => Checked(p.decision == Allow, p.policyApplied)
  }

  // ----- The two handlers as step functions -----

  datatype OutgoingMessage = OutgoingMessage(
    sessionId: string, exchangeId: Option<string>, exchangeType: Option<ExchangeType>, classification: Option<Level>,
    maxRounds: Option<real>, content: Option<string>, data: seq<Item>, receiverCanShare: Option<seq<Level>>,
    targetAgent: Option<string>, targetUser: Option<string>)
  {
    function Exchange(): string {
      exchangeId.GetOr(sessionId)
    }
  }

  /** What surrounds one send: the clock, and whether each of its two audit calls returns. */
  datatype SendSetting = SendSetting(tomorrow: string, withheldLogOk: bool, exchangeLogOk: bool)

  /** What a send leaves on the message, and the error it throws. */
  datatype SendResult = SendResult(ocip: Option<Envelope>, filteredData: Option<seq<Item>>,
                                   escalation: Option<Escalation>, error: Option<Error>)

  datatype AgentState = AgentState(exchanges: Exchanges, audit: seq<AuditRecord>)

  function OutgoingRecord(m: OutgoingMessage, s: ExchangeState, f: FilterResult, policyApplied: string,
                          outcome: Outcome): AuditRecord {
    ExchangeLogged(m.Exchange(), m.sessionId, Initiator, m.exchangeType.GetOr(InformationQuery), s.currentRound, s.maxRounds,
                   m.classification.GetOr(Internal), m.targetAgent.GetOr("unknown"), m.targetUser.GetOr("unknown"),
                   SharedRecords(f.allowed), f.withheld, policyApplied, outcome, s.transcript)
  }

  /** The exchange's state after the send has counted its round. */
  function Counted(cfg: Config, st: AgentState, m: OutgoingMessage): ExchangeState {
    NextRound(TrackedOrNew(st.exchanges, m.Exchange(), m.sessionId, m.maxRounds), cfg.agent.instanceId, m.content.GetOr(""))
  }

  function EnvelopeFor(cfg: Config, m: OutgoingMessage, s: ExchangeState, tomorrow: string): Envelope {
    Build(BuildParams(cfg.agent, m.sessionId, m.exchangeType.GetOr(InformationQuery), s.currentRound,
                      m.classification.GetOr(Internal), Some(s.maxRounds), None), tomorrow)
  }

  function FilterFor(m: OutgoingMessage): FilterResult {
    Filtered(m.data, m.receiverCanShare.GetOr([Public, Internal]), m.classification.GetOr(Internal))
  }

  /** A send within the limit: filter the data, attach the envelope and log both. */
  function Dispatched(cfg: Config, audit: seq<AuditRecord>, m: OutgoingMessage, s: ExchangeState, env: SendSetting)
      : (seq<AuditRecord>, SendResult) {
    var f := FilterFor(m);
    if f.withheld != [] && !env.withheldLogOk then
      (audit, SendResult(None, None, None, Some(GatewayFailed)))
    else
      var withheldLogged := if f.withheld != [] then audit + [DataWithheldLogged(m.Exchange(), f.withheld)] else audit;
      var envelope := Some(EnvelopeFor(cfg, m, s, env.tomorrow));
      if env.exchangeLogOk then
        (withheldLogged + [OutgoingRecord(m, s, f, "ocip-protocol", InProgress)],
         SendResult(envelope, Some(f.allowed), None, None))
      else
        (withheldLogged, SendResult(envelope, Some(f.allowed), None, Some(GatewayFailed)))
  }

  function Outgoing(cfg: Config, st: AgentState, m: OutgoingMessage, env: SendSetting): (AgentState, SendResult) {
    var s := Counted(cfg, st, m);
    var exchanges := st.exchanges[m.Exchange() := s];
    if s.currentRound > s.maxRounds then
      var record := OutgoingRecord(m, s, FilterResult([], []), "ocip-loop-prevention", Escalated);
      if env.exchangeLogOk then
        (AgentState(exchanges, st.audit + [record]),
         SendResult(None, None, Some(EscalationOf(s)), Some(RoundLimit(m.Exchange(), s.maxRounds))))
      else
        (AgentState(exchanges, st.audit), SendResult(None, None, Some(EscalationOf(s)), Some(GatewayFailed)))
    else
      var (audit, r) := Dispatched(cfg, st.audit, m, s, env);
      (AgentState(exchanges, audit), r)
  }

  datatype IncomingMessage = IncomingMessage(ocip: Option<Json>, exchangeId: Option<string>, content: Option<string>)

  /** What surrounds one receipt: the gateway's policy reply and whether the audit call returns. */
  datatype ReceiveSetting = ReceiveSetting(policy: PolicyReply, logOk: bool)

  /** The envelope handed downstream, and the error thrown. */
  datatype ReceiveResult = ReceiveResult(delivered: Option<Envelope>, error: Option<Error>)

  function IncomingRecord(x: string, e: Envelope, policyApplied: string, outcome: Outcome): AuditRecord {
    ExchangeLogged(x, e.conversationId, Responder, InformationQuery, e.exchangeRound, e.maxRounds, e.classification,
                   e.source.instanceId, e.source.userId, [], [], policyApplied, outcome, [])
  }

  /** A first envelope starts tracking at its own round; later ones change nothing. */
  function TrackIncoming(exchanges: Exchanges, x: string, e: Envelope): Exchanges {
    if x in exchanges then exchanges
    else exchanges[x := NewExchange(x, e.conversationId, Some(e.maxRounds)).(currentRound := e.exchangeRound)]
  }

  function Incoming(cfg: Config, st: AgentState, m: IncomingMessage, env: ReceiveSetting): (AgentState, ReceiveResult) {
    match Parse(m.ocip)
    case NotOcip => (st, ReceiveResult(None, None))
    case Malformed(_) => (st, ReceiveResult(None, None))
    case Parsed(e) =>
      var x := m.exchangeId.GetOr(e.conversationId);
      match EnforceCrossOrg(e.source, cfg.agent, env.policy)
      case Blocked => (st, ReceiveResult(None, Some(CrossEnterpriseBlocked(e.source.tenantId, cfg.agent.tenantId))))
      case PolicyFailed => (st, ReceiveResult(None, Some(GatewayFailed)))
      case Checked(allowed, policyApplied) =>
        if !allowed then
          if env.logOk then
            (st.(audit := st.audit + [IncomingRecord(x, e, policyApplied, Denied)]), ReceiveResult(None, None))
          else
            (st, ReceiveResult(None, Some(GatewayFailed)))
        else
          var tracked := st.(exchanges := TrackIncoming(st.exchanges, x, e));
          if RequiresHuman(cfg, e, m.content.GetOr("")) then
            (tracked, ReceiveResult(None, Some(CommitmentRequiresHuman(x))))
          else if env.logOk then
            (tracked.(audit := st.audit + [IncomingRecord(x, e, policyApplied, InProgress)]), ReceiveResult(Some(e), None))
          else
            (tracked, ReceiveResult(None, Some(GatewayFailed)))
  }

  // ----- The classes -----

  class ExchangeRoundCounter {
    var exchanges: Exchanges

    constructor ()
      ensures exchanges == map[]
    {
      exchanges := map[];
    }

    method InitExchange(exchangeId: string, conversationId: string, maxRounds: Option<real>) returns (s: ExchangeState)
      modifies this
      ensures s == NewExchange(exchangeId, conversationId, maxRounds)
      ensures s == ExchangeState(exchangeId, conversationId, 0.0, if maxRounds.Some? then maxRounds.value else 3.0, [])
      ensures exchanges == old(exchanges)[exchangeId := s]
    {
      s := ExchangeState(exchangeId, conversationId, 0.0,
                         if maxRounds.Some? then maxRounds.value else DEFAULT_MAX_ROUNDS, []);
      exchanges := exchanges[exchangeId := s];
    }

    /** Fails on an untracked exchange; past the limit the round still counts. */
    method IncrementRound(exchangeId: string, sender: string, summary: string) returns (r: Result<ExchangeState, Option<Error>>)
      modifies this
      ensures exchangeId !in old(exchanges) ==> r == Err(None) && exchanges == old(exchanges)
      ensures exchangeId in old(exchanges) ==>
                var s := NextRound(old(exchanges)[exchangeId], sender, summary);
                && exchanges == old(exchanges)[exchangeId := s]
                && r == if s.currentRound > s.maxRounds then Err(Some(RoundLimit(exchangeId, s.maxRounds))) else Ok(s)
    {
      if exchangeId !in exchanges {
        return Err(None);
      }
      var s := exchanges[exchangeId];
      s := s.(currentRound := s.currentRound + 1.0);
      s := s.(transcript := s.transcript + [Entry(s.currentRound, sender, summary)]);
      exchanges := exchanges[exchangeId := s];
      if s.currentRound > s.maxRounds {
        return Err(Some(RoundLimit(exchangeId, s.maxRounds)));
      }
      return Ok(s);
    }

    /** The first envelope of an untracked exchange sets its round. */
    method SetCurrentRound(exchangeId: string, round: real)
      requires exchangeId in exchanges
      modifies this
      ensures exchanges == old(exchanges)[exchangeId := old(exchanges)[exchangeId].(currentRound := round)]
    {
      exchanges := exchanges[exchangeId := exchanges[exchangeId].(currentRound := round)];
    }
  }

  /** The context object of an outgoing message, which the hook fills in. */
  class OutgoingContext {
    const message: OutgoingMessage
    var ocip: Option<Envelope>
    var filteredData: Option<seq<Item>>
    var escalation: Option<Escalation>

    constructor (message: OutgoingMessage)
      ensures this.message == message && ocip == None && filteredData == None && escalation == None
    {
      this.message := message;
      ocip, filteredData, escalation := None, None, None;
    }
  }

  class IncomingContext {
    const message: IncomingMessage
    var ocip: Option<Envelope>

    constructor (message: IncomingMessage)
      ensures this.message == message && ocip == None
    {
      this.message := message;
      ocip := None;
    }
  }

  class Hooks {
    const cfg: Config
    const counter: ExchangeRoundCounter
    var audit: seq<AuditRecord>

    constructor (cfg: Config)
      ensures this.cfg == cfg && fresh(counter) && State() == AgentState(map[], [])
    {
      this.cfg := cfg;
      counter := new ExchangeRoundCounter();
      audit := [];
    }

    function State(): AgentState
      reads this, counter
    {
      AgentState(counter.exchanges, audit)
    }

    method HandleOutgoing(context: OutgoingContext, env: SendSetting) returns (error: Option<Error>)
      modifies this`audit, counter, context
      ensures State() == Outgoing(cfg, old(State()), context.message, env).0
      ensures var r := Outgoing(cfg, old(State()), context.message, env).1;
              && error == r.error
              && context.ocip == (if r.ocip.Some? then r.ocip else old(context.ocip))
              && context.filteredData == (if r.filteredData.Some? then r.filteredData else old(context.filteredData))
              && context.escalation == (if r.escalation.Some? then r.escalation else old(context.escalation))
    {
      var m := context.message;
      var exchangeId := m.exchangeId.GetOr(m.sessionId);
      if exchangeId !in counter.exchanges {
        var _ := counter.InitExchange(exchangeId, m.sessionId, m.maxRounds);
      }
      var counted := counter.IncrementRound(exchangeId, cfg.agent.instanceId, m.content.GetOr(""));
      var state := counter.exchanges[exchangeId];
      if counted.Err? {
        context.escalation := Some(EscalationOf(state));
        if !env.exchangeLogOk {
          return Some(GatewayFailed);
        }
        audit := audit + [OutgoingRecord(m, state, FilterResult([], []), "ocip-loop-prevention", Escalated)];
        return counted.error;
      }
      error := Dispatch(context, state, env);
    }

    method Dispatch(context: OutgoingContext, state: ExchangeState, env: SendSetting) returns (error: Option<Error>)
      modifies this`audit, context
      ensures audit == Dispatched(cfg, old(audit), context.message, state, env).0
      ensures var r := Dispatched(cfg, old(audit), context.message, state, env).1;
              && error == r.error
              && context.ocip == (if r.ocip.Some? then r.ocip else old(context.ocip))
              && context.filteredData == (if r.filteredData.Some? then r.filteredData else old(context.filteredData))
              && context.escalation == old(context.escalation)
    {
      var m := context.message;
      var exchangeType := m.exchangeType.GetOr(InformationQuery);
      var classification := m.classification.GetOr(Internal);
      var envelope := Build(BuildParams(cfg.agent, m.sessionId, exchangeType, state.currentRound, classification,
                                        Some(state.maxRounds), None), env.tomorrow);
      var f := Filter(m.data, m.receiverCanShare.GetOr([Public, Internal]), classification);
      if |f.withheld| > 0 {
        if !env.withheldLogOk {
          return Some(GatewayFailed);
        }
        audit := audit + [DataWithheldLogged(m.exchangeId.GetOr(m.sessionId), f.withheld)];
      }
      context.ocip := Some(envelope);
      context.filteredData := Some(f.allowed);
      if !env.exchangeLogOk {
        return Some(GatewayFailed);
      }
      audit := audit + [OutgoingRecord(m, state, f, "ocip-protocol", InProgress)];
      return None;
    }

    method HandleIncoming(context: IncomingContext, env: ReceiveSetting) returns (error: Option<Error>)
      modifies this`audit, counter, context
      ensures State() == Incoming(cfg, old(State()), context.message, env).0
      ensures var r := Incoming(cfg, old(State()), context.message, env).1;
              && error == r.error
              && context.ocip == (if r.delivered.Some? then r.delivered else old(context.ocip))
    {
      var m := context.message;
      var parsed := Parse(m.ocip);
      if !parsed.Parsed? {
        return None;
      }
      var e := parsed.envelope;
      var exchangeId := m.exchangeId.GetOr(e.conversationId);
      var crossOrg := EnforceCrossOrg(e.source, cfg.agent, env.policy);
      if crossOrg.Blocked? {
        return Some(CrossEnterpriseBlocked(e.source.tenantId, cfg.agent.tenantId));
      } else if crossOrg.PolicyFailed? {
        return Some(GatewayFailed);
      }
      if !crossOrg.allowed {
        if !env.logOk {
          return Some(GatewayFailed);
        }
        audit := audit + [IncomingRecord(exchangeId, e, crossOrg.policyApplied, Denied)];
        return None;
      }
      if exchangeId !in counter.exchanges {
        var _ := counter.InitExchange(exchangeId, e.conversationId, Some(e.maxRounds));
        counter.SetCurrentRound(exchangeId, e.exchangeRound);
      }
      if RequiresHuman(cfg, e, m.content.GetOr("")) {
        return Some(CommitmentRequiresHuman(exchangeId));
      }
      if !env.logOk {
        return Some(GatewayFailed);
      }
      audit := audit + [IncomingRecord(exchangeId, e, crossOrg.policyApplied, InProgress)];
      context.ocip := Some(e);
      return None;
    }
  }

  // ----- One send -----

  /** A send counts one round of its exchange, whatever else happens, opening the exchange if need be, and no
      other exchange changes. */
  lemma SendCounts(cfg: Config, st: AgentState, m: OutgoingMessage, env: SendSetting)
    ensures var x := if m.exchangeId.Some? then m.exchangeId.value else m.sessionId;
            var content := if m.content.Some? then m.content.value else "";
            Outgoing(cfg, st, m, env).0.exchanges
              == st.exchanges[x := if x in st.exchanges then
                                     var s := st.exchanges[x];
                                     ExchangeState(s.exchangeId, s.conversationId, s.currentRound + 1.0, s.maxRounds,
                                                   s.transcript + [Entry(s.currentRound + 1.0, cfg.agent.instanceId, content)])
                                   else
                                     ExchangeState(x, m.sessionId, 1.0, if m.maxRounds.Some? then m.maxRounds.value else 3.0,
                                                   [Entry(1.0, cfg.agent.instanceId, content)])]
  {
    assert [] + [Entry(1.0, cfg.agent.instanceId, m.content.GetOr(""))] == [Entry(1.0, cfg.agent.instanceId, m.content.GetOr(""))];
  }

  /** The state of its exchange once a send has counted its round. */
  function CountedIn(cfg: Config, st: AgentState, m: OutgoingMessage, env: SendSetting): ExchangeState {
    var exchanges := Outgoing(cfg, st, m, env).0.exchanges;
    exchanges[m.Exchange()]
  }

  predicate OverLimit(s: ExchangeState) {
    s.currentRound > s.maxRounds
  }

  /** The item may go out with the message: the message's level covers it and the receiver accepts it. */
  predicate MayBeSent(m: OutgoingMessage, item: Item) {
    && Index(item.classification) <= Index(if m.classification.Some? then m.classification.value else Internal)
    && item.classification in if m.receiverCanShare.Some? then m.receiverCanShare.value else [Public, Internal]
  }

  ghost predicate Withholds(m: OutgoingMessage) {
    exists item :: item in m.data && !MayBeSent(m, item)
  }

  lemma WithholdsIff(m: OutgoingMessage)
    ensures Withholds(m) <==> FilterFor(m).withheld != []
  {
    var ceiling, accepted := m.classification.GetOr(Internal), m.receiverCanShare.GetOr([Public, Internal]);
    var at := WithheldInOrder(m.data, accepted, ceiling);
    if Withholds(m) {
      var item :| item in m.data && !MayBeSent(m, item);
      var k :| 0 <= k < |m.data| && m.data[k] == item;
      assert k in at;
    }
    if FilterFor(m).withheld != [] {
      assert at[0] in at && m.data[at[0]] in m.data;
    }
  }

  /** How a send ends, for every outcome of the audit calls: with the round limit, escalated; with the error
      of an audit call; or well. It attaches an envelope and data exactly when it is within the limit and
      withheld data, if there is any, is logged. */
  lemma SendEnds(cfg: Config, st: AgentState, m: OutgoingMessage, env: SendSetting)
    ensures var s, r := CountedIn(cfg, st, m, env), Outgoing(cfg, st, m, env).1;
            && (r.error == Some(RoundLimit(m.Exchange(), s.maxRounds)) <==> OverLimit(s) && env.exchangeLogOk)
            && (r.error == Some(GatewayFailed) <==>
                  !env.exchangeLogOk || (!OverLimit(s) && Withholds(m) && !env.withheldLogOk))
            && (r.error == None <==> !OverLimit(s) && env.exchangeLogOk && (Withholds(m) ==> env.withheldLogOk))
            && (r.ocip.Some? <==> !OverLimit(s) && (Withholds(m) ==> env.withheldLogOk))
            && (r.filteredData.Some? <==> r.ocip.Some?)
            && r.escalation == (if OverLimit(s)
                                then Some(Escalation(s.exchangeId, s.conversationId, s.currentRound, s.maxRounds, s.transcript))
                                else None)
  {
    WithholdsIff(m);
  }

  /** The envelope on a message says who sends it, in which exchange, round and limit it is, how it is
      classified and what it asks for. */
  lemma SentEnvelope(cfg: Config, st: AgentState, m: OutgoingMessage, env: SendSetting)
    requires Outgoing(cfg, st, m, env).1.ocip.Some?
    ensures var s, e := CountedIn(cfg, st, m, env), Outgoing(cfg, st, m, env).1.ocip.value;
            var kind := if m.exchangeType.Some? then m.exchangeType.value else InformationQuery;
            && e.version == "1.0" && e.messageType == AgentGenerated && !e.canCommit
            && e.source == SourceAgent(cfg.agent.instanceId, cfg.agent.userId, cfg.agent.orgUnit, cfg.agent.tenantId)
            && e.conversationId == m.sessionId && e.exchangeRound == s.currentRound && e.maxRounds == s.maxRounds
            && e.classification == (if m.classification.Some? then m.classification.value else Internal)
            && (e.replyPolicy == HumanOnly <==> kind == MeetingScheduling) && e.replyPolicy != NoReplyNeeded
            && (e.requiresCommitment <==> kind != InformationQuery)
            && (forall l :: l in e.canShare <==> Index(l) <= Index(cfg.agent.maxClassificationShared))
            && e.expiresAt == env.tomorrow
  {
    var s := Counted(cfg, st, m);
    BuiltEnvelope(BuildParams(cfg.agent, m.sessionId, m.exchangeType.GetOr(InformationQuery), s.currentRound,
                              m.classification.GetOr(Internal), Some(s.maxRounds), None), env.tomorrow);
  }

  /** The data on a message: exactly the items that may be sent, as often as they were given ... */
  lemma SentDataIsExact(cfg: Config, st: AgentState, m: OutgoingMessage, env: SendSetting, item: Item)
    requires Outgoing(cfg, st, m, env).1.ocip.Some?
    ensures Outgoing(cfg, st, m, env).1.filteredData.Some?
    ensures multiset(Outgoing(cfg, st, m, env).1.filteredData.value)[item]
         == if MayBeSent(m, item) then multiset(m.data)[item] else 0
  {
    FilterIsExact(m.data, m.receiverCanShare.GetOr([Public, Internal]), m.classification.GetOr(Internal), item);
  }

  /** ... and in the order in which they were given. */
  lemma SentDataInOrder(cfg: Config, st: AgentState, m: OutgoingMessage, env: SendSetting) returns (at: seq<nat>)
    requires Outgoing(cfg, st, m, env).1.ocip.Some?
    ensures Outgoing(cfg, st, m, env).1.filteredData.Some?
    ensures Positions(at, |m.data|) && forall k: nat :: k < |m.data| ==> (k in at <==> MayBeSent(m, m.data[k]))
    ensures |Outgoing(cfg, st, m, env).1.filteredData.value| == |at|
    ensures forall i :: 0 <= i < |at| ==> Outgoing(cfg, st, m, env).1.filteredData.value[i] == m.data[at[i]]
  {
    at := AllowedInOrder(m.data, m.receiverCanShare.GetOr([Public, Internal]), m.classification.GetOr(Internal));
  }

  /** Why an item that may not be sent is withheld. */
  function Reason(m: OutgoingMessage, item: Item): Withheld {
    var ceiling := if m.classification.Some? then m.classification.value else Internal;
    Withheld(if Index(item.classification) > Index(ceiling) then AboveCeiling(item.classification, ceiling)
             else NotAccepted(item.classification),
             item.source + ": " + item.description)
  }

  /** The list names the items that may not be sent, in order, each with the reason. */
  ghost predicate NamesWithheld(m: OutgoingMessage, withheld: seq<Withheld>) {
    exists at: seq<nat> ::
      && Positions(at, |m.data|) && |withheld| == |at|
      && (forall k: nat :: k < |m.data| ==> (k in at <==> !MayBeSent(m, m.data[k])))
      && (forall i :: 0 <= i < |at| ==> withheld[i] == Reason(m, m.data[at[i]]))
  }

  lemma FilterNamesWithheld(m: OutgoingMessage)
    ensures NamesWithheld(m, FilterFor(m).withheld)
  {
    var at := WithheldInOrder(m.data, m.receiverCanShare.GetOr([Public, Internal]), m.classification.GetOr(Internal));
    assert forall i :: 0 <= i < |at| ==> at[i] in at;
  }

  /** What the record of a send says of its exchange, in state `s`. */
  ghost predicate DescribesSend(r: AuditRecord, m: OutgoingMessage, s: ExchangeState) {
    && r.ExchangeLogged? && r.role == Initiator && r.exchangeId == m.Exchange() && r.conversationId == m.sessionId
    && r.exchangeType == (if m.exchangeType.Some? then m.exchangeType.value else InformationQuery)
    && r.classification == (if m.classification.Some? then m.classification.value else Internal)
    && r.counterpartyAgent == (if m.targetAgent.Some? then m.targetAgent.value else "unknown")
    && r.counterpartyUser == (if m.targetUser.Some? then m.targetUser.value else "unknown")
    && r.currentRound == s.currentRound && r.maxRounds == s.maxRounds && r.transcript == s.transcript
  }

  /** What the last entry of a send says of its data. */
  ghost predicate DescribesData(r: AuditRecord, m: OutgoingMessage, sent: seq<Item>)
    requires r.ExchangeLogged?
  {
    && |r.dataShared| == |sent|
    && (forall i :: 0 <= i < |sent| ==> r.dataShared[i] == Shared(sent[i].source, sent[i].fields))
    && NamesWithheld(m, r.dataWithheld)
  }

  /** What a send over the limit logs: that the exchange was escalated, with its whole transcript. */
  lemma EscalationIsLogged(cfg: Config, st: AgentState, m: OutgoingMessage, env: SendSetting)
    requires OverLimit(CountedIn(cfg, st, m, env))
    ensures var audit := Outgoing(cfg, st, m, env).0.audit;
            if env.exchangeLogOk then
              && |audit| == |st.audit| + 1 && audit[..|st.audit|] == st.audit
              && var r := audit[|st.audit|];
                 && DescribesSend(r, m, CountedIn(cfg, st, m, env))
                 && r.outcome == Escalated && r.policyApplied == "ocip-loop-prevention"
                 && r.dataShared == [] && r.dataWithheld == []
            else audit == st.audit
  {
  }

  lemma DispatchAudit(cfg: Config, st: AgentState, m: OutgoingMessage, env: SendSetting)
    requires Outgoing(cfg, st, m, env).1.ocip.Some?
    ensures Outgoing(cfg, st, m, env).1.filteredData == Some(FilterFor(m).allowed)
    ensures Outgoing(cfg, st, m, env).0.audit
         == st.audit + (if Withholds(m) then [DataWithheldLogged(m.Exchange(), FilterFor(m).withheld)] else [])
            + if env.exchangeLogOk
              then [OutgoingRecord(m, CountedIn(cfg, st, m, env), FilterFor(m), "ocip-protocol", InProgress)] else []
  {
    WithholdsIff(m);
    assert st.audit + [] == st.audit;
  }

  lemma RecordDescribesSend(m: OutgoingMessage, s: ExchangeState)
    ensures var r := OutgoingRecord(m, s, FilterFor(m), "ocip-protocol", InProgress);
            && DescribesSend(r, m, s) && r.outcome == InProgress && r.policyApplied == "ocip-protocol"
            && DescribesData(r, m, FilterFor(m).allowed)
  {
    FilterNamesWithheld(m);
  }

  /** What a send within the limit logs: first the data withheld, if there is any, then the exchange with the
      data sent and withheld. */
  lemma DispatchIsLogged(cfg: Config, st: AgentState, m: OutgoingMessage, env: SendSetting)
      returns (sent: seq<Item>, w: AuditRecord, log: AuditRecord)
    requires Outgoing(cfg, st, m, env).1.ocip.Some?
    ensures Outgoing(cfg, st, m, env).1.filteredData == Some(sent)
    ensures Outgoing(cfg, st, m, env).0.audit
         == st.audit + (if Withholds(m) then [w] else []) + if env.exchangeLogOk then [log] else []
    ensures w.DataWithheldLogged? && w.exchangeId == m.Exchange() && NamesWithheld(m, w.withheld)
    ensures DescribesSend(log, m, CountedIn(cfg, st, m, env)) && DescribesData(log, m, sent)
    ensures log.outcome == InProgress && log.policyApplied == "ocip-protocol"
  {
    var s := CountedIn(cfg, st, m, env);
    DispatchAudit(cfg, st, m, env);
    FilterNamesWithheld(m);
    RecordDescribesSend(m, s);
    sent, w := FilterFor(m).allowed, DataWithheldLogged(m.Exchange(), FilterFor(m).withheld);
    log := OutgoingRecord(m, s, FilterFor(m), "ocip-protocol", InProgress);
  }

  // ----- One receipt -----

  /** No commitment word occurs in the message. */
  predicate Uncommitting(cfg: Config, content: string) {
    content == "" || forall k :: k in COMMITMENT_KEYWORDS ==> !Includes(cfg.lower(content), k)
  }

  /** The receiver accepts the sender's org unit: it is its own, or the policy allows the exchange. */
  predicate AcceptsUnit(cfg: Config, e: Envelope, policy: PolicyReply) {
    e.source.orgUnit == cfg.agent.orgUnit || (policy.Replied? && policy.value.decision == Allow)
  }

  /** Nothing in the envelope or the message asks for a human. */
  predicate NeedsNobody(cfg: Config, e: Envelope, content: string) {
    !e.requiresCommitment && e.replyPolicy != HumanOnly && Uncommitting(cfg, content)
  }

  lemma NeedsNobodyIff(cfg: Config, e: Envelope, content: string)
    ensures NeedsNobody(cfg, e, content) <==> !RequiresHuman(cfg, e, content)
  {
    DetectsEveryKeyword(cfg.lower(content), COMMITMENT_KEYWORDS);
  }

  /** An envelope reaches the downstream context exactly when it parses, its sender is in the same
      tenant and in the same org unit or allowed by policy, nothing in it needs a human, and the
      receipt was logged. */
  lemma DeliveredIff(cfg: Config, st: AgentState, m: IncomingMessage, env: ReceiveSetting, e: Envelope)
    ensures Incoming(cfg, st, m, env).1.delivered == Some(e)
       <==> && Parse(m.ocip) == Parsed(e)
            && e.source.tenantId == cfg.agent.tenantId
            && AcceptsUnit(cfg, e, env.policy)
            && NeedsNobody(cfg, e, m.content.GetOr(""))
            && env.logOk
  {
    NeedsNobodyIff(cfg, e, m.content.GetOr(""));
  }

  /** Whether a receipt leaves an audit entry: the envelope comes from the same tenant, a policy call that
      is needed returns, the audit call returns, and it is not the case that the exchange is accepted and
      then stopped because it needs a human. */
  ghost predicate LogsReceipt(cfg: Config, e: Envelope, content: string, env: ReceiveSetting) {
    && e.source.tenantId == cfg.agent.tenantId
    && (e.source.orgUnit == cfg.agent.orgUnit || env.policy.Replied?)
    && (AcceptsUnit(cfg, e, env.policy) ==> NeedsNobody(cfg, e, content))
    && env.logOk
  }

  /** The record is of the exchange and round of the envelope. */
  ghost predicate Reports(r: AuditRecord, role: Role, exchangeId: string, e: Envelope) {
    && r.ExchangeLogged? && r.role == role && r.exchangeId == exchangeId
    && r.conversationId == e.conversationId && r.currentRound == e.exchangeRound && r.maxRounds == e.maxRounds
    && r.classification == e.classification
  }

  /** What a receipt logs, for every envelope: one entry, in progress or denied, or none. */
  lemma ReceiptIsLoggedIff(cfg: Config, st: AgentState, m: IncomingMessage, env: ReceiveSetting)
    ensures var audit := Incoming(cfg, st, m, env).0.audit;
            if Parse(m.ocip).Parsed? && LogsReceipt(cfg, Parse(m.ocip).envelope, m.content.GetOr(""), env) then
              var e := Parse(m.ocip).envelope;
              && |audit| == |st.audit| + 1 && audit[..|st.audit|] == st.audit
              && Reports(audit[|st.audit|], Responder, m.exchangeId.GetOr(e.conversationId), e)
              && audit[|st.audit|].counterpartyAgent == e.source.instanceId
              && audit[|st.audit|].counterpartyUser == e.source.userId
              && audit[|st.audit|].outcome == (if AcceptsUnit(cfg, e, env.policy) then InProgress else Denied)
              && audit[|st.audit|].policyApplied
                 == (if e.source.orgUnit == cfg.agent.orgUnit then "none" else env.policy.value.policyApplied)
              && audit[|st.audit|].exchangeType == InformationQuery && audit[|st.audit|].transcript == []
              && audit[|st.audit|].dataShared == [] && audit[|st.audit|].dataWithheld == []
            else audit == st.audit
  {
    if Parse(m.ocip).Parsed? {
      NeedsNobodyIff(cfg, Parse(m.ocip).envelope, m.content.GetOr(""));
    }
  }

  /** How a receipt ends, for every message, policy reply and audit outcome: blocked when the envelope comes
      from another tenant; asking for a human when it is accepted and needs one; with the error of a gateway
      call it needs; or well. */
  lemma ReceiptEnds(cfg: Config, st: AgentState, m: IncomingMessage, env: ReceiveSetting)
    ensures var error := Incoming(cfg, st, m, env).1.error;
            if !Parse(m.ocip).Parsed? then error == None
            else
              var e := Parse(m.ocip).envelope;
              var x := if m.exchangeId.Some? then m.exchangeId.value else e.conversationId;
              var content := if m.content.Some? then m.content.value else "";
              var foreign := e.source.tenantId != cfg.agent.tenantId;
              var needsHuman := AcceptsUnit(cfg, e, env.policy) && !NeedsNobody(cfg, e, content);
              && (error == Some(CrossEnterpriseBlocked(e.source.tenantId, cfg.agent.tenantId)) <==> foreign)
              && (error == Some(CommitmentRequiresHuman(x)) <==> !foreign && needsHuman)
              && (error == Some(GatewayFailed) <==>
                    !foreign && !needsHuman
                    && ((e.source.orgUnit != cfg.agent.orgUnit && env.policy.Threw?) || !env.logOk))
              && (error == None <==>
                    !foreign && !needsHuman
                    && (e.source.orgUnit == cfg.agent.orgUnit || env.policy.Replied?) && env.logOk)
  {
    if Parse(m.ocip).Parsed? {
      NeedsNobodyIff(cfg, Parse(m.ocip).envelope, m.content.GetOr(""));
    }
  }

  /** What a receipt does to the exchanges: an accepted envelope of an exchange not yet tracked starts tracking
      it at its own round and limit; nothing else changes anything. */
  lemma ReceiptTracks(cfg: Config, st: AgentState, m: IncomingMessage, env: ReceiveSetting)
    ensures var exchanges := Incoming(cfg, st, m, env).0.exchanges;
            if Parse(m.ocip).Parsed? then
              var e := Parse(m.ocip).envelope;
              var x := if m.exchangeId.Some? then m.exchangeId.value else e.conversationId;
              if e.source.tenantId == cfg.agent.tenantId && AcceptsUnit(cfg, e, env.policy) && x !in st.exchanges then
                exchanges == st.exchanges[x := ExchangeState(x, e.conversationId, e.exchangeRound, e.maxRounds, [])]
              else exchanges == st.exchanges
            else exchanges == st.exchanges
  {
  }

  /** Whatever the content, no envelope built for a commitment request or for scheduling a meeting is
      delivered to an agent. If the org check lets it pass, a human is asked, and the receipt leaves no
      audit entry. */
  lemma CommitmentsNeverDelivered(cfg: Config, st: AgentState, p: BuildParams, tomorrow: string,
                                  exchangeId: Option<string>, content: Option<string>, env: ReceiveSetting)
    requires p.exchangeType != InformationQuery
    ensures var m := IncomingMessage(Some(Object(Encode(Build(p, tomorrow)))), exchangeId, content);
            var (next, r) := Incoming(cfg, st, m, env);
            var check := EnforceCrossOrg(Build(p, tomorrow).source, cfg.agent, env.policy);
            && r.delivered == None
            && (Complete(Build(p, tomorrow)) && check.Checked? && check.allowed ==>
                  && r.error == Some(CommitmentRequiresHuman(exchangeId.GetOr(p.conversationId)))
                  && next.audit == st.audit)
  {
    EnvelopeRoundTrip(Build(p, tomorrow));
    var raw := Encode(Build(p, tomorrow));
    if Parse(Some(Object(raw))).Parsed? {
      ParsedKeepsCommitment(raw);
    }
  }

  /** An agent of the tenant `t`, in its unit `u`. */
  function Member(t: string, u: string): AgentIdentity {
    AgentIdentity("agent", "user", t, u, Public)
  }

  /** A commitment request between colleagues, though every call to the gateway returns: the sender's log
      has an entry and the receiver's has none. */
  lemma RefusedCommitmentGoesUnlogged(lower: string -> string, policy: PolicyReply)
    ensures var cfg := Config(Member("acme", "sales"), lower);
            var out := OutgoingMessage("talk", None, Some(CommitmentRequest), None, None, None, [], None, None, None);
            var (sender, sent) := Outgoing(cfg, AgentState(map[], []), out, SendSetting("tomorrow", true, true));
            && sent.error == None && sent.ocip.Some? && |sender.audit| == 1
            && var packet := IncomingMessage(Some(Object(Encode(sent.ocip.value))), None, None);
               var (receiver, received) := Incoming(cfg, AgentState(map[], []), packet, ReceiveSetting(policy, true));
               received.error == Some(CommitmentRequiresHuman("talk")) && receiver.audit == []
  {
    var cfg := Config(Member("acme", "sales"), lower);
    var out := OutgoingMessage("talk", None, Some(CommitmentRequest), None, None, None, [], None, None, None);
    var sent := Outgoing(cfg, AgentState(map[], []), out, SendSetting("tomorrow", true, true)).1;
    assert sent.ocip.Some? by {
      assert FilterFor(out).withheld == [];
    }
    var p := BuildParams(cfg.agent, "talk", CommitmentRequest, 1.0, Internal, Some(DEFAULT_MAX_ROUNDS), None);
    assert sent.ocip.value == Build(p, "tomorrow");
    CommitmentsNeverDelivered(cfg, AgentState(map[], []), p, "tomorrow", None, None, ReceiveSetting(policy, true));
  }

  /** From builder to receiver: a built envelope with all its identity is delivered as it was built exactly
      when it is for an information query, comes from the same tenant, and from the same org unit or one
      the policy allows, its message commits to nothing, and the receipt was logged. */
  lemma BuiltEnvelopeDeliveredIff(cfg: Config, st: AgentState, p: BuildParams, tomorrow: string,
                                  exchangeId: Option<string>, content: Option<string>, env: ReceiveSetting)
    requires Complete(Build(p, tomorrow))
    ensures Incoming(cfg, st, IncomingMessage(Some(Object(Encode(Build(p, tomorrow)))), exchangeId, content), env).1.delivered
              == Some(Build(p, tomorrow))
       <==> && p.exchangeType == InformationQuery
            && p.sourceAgent.tenantId == cfg.agent.tenantId
            && (p.sourceAgent.orgUnit == cfg.agent.orgUnit || (env.policy.Replied? && env.policy.value.decision == Allow))
            && Uncommitting(cfg, content.GetOr(""))
            && env.logOk
  {
    var m := IncomingMessage(Some(Object(Encode(Build(p, tomorrow)))), exchangeId, content);
    EnvelopeRoundTrip(Build(p, tomorrow));
    DeliveredIff(cfg, st, m, env, Build(p, tomorrow));
  }

  lemma ParsedKeepsCommitment(raw: map<Key, Json>)
    requires Parse(Some(Object(raw))).Parsed? && RequiresCommitment in raw && raw[RequiresCommitment] == Bool(true)
    ensures Parse(Some(Object(raw))).envelope.requiresCommitment
  {
  }

  /** Nothing above the exchange's classification, or outside what the receiver accepts, is sent. */
  lemma SentDataIsPermitted(cfg: Config, st: AgentState, m: OutgoingMessage, env: SendSetting, item: Item)
    requires Outgoing(cfg, st, m, env).1.filteredData.Some?
    requires item in Outgoing(cfg, st, m, env).1.filteredData.value
    ensures item in m.data
    ensures Index(item.classification) <= Index(Outgoing(cfg, st, m, env).1.ocip.value.classification)
    ensures item.classification in m.receiverCanShare.GetOr([Public, Internal])
  {
    FilterIsExact(m.data, m.receiverCanShare.GetOr([Public, Internal]), m.classification.GetOr(Internal), item);
    assert multiset(FilterFor(m).allowed)[item] > 0;
  }

  /** The send ends by logging the exchange. */
  predicate SendLeavesEntry(cfg: Config, st: AgentState, m: OutgoingMessage, env: SendSetting) {
    var audit := Outgoing(cfg, st, m, env).0.audit;
    |audit| > |st.audit| && audit[|audit|-1].ExchangeLogged?
  }

  /** The record of the exchange, whatever its outcome, is the last thing a send does: it is there exactly
      when its audit call returns and, within the limit, so did the one about withheld data, if there is any. */
  lemma SendIsLoggedIff(cfg: Config, st: AgentState, m: OutgoingMessage, env: SendSetting)
    ensures SendLeavesEntry(cfg, st, m, env)
       <==> && env.exchangeLogOk
            && (|| Counted(cfg, st, m).currentRound > Counted(cfg, st, m).maxRounds
                || FilterFor(m).withheld == []
                || env.withheldLogOk)
  {
  }

  lemma SendIsLogged(cfg: Config, st: AgentState, m: OutgoingMessage, env: SendSetting)
    requires Outgoing(cfg, st, m, env).1.error == None
    ensures Outgoing(cfg, st, m, env).1.ocip.Some?
    ensures var (next, r) := Outgoing(cfg, st, m, env);
            var e := r.ocip.value;
            && |next.audit| > |st.audit| && next.audit[|next.audit|-1].ExchangeLogged?
            && Reports(next.audit[|next.audit|-1], Initiator, m.exchangeId.GetOr(e.conversationId), e)
            && next.audit[|next.audit|-1].outcome == InProgress
            && e.source.instanceId == cfg.agent.instanceId && e.source.userId == cfg.agent.userId
  {
  }

  /** Both sides of an exchange: a send that succeeds is logged last thing, and the receipt of its envelope
      adds an entry of the same exchange, round, limit and classification exactly when the envelope is
      complete and `LogsReceipt` holds; otherwise the receiver's log stays as it was. */
  lemma BothSidesLog(a: Config, stA: AgentState, m: OutgoingMessage, envA: SendSetting,
                     b: Config, stB: AgentState, content: Option<string>, envB: ReceiveSetting)
    requires Outgoing(a, stA, m, envA).1.error == None
    ensures Outgoing(a, stA, m, envA).1.ocip.Some?
    ensures var e := Outgoing(a, stA, m, envA).1.ocip.value;
            var packet := IncomingMessage(Some(Object(Encode(e))), m.exchangeId, content);
            var x := m.exchangeId.GetOr(e.conversationId);
            var logA, logB := Outgoing(a, stA, m, envA).0.audit, Incoming(b, stB, packet, envB).0.audit;
            && |logA| > |stA.audit| && Reports(logA[|logA|-1], Initiator, x, e) && logA[|logA|-1].outcome == InProgress
            && if Complete(e) && LogsReceipt(b, e, content.GetOr(""), envB) then
                 && |logB| == |stB.audit| + 1 && logB[..|stB.audit|] == stB.audit
                 && Reports(logB[|stB.audit|], Responder, x, e)
                 && logB[|stB.audit|].counterpartyAgent == a.agent.instanceId
                 && logB[|stB.audit|].counterpartyUser == a.agent.userId
                 && logB[|stB.audit|].outcome == (if AcceptsUnit(b, e, envB.policy) then InProgress else Denied)
               else logB == stB.audit
  {
    SendIsLogged(a, stA, m, envA);
    var e := Outgoing(a, stA, m, envA).1.ocip.value;
    PacketIsLoggedIff(b, stB, e, m.exchangeId, content, envB);
  }

  lemma PacketIsLoggedIff(cfg: Config, st: AgentState, e: Envelope, exchangeId: Option<string>, content: Option<string>,
                          env: ReceiveSetting)
    ensures var audit := Incoming(cfg, st, IncomingMessage(Some(Object(Encode(e))), exchangeId, content), env).0.audit;
            if Complete(e) && LogsReceipt(cfg, e, content.GetOr(""), env) then
              && |audit| == |st.audit| + 1 && audit[..|st.audit|] == st.audit
              && Reports(audit[|st.audit|], Responder, exchangeId.GetOr(e.conversationId), e)
              && audit[|st.audit|].counterpartyAgent == e.source.instanceId
              && audit[|st.audit|].counterpartyUser == e.source.userId
              && audit[|st.audit|].outcome == (if AcceptsUnit(cfg, e, env.policy) then InProgress else Denied)
            else audit == st.audit
  {
    var m := IncomingMessage(Some(Object(Encode(e))), exchangeId, content);
    EnvelopeRoundTrip(e);
    ReceiptIsLoggedIff(cfg, st, m, env);
  }
}
