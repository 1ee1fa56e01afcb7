/** OCIP envelopes: building, encoding and parsing (plugins/ocip-protocol/src/envelope). */
module OcipEnvelope {
  import opened Common
  import opened Levels
  import opened Picking

  // ----- Raw metadata -----

  /** Property names the parser looks up; every other name is `Other`. */
  datatype Key =
    | Version | MessageTypeKey | SourceAgentKey | InstanceId | UserId | OrgUnit | TenantId
    | Classification | ConversationId | ExchangeRound | MaxRounds | Capabilities | CanCommit | CanShare
    | ReplyPolicyKey | RequiresCommitment | ExpiresAt | Other(name: string)

  /** An untyped value, as found in an incoming message. */
  datatype Json =
    | Null
    | Bool(b: bool)
    | Number(n: real)
    | NonFinite
    | Str(s: string)
    | Array(items: seq<Json>)
    | Object(fields: map<Key, Json>)

  // ----- Envelopes -----

  datatype MessageType = AgentGenerated | AgentAssisted | Human

  datatype ReplyPolicy = AgentOk | HumanOnly | NoReplyNeeded

  datatype ExchangeType = InformationQuery | CommitmentRequest | MeetingScheduling

  datatype SourceAgent = SourceAgent(instanceId: string, userId: string, orgUnit: string, tenantId: string)

  datatype Envelope = Envelope(
    version: string, messageType: MessageType, source: SourceAgent, classification: Level,
    conversationId: string, exchangeRound: real, maxRounds: real, canCommit: bool, canShare: seq<Level>,
    replyPolicy: ReplyPolicy, requiresCommitment: bool, expiresAt: string)

  const PROTOCOL_VERSION := "1.0"
  const DEFAULT_MAX_ROUNDS := 3.0

  // ----- Names of the enumerated values -----

  function MessageTypeName(t: MessageType): string {
    match t
    case AgentGenerated => "agent-generated"
    case AgentAssisted => "agent-assisted"
    case Human => "human"
  }

  function MessageTypeNamed(s: string): Option<MessageType> {
    if s == "agent-generated" then Some(AgentGenerated)
    else if s == "agent-assisted" then Some(AgentAssisted)
    else if s == "human" then Some(Human)
    else None
  }

  function ReplyPolicyName(p: ReplyPolicy): string {
    match p
    case AgentOk => "agent-ok"
    case HumanOnly => "human-only"
    case NoReplyNeeded => "no-reply-needed"
  }

  function ReplyPolicyNamed(s: string): Option<ReplyPolicy> {
    if s == "agent-ok" then Some(AgentOk)
    else if s == "human-only" then Some(HumanOnly)
    else if s == "no-reply-needed" then Some(NoReplyNeeded)
    else None
  }

  // ----- Building -----

  datatype AgentIdentity = AgentIdentity(instanceId: string, userId: string, tenantId: string, orgUnit: string,
                                         maxClassificationShared: Level)

  datatype BuildParams = BuildParams(
    sourceAgent: AgentIdentity, conversationId: string, exchangeType: ExchangeType, exchangeRound: real,
    classification: Level, maxRounds: Option<real>, expiresAt: Option<string>)

  function ResolveReplyPolicy(t: ExchangeType): ReplyPolicy {
    if t == MeetingScheduling then HumanOnly else AgentOk
  }

  function ResolveRequiresCommitment(t: ExchangeType): bool {
    t != InformationQuery
  }

  function ResolveCanShareLevels(maxLevel: Level): seq<Level> {
    CLASSIFICATION_LEVELS[..Index(maxLevel) + 1]
  }

  /** `tomorrow` is the clock reading 24 hours ahead, used when no expiry is given. */
  function Build(p: BuildParams, tomorrow: string): Envelope {
    Envelope(
      PROTOCOL_VERSION,
      AgentGenerated,
      SourceAgent(p.sourceAgent.instanceId, p.sourceAgent.userId, p.sourceAgent.orgUnit, p.sourceAgent.tenantId),
      p.classification,
      p.conversationId,
      p.exchangeRound,
      p.maxRounds.GetOr(DEFAULT_MAX_ROUNDS),
      false,
      ResolveCanShareLevels(p.sourceAgent.maxClassificationShared),
      ResolveReplyPolicy(p.exchangeType),
      ResolveRequiresCommitment(p.exchangeType),
      p.expiresAt.GetOr(tomorrow))
  }

  /** An agent offers exactly the levels up to the most sensitive one it may share. */
  lemma CanShareIsDownwardClosed(maxLevel: Level, l: Level)
    ensures l in ResolveCanShareLevels(maxLevel) <==> Index(l) <= Index(maxLevel)
  {
    assert CLASSIFICATION_LEVELS[Index(l)] == l;
    if Index(l) <= Index(maxLevel) {
      assert ResolveCanShareLevels(maxLevel)[Index(l)] == l;
    }
  }

  /** What every built envelope says: who sends it, under which round and limit, that the agent commits to
      nothing, the levels it may share from the least sensitive on, and who may reply to what. */
  lemma BuiltEnvelope(p: BuildParams, tomorrow: string)
    ensures var e := Build(p, tomorrow);
            && e.version == "1.0" && e.messageType == AgentGenerated && !e.canCommit
            && e.source.instanceId == p.sourceAgent.instanceId && e.source.userId == p.sourceAgent.userId
            && e.source.orgUnit == p.sourceAgent.orgUnit && e.source.tenantId == p.sourceAgent.tenantId
            && e.classification == p.classification && e.conversationId == p.conversationId
            && e.exchangeRound == p.exchangeRound
            && e.maxRounds == (if p.maxRounds.Some? then p.maxRounds.value else 3.0)
            && e.expiresAt == (if p.expiresAt.Some? then p.expiresAt.value else tomorrow)
            && (e.replyPolicy == HumanOnly <==> p.exchangeType == MeetingScheduling) && e.replyPolicy != NoReplyNeeded
            && (e.requiresCommitment <==> p.exchangeType == CommitmentRequest || p.exchangeType == MeetingScheduling)
            && (forall l :: l in e.canShare <==> Index(l) <= Index(p.sourceAgent.maxClassificationShared))
            && (forall i, j :: 0 <= i < j < |e.canShare| ==> Index(e.canShare[i]) < Index(e.canShare[j]))
  {
    forall l ensures l in Build(p, tomorrow).canShare <==> Index(l) <= Index(p.sourceAgent.maxClassificationShared) {
      CanShareIsDownwardClosed(p.sourceAgent.maxClassificationShared, l);
    }
    assert forall i :: 0 <= i < 4 ==> Index(CLASSIFICATION_LEVELS[i]) == i;
  }

  // ----- Parsing -----

  function RequireString(o: map<Key, Json>, key: Key): Result<string, Key> {
    if key in o && o[key].Str? && o[key].s != "" then Ok(o[key].s) else Err(key)
  }

  function RequireNumber(o: map<Key, Json>, key: Key): Result<real, Key> {
    if key in o && o[key].Number? then Ok(o[key].n) else Err(key)
  }

  function RequireObject(o: map<Key, Json>, key: Key): Result<map<Key, Json>, Key> {
    if key in o && o[key].Object? then Ok(o[key].fields) else Err(key)
  }

  function BoolOrFalse(o: map<Key, Json>, key: Key): bool {
    key in o && o[key] == Bool(true)
  }

  function Known<T>(value: Option<T>, key: Key): Result<T, Key> {
    if value.Some? then Ok(value.value) else Err(key)
  }

  /** The valid level names of an array, in order; anything else in it is dropped. */
  function FilterLevels(items: seq<Json>): seq<Level> {
    if items == [] then []
    else if items[0].Str? && LevelNamed(items[0].s).Some? then
      [LevelNamed(items[0].s).value] + FilterLevels(items[1..])
    else FilterLevels(items[1..])
  }

  function ParseCanShare(caps: map<Key, Json>): seq<Level> {
    if CanShare in caps && caps[CanShare].Array? then FilterLevels(caps[CanShare].items) else []
  }

  function ParseSourceAgent(o: map<Key, Json>): Result<SourceAgent, Key> {
    var instanceId :- RequireString(o, InstanceId);
    var userId :- RequireString(o, UserId);
    var orgUnit :- RequireString(o, OrgUnit);
    var tenantId :- RequireString(o, TenantId);
    Ok(SourceAgent(instanceId, userId, orgUnit, tenantId))
  }

  /** Fields are checked in this order; the error names the first that is missing or invalid. */
  function ExtractEnvelope(raw: map<Key, Json>): Result<Envelope, Key> {
    var version :- RequireString(raw, Version);
    var messageTypeName :- RequireString(raw, MessageTypeKey);
    var messageType :- Known(MessageTypeNamed(messageTypeName), MessageTypeKey);
    var sourceAgent :- RequireObject(raw, SourceAgentKey);
    var source :- ParseSourceAgent(sourceAgent);
    var levelName :- RequireString(raw, Classification);
    var classification :- Known(LevelNamed(levelName), Classification);
    var conversationId :- RequireString(raw, ConversationId);
    var exchangeRound :- RequireNumber(raw, ExchangeRound);
    var maxRounds :- RequireNumber(raw, MaxRounds);
    var caps :- RequireObject(raw, Capabilities);
    var replyPolicyName :- RequireString(raw, ReplyPolicyKey);
    var replyPolicy :- Known(ReplyPolicyNamed(replyPolicyName), ReplyPolicyKey);
    var expiresAt :- RequireString(raw, ExpiresAt);
    Ok(Envelope(version, messageType, source, classification, conversationId, exchangeRound, maxRounds,
                BoolOrFalse(caps, CanCommit), ParseCanShare(caps), replyPolicy,
                BoolOrFalse(raw, RequiresCommitment), expiresAt))
  }

  datatype ParseResult =
    | NotOcip
    | Malformed(field: Option<Key>)
    | Parsed(envelope: Envelope)

  /** `ocip` is the message's metadata, `None` when it has none. Both `NotOcip` and `Malformed` are
      treated as a message written by a human. */
  function Parse(ocip: Option<Json>): ParseResult {
    if ocip.None? || ocip.value.Null? then NotOcip
    else if !ocip.value.Object? then Malformed(None)
    else match ExtractEnvelope(ocip.value.fields)
      case Ok(e) => Parsed(e)
      case Err(k) => Malformed(Some(k))
  }

  ghost predicate TextAt(o: map<Key, Json>, key: Key) {
    key in o && o[key].Str? && o[key].s != ""
  }

  ghost predicate Identifies(o: map<Key, Json>) {
    TextAt(o, InstanceId) && TextAt(o, UserId) && TextAt(o, OrgUnit) && TextAt(o, TenantId)
  }

  /** The raw fields an envelope needs, whatever others there are. */
  ghost predicate WellFormedRaw(raw: map<Key, Json>) {
    && TextAt(raw, Version)
    && MessageTypeKey in raw && raw[MessageTypeKey] in {Str("agent-generated"), Str("agent-assisted"), Str("human")}
    && SourceAgentKey in raw && raw[SourceAgentKey].Object? && Identifies(raw[SourceAgentKey].fields)
    && Classification in raw
    && raw[Classification] in {Str("public"), Str("internal"), Str("confidential"), Str("restricted")}
    && TextAt(raw, ConversationId)
    && ExchangeRound in raw && raw[ExchangeRound].Number?
    && MaxRounds in raw && raw[MaxRounds].Number?
    && Capabilities in raw && raw[Capabilities].Object?
    && ReplyPolicyKey in raw && raw[ReplyPolicyKey] in {Str("agent-ok"), Str("human-only"), Str("no-reply-needed")}
    && TextAt(raw, ExpiresAt)
  }

  /** Metadata is accepted exactly when it is an object with all the fields an envelope needs; without
      metadata the message is not one of the protocol. */
  lemma ParsedIff(ocip: Option<Json>)
    ensures Parse(ocip).Parsed? <==> ocip.Some? && ocip.value.Object? && WellFormedRaw(ocip.value.fields)
    ensures Parse(ocip).NotOcip? <==> ocip.None? || ocip.value == Null
  {
    if ocip.Some? && ocip.value.Object? {
      ExtractedIff(ocip.value.fields);
    }
  }

  lemma SourceParsedIff(o: map<Key, Json>)
    ensures ParseSourceAgent(o).Ok? <==> Identifies(o)
    ensures ParseSourceAgent(o).Ok? ==>
              ParseSourceAgent(o).value == SourceAgent(o[InstanceId].s, o[UserId].s, o[OrgUnit].s, o[TenantId].s)
  {
  }

  lemma ExtractedIff(raw: map<Key, Json>)
    ensures ExtractEnvelope(raw).Ok? <==> WellFormedRaw(raw)
  {
    if SourceAgentKey in raw && raw[SourceAgentKey].Object? {
      SourceParsedIff(raw[SourceAgentKey].fields);
    }
  }

  /** What an accepted envelope says is what its raw fields say; a flag counts only if it is `true`. */
  lemma ParsedFields(raw: map<Key, Json>)
    requires WellFormedRaw(raw)
    ensures ExtractEnvelope(raw).Ok?
    ensures var e, agent, caps := ExtractEnvelope(raw).value, raw[SourceAgentKey].fields, raw[Capabilities].fields;
            && raw[Version] == Str(e.version) && raw[ConversationId] == Str(e.conversationId) && raw[ExpiresAt] == Str(e.expiresAt)
            && e.source == SourceAgent(agent[InstanceId].s, agent[UserId].s, agent[OrgUnit].s, agent[TenantId].s)
            && raw[ExchangeRound] == Number(e.exchangeRound) && raw[MaxRounds] == Number(e.maxRounds)
            && raw[MessageTypeKey] == Str(MessageTypeName(e.messageType)) && raw[Classification] == Str(LevelName(e.classification))
            && raw[ReplyPolicyKey] == Str(ReplyPolicyName(e.replyPolicy))
            && (e.requiresCommitment <==> RequiresCommitment in raw && raw[RequiresCommitment] == Bool(true))
            && (e.canCommit <==> CanCommit in caps && caps[CanCommit] == Bool(true))
            && e.canShare == (if CanShare in caps && caps[CanShare].Array? then FilterLevels(caps[CanShare].items) else [])
  {
    ExtractedIff(raw);
    SourceParsedIff(raw[SourceAgentKey].fields);
  }

  predicate NamesLevel(j: Json) {
    j == Str("public") || j == Str("internal") || j == Str("confidential") || j == Str("restricted")
  }

  lemma NamesLevelIff(j: Json)
    ensures NamesLevel(j) <==> j.Str? && LevelNamed(j.s).Some?
    ensures NamesLevel(j) ==> j == Str(LevelName(LevelNamed(j.s).value))
  {
  }

  /** The levels read from an array are its elements that name one, in order. */
  lemma {:induction false} LevelsInOrder(items: seq<Json>) returns (at: seq<nat>)
    ensures Positions(at, |items|) && forall k: nat :: k < |items| ==> (k in at <==> NamesLevel(items[k]))
    ensures |FilterLevels(items)| == |at|
    ensures forall i :: 0 <= i < |at| ==> items[at[i]] == Str(LevelName(FilterLevels(items)[i]))
  {
    if items == [] {
      at := [];
    } else {
      var n: nat := |items| - 1;
      var front, last := items[..n], items[n];
      at := LevelsInOrder(front);
      OneMorePosition(at, n);
      FilterLevelsSnoc(front, last);
      assert items == front + [last];
      NamesLevelIff(last);
      if NamesLevel(last) {
        at := at + [n];
      } else {
        assert FilterLevels(items) == FilterLevels(front);
      }
    }
  }

  lemma {:induction false} FilterLevelsSnoc(items: seq<Json>, item: Json)
    ensures FilterLevels(items + [item])
         == FilterLevels(items) + if item.Str? && LevelNamed(item.s).Some? then [LevelNamed(item.s).value] else []
  {
    var all := items + [item];
    if items == [] {
      assert all[1..] == [];
    } else {
      assert all[1..] == items[1..] + [item];
      FilterLevelsSnoc(items[1..], item);
    }
  }

  // ----- Encoding -----

  function EncodeLevels(levels: seq<Level>): seq<Json> {
    seq(|levels|, i requires 0 <= i < |levels| => Str(LevelName(levels[i])))
  }

  function EncodeSource(a: SourceAgent): map<Key, Json> {
    map[InstanceId := Str(a.instanceId), UserId := Str(a.userId), OrgUnit := Str(a.orgUnit), TenantId := Str(a.tenantId)]
  }

  function EncodeCapabilities(canCommit: bool, canShare: seq<Level>): map<Key, Json> {
    map[CanCommit := Bool(canCommit), CanShare := Array(EncodeLevels(canShare))]
  }

  /** The envelope as it is attached to an outgoing message. */
  function Encode(e: Envelope): map<Key, Json> {
    map[
      Version := Str(e.version),
      MessageTypeKey := Str(MessageTypeName(e.messageType)),
      SourceAgentKey := Object(EncodeSource(e.source)),
      Classification := Str(LevelName(e.classification)),
      ConversationId := Str(e.conversationId),
      ExchangeRound := Number(e.exchangeRound),
      MaxRounds := Number(e.maxRounds),
      Capabilities := Object(EncodeCapabilities(e.canCommit, e.canShare)),
      ReplyPolicyKey := Str(ReplyPolicyName(e.replyPolicy)),
      RequiresCommitment := Bool(e.requiresCommitment),
      ExpiresAt := Str(e.expiresAt)]
  }

  // ----- Round trips -----

  /** Every text field the parser insists on is non-empty. */
  predicate Complete(e: Envelope) {
    e.version != "" && e.conversationId != "" && e.expiresAt != "" && Identified(e.source)
  }

  predicate Identified(a: SourceAgent) {
    a.instanceId != "" && a.userId != "" && a.orgUnit != "" && a.tenantId != ""
  }

  lemma NamesRoundTrip()
    ensures forall l :: LevelName(l) != "" && LevelNamed(LevelName(l)) == Some(l)
    ensures forall t :: MessageTypeName(t) != "" && MessageTypeNamed(MessageTypeName(t)) == Some(t)
    ensures forall p :: ReplyPolicyName(p) != "" && ReplyPolicyNamed(ReplyPolicyName(p)) == Some(p)
  {
  }

  /** The names of the protocol contract. */
  lemma Names()
    ensures LevelNamed("public") == Some(Public) && LevelNamed("internal") == Some(Internal)
    ensures LevelNamed("confidential") == Some(Confidential) && LevelNamed("restricted") == Some(Restricted)
    ensures MessageTypeNamed("agent-generated") == Some(AgentGenerated)
    ensures MessageTypeNamed("agent-assisted") == Some(AgentAssisted) && MessageTypeNamed("human") == Some(Human)
    ensures ReplyPolicyNamed("agent-ok") == Some(AgentOk) && ReplyPolicyNamed("human-only") == Some(HumanOnly)
    ensures ReplyPolicyNamed("no-reply-needed") == Some(NoReplyNeeded)
  {
  }

  lemma {:induction false} LevelsRoundTrip(levels: seq<Level>)
    ensures FilterLevels(EncodeLevels(levels)) == levels
  {
    if levels != [] {
      var items := EncodeLevels(levels);
      NamesRoundTrip();
      assert items[0] == Str(LevelName(levels[0]));
      assert items[1..] == EncodeLevels(levels[1..]);
      LevelsRoundTrip(levels[1..]);
    }
  }

  lemma SourceRoundTrip(a: SourceAgent)
    ensures ParseSourceAgent(EncodeSource(a)) == Ok(a) <==> Identified(a)
    ensures !Identified(a) ==> ParseSourceAgent(EncodeSource(a)).Err?
  {
  }

  lemma CapabilitiesRoundTrip(canCommit: bool, canShare: seq<Level>)
    ensures BoolOrFalse(EncodeCapabilities(canCommit, canShare), CanCommit) == canCommit
    ensures ParseCanShare(EncodeCapabilities(canCommit, canShare)) == canShare
  {
    LevelsRoundTrip(canShare);
  }

  lemma EncodedFields(e: Envelope)
    ensures var raw := Encode(e);
            && RequireString(raw, Version) == (if e.version == "" then Err(Version) else Ok(e.version))
            && RequireString(raw, MessageTypeKey) == Ok(MessageTypeName(e.messageType))
            && RequireObject(raw, SourceAgentKey) == Ok(EncodeSource(e.source))
            && RequireString(raw, Classification) == Ok(LevelName(e.classification))
            && RequireString(raw, ConversationId) == (if e.conversationId == "" then Err(ConversationId) else Ok(e.conversationId))
            && RequireNumber(raw, ExchangeRound) == Ok(e.exchangeRound)
            && RequireNumber(raw, MaxRounds) == Ok(e.maxRounds)
            && RequireObject(raw, Capabilities) == Ok(EncodeCapabilities(e.canCommit, e.canShare))
            && RequireString(raw, ReplyPolicyKey) == Ok(ReplyPolicyName(e.replyPolicy))
            && BoolOrFalse(raw, RequiresCommitment) == e.requiresCommitment
            && RequireString(raw, ExpiresAt) == (if e.expiresAt == "" then Err(ExpiresAt) else Ok(e.expiresAt))
  {
    NamesRoundTrip();
  }

  lemma CompleteIsRead(e: Envelope)
    requires Complete(e)
    ensures ExtractEnvelope(Encode(e)) == Ok(e)
  {
    EncodedFields(e);
    NamesRoundTrip();
    SourceRoundTrip(e.source);
    CapabilitiesRoundTrip(e.canCommit, e.canShare);
  }

  lemma IncompleteIsRejected(e: Envelope)
    requires !Complete(e)
    ensures ExtractEnvelope(Encode(e)).Err?
  {
    EncodedFields(e);
    SourceRoundTrip(e.source);
  }

  /** An envelope survives encoding and parsing exactly when it is complete. */
  lemma EnvelopeRoundTrip(e: Envelope)
    ensures Parse(Some(Object(Encode(e)))) == Parsed(e) <==> Complete(e)
    ensures !Complete(e) ==> Parse(Some(Object(Encode(e)))).Malformed?
  {
    if Complete(e) {
      CompleteIsRead(e);
    } else {
      IncompleteIsRejected(e);
    }
  }

  /** What the builder sends, the parser reads back. */
  lemma BuiltEnvelopeRoundTrip(p: BuildParams, tomorrow: string)
    requires p.sourceAgent.instanceId != "" && p.sourceAgent.userId != ""
    requires p.sourceAgent.orgUnit != "" && p.sourceAgent.tenantId != ""
    requires p.conversationId != "" && p.expiresAt.GetOr(tomorrow) != ""
    ensures Parse(Some(Object(Encode(Build(p, tomorrow))))) == Parsed(Build(p, tomorrow))
  {
    EnvelopeRoundTrip(Build(p, tomorrow));
  }

  /** Parsing is a normal form: whatever raw value an envelope came from, encoding it and parsing again
      gives the same envelope. */
  lemma ParsingIsANormalForm(ocip: Option<Json>)
    requires Parse(ocip).Parsed?
    ensures Parse(Some(Object(Encode(Parse(ocip).envelope)))) == Parse(ocip)
  {
    ParsedIsComplete(ocip.value.fields);
    EnvelopeRoundTrip(Parse(ocip).envelope);
  }

  lemma ParsedIsComplete(raw: map<Key, Json>)
    requires ExtractEnvelope(raw).Ok?
    ensures Complete(ExtractEnvelope(raw).value)
  {
  }
}
