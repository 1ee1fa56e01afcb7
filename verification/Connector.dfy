/** The gate every connector call passes through (plugins/shared/src/connector-base.ts), with the
    upgrade-only classifier behind it (plugins/policy-engine/src/classification/classify.ts). */
module Connector {
  import opened Common
  import opened Gateway
  import opened Levels

  // ----- Classification -----

  datatype ConnectorType = Gmail | Gcal | Jira | Github | Gdrive

  function DefaultLevel(c: ConnectorType): Level {
    if c == Github then Public else Internal
  }

  /** What the AI classifier answers, if there is one. */
  datatype AiReply = NoClassifier | AiThrew | AiSays(level: Level)

  datatype Assigner = ConnectorDefault | AiReclassification

  datatype Classified = Classified(level: Level, assignedBy: Assigner, originalLevel: Option<Level>)

  function Classify(c: ConnectorType, summary: string, ai: AiReply): Classified {
    if ai.AiSays? && summary != "" && Index(ai.level) > Index(DefaultLevel(c))
    then Classified(ai.level, AiReclassification, Some(DefaultLevel(c)))
    else Classified(DefaultLevel(c), ConnectorDefault, None)
  }

  /** The result is the higher of the connector's default and what the AI says about a non-empty
      summary: the AI upgrades and never downgrades. */
  lemma ClassifyOnlyUpgrades(c: ConnectorType, summary: string, ai: AiReply)
    ensures var r := Classify(c, summary, ai);
            && Index(r.level) >= Index(DefaultLevel(c))
            && (ai.AiSays? && summary != "" ==> Index(r.level) >= Index(ai.level))
            && (r.level == DefaultLevel(c) || (ai.AiSays? && r.level == ai.level))
            && r.originalLevel == (if r.level == DefaultLevel(c) then None else Some(DefaultLevel(c)))
            && (r.assignedBy == AiReclassification <==> r.level != DefaultLevel(c))
  {
  }

  // ----- Calls -----

  datatype Item = Item(sourceId: string, summary: string, classification: Level)

  /** An error from outside, as the connector's two predicates see it. */
  datatype ApiError = ApiError(revoked: bool, unavailable: bool)

  datatype Fetch = FetchThrew(error: ApiError) | ExtractThrew(error: ApiError) | Extracted(items: seq<Item>)

  /** What asking the classifier about the i-th item yields. */
  type Classifier = nat -> Reply<AiReply, ApiError>

  datatype AuditOutcome = Success | Denied

  datatype AuditRecord =
    | ReadLogged(items: seq<Item>, level: Level, decision: Decision)
    | WriteLogged(level: Level, decision: Decision, outcome: AuditOutcome)

  /** What a call does to the outside world. */
  datatype Event =
    | PolicyAsked(reply: Reply<Decision, ApiError>)
    | FetchCalled
    | WriteCalled
    | ClassifyCalled
    | AuditLogged(record: AuditRecord)
    | AuditThrew

  datatype Call =
    | Read(policy: Reply<Decision, ApiError>, fetch: Fetch, classify: Classifier, audit: Reply<string, ApiError>)
    | Write(level: Level, policy: Reply<Decision, ApiError>, write: Reply<string, ApiError>,
            audit: Reply<string, ApiError>)

  datatype Outcome =
    | ReadReturned(items: seq<Item>, ok: bool)
    | WriteReturned(success: bool, sourceId: string, auditEntryId: string)
    | ConnectorDisabled
    | Revoked
    | Rethrown(error: ApiError)

  /** Whether the connector is disabled afterwards, what the call did, and how it ended. */
  datatype Effect = Effect(disabled: bool, events: seq<Event>, outcome: Outcome)

  // ----- The steps of a read -----

  function Highest(items: seq<Item>): Level {
    if items == [] then Public
    else
      var h, last := Highest(items[..|items|-1]), items[|items|-1].classification;
      if Index(last) > Index(h) then last else h
  }

  function Reclassified(c: ConnectorType, item: Item, ai: AiReply): Item {
    item.(classification := Classify(c, item.summary, ai).level)
  }

  /** Classify the items from `i` on; an error stops at once. */
  function ClassifyFrom(c: ConnectorType, items: seq<Item>, classify: Classifier, i: nat)
      : (seq<Event>, Result<seq<Item>, ApiError>)
    requires i <= |items|
    decreases |items| - i
  {
    if i == |items| then ([], Ok(items))
    else match classify(i)
      case Threw(e) => ([ClassifyCalled], Err(e))
      case Replied(ai) =>
        var (events, r) := ClassifyFrom(c, items[i := Reclassified(c, items[i], ai)], classify, i + 1);
        ([ClassifyCalled] + events, r)
  }

  /** How a read ends when something inside it throws. */
  function Caught(events: seq<Event>, e: ApiError): Effect {
    if e.revoked then Effect(true, events, Revoked)
    else if e.unavailable then Effect(false, events, ReadReturned([], false))
    else Effect(false, events, Rethrown(e))
  }

  function AfterFetch(c: ConnectorType, items: seq<Item>, call: Call, decision: Decision): Effect
    requires call.Read?
  {
    var (events, classified) := ClassifyFrom(c, items, call.classify, 0);
    match classified
    case Err(e) => Caught(events, e)
    case Ok(result) =>
      match call.audit
      case Threw(e) => Caught(events + [AuditThrew], e)
      case Replied(_) =>
        Effect(false, events + [AuditLogged(ReadLogged(result, Highest(result), decision))], ReadReturned(result, true))
  }

  function ReadEffect(c: ConnectorType, call: Call): Effect
    requires call.Read?
  {
    match call.policy
    case Threw(e) => Effect(false, [PolicyAsked(call.policy)], Rethrown(e))
    case Replied(Deny) => Effect(false, [PolicyAsked(call.policy)], ReadReturned([], false))
    case Replied(decision) =>
      var before := [PolicyAsked(call.policy), FetchCalled];
      match call.fetch
      case FetchThrew(e) => Caught(before, e)
      case ExtractThrew(e) => Caught(before, e)
      case Extracted(items) =>
        var r := AfterFetch(c, items, call, decision);
        r.(events := before + r.events)
  }

  function WriteEffect(call: Call): Effect
    requires call.Write?
  {
    match call.policy
    case Threw(e) => Effect(false, [PolicyAsked(call.policy)], Rethrown(e))
    case Replied(Deny) =>
      (match call.audit
       case Threw(e) => Effect(false, [PolicyAsked(call.policy), AuditThrew], Rethrown(e))
       case Replied(id) =>
         Effect(false, [PolicyAsked(call.policy), AuditLogged(WriteLogged(call.level, Deny, Denied))],
                WriteReturned(false, "", id)))
    case Replied(decision) =>
      (match call.write
       case Threw(e) => Effect(false, [PolicyAsked(call.policy), WriteCalled], Rethrown(e))
       case Replied(sourceId) =>
         match call.audit
         case Threw(e) => Effect(false, [PolicyAsked(call.policy), WriteCalled, AuditThrew], Rethrown(e))
         case Replied(id) =>
           Effect(false, [PolicyAsked(call.policy), WriteCalled, AuditLogged(WriteLogged(call.level, decision, Success))],
                  WriteReturned(true, sourceId, id)))
  }

  function CallEffect(c: ConnectorType, disabled: bool, call: Call): Effect {
    if disabled then Effect(true, [], ConnectorDisabled)
    else if call.Read? then ReadEffect(c, call)
    else WriteEffect(call)
  }

  // ----- The class -----

  class ConnectorBase {
    const connectorType: ConnectorType
    var disabled: bool
    var trace: seq<Event>

    constructor (connectorType: ConnectorType)
      ensures this.connectorType == connectorType && !disabled && trace == []
    {
      this.connectorType := connectorType;
      disabled, trace := false, [];
    }

    method ExecuteRead(call: Call) returns (outcome: Outcome)
      requires call.Read?
      modifies this
      ensures var r := CallEffect(connectorType, old(disabled), call);
              disabled == r.disabled && trace == old(trace) + r.events && outcome == r.outcome
    {
      if disabled {
        return ConnectorDisabled;
      }
      trace := trace + [PolicyAsked(call.policy)];
      if call.policy.Threw? {
        return Rethrown(call.policy.error);
      }
      if call.policy.value == Deny {
        return ReadReturned([], false);
      }
      trace := trace + [FetchCalled];
      if call.fetch.FetchThrew? || call.fetch.ExtractThrew? {
        outcome := HandleError(call.fetch.error);
        return;
      }
      outcome := FinishRead(call.fetch.items, call, call.policy.value);
    }

    /** Classify what was fetched, log the access and return it. */
    method FinishRead(items: seq<Item>, call: Call, decision: Decision) returns (outcome: Outcome)
      requires call.Read? && !disabled
      modifies this
      ensures var r := AfterFetch(connectorType, items, call, decision);
              disabled == r.disabled && trace == old(trace) + r.events && outcome == r.outcome
    {
      var classified := ClassifyItems(items, call.classify);
      if classified.Err? {
        outcome := HandleError(classified.error);
        return;
      }
      var level := GetHighestClassification(classified.value);
      if call.audit.Threw? {
        trace := trace + [AuditThrew];
        outcome := HandleError(call.audit.error);
        return;
      }
      trace := trace + [AuditLogged(ReadLogged(classified.value, level, decision))];
      return ReadReturned(classified.value, true);
    }

    /** The catch block of a read. */
    method HandleError(e: ApiError) returns (outcome: Outcome)
      requires !disabled
      modifies this`disabled
      ensures disabled == Caught([], e).disabled && outcome == Caught([], e).outcome
    {
      if e.revoked {
        disabled := true;
        return Revoked;
      }
      if e.unavailable {
        return ReadReturned([], false);
      }
      return Rethrown(e);
    }

    method ClassifyItems(items: seq<Item>, classify: Classifier) returns (r: Result<seq<Item>, ApiError>)
      modifies this`trace
      ensures var (events, result) := ClassifyFrom(connectorType, items, classify, 0);
              trace == old(trace) + events && r == result
    {
      var current := items;
      ghost var made := [];
      for i := 0 to |items|
        invariant |current| == |items| && trace == old(trace) + made
        invariant ClassifyFrom(connectorType, items, classify, 0).0
               == made + ClassifyFrom(connectorType, current, classify, i).0
        invariant ClassifyFrom(connectorType, items, classify, 0).1 == ClassifyFrom(connectorType, current, classify, i).1
      {
        ghost var before := made;
        trace := trace + [ClassifyCalled];
        made := made + [ClassifyCalled];
        assert forall events: seq<Event> :: before + ([ClassifyCalled] + events) == made + events;
        if classify(i).Threw? {
          return Err(classify(i).error);
        }
        current := current[i := Reclassified(connectorType, current[i], classify(i).value)];
      }
      return Ok(current);
    }

    method GetHighestClassification(items: seq<Item>) returns (highest: Level)
      ensures highest == Highest(items)
    {
      highest := Public;
      for i := 0 to |items|
        invariant highest == Highest(items[..i])
      {
        assert items[..i+1][..i] == items[..i];
        if Index(items[i].classification) > Index(highest) {
          highest := items[i].classification;
        }
      }
      assert items[..|items|] == items;
    }

    method ExecuteWrite(call: Call) returns (outcome: Outcome)
      requires call.Write?
      modifies this
      ensures var r := CallEffect(connectorType, old(disabled), call);
              disabled == r.disabled && trace == old(trace) + r.events && outcome == r.outcome
    {
      if disabled {
        return ConnectorDisabled;
      }
      trace := trace + [PolicyAsked(call.policy)];
      if call.policy.Threw? {
        return Rethrown(call.policy.error);
      }
      if call.policy.value == Deny {
        if call.audit.Threw? {
          trace := trace + [AuditThrew];
          return Rethrown(call.audit.error);
        }
        trace := trace + [AuditLogged(WriteLogged(call.level, Deny, Denied))];
        return WriteReturned(false, "", call.audit.value);
      }
      trace := trace + [WriteCalled];
      if call.write.Threw? {
        return Rethrown(call.write.error);
      }
      if call.audit.Threw? {
        trace := trace + [AuditThrew];
        return Rethrown(call.audit.error);
      }
      trace := trace + [AuditLogged(WriteLogged(call.level, call.policy.value, Success))];
      return WriteReturned(true, call.write.value, call.audit.value);
    }
  }

  // ----- How a call ends -----

  /** The error a read that is let through meets first: of the fetch, of the extraction, of the classifier at
      the first item it fails on, or of the audit call. */
  ghost predicate Meets(call: Call, e: ApiError)
    requires call.Read?
  {
    match call.fetch
    case FetchThrew(error) => e == error
    case ExtractThrew(error) => e == error
    case Extracted(items) => FailsAtSomeItem(items, call.classify, e) || (AllClassified(items, call.classify) && call.audit == Threw(e))
  }

  ghost predicate FailsAtSomeItem(items: seq<Item>, classify: Classifier, e: ApiError) {
    exists i: nat :: i < |items| && FailsAt(classify, i, e)
  }

  ghost predicate FailsAt(classify: Classifier, i: nat, e: ApiError) {
    classify(i) == Threw(e) && forall j: nat :: j < i ==> classify(j).Replied?
  }

  ghost predicate AllClassified(items: seq<Item>, classify: Classifier) {
    forall i: nat :: i < |items| ==> classify(i).Replied?
  }

  /** Classifying ends with the first error, if there is one. */
  lemma {:induction false} ClassifyingEnds(c: ConnectorType, items: seq<Item>, classify: Classifier, i: nat)
    requires i <= |items| && forall j: nat :: j < i ==> classify(j).Replied?
    ensures ClassifyFrom(c, items, classify, i).1.Ok? <==> AllClassified(items, classify)
    ensures forall e :: ClassifyFrom(c, items, classify, i).1 == Err(e) <==> FailsAtSomeItem(items, classify, e)
    decreases |items| - i
  {
    if i < |items| {
      if classify(i).Replied? {
        ClassifyingEnds(c, items[i := Reclassified(c, items[i], classify(i).value)], classify, i + 1);
      } else {
        assert FailsAt(classify, i, classify(i).error);
      }
    }
  }

  /** The policy lets the read through. */
  predicate LetThrough(disabled: bool, call: Call) {
    !disabled && call.policy.Replied? && call.policy.value != Deny
  }

  /** A read that is let through and meets an error. */
  lemma ReadMeets(c: ConnectorType, call: Call, e: ApiError)
    requires call.Read? && LetThrough(false, call) && Meets(call, e)
    ensures var r := CallEffect(c, false, call);
            && r.disabled == e.revoked
            && r.outcome == if e.revoked then Revoked else if e.unavailable then ReadReturned([], false) else Rethrown(e)
  {
    if call.fetch.Extracted? {
      ClassifyingEnds(c, call.fetch.items, call.classify, 0);
    }
  }

  lemma ReadMeetsNothing(c: ConnectorType, call: Call)
    requires call.Read? && LetThrough(false, call) && forall e :: !Meets(call, e)
    ensures call.fetch.Extracted? && AllClassified(call.fetch.items, call.classify) && call.audit.Replied?
    ensures var r := CallEffect(c, false, call);
            !r.disabled && r.outcome.ReadReturned? && r.outcome.ok
  {
    match call.fetch
    case FetchThrew(e) => assert Meets(call, e);
    case ExtractThrew(e) => assert Meets(call, e);
    case Extracted(items) =>
      ClassifyingEnds(c, items, call.classify, 0);
      var r := ClassifyFrom(c, items, call.classify, 0).1;
      if r.Err? {
        assert Meets(call, r.error);
      } else if call.audit.Threw? {
        assert Meets(call, call.audit.error);
      }
  }

  /** How a read ends, for every answer of policy, API, classifier and audit. Only a revoked error disables
      the connector, and it always does. */
  lemma ReadEnds(c: ConnectorType, disabled: bool, call: Call)
    requires call.Read?
    ensures var r := CallEffect(c, disabled, call);
            && (r.outcome == ConnectorDisabled <==> disabled)
            && (r.outcome == Revoked <==> LetThrough(disabled, call) && exists e :: Meets(call, e) && e.revoked)
            && (r.outcome == ReadReturned([], false) <==>
                  !disabled && call.policy.Replied?
                  && (call.policy.value == Deny || exists e :: Meets(call, e) && !e.revoked && e.unavailable))
            && (r.outcome.ReadReturned? && r.outcome.ok <==> LetThrough(disabled, call) && forall e :: !Meets(call, e))
            && (r.outcome.ReadReturned? && !r.outcome.ok ==> r.outcome.items == [])
            && (forall e :: r.outcome == Rethrown(e) <==>
                  !disabled && (call.policy == Threw(e)
                                || (LetThrough(disabled, call) && Meets(call, e) && !e.revoked && !e.unavailable)))
            && (r.disabled <==> disabled || r.outcome == Revoked)
  {
    if LetThrough(disabled, call) {
      if exists e :: Meets(call, e) {
        var e :| Meets(call, e);
        ReadMeets(c, call, e);
        MeetsOne(c, call, e);
      } else {
        ReadMeetsNothing(c, call);
      }
    }
  }

  /** There is only one first error. */
  lemma MeetsOne(c: ConnectorType, call: Call, e: ApiError)
    requires call.Read? && Meets(call, e)
    ensures forall f :: Meets(call, f) ==> f == e
  {
    if call.fetch.Extracted? {
      ClassifyingEnds(c, call.fetch.items, call.classify, 0);
    }
  }

  /** How a write ends: a denial is logged and returned, and every error is passed on as it is. */
  lemma WriteEnds(c: ConnectorType, disabled: bool, call: Call)
    requires call.Write?
    ensures var r := CallEffect(c, disabled, call);
            && (r.outcome == ConnectorDisabled <==> disabled)
            && (forall id :: r.outcome == WriteReturned(false, "", id) <==>
                  !disabled && call.policy == Replied(Deny) && call.audit == Replied(id))
            && (forall source, id :: r.outcome == WriteReturned(true, source, id) <==>
                  LetThrough(disabled, call) && call.write == Replied(source) && call.audit == Replied(id))
            && (forall e :: r.outcome == Rethrown(e) <==>
                  !disabled && (|| call.policy == Threw(e)
                                || (LetThrough(disabled, call) && call.write == Threw(e))
                                || (call.policy.Replied? && (call.policy.value == Deny || call.write.Replied?)
                                    && call.audit == Threw(e))))
            && r.disabled == disabled
  {
  }

  // ----- Runs -----

  /** Whether the connector is disabled when the k-th call of a run begins. */
  function DisabledBefore(c: ConnectorType, disabled: bool, calls: seq<Call>, k: nat): bool
    requires k <= |calls|
  {
    if k == 0 then disabled else CallEffect(c, DisabledBefore(c, disabled, calls, k-1), calls[k-1]).disabled
  }

  function RunAt(c: ConnectorType, disabled: bool, calls: seq<Call>, k: nat): Effect
    requires k < |calls|
  {
    CallEffect(c, DisabledBefore(c, disabled, calls, k), calls[k])
  }

  /** The call is a read that would be let through and meets a revoked error. */
  ghost predicate RevokesAccess(call: Call) {
    call.Read? && LetThrough(false, call) && exists e :: Meets(call, e) && e.revoked
  }

  /** Some call before the k-th is such a read. */
  ghost predicate RevokedBefore(calls: seq<Call>, k: nat)
    requires k <= |calls|
  {
    exists j: nat :: j < k && RevokesAccess(calls[j])
  }

  lemma DisablesIff(c: ConnectorType, disabled: bool, call: Call)
    ensures CallEffect(c, disabled, call).disabled <==> disabled || RevokesAccess(call)
    ensures CallEffect(c, disabled, call).outcome.Revoked? <==> !disabled && RevokesAccess(call)
    ensures CallEffect(c, disabled, call).outcome.ConnectorDisabled? <==> disabled
  {
    if call.Read? {
      ReadEnds(c, disabled, call);
    } else {
      WriteEnds(c, disabled, call);
    }
  }

  lemma {:induction false} DisabledIffRevoked(c: ConnectorType, disabled: bool, calls: seq<Call>, k: nat)
    requires k <= |calls|
    ensures DisabledBefore(c, disabled, calls, k) <==> disabled || RevokedBefore(calls, k)
  {
    if k > 0 {
      DisabledIffRevoked(c, disabled, calls, k-1);
      DisablesIff(c, DisabledBefore(c, disabled, calls, k-1), calls[k-1]);
      RevokedBeforeNext(calls, k);
    }
  }

  lemma RevokedBeforeNext(calls: seq<Call>, k: nat)
    requires 0 < k <= |calls|
    ensures RevokedBefore(calls, k) <==> RevokedBefore(calls, k-1) || RevokesAccess(calls[k-1])
  {
  }

  /** The latch: a call is refused without reaching policy or API exactly when the connector began
      disabled or some earlier call of the run was a read, let through, that met a revoked error. */
  lemma RefusedIffRevokedBefore(c: ConnectorType, disabled: bool, calls: seq<Call>, k: nat)
    requires k < |calls|
    ensures RunAt(c, disabled, calls, k).outcome.ConnectorDisabled? <==> disabled || RevokedBefore(calls, k)
    ensures RunAt(c, disabled, calls, k).outcome.ConnectorDisabled? ==> RunAt(c, disabled, calls, k).events == []
    ensures RunAt(c, disabled, calls, k).outcome.Revoked?
       <==> !disabled && !RevokedBefore(calls, k) && RevokesAccess(calls[k])
  {
    DisabledIffRevoked(c, disabled, calls, k);
    DisablesIff(c, DisabledBefore(c, disabled, calls, k), calls[k]);
  }

  // ----- Asking first -----

  ghost predicate AsksFirst(events: seq<Event>) {
    forall i :: 0 <= i < |events| && (events[i].FetchCalled? || events[i].WriteCalled?) ==>
      exists j :: 0 <= j < i && events[j].PolicyAsked? && events[j].reply.Replied? && events[j].reply.value != Deny
  }

  predicate ReachesApi(events: seq<Event>) {
    FetchCalled in events || WriteCalled in events
  }

  lemma {:induction false} ClassifyingOnlyClassifies(c: ConnectorType, items: seq<Item>,
                                                     classify: Classifier, i: nat)
    requires i <= |items|
    ensures forall e :: e in ClassifyFrom(c, items, classify, i).0 ==> e.ClassifyCalled?
    decreases |items| - i
  {
    if i < |items| && classify(i).Replied? {
      ClassifyingOnlyClassifies(c, items[i := Reclassified(c, items[i], classify(i).value)], classify, i + 1);
    }
  }

  /** Within every call, nothing is fetched or written before the policy decided otherwise than to deny. */
  lemma CallAsksFirst(c: ConnectorType, disabled: bool, call: Call)
    ensures AsksFirst(CallEffect(c, disabled, call).events)
  {
    var events := CallEffect(c, disabled, call).events;
    if !disabled && call.Read? && call.fetch.Extracted? {
      ClassifyingOnlyClassifies(c, call.fetch.items, call.classify, 0);
    }
    assert events != [] ==> events[0] == PolicyAsked(call.policy);
  }

  /** A call reaches the API exactly when the connector is not disabled and the policy decides otherwise
      than to deny, so a decision to require approval does not hold it back. */
  lemma CallReachesApiIff(c: ConnectorType, disabled: bool, call: Call)
    ensures ReachesApi(CallEffect(c, disabled, call).events)
       <==> !disabled && call.policy.Replied? && call.policy.value != Deny
  {
    var events := CallEffect(c, disabled, call).events;
    if !disabled && call.policy.Replied? && call.policy.value != Deny {
      assert events[1] == if call.Read? then FetchCalled else WriteCalled;
    }
  }

  /** Over any run: what a call does to the API comes after a non-deny decision in the same call, and it
      does something exactly when there is such a decision and no earlier read met a revoked error. */
  lemma RunReachesApiIff(c: ConnectorType, disabled: bool, calls: seq<Call>, k: nat)
    requires k < |calls|
    ensures AsksFirst(RunAt(c, disabled, calls, k).events)
    ensures ReachesApi(RunAt(c, disabled, calls, k).events)
       <==> && !disabled && !RevokedBefore(calls, k)
            && calls[k].policy.Replied? && calls[k].policy.value != Deny
  {
    DisabledIffRevoked(c, disabled, calls, k);
    CallAsksFirst(c, DisabledBefore(c, disabled, calls, k), calls[k]);
    CallReachesApiIff(c, DisabledBefore(c, disabled, calls, k), calls[k]);
  }

  /** A write that needs approval is performed, logged as a success and reported as one. */
  lemma ApprovalIsNotAwaited(c: ConnectorType, level: Level)
    ensures var call := Write(level, Replied(RequireApproval), Replied("source"), Replied("entry"));
            CallEffect(c, false, call)
              == Effect(false, [PolicyAsked(call.policy), WriteCalled, AuditLogged(WriteLogged(level, RequireApproval, Success))],
                        WriteReturned(true, "source", "entry"))
  {
  }

  // ----- Auditing -----

  ghost predicate Audited(events: seq<Event>) {
    exists e :: e in events && e.AuditLogged?
  }

  /** A write leaves an audit entry exactly when the policy answers, the write it does not deny returns and
      the audit call returns. */
  lemma WriteIsAuditedIff(c: ConnectorType, disabled: bool, call: Call)
    requires call.Write?
    ensures Audited(CallEffect(c, disabled, call).events)
       <==> && !disabled && call.policy.Replied?
            && (call.policy.value == Deny || call.write.Replied?)
            && call.audit.Replied?
  {
    var events := CallEffect(c, disabled, call).events;
    if !disabled && call.policy.Replied? && (call.policy.value == Deny || call.write.Replied?) && call.audit.Replied? {
      assert events[|events|-1].AuditLogged?;
    }
  }

  /** So a write may be performed and leave no entry: the audit call comes after it and may throw. */
  lemma PerformedWriteGoesUnaudited(c: ConnectorType, level: Level, e: ApiError)
    ensures var r := CallEffect(c, false, Write(level, Replied(Allow), Replied("source"), Threw(e)));
            WriteCalled in r.events && !Audited(r.events) && r.outcome == Rethrown(e)
  {
    var r := CallEffect(c, false, Write(level, Replied(Allow), Replied("source"), Threw(e)));
    assert r.events[1] == WriteCalled;
  }

  /** A write that returns logs exactly one entry, last, denied exactly when the write did not succeed,
      and it reached the API exactly when it succeeded. */
  lemma ReturningWriteIsAudited(c: ConnectorType, disabled: bool, call: Call)
    requires CallEffect(c, disabled, call).outcome.WriteReturned?
    ensures call.Write? && call.policy.Replied?
    ensures var r := CallEffect(c, disabled, call);
            && r.events != []
            && (forall i :: 0 <= i < |r.events| ==> (r.events[i].AuditLogged? <==> i == |r.events| - 1))
            && r.events[|r.events|-1].record
               == WriteLogged(call.level, call.policy.value, if r.outcome.success then Success else Denied)
            && (r.outcome.success <==> call.policy.value != Deny)
            && (WriteCalled in r.events <==> r.outcome.success)
            && call.audit == Replied(r.outcome.auditEntryId)
            && (if r.outcome.success then call.write == Replied(r.outcome.sourceId) else r.outcome.sourceId == "")
  {
    var r := CallEffect(c, disabled, call);
    if r.outcome.success {
      assert r.events[1] == WriteCalled;
    }
  }

  // ----- Classification of what is read -----

  lemma {:induction false} HighestIsMaximum(items: seq<Item>)
    ensures forall i :: 0 <= i < |items| ==> Index(items[i].classification) <= Index(Highest(items))
    ensures items == [] ==> Highest(items) == Public
    ensures items != [] ==> exists i :: 0 <= i < |items| && items[i].classification == Highest(items)
  {
    if items != [] {
      var n := |items| - 1;
      HighestIsMaximum(items[..n]);
      if items[n].classification != Highest(items) {
        var i :| 0 <= i < n && items[..n][i].classification == Highest(items[..n]);
        assert items[i].classification == Highest(items);
      }
    }
  }

  lemma {:induction false} ClassifiedItems(c: ConnectorType, items: seq<Item>, classify: Classifier, i: nat)
    requires i <= |items| && ClassifyFrom(c, items, classify, i).1.Ok?
    ensures var r := ClassifyFrom(c, items, classify, i).1.value;
            && |r| == |items|
            && r[..i] == items[..i]
            && forall j :: i <= j < |items| ==> classify(j).Replied? && r[j] == Reclassified(c, items[j], classify(j).value)
    decreases |items| - i
  {
    if i < |items| {
      var next := items[i := Reclassified(c, items[i], classify(i).value)];
      ClassifiedItems(c, next, classify, i + 1);
      var r := ClassifyFrom(c, items, classify, i).1.value;
      assert r[i] == r[..i+1][i] == next[i];
      assert r[..i] == r[..i+1][..i] == next[..i] == items[..i];
    }
  }

  /** A read that succeeds returns each fetched item once, in order, unchanged but for its level: that is what
      the AI says of a non-empty summary if it is above the connector's default level, and the default
      otherwise. Its last act, and its only entry, is to log the items and the maximum of their levels. */
  lemma ReadItemsAreClassified(c: ConnectorType, disabled: bool, call: Call)
    requires CallEffect(c, disabled, call).outcome.ReadReturned? && CallEffect(c, disabled, call).outcome.ok
    ensures var r := CallEffect(c, disabled, call);
            && call.Read? && call.fetch.Extracted? && |r.outcome.items| == |call.fetch.items|
            && (forall j :: 0 <= j < |r.outcome.items| ==>
                  var fetched, item := call.fetch.items[j], r.outcome.items[j];
                  && item.sourceId == fetched.sourceId && item.summary == fetched.summary
                  && call.classify(j).Replied?
                  && var ai := call.classify(j).value;
                     item.classification
                       == var default := if c == Github then Public else Internal;
                          if ai.AiSays? && item.summary != "" && Index(ai.level) > Index(default) then ai.level else default)
            && AuditLogged(ReadLogged(r.outcome.items, Highest(r.outcome.items), call.policy.value)) == r.events[|r.events|-1]
            && (forall i :: 0 <= i < |r.events| - 1 ==> !r.events[i].AuditLogged?)
  {
    ClassifiedItems(c, call.fetch.items, call.classify, 0);
    ClassifyingOnlyClassifies(c, call.fetch.items, call.classify, 0);
    var events, made := CallEffect(c, disabled, call).events, ClassifyFrom(c, call.fetch.items, call.classify, 0).0;
    assert events[2..|events|-1] == made;
    forall i | 0 <= i < |events| - 1 ensures !events[i].AuditLogged? {
      assert i >= 2 ==> events[i] == made[i-2] && made[i-2] in made;
    }
  }

  /** A read leaves an audit entry exactly when the policy does not deny it and everything after that goes
      well: the fetch, the classification of every item and the audit call itself. */
  lemma ReadIsAuditedIff(c: ConnectorType, disabled: bool, call: Call)
    requires call.Read?
    ensures Audited(CallEffect(c, disabled, call).events)
       <==> && !disabled && call.policy.Replied? && call.policy.value != Deny
            && call.fetch.Extracted?
            && (forall i :: 0 <= i < |call.fetch.items| ==> call.classify(i).Replied?)
            && call.audit.Replied?
  {
    if !disabled && call.policy.Replied? && call.policy.value != Deny && call.fetch.Extracted? {
      var r := CallEffect(c, disabled, call);
      ClassifyingOnlyClassifies(c, call.fetch.items, call.classify, 0);
      ClassifyingEnds(c, call.fetch.items, call.classify, 0);
      if r.outcome.ReadReturned? && r.outcome.ok {
        assert r.events[|r.events|-1].AuditLogged?;
      }
    }
  }

  /** A denied read returns without leaving an entry, and so does one that finds the API unavailable. */
  lemma DeniedReadGoesUnaudited(c: ConnectorType, classify: Classifier)
    ensures var denied := Read(Replied(Deny), Extracted([]), classify, Replied("entry"));
            var unavailable := Read(Replied(Allow), FetchThrew(ApiError(false, true)), classify, Replied("entry"));
            && CallEffect(c, false, denied) == Effect(false, [PolicyAsked(denied.policy)], ReadReturned([], false))
            && !Audited(CallEffect(c, false, denied).events)
            && CallEffect(c, false, unavailable).outcome == ReadReturned([], false)
            && !Audited(CallEffect(c, false, unavailable).events)
  {
  }
}
