/** Overlapping sends of one agent (plugins/ocip-protocol/src/hooks.ts).

    A send that withholds data waits for the log of it before it attaches its envelope and logs the
    exchange, and other sends and receipts may come in between. That is the only wait of either hook
    between two uses of the shared exchange state: a receipt uses it in one go, after the policy has
    answered, so it counts as one step, taken then. */
module OcipInterleaving {
  import opened Common
  import opened Levels
  import opened OcipEnvelope
  import opened OcipFilter
  import opened OcipHooks
  import Runs = OcipRuns

  /** A send within the limit, with the envelope built when it began. */
  datatype Sending = Sending(m: OutgoingMessage, envelope: Envelope, env: SendSetting)

  /** The sends so far, in the order in which they began; which of them still wait; and which attached
      their envelopes, in the order in which they did. */
  datatype State = State(agent: AgentState, sends: seq<Sending>, waiting: set<nat>, attached: seq<nat>)

  datatype Event =
    | Begin(m: OutgoingMessage, sendSetting: SendSetting)
    | Resume(i: nat)
    | Receive(inc: IncomingMessage, receiveSetting: ReceiveSetting)

  /** The send meets the limit. */
  predicate OverLimit(cfg: Config, st: AgentState, m: OutgoingMessage) {
    Counted(cfg, st, m).currentRound > Counted(cfg, st, m).maxRounds
  }

  /** The send has to wait. */
  predicate Waits(cfg: Config, st: AgentState, m: OutgoingMessage) {
    !OverLimit(cfg, st, m) && FilterFor(m).withheld != []
  }

  function SendingOf(cfg: Config, st: AgentState, m: OutgoingMessage, env: SendSetting): Sending {
    Sending(m, EnvelopeFor(cfg, m, Counted(cfg, st, m), env.tomorrow), env)
  }

  /** The state in which a send that has to wait leaves the agent. */
  function Suspended(cfg: Config, st: AgentState, m: OutgoingMessage, env: SendSetting): AgentState {
    AgentState(st.exchanges[m.Exchange() := Counted(cfg, st, m)],
               if env.withheldLogOk then st.audit + [DataWithheldLogged(m.Exchange(), FilterFor(m).withheld)] else st.audit)
  }

  /** The record of the exchange is made of its state at that moment. */
  function Resumed(st: AgentState, p: Sending): AgentState {
    var now := TrackedOrNew(st.exchanges, p.m.Exchange(), p.m.sessionId, p.m.maxRounds);
    if p.env.exchangeLogOk then
      st.(audit := st.audit + [OutgoingRecord(p.m, now, FilterFor(p.m), "ocip-protocol", InProgress)])
    else st
  }

  function Step(cfg: Config, s: State, e: Event): State {
    match e
    case Begin(m, env) =>
      var sends, i := s.sends + [SendingOf(cfg, s.agent, m, env)], |s.sends|;
      if OverLimit(cfg, s.agent, m) then s.(agent := Outgoing(cfg, s.agent, m, env).0)
      else if !Waits(cfg, s.agent, m) then
        State(Outgoing(cfg, s.agent, m, env).0, sends, s.waiting, s.attached + [i])
      else
        State(Suspended(cfg, s.agent, m, env), sends, if env.withheldLogOk then s.waiting + {i} else s.waiting, s.attached)
    case Resume(i) =>
      if i < |s.sends| && i in s.waiting then
        State(Resumed(s.agent, s.sends[i]), s.sends, s.waiting - {i}, s.attached + [i])
      else s
    case Receive(m, env) => s.(agent := Incoming(cfg, s.agent, m, env).0)
  }

  function Run(cfg: Config, s: State, events: seq<Event>): State
    decreases |events|
  {
    if events == [] then s else Run(cfg, Step(cfg, s, events[0]), events[1..])
  }

  // ----- Sends that do not overlap -----

  /** A send that begins and, if it waits, resumes at once does what the hook does run in one go. */
  lemma ResumedAtOnce(cfg: Config, s: State, m: OutgoingMessage, env: SendSetting)
    requires |s.sends| !in s.waiting
    ensures var begun := Step(cfg, s, Begin(m, env));
            var end := Step(cfg, begun, Resume(|s.sends|));
            && end.agent == Outgoing(cfg, s.agent, m, env).0
            && end.waiting == s.waiting
            && end.attached == s.attached + (if Outgoing(cfg, s.agent, m, env).1.ocip.Some? then [|s.sends|] else [])
            && (Outgoing(cfg, s.agent, m, env).1.ocip.Some? ==>
                  |end.sends| == |s.sends| + 1
                  && end.sends[|s.sends|].envelope == Outgoing(cfg, s.agent, m, env).1.ocip.value)
  {
  }

  // ----- Overlapping sends keep the exchanges as they are -----

  /** The same steps without waits. */
  function InOneGo(events: seq<Event>): seq<Runs.Event> {
    if events == [] then []
    else
      (match events[0]
       case Begin(m, env) => [Runs.Send(m, env)]
       case Resume(_) => []
       case Receive(m, env) => [Runs.Receive(m, env)])
      + InOneGo(events[1..])
  }

  /** What the hooks do to the exchanges does not depend on the audit log. */
  lemma AuditDoesNotMatter(cfg: Config, a: AgentState, b: AgentState, e: Runs.Event)
    requires a.exchanges == b.exchanges
    ensures Runs.Step(cfg, a, e).exchanges == Runs.Step(cfg, b, e).exchanges
  {
  }

  lemma StepInOneGo(cfg: Config, s: State, e: Event)
    ensures Step(cfg, s, e).agent.exchanges
         == match e
            case Begin(m, env) => Runs.Step(cfg, s.agent, Runs.Send(m, env)).exchanges
            case Resume(_) => s.agent.exchanges
            case Receive(m, env) => Runs.Step(cfg, s.agent, Runs.Receive(m, env)).exchanges
  {
  }

  /** However sends overlap, the exchanges are those of the run in which each send is done as it begins, so
      everything proved of the exchanges over such runs holds. */
  lemma {:induction false} ExchangesInOneGo(cfg: Config, s: State, st: AgentState, events: seq<Event>)
    requires s.agent.exchanges == st.exchanges
    ensures Run(cfg, s, events).agent.exchanges == Runs.Run(cfg, st, InOneGo(events)).exchanges
    decreases |events|
  {
    if events != [] {
      var next, rest := Step(cfg, s, events[0]), InOneGo(events[1..]);
      StepInOneGo(cfg, s, events[0]);
      if events[0].Resume? {
        assert InOneGo(events) == rest;
        ExchangesInOneGo(cfg, next, st, events[1..]);
      } else {
        var e := if events[0].Begin? then Runs.Send(events[0].m, events[0].sendSetting)
                 else Runs.Receive(events[0].inc, events[0].receiveSetting);
        AuditDoesNotMatter(cfg, s.agent, st, e);
        assert InOneGo(events) == [e] + rest;
        ExchangesInOneGo(cfg, next, Runs.Step(cfg, st, e), events[1..]);
      }
    }
  }

  // ----- What overlapping sends attach -----

  /** How many of the sends are on exchange `x`. */
  function CountOn(sends: seq<Sending>, x: string): nat {
    if sends == [] then 0
    else CountOn(sends[..|sends|-1], x) + if sends[|sends|-1].m.Exchange() == x then 1 else 0
  }

  ghost predicate OnX(s: State, x: string, i: int)
    requires 0 <= i < |s.sends|
  {
    s.sends[i].m.Exchange() == x
  }

  /** The sends on `x`, in the order in which they began, carry the limit of the exchange and strictly
      increasing rounds within it, and they are no more than it leaves from the round tracking began with. */
  ghost predicate Increasing(s: State, x: string) {
    && (forall i :: 0 <= i < |s.sends| && OnX(s, x, i) ==>
          && x in s.agent.exchanges
          && s.sends[i].envelope.maxRounds == s.agent.exchanges[x].maxRounds
          && s.sends[i].envelope.exchangeRound <= s.agent.exchanges[x].currentRound
          && s.sends[i].envelope.exchangeRound <= s.sends[i].envelope.maxRounds)
    && (forall i, j :: 0 <= i < j < |s.sends| && OnX(s, x, i) && OnX(s, x, j) ==>
          s.sends[i].envelope.exchangeRound < s.sends[j].envelope.exchangeRound)
  }

  ghost predicate Bounded(s: State, x: string) {
    var n := CountOn(s.sends, x);
    n > 0 ==>
      && x in s.agent.exchanges
      && n <= |s.agent.exchanges[x].transcript|
      && Runs.StartRound(s.agent.exchanges[x]) + n as real <= s.agent.exchanges[x].maxRounds
  }

  /** No envelope is attached twice, and none that still waits. */
  ghost predicate AttachedOnce(s: State) {
    && (forall k :: 0 <= k < |s.attached| ==> s.attached[k] < |s.sends| && s.attached[k] !in s.waiting)
    && (forall k, l :: 0 <= k < l < |s.attached| ==> s.attached[k] != s.attached[l])
    && (forall i :: i in s.waiting ==> i < |s.sends|)
  }

  /** What a step does to exchange `x` and to the list of sends. */
  lemma StepOn(cfg: Config, s: State, e: Event, x: string)
    ensures var next := Step(cfg, s, e);
            var begun := e.Begin? && e.m.Exchange() == x;
            && (x in s.agent.exchanges ==>
                  && x in next.agent.exchanges
                  && var before, after := s.agent.exchanges[x], next.agent.exchanges[x];
                     && after.maxRounds == before.maxRounds
                     && after.currentRound == before.currentRound + (if begun then 1.0 else 0.0)
                     && |after.transcript| == |before.transcript| + if begun then 1 else 0)
            && (begun ==> x in next.agent.exchanges && next.agent.exchanges[x].transcript != [])
            && s.sends <= next.sends && |next.sends| <= |s.sends| + 1
            && (|next.sends| > |s.sends| ==>
                  var p := next.sends[|s.sends|];
                  && e.Begin? && p == SendingOf(cfg, s.agent, e.m, e.sendSetting)
                  && (begun ==> var after := next.agent.exchanges[x];
                                && p.envelope.exchangeRound == after.currentRound <= after.maxRounds
                                && p.envelope.maxRounds == after.maxRounds))
  {
  }

  lemma StepKeepsIncreasing(cfg: Config, s: State, e: Event, x: string)
    requires Increasing(s, x)
    ensures Increasing(Step(cfg, s, e), x)
  {
    var next := Step(cfg, s, e);
    StepOn(cfg, s, e, x);
    assert forall i :: 0 <= i < |s.sends| ==> next.sends[i] == s.sends[i] && (OnX(next, x, i) <==> OnX(s, x, i));
  }

  lemma CountOnSnoc(sends: seq<Sending>, p: Sending, x: string)
    ensures CountOn(sends + [p], x) == CountOn(sends, x) + if p.m.Exchange() == x then 1 else 0
  {
    assert (sends + [p])[..|sends|] == sends;
  }

  lemma StepKeepsBounded(cfg: Config, s: State, e: Event, x: string)
    requires Bounded(s, x)
    ensures Bounded(Step(cfg, s, e), x)
  {
    var next := Step(cfg, s, e);
    StepOn(cfg, s, e, x);
    if |next.sends| > |s.sends| {
      assert next.sends == s.sends + [next.sends[|s.sends|]];
      CountOnSnoc(s.sends, next.sends[|s.sends|], x);
    } else {
      assert next.sends == s.sends;
    }
  }

  lemma StepKeepsAttachedOnce(cfg: Config, s: State, e: Event)
    requires AttachedOnce(s)
    ensures AttachedOnce(Step(cfg, s, e))
  {
  }

  /** Over any interleaving the envelopes attached on an exchange keep to its limit and carry different
      rounds, increasing in the order in which the sends began, and their number keeps to the bound. */
  lemma {:induction false} OverlappingSendsKeepBounds(cfg: Config, s: State, events: seq<Event>, x: string)
    requires Increasing(s, x) && Bounded(s, x) && AttachedOnce(s)
    ensures Increasing(Run(cfg, s, events), x) && Bounded(Run(cfg, s, events), x) && AttachedOnce(Run(cfg, s, events))
    decreases |events|
  {
    if events != [] {
      StepKeepsIncreasing(cfg, s, events[0], x);
      StepKeepsBounded(cfg, s, events[0], x);
      StepKeepsAttachedOnce(cfg, s, events[0]);
      OverlappingSendsKeepBounds(cfg, Step(cfg, s, events[0]), events[1..], x);
    }
  }

  /** In particular from any agent with no send under way. */
  lemma FreshInterleaving(cfg: Config, st: AgentState, events: seq<Event>, x: string, k: nat, l: nat)
    requires var end := Run(cfg, State(st, [], {}, []), events);
             && k < l < |end.attached|
             && end.attached[k] < |end.sends| && OnX(end, x, end.attached[k])
             && end.attached[l] < |end.sends| && OnX(end, x, end.attached[l])
    ensures var end := Run(cfg, State(st, [], {}, []), events);
            var e, f := end.sends[end.attached[k]].envelope, end.sends[end.attached[l]].envelope;
            && e.exchangeRound != f.exchangeRound && e.maxRounds == f.maxRounds
            && e.exchangeRound <= e.maxRounds && f.exchangeRound <= f.maxRounds
            && (e.exchangeRound < f.exchangeRound <==> end.attached[k] < end.attached[l])
  {
    OverlappingSendsKeepBounds(cfg, State(st, [], {}, []), events, x);
  }

  // ----- What overlapping sends log -----

  /** How many sends on `x` begin. */
  function BeginsOn(events: seq<Event>, x: string): nat {
    if events == [] then 0
    else (if events[0].Begin? && events[0].m.Exchange() == x then 1 else 0) + BeginsOn(events[1..], x)
  }

  lemma {:induction false} RoundsAreBegins(cfg: Config, s: State, events: seq<Event>, x: string)
    requires x in s.agent.exchanges
    ensures x in Run(cfg, s, events).agent.exchanges
    ensures Run(cfg, s, events).agent.exchanges[x].currentRound
         == s.agent.exchanges[x].currentRound + BeginsOn(events, x) as real
    decreases |events|
  {
    if events != [] {
      StepOn(cfg, s, events[0], x);
      RoundsAreBegins(cfg, Step(cfg, s, events[0]), events[1..], x);
    }
  }

  lemma {:induction false} StillWaiting(cfg: Config, s: State, events: seq<Event>, i: nat)
    requires i < |s.sends| && i in s.waiting && Resume(i) !in events
    ensures var end := Run(cfg, s, events);
            i < |end.sends| && end.sends[i] == s.sends[i] && i in end.waiting
    decreases |events|
  {
    if events != [] {
      assert events[0] in events && forall e :: e in events[1..] ==> e in events;
      StepOn(cfg, s, events[0], "");
      StillWaiting(cfg, Step(cfg, s, events[0]), events[1..], i);
    }
  }

  /** A send that had to wait logs the round of the exchange when it resumes: that of its envelope plus the
      number of sends on the exchange that began in between, so its own exactly when none did. */
  lemma LoggedRound(cfg: Config, s: State, m: OutgoingMessage, env: SendSetting, events: seq<Event>)
    requires Waits(cfg, s.agent, m) && env.withheldLogOk && env.exchangeLogOk
    requires Resume(|s.sends|) !in events
    ensures var before := Run(cfg, Step(cfg, s, Begin(m, env)), events);
            var end := Step(cfg, before, Resume(|s.sends|));
            && |end.agent.audit| == |before.agent.audit| + 1 && end.agent.audit[|before.agent.audit|].ExchangeLogged?
            && end.attached == before.attached + [|s.sends|] && |s.sends| < |end.sends|
            && var logged, sent := end.agent.audit[|before.agent.audit|].currentRound,
                                   end.sends[|s.sends|].envelope.exchangeRound;
               && logged == sent + BeginsOn(events, m.Exchange()) as real
               && (logged == sent <==> BeginsOn(events, m.Exchange()) == 0)
  {
    var begun := Step(cfg, s, Begin(m, env));
    assert begun.sends[|s.sends|] == SendingOf(cfg, s.agent, m, env);
    StillWaiting(cfg, begun, events, |s.sends|);
    RoundsAreBegins(cfg, begun, events, m.Exchange());
  }

  /** A message on `x` that carries data above its classification. */
  function Withholding(x: string): OutgoingMessage {
    OutgoingMessage(x, None, None, None, None, None, [Item("crm", ["salary"], Restricted, "salary")], None, None, None)
  }

  /** Two sends that overlap: the second overtakes the first, and the entry of the first says round 2. */
  lemma SecondSendOvertakes(cfg: Config, x: string)
    ensures var env := SendSetting("tomorrow", true, true);
            var begun := Run(cfg, State(AgentState(map[], []), [], {}, []), [Begin(Withholding(x), env), Begin(Withholding(x), env)]);
            var end := Run(cfg, begun, [Resume(1), Resume(0)]);
            && end.attached == [1, 0] && |end.sends| == 2
            && end.sends[0].envelope.exchangeRound == 1.0 && end.sends[1].envelope.exchangeRound == 2.0
            && |end.agent.audit| == 4 && end.agent.audit[3].ExchangeLogged? && end.agent.audit[3].currentRound == 2.0
  {
    var m, env := Withholding(x), SendSetting("tomorrow", true, true);
    var s0 := State(AgentState(map[], []), [], {}, []);
    var s1 := Step(cfg, s0, Begin(m, env));
    var s2 := Step(cfg, s1, Begin(m, env));
    var s3 := Step(cfg, s2, Resume(1));
    RunTwo(cfg, s0, Begin(m, env), Begin(m, env));
    RunTwo(cfg, s2, Resume(1), Resume(0));
  }

  lemma RunTwo(cfg: Config, s: State, a: Event, b: Event)
    ensures Run(cfg, s, [a, b]) == Step(cfg, Step(cfg, s, a), b)
  {
    assert [a, b][1..] == [b] && [b][1..] == [];
    assert Run(cfg, Step(cfg, s, a), [b]) == Run(cfg, Step(cfg, Step(cfg, s, a), b), []);
  }
}
