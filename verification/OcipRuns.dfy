/** Runs of the exchange protocol: any interleaving of sends and receipts, first at one agent, then
    between two agents joined by a network that may delay, reorder, duplicate and drop. */
module OcipRuns {
  import opened Common
  import opened Gateway
  import opened OcipEnvelope
  import opened OcipHooks

  // ----- One agent -----

  datatype Event =
    | Send(out: OutgoingMessage, sendSetting: SendSetting)
    | Receive(inc: IncomingMessage, receiveSetting: ReceiveSetting)

  function Step(cfg: Config, st: AgentState, e: Event): AgentState {
    match e
    case Send(m, env) => Outgoing(cfg, st, m, env).0
    case Receive(m, env) => Incoming(cfg, st, m, env).0
  }

  function Run(cfg: Config, st: AgentState, events: seq<Event>): AgentState
    decreases |events|
  {
    if events == [] then st else Run(cfg, Step(cfg, st, events[0]), events[1..])
  }

  /** The envelope a step attaches on exchange `x`, as a sequence of at most one. */
  function AttachedNow(cfg: Config, st: AgentState, e: Event, x: string): seq<Envelope> {
    if e.Send? && e.out.Exchange() == x && Outgoing(cfg, st, e.out, e.sendSetting).1.ocip.Some? then
      [Outgoing(cfg, st, e.out, e.sendSetting).1.ocip.value]
    else []
  }

  /** The envelopes a run attaches on exchange `x`, in order. */
  function Attached(cfg: Config, st: AgentState, events: seq<Event>, x: string): seq<Envelope>
    decreases |events|
  {
    if events == [] then []
    else AttachedNow(cfg, st, events[0], x) + Attached(cfg, Step(cfg, st, events[0]), events[1..], x)
  }

  /** What one step does to an exchange that is already tracked: a send on it counts one round, anything
      else leaves it alone. */
  lemma TrackedStep(cfg: Config, st: AgentState, e: Event, x: string)
    requires x in st.exchanges
    ensures x in Step(cfg, st, e).exchanges
    ensures Step(cfg, st, e).exchanges[x]
         == if e.Send? && e.out.Exchange() == x
            then NextRound(st.exchanges[x], cfg.agent.instanceId, e.out.content.GetOr(""))
            else st.exchanges[x]
    ensures forall env :: env in AttachedNow(cfg, st, e, x) ==>
              && env.exchangeRound == Step(cfg, st, e).exchanges[x].currentRound <= st.exchanges[x].maxRounds
              && env.maxRounds == st.exchanges[x].maxRounds
  {
  }

  /** Attached envelopes carry strictly increasing rounds, all within the limit the exchange began with. */
  lemma {:induction false} RoundsIncrease(cfg: Config, st: AgentState, events: seq<Event>, x: string, k: nat)
    requires x in st.exchanges && k < |Attached(cfg, st, events, x)|
    ensures var a := Attached(cfg, st, events, x);
            && a[k].maxRounds == st.exchanges[x].maxRounds
            && st.exchanges[x].currentRound + k as real + 1.0 <= a[k].exchangeRound <= st.exchanges[x].maxRounds
            && (k > 0 ==> a[k-1].exchangeRound < a[k].exchangeRound)
    decreases |events|
  {
    var now, next := AttachedNow(cfg, st, events[0], x), Step(cfg, st, events[0]);
    TrackedStep(cfg, st, events[0], x);
    var rest := Attached(cfg, next, events[1..], x);
    if now == [] {
      assert Attached(cfg, st, events, x) == rest;
      RoundsIncrease(cfg, next, events[1..], x, k);
    } else {
      assert now[0] in now;
      if k > 0 {
        RoundsIncrease(cfg, next, events[1..], x, k-1);
      }
    }
  }

  /** The same from before the exchange is tracked, whether a send or a receipt opens it: all attached envelopes
      carry one limit and strictly increasing rounds within it. */
  lemma {:induction false} FreshRoundsIncrease(cfg: Config, st: AgentState, events: seq<Event>, x: string, k: nat)
    requires x !in st.exchanges && k < |Attached(cfg, st, events, x)|
    ensures var a := Attached(cfg, st, events, x);
            && a[k].maxRounds == a[0].maxRounds
            && a[k].exchangeRound <= a[k].maxRounds
            && (k > 0 ==> a[k-1].exchangeRound < a[k].exchangeRound)
    decreases |events|
  {
    var now, next := AttachedNow(cfg, st, events[0], x), Step(cfg, st, events[0]);
    var rest := Attached(cfg, next, events[1..], x);
    OpeningStep(cfg, st, events[0], x);
    if x !in next.exchanges {
      assert Attached(cfg, st, events, x) == rest;
      FreshRoundsIncrease(cfg, next, events[1..], x, k);
    } else if now == [] {
      assert Attached(cfg, st, events, x) == rest;
      RoundsIncrease(cfg, next, events[1..], x, k);
      RoundsIncrease(cfg, next, events[1..], x, 0);
    } else if k > 0 {
      RoundsIncrease(cfg, next, events[1..], x, k-1);
    }
  }

  /** A step on an untracked exchange: an envelope it attaches opens the exchange. */
  lemma OpeningStep(cfg: Config, st: AgentState, e: Event, x: string)
    requires x !in st.exchanges
    ensures var now, next := AttachedNow(cfg, st, e, x), Step(cfg, st, e);
            now != [] ==> && |now| == 1 && x in next.exchanges
                          && now[0].exchangeRound == next.exchanges[x].currentRound <= next.exchanges[x].maxRounds
                          && now[0].maxRounds == next.exchanges[x].maxRounds
  {
  }

  /** An agent whose tracking of an exchange stands at round r with limit M attaches at most
      max(0, M - r) more envelopes on it, whatever it sends and receives. */
  lemma SendsAreBounded(cfg: Config, st: AgentState, events: seq<Event>, x: string)
    requires x in st.exchanges
    ensures var n := |Attached(cfg, st, events, x)|;
            n == 0 || st.exchanges[x].currentRound + n as real <= st.exchanges[x].maxRounds
  {
    var n := |Attached(cfg, st, events, x)|;
    if n > 0 {
      RoundsIncrease(cfg, st, events, x, n-1);
    }
  }

  /** The round at which tracking of an exchange began: 0 for a fresh initiator, the first envelope's
      round for a responder. */
  function StartRound(s: ExchangeState): real {
    s.currentRound - |s.transcript| as real
  }

  /** From before an exchange is tracked: whoever opens it, the agent's sends are bounded by the limit and
      the round its tracking began with. */
  lemma {:induction false} FreshSendsAreBounded(cfg: Config, st: AgentState, events: seq<Event>, x: string)
    requires x !in st.exchanges
    ensures var n := |Attached(cfg, st, events, x)|;
            n > 0 ==> && x in Run(cfg, st, events).exchanges
                      && var s := Run(cfg, st, events).exchanges[x];
                         StartRound(s) + n as real <= s.maxRounds
    decreases |events|
  {
    if events != [] {
      var next := Step(cfg, st, events[0]);
      if x in next.exchanges {
        SendsAreBounded(cfg, next, events[1..], x);
        ExchangeIsMonotone(cfg, next, events[1..], x);
      } else {
        FreshSendsAreBounded(cfg, next, events[1..], x);
      }
    }
  }

  /** The transcript's rounds are consecutive and end at the current round. */
  ghost predicate Consecutive(s: ExchangeState) {
    forall i :: 0 <= i < |s.transcript| ==>
      s.transcript[i].round == s.currentRound - (|s.transcript| - 1 - i) as real
  }

  ghost predicate WellFormed(st: AgentState) {
    forall x :: WellFormedAt(st, x)
  }

  ghost predicate WellFormedAt(st: AgentState, x: string) {
    x in st.exchanges ==> st.exchanges[x].exchangeId == x && Consecutive(st.exchanges[x])
  }

  lemma SendKeepsWellFormed(cfg: Config, st: AgentState, m: OutgoingMessage, env: SendSetting, x: string)
    requires WellFormedAt(st, x)
    ensures WellFormedAt(Outgoing(cfg, st, m, env).0, x)
  {
  }

  lemma ReceiptKeepsWellFormed(cfg: Config, st: AgentState, m: IncomingMessage, env: ReceiveSetting, x: string)
    requires WellFormedAt(st, x)
    ensures WellFormedAt(Incoming(cfg, st, m, env).0, x)
  {
  }

  lemma StepKeepsWellFormed(cfg: Config, st: AgentState, e: Event)
    requires WellFormed(st)
    ensures WellFormed(Step(cfg, st, e))
  {
    forall x ensures WellFormedAt(Step(cfg, st, e), x) {
      assert WellFormedAt(st, x);
      match e
      case Send(m, env) => SendKeepsWellFormed(cfg, st, m, env, x);
      case Receive(m, env) => ReceiptKeepsWellFormed(cfg, st, m, env, x);
    }
  }

  /** Every state reached from a fresh agent is well formed. */
  lemma {:induction false} ReachableIsWellFormed(cfg: Config, st: AgentState, events: seq<Event>)
    requires WellFormed(st)
    ensures WellFormed(Run(cfg, st, events))
    decreases |events|
  {
    if events != [] {
      StepKeepsWellFormed(cfg, st, events[0]);
      ReachableIsWellFormed(cfg, Step(cfg, st, events[0]), events[1..]);
    }
  }

  /** An exchange stays tracked, its limit and conversation never change, its round never falls and its
      transcript only grows. Nothing extends `maxRounds`. */
  lemma {:induction false} ExchangeIsMonotone(cfg: Config, st: AgentState, events: seq<Event>, x: string)
    requires x in st.exchanges
    ensures x in Run(cfg, st, events).exchanges
    ensures var before, after := st.exchanges[x], Run(cfg, st, events).exchanges[x];
            && after.maxRounds == before.maxRounds
            && after.conversationId == before.conversationId
            && before.transcript <= after.transcript
            && after.currentRound == before.currentRound + (|after.transcript| - |before.transcript|) as real
    decreases |events|
  {
    if events != [] {
      TrackedStep(cfg, st, events[0], x);
      ExchangeIsMonotone(cfg, Step(cfg, st, events[0]), events[1..], x);
    }
  }

  /** Nothing more can be sent on the exchange. */
  ghost predicate Exhausted(st: AgentState, x: string) {
    x in st.exchanges && st.exchanges[x].currentRound + 1.0 > st.exchanges[x].maxRounds
  }

  /** What a refused send does: it throws, attaches no envelope and no data, hands over an escalation
      and, when the audit call returns, logs the exchange as escalated. */
  ghost predicate Refused(cfg: Config, st: AgentState, m: OutgoingMessage, env: SendSetting) {
    var (next, r) := Outgoing(cfg, st, m, env);
    && r.ocip == None && r.filteredData == None && r.error.Some?
    && r.escalation == Some(EscalationOf(next.exchanges[m.Exchange()]))
    && (env.exchangeLogOk ==>
          && r.error == Some(RoundLimit(m.Exchange(), next.exchanges[m.Exchange()].maxRounds))
          && |next.audit| == |st.audit| + 1
          && next.audit[|st.audit|].ExchangeLogged?
          && next.audit[|st.audit|].outcome == Escalated
          && next.audit[|st.audit|].exchangeId == m.Exchange())
  }

  /** A send meets the limit exactly when the exchange is exhausted, or is new with a limit below one. */
  lemma LimitIff(cfg: Config, st: AgentState, m: OutgoingMessage, env: SendSetting)
    ensures Outgoing(cfg, st, m, env).1.escalation.Some?
       <==> Exhausted(st, m.Exchange())
            || (m.Exchange() !in st.exchanges && m.maxRounds.GetOr(DEFAULT_MAX_ROUNDS) < 1.0)
    ensures Outgoing(cfg, st, m, env).1.escalation.Some? ==> Exhausted(Outgoing(cfg, st, m, env).0, m.Exchange())
    ensures Outgoing(cfg, st, m, env).1.escalation.Some? <==> Refused(cfg, st, m, env)
  {
  }

  /** Escalation absorbs: once an exchange is exhausted, every later send on it is refused, for ever. */
  lemma {:induction false} EscalationAbsorbs(cfg: Config, st: AgentState, events: seq<Event>, x: string, k: nat)
    requires Exhausted(st, x) && k < |events|
    ensures Exhausted(Run(cfg, st, events[..k]), x)
    ensures events[k].Send? && events[k].out.Exchange() == x ==>
              Refused(cfg, Run(cfg, st, events[..k]), events[k].out, events[k].sendSetting)
    decreases k
  {
    if k > 0 {
      var next := Step(cfg, st, events[0]);
      TrackedStep(cfg, st, events[0], x);
      assert events[..k][1..] == events[1..][..k-1];
      EscalationAbsorbs(cfg, next, events[1..], x, k-1);
    } else if events[0].Send? && events[0].out.Exchange() == x {
      LimitIff(cfg, st, events[0].out, events[0].sendSetting);
    }
  }

  // ----- Two agents -----

  /** An attached envelope on its way, under the exchange id its message names. */
  datatype Packet = Packet(fromA: bool, exchangeId: Option<string>, envelope: Envelope)
  {
    function Exchange(): string {
      exchangeId.GetOr(envelope.conversationId)
    }
  }

  /** Two agents and every packet ever sent. Packets stay on the wire, so any of them may be delivered to
      either agent, at any time and any number of times, or never. Messages of anyone else, well formed or
      not, may arrive in between. */
  datatype System = System(a: AgentState, b: AgentState, wire: seq<Packet>)

  datatype Agents = Agents(a: Config, b: Config)

  datatype Move =
    | SendFrom(fromA: bool, out: OutgoingMessage, sendSetting: SendSetting)
    | Deliver(toA: bool, index: nat, content: Option<string>, receiveSetting: ReceiveSetting)
    | Inject(toA: bool, inc: IncomingMessage, receiveSetting: ReceiveSetting)

  function Packets(fromA: bool, m: OutgoingMessage, r: SendResult): seq<Packet> {
    if r.ocip.Some? then [Packet(fromA, m.exchangeId, r.ocip.value)] else []
  }

  function AsMessage(p: Packet, content: Option<string>): IncomingMessage {
    IncomingMessage(Some(Object(Encode(p.envelope))), p.exchangeId, content)
  }

  function MakeMove(agents: Agents, sys: System, move: Move): System {
    match move
    case SendFrom(true, m, env) =>
      var (a, r) := Outgoing(agents.a, sys.a, m, env);
      System(a, sys.b, sys.wire + Packets(true, m, r))
    case SendFrom(false, m, env) =>
      var (b, r) := Outgoing(agents.b, sys.b, m, env);
      System(sys.a, b, sys.wire + Packets(false, m, r))
    case Deliver(toA, i, content, env) =>
      if i >= |sys.wire| then sys
      else if toA then sys.(a := Incoming(agents.a, sys.a, AsMessage(sys.wire[i], content), env).0)
      else sys.(b := Incoming(agents.b, sys.b, AsMessage(sys.wire[i], content), env).0)
    case Inject(true, m, env) => sys.(a := Incoming(agents.a, sys.a, m, env).0)
    case Inject(false, m, env) => sys.(b := Incoming(agents.b, sys.b, m, env).0)
  }

  function Play(agents: Agents, sys: System, moves: seq<Move>): System
    decreases |moves|
  {
    if moves == [] then sys else Play(agents, MakeMove(agents, sys, moves[0]), moves[1..])
  }

  /** Number of packets on exchange `x` from one of the agents. */
  function Count(wire: seq<Packet>, x: string, fromA: bool): nat {
    if wire == [] then 0
    else
      var last := wire[|wire|-1];
      Count(wire[..|wire|-1], x, fromA) + if last.Exchange() == x && last.fromA == fromA then 1 else 0
  }

  lemma CountAppend(wire: seq<Packet>, p: Packet, x: string, fromA: bool)
    ensures Count(wire + [p], x, fromA) == Count(wire, x, fromA) + if p.Exchange() == x && p.fromA == fromA then 1 else 0
  {
    assert (wire + [p])[..|wire|] == wire;
  }

  /** The message carries an envelope of exchange `x`. */
  predicate IsOn(m: IncomingMessage, x: string) {
    Parse(m.ocip).Parsed? && m.exchangeId.GetOr(Parse(m.ocip).envelope.conversationId) == x
  }

  /** The move does not open `x`, unless it is a send by A or the delivery of a packet. */
  predicate LeavesOpeningToA(sys: System, move: Move, x: string) {
    match move
    case SendFrom(fromA, m, _) => !fromA && m.Exchange() == x ==> x in sys.b.exchanges
    case Deliver(_, _, _, _) => true
    case Inject(toA, m, _) => IsOn(m, x) ==> x in if toA then sys.a.exchanges else sys.b.exchanges
  }

  /** Agent B responds on `x` but never opens it, and neither does a third party. */
  ghost predicate OnlyResponds(agents: Agents, sys: System, moves: seq<Move>, x: string)
    decreases |moves|
  {
    moves == [] ||
    (LeavesOpeningToA(sys, moves[0], x) && OnlyResponds(agents, MakeMove(agents, sys, moves[0]), moves[1..], x))
  }

  /** A's limit on `x`, which both agents share; 0 while A has not opened it. */
  function Limit(sys: System, x: string): real {
    if x in sys.a.exchanges then sys.a.exchanges[x].maxRounds else 0.0
  }

  ghost predicate PacketsOn(sys: System, x: string) {
    forall i :: 0 <= i < |sys.wire| && sys.wire[i].Exchange() == x ==>
      sys.wire[i].envelope.exchangeRound >= 1.0 && sys.wire[i].envelope.maxRounds == Limit(sys, x)
  }

  ghost predicate InitiatorInv(sys: System, x: string) {
    var n := Count(sys.wire, x, true);
    if x in sys.a.exchanges then
      0.0 <= n as real <= sys.a.exchanges[x].currentRound && (n == 0 || n as real <= Limit(sys, x))
    else
      n == 0 && x !in sys.b.exchanges
  }

  ghost predicate ResponderInv(sys: System, x: string) {
    var n := Count(sys.wire, x, false);
    if x in sys.b.exchanges then
      && Count(sys.wire, x, true) > 0
      && sys.b.exchanges[x].maxRounds == Limit(sys, x)
      && n as real + 1.0 <= sys.b.exchanges[x].currentRound
      && (n == 0 || n as real + 1.0 <= Limit(sys, x))
    else
      n == 0
  }

  ghost predicate PairInv(sys: System, x: string) {
    PacketsOn(sys, x) && InitiatorInv(sys, x) && ResponderInv(sys, x)
  }

  lemma {:induction false} SomePacket(wire: seq<Packet>, x: string, i: nat)
    requires i < |wire| && wire[i].Exchange() == x
    ensures Count(wire, x, wire[i].fromA) > 0
  {
    if i < |wire| - 1 {
      SomePacket(wire[..|wire|-1], x, i);
    }
  }

  /** What a send does to the sender's view of `x`. */
  lemma SendStep(cfg: Config, st: AgentState, m: OutgoingMessage, env: SendSetting, x: string)
    ensures var (next, r) := Outgoing(cfg, st, m, env);
            && (m.Exchange() != x ==> (x in next.exchanges <==> x in st.exchanges))
            && (m.Exchange() != x && x in st.exchanges ==> next.exchanges[x] == st.exchanges[x])
            && (m.Exchange() == x ==>
                  var before := TrackedOrNew(st.exchanges, x, m.sessionId, m.maxRounds);
                  && x in next.exchanges
                  && next.exchanges[x].maxRounds == before.maxRounds
                  && next.exchanges[x].currentRound == before.currentRound + 1.0)
            && (r.ocip.Some? ==>
                  var s := next.exchanges[m.Exchange()];
                  && r.ocip.value.conversationId == m.sessionId
                  && r.ocip.value.exchangeRound == s.currentRound <= s.maxRounds
                  && r.ocip.value.maxRounds == s.maxRounds)
  {
  }

  /** What a receipt does to the receiver's view of `x`. */
  lemma DeliverStep(cfg: Config, st: AgentState, p: Packet, content: Option<string>, env: ReceiveSetting, x: string)
    ensures var next := Incoming(cfg, st, AsMessage(p, content), env).0;
            && (x in st.exchanges ==> x in next.exchanges && next.exchanges[x] == st.exchanges[x])
            && (x !in st.exchanges && x in next.exchanges ==>
                  && p.Exchange() == x
                  && next.exchanges[x].currentRound == p.envelope.exchangeRound
                  && next.exchanges[x].maxRounds == p.envelope.maxRounds)
  {
    EnvelopeRoundTrip(p.envelope);
  }

  lemma SendKeepsPairInv(agents: Agents, sys: System, move: Move, x: string)
    requires PairInv(sys, x) && move.SendFrom?
    requires !move.fromA && move.out.Exchange() == x ==> x in sys.b.exchanges
    ensures PairInv(MakeMove(agents, sys, move), x)
  {
    var m, next := move.out, MakeMove(agents, sys, move);
    var r := if move.fromA then Outgoing(agents.a, sys.a, m, move.sendSetting).1
             else Outgoing(agents.b, sys.b, m, move.sendSetting).1;
    if move.fromA {
      SendStep(agents.a, sys.a, m, move.sendSetting, x);
      if x !in sys.a.exchanges {
        NothingOnWire(sys, x);
      }
    } else {
      SendStep(agents.b, sys.b, m, move.sendSetting, x);
    }
    if r.ocip.Some? {
      var p := Packet(move.fromA, m.exchangeId, r.ocip.value);
      assert p.Exchange() == m.Exchange();
      CountAppend(sys.wire, p, x, true);
      CountAppend(sys.wire, p, x, false);
    } else {
      assert next.wire == sys.wire;
    }
  }

  lemma NothingOnWire(sys: System, x: string)
    requires PairInv(sys, x) && x !in sys.a.exchanges
    ensures forall i :: 0 <= i < |sys.wire| ==> sys.wire[i].Exchange() != x
  {
    forall i | 0 <= i < |sys.wire| ensures sys.wire[i].Exchange() != x {
      if sys.wire[i].Exchange() == x {
        SomePacket(sys.wire, x, i);
      }
    }
  }

  lemma DeliverKeepsPairInv(agents: Agents, sys: System, move: Move, x: string)
    requires PairInv(sys, x) && move.Deliver?
    ensures PairInv(MakeMove(agents, sys, move), x)
  {
    if move.index < |sys.wire| {
      var p := sys.wire[move.index];
      DeliverStep(if move.toA then agents.a else agents.b, if move.toA then sys.a else sys.b, p,
                  move.content, move.receiveSetting, x);
      if p.Exchange() == x {
        SomePacket(sys.wire, x, move.index);
        if x !in sys.a.exchanges {
          NothingOnWire(sys, x);
        }
      }
    }
  }

  /** A third party's message changes nothing on an exchange that is tracked or not its own. */
  lemma InjectStep(cfg: Config, st: AgentState, m: IncomingMessage, env: ReceiveSetting, x: string)
    requires IsOn(m, x) ==> x in st.exchanges
    ensures var next := Incoming(cfg, st, m, env).0;
            && (x in next.exchanges <==> x in st.exchanges)
            && (x in st.exchanges ==> next.exchanges[x] == st.exchanges[x])
  {
  }

  lemma InjectKeepsPairInv(agents: Agents, sys: System, move: Move, x: string)
    requires PairInv(sys, x) && move.Inject? && LeavesOpeningToA(sys, move, x)
    ensures PairInv(MakeMove(agents, sys, move), x)
  {
    InjectStep(if move.toA then agents.a else agents.b, if move.toA then sys.a else sys.b, move.inc, move.receiveSetting, x);
  }

  lemma {:induction false} PlayKeepsPairInv(agents: Agents, sys: System, moves: seq<Move>, x: string)
    requires PairInv(sys, x) && OnlyResponds(agents, sys, moves, x)
    ensures PairInv(Play(agents, sys, moves), x)
    decreases |moves|
  {
    if moves != [] {
      if moves[0].SendFrom? {
        SendKeepsPairInv(agents, sys, moves[0], x);
      } else if moves[0].Deliver? {
        DeliverKeepsPairInv(agents, sys, moves[0], x);
      } else {
        InjectKeepsPairInv(agents, sys, moves[0], x);
      }
      PlayKeepsPairInv(agents, MakeMove(agents, sys, moves[0]), moves[1..], x);
    }
  }

  /** Two agents that have never heard of exchange `x`, of which B only responds: however sends and
      deliveries interleave, A and B together put at most 2M - 1 messages of `x` on the wire, M being the
      limit under which A opened it, rounded down (none if M < 1). */
  lemma PairBound(agents: Agents, a: AgentState, b: AgentState, moves: seq<Move>, x: string)
    requires x !in a.exchanges && x !in b.exchanges
    requires OnlyResponds(agents, System(a, b, []), moves, x)
    ensures var sys := Play(agents, System(a, b, []), moves);
            var n := Count(sys.wire, x, true) + Count(sys.wire, x, false);
            n == 0 || (Limit(sys, x) >= 1.0 && n <= 2 * Limit(sys, x).Floor - 1)
  {
    PlayKeepsPairInv(agents, System(a, b, []), moves, x);
    var sys := Play(agents, System(a, b, []), moves);
    FloorBounds(Count(sys.wire, x, true), Limit(sys, x));
    FloorBounds(Count(sys.wire, x, false) + 1, Limit(sys, x));
  }

  lemma FloorBounds(n: nat, m: real)
    ensures n as real <= m <==> n <= m.Floor
  {
  }

  // ----- The bound is attained -----

  /** A plain message on exchange `x`, opening it with limit `m` if need be. */
  function Plain(x: string, m: real): OutgoingMessage {
    OutgoingMessage(x, None, None, None, Some(m), None, [], None, None, None)
  }

  function PlainSend(fromA: bool, x: string, m: real): Move {
    SendFrom(fromA, Plain(x, m), SendSetting("tomorrow", true, true))
  }

  /** `na` sends by A and then `nb` by B. */
  function Sends(x: string, m: real, na: nat, nb: nat): seq<Move> {
    if na > 0 then [PlainSend(true, x, m)] + Sends(x, m, na-1, nb)
    else if nb > 0 then [PlainSend(false, x, m)] + Sends(x, m, 0, nb-1)
    else []
  }

  lemma PlainSendLands(agents: Agents, sys: System, fromA: bool, x: string, m: real)
    requires x in sys.a.exchanges && x in sys.b.exchanges
    requires var s := if fromA then sys.a.exchanges[x] else sys.b.exchanges[x];
             s.currentRound + 1.0 <= s.maxRounds
    ensures var next := MakeMove(agents, sys, PlainSend(fromA, x, m));
            && Count(next.wire, x, true) == Count(sys.wire, x, true) + (if fromA then 1 else 0)
            && Count(next.wire, x, false) == Count(sys.wire, x, false) + (if fromA then 0 else 1)
            && x in next.a.exchanges && x in next.b.exchanges
            && next.a.exchanges[x].maxRounds == sys.a.exchanges[x].maxRounds
            && next.b.exchanges[x].maxRounds == sys.b.exchanges[x].maxRounds
            && next.a.exchanges[x].currentRound == sys.a.exchanges[x].currentRound + (if fromA then 1.0 else 0.0)
            && next.b.exchanges[x].currentRound == sys.b.exchanges[x].currentRound + (if fromA then 0.0 else 1.0)
  {
    var move := PlainSend(fromA, x, m);
    var r := if fromA then Outgoing(agents.a, sys.a, move.out, move.sendSetting).1
             else Outgoing(agents.b, sys.b, move.out, move.sendSetting).1;
    var p := Packet(fromA, None, r.ocip.value);
    assert MakeMove(agents, sys, move).wire == sys.wire + [p];
    CountAppend(sys.wire, p, x, true);
    CountAppend(sys.wire, p, x, false);
  }

  /** As long as the limits allow, every send puts a packet on the wire. */
  lemma {:induction false} SendsLand(agents: Agents, sys: System, x: string, m: real, na: nat, nb: nat)
    requires x in sys.a.exchanges && x in sys.b.exchanges
    requires sys.a.exchanges[x].currentRound + na as real <= sys.a.exchanges[x].maxRounds
    requires sys.b.exchanges[x].currentRound + nb as real <= sys.b.exchanges[x].maxRounds
    ensures var end := Play(agents, sys, Sends(x, m, na, nb));
            && Count(end.wire, x, true) == Count(sys.wire, x, true) + na
            && Count(end.wire, x, false) == Count(sys.wire, x, false) + nb
    ensures OnlyResponds(agents, sys, Sends(x, m, na, nb), x)
    decreases na, nb
  {
    if na > 0 {
      PlainSendLands(agents, sys, true, x, m);
      SendsLand(agents, MakeMove(agents, sys, PlainSend(true, x, m)), x, m, na-1, nb);
    } else if nb > 0 {
      PlainSendLands(agents, sys, false, x, m);
      SendsLand(agents, MakeMove(agents, sys, PlainSend(false, x, m)), x, m, 0, nb-1);
    }
  }

  lemma FirstDelivery(agents: Agents, sys: System, x: string, m: real)
    requires sys.wire != [] && x !in sys.b.exchanges && sys.wire[0].exchangeId == None
    requires sys.wire[0].envelope
          == EnvelopeFor(agents.a, Plain(x, m), NextRound(NewExchange(x, x, Some(m)), agents.a.agent.instanceId, ""), "tomorrow")
    requires x != "" && Colleagues(agents)
    ensures var next := MakeMove(agents, sys, Deliver(false, 0, None, ReceiveSetting(Threw(()), true)));
            && next.wire == sys.wire && next.a == sys.a
            && x in next.b.exchanges
            && next.b.exchanges[x].currentRound == 1.0 && next.b.exchanges[x].maxRounds == m
  {
    EnvelopeRoundTrip(sys.wire[0].envelope);
  }

  const FRESH := System(AgentState(map[], []), AgentState(map[], []), [])

  /** A run in which B only responds and which puts 2m - 1 packets of `x` on the wire, under limit `m`,
      rounded down. */
  ghost predicate MeetsBound(agents: Agents, moves: seq<Move>, x: string, m: real) {
    var sys := Play(agents, FRESH, moves);
    && OnlyResponds(agents, FRESH, moves, x)
    && Limit(sys, x) == m
    && Count(sys.wire, x, true) + Count(sys.wire, x, false) == 2 * m.Floor - 1
  }

  /** Two agents that accept each other's envelopes. */
  predicate Colleagues(agents: Agents) {
    && agents.a.agent.tenantId == agents.b.agent.tenantId && agents.a.agent.orgUnit == agents.b.agent.orgUnit
    && agents.a.agent.instanceId != "" && agents.a.agent.userId != ""
    && agents.a.agent.orgUnit != "" && agents.a.agent.tenantId != ""
  }

  /** The bound 2M - 1 is sharp for every M: `maxRounds` limits each agent, not the conversation, and
      from M = 2 on an exchange may carry more than M messages before anybody is asked. */
  lemma PairBoundIsSharp(agents: Agents, x: string, m: real)
    requires m >= 1.0 && x != "" && Colleagues(agents)
    ensures exists moves :: MeetsBound(agents, moves, x, m)
  {
    var opening, deliver := PlainSend(true, x, m), Deliver(false, 0, None, ReceiveSetting(Threw(()), true));
    var s1 := MakeMove(agents, FRESH, opening);
    var s2 := MakeMove(agents, s1, deliver);
    OpeningIsDelivered(agents, s1, s2, x, m);
    FloorBounds(1, m);
    var more: nat := m.Floor - 1;
    FloorBounds(1 + more, m);
    var tail := Sends(x, m, more, more);
    SendsLand(agents, s2, x, m, more, more);
    ExchangeKeepsLimit(agents, s2, tail, x);
    PlayTwo(agents, opening, deliver, tail, x);
    assert MeetsBound(agents, [opening] + ([deliver] + tail), x, m);
  }

  lemma PlayTwo(agents: Agents, first: Move, second: Move, tail: seq<Move>, x: string)
    requires first.SendFrom? && first.fromA && second.Deliver?
    ensures var s2 := MakeMove(agents, MakeMove(agents, FRESH, first), second);
            && Play(agents, FRESH, [first] + ([second] + tail)) == Play(agents, s2, tail)
            && (OnlyResponds(agents, s2, tail, x) ==> OnlyResponds(agents, FRESH, [first] + ([second] + tail), x))
  {
    var moves, rest := [first] + ([second] + tail), [second] + tail;
    assert moves[1..] == rest && rest[1..] == tail;
    var s1 := MakeMove(agents, FRESH, first);
    assert Play(agents, s1, rest) == Play(agents, MakeMove(agents, s1, second), tail);
  }

  lemma OpeningIsDelivered(agents: Agents, s1: System, s2: System, x: string, m: real)
    requires m >= 1.0 && x != "" && Colleagues(agents)
    requires s1 == MakeMove(agents, FRESH, PlainSend(true, x, m))
    requires s2 == MakeMove(agents, s1, Deliver(false, 0, None, ReceiveSetting(Threw(()), true)))
    ensures Count(s2.wire, x, true) == 1 && Count(s2.wire, x, false) == 0
    ensures x in s2.a.exchanges && s2.a.exchanges[x].currentRound == 1.0 && s2.a.exchanges[x].maxRounds == m
    ensures x in s2.b.exchanges && s2.b.exchanges[x].currentRound == 1.0 && s2.b.exchanges[x].maxRounds == m
  {
    var r := Outgoing(agents.a, FRESH.a, Plain(x, m), SendSetting("tomorrow", true, true)).1;
    var p := Packet(true, None, r.ocip.value);
    assert s1.wire == FRESH.wire + [p];
    CountAppend(FRESH.wire, p, x, true);
    CountAppend(FRESH.wire, p, x, false);
    FirstDelivery(agents, s1, x, m);
  }

  /** Incoming messages leave tracked exchanges alone. */
  lemma ReceiptKeepsTracked(cfg: Config, st: AgentState, m: IncomingMessage, env: ReceiveSetting, x: string)
    requires x in st.exchanges
    ensures x in Incoming(cfg, st, m, env).0.exchanges
    ensures Incoming(cfg, st, m, env).0.exchanges[x] == st.exchanges[x]
  {
  }

  lemma {:induction false} ExchangeKeepsLimit(agents: Agents, sys: System, moves: seq<Move>, x: string)
    requires x in sys.a.exchanges
    ensures x in Play(agents, sys, moves).a.exchanges
    ensures Limit(Play(agents, sys, moves), x) == Limit(sys, x)
    decreases |moves|
  {
    if moves != [] {
      match moves[0]
      case SendFrom(_, m, env) => SendStep(agents.a, sys.a, m, env, x);
      case Deliver(_, i, content, env) =>
        if i < |sys.wire| {
          ReceiptKeepsTracked(agents.a, sys.a, AsMessage(sys.wire[i], content), env, x);
        }
      case Inject(_, m, env) => ReceiptKeepsTracked(agents.a, sys.a, m, env, x);
    }
    if moves != [] {
      ExchangeKeepsLimit(agents, MakeMove(agents, sys, moves[0]), moves[1..], x);
    }
  }

  /** The run puts no more messages of `x` on the wire than the limit of `x` says. */
  ghost predicate WithinLimit(agents: Agents, moves: seq<Move>, x: string) {
    var sys := Play(agents, FRESH, moves);
    var n := Count(sys.wire, x, true) + Count(sys.wire, x, false);
    n == 0 || n as real <= Limit(sys, x)
  }

  /** The limit bounds the messages of a conversation exactly when it is below two: from two on, some run
      exceeds it. */
  lemma LimitBoundsConversationIff(agents: Agents, x: string, m: real)
    requires x != "" && Colleagues(agents)
    ensures (forall moves :: OnlyResponds(agents, FRESH, moves, x) && Limit(Play(agents, FRESH, moves), x) == m ==>
               WithinLimit(agents, moves, x))
       <==> m < 2.0
  {
    FloorBounds(2, m);
    if m < 2.0 {
      forall moves | OnlyResponds(agents, FRESH, moves, x) && Limit(Play(agents, FRESH, moves), x) == m
        ensures WithinLimit(agents, moves, x)
      {
        PairBound(agents, FRESH.a, FRESH.b, moves, x);
      }
    } else {
      PairBoundIsSharp(agents, x, m);
      var moves :| MeetsBound(agents, moves, x, m);
      assert !WithinLimit(agents, moves, x);
    }
  }
}
