/** Any number of callers recording audit events at once. Drawing an event number, appending the event, reading the
    last number back and remembering the decision are separate steps, as the counter, the log and the window are
    separate. */
module AuditInterleaving {
  import opened Prelude
  import opened Contract
  import opened Evaluator
  import opened MeshModel

  /** A decision on its way to the audit log. */
  datatype Recording = Recording(context: RuntimeContext, capability: Capability, decision: AuthorizationDecision, revision: nat)
  {
    function Tenant(): Id {
      context.tenant.tenantId
    }
  }

  datatype Call =
    | Drawn(event: AuditEvent, pending: Option<Recording>)
    | Logged(event: AuditEvent, decided: Recording)
    | Told(event: AuditEvent, decided: Recording, decision: AuthorizationDecision)
  {
    function Of(): Option<Recording> {
      if Drawn? then pending else Some(decided)
    }
  }

  /** What a caller was answered, and the event that was appended for it. */
  datatype Answer = Answer(event: AuditEvent, decision: AuthorizationDecision)

  /** `drawn` and `answers` only record history: all events in the order of their numbers, and all recorded decisions
      that were returned. */
  datatype Shared = Shared(journal: Journal, calls: map<nat, Call>, drawn: seq<AuditEvent>, answers: seq<Answer>)

  datatype Action =
    | DrawEvent(t: nat, tenantId: Id, note: Note, now: int)
    | DrawDecision(t: nat, decided: Recording, now: int)
    | AppendDrawn(t: nat, accepts: bool)
    | ReadBack(t: nat)
    | Return(t: nat)

  function Without(s: Shared, t: nat): Shared {
    s.(calls := s.calls - {t})
  }

  function Draw(s: Shared, t: nat, event: AuditEvent, pending: Option<Recording>): Shared {
    Shared(s.journal.(sequence := s.journal.sequence + 1), s.calls[t := Drawn(event, pending)], s.drawn + [event], s.answers)
  }

  function Next(s: Shared, a: Action): Shared {
    match a
    case DrawEvent(t, tenantId, note, now) =>
      if t in s.calls then s else Draw(s, t, EventFor(tenantId, note, s.journal.sequence, now), None)
    case DrawDecision(t, p, now) =>
      if t in s.calls || p.decision.auditEventId.Some? then s
      else Draw(s, t, EventFor(p.Tenant(), NoteOf(p.context, p.capability, p.decision), s.journal.sequence, now), Some(p))
    case AppendDrawn(t, accepts) =>
      if t !in s.calls || !s.calls[t].Drawn? then s
      else if !accepts then Without(s, t)
      else
        var call := s.calls[t];
        var logged := s.(journal := s.journal.(events := s.journal.events + [call.event]));
        if call.pending.None? then Without(logged, t)
        else logged.(calls := s.calls[t := Logged(call.event, call.pending.value)])
    case ReadBack(t) =>
      if t !in s.calls || !s.calls[t].Logged? then s
      else s.(calls := s.calls[t := Told(s.calls[t].event, s.calls[t].decided, Tagged(s, s.calls[t].decided))])
    case Return(t) =>
      if t !in s.calls || !s.calls[t].Told? then s
      else
        var call := s.calls[t];
        var p := call.decided;
        var e := Evidence(call.decision, p.context.principal.id, p.Tenant(), p.capability, p.context.run, p.revision,
                          call.event.timestamp);
        Without(s.(journal := s.journal.(decisions := Remember(s.journal.decisions, e)),
                   answers := s.answers + [Answer(call.event, call.decision)]), t)
  }

  /** The decision under the number drawn last, whoever drew it. */
  function Tagged(s: Shared, p: Recording): AuthorizationDecision {
    Attach(p.decision, AuditEventId(p.Tenant(), if s.journal.sequence == 0 then 0 else s.journal.sequence - 1))
  }

  ghost predicate Initial(s: Shared) {
    s == Shared(Journal([], 0, []), map[], [], [])
  }

  /** Any schedule. */
  ghost predicate IsRun(states: seq<Shared>, actions: seq<Action>) {
    && |states| == |actions| + 1 && Initial(states[0])
    && forall i :: 0 <= i < |actions| ==> Next(states[i], actions[i]) == states[i + 1]
  }

  // ----- The invariant --------------------------------------------------------------------------

  /** The event carries the number under which it was drawn. */
  ghost predicate IsDrawn(drawn: seq<AuditEvent>, e: AuditEvent) {
    e.id.sequence < |drawn| && drawn[e.id.sequence] == e
  }

  ghost predicate DrawnOk(s: Shared) {
    && s.journal.sequence == |s.drawn|
    && forall i :: 0 <= i < |s.drawn| ==> s.drawn[i].id == AuditEventId(s.drawn[i].tenantId, i)
  }

  /** The event reports this decision, whatever id the decision carries. */
  ghost predicate Reports(e: AuditEvent, d: AuthorizationDecision) {
    && (d.Allow? <==> e.kind == Granted) && (d.Deny? <==> e.kind == Denied)
    && (d.Deny? ==> e.reason == Some(d.reason))
  }

  ghost predicate CallOk(s: Shared, call: Call) {
    && IsDrawn(s.drawn, call.event)
    && (call.Drawn? <==> call.event !in s.journal.events)
    && (call.Of().Some? ==>
          var p := call.Of().value;
          call.event.tenantId == p.Tenant() && p.decision.auditEventId.None? && Reports(call.event, p.decision)
          && call.event.principalId == Some(p.context.principal.id) && call.event.capability == Some(p.capability))
    && (call.Told? ==> call.decision.auditEventId.Some? && call.decision.(auditEventId := None) == call.decided.decision)
  }

  ghost predicate AnswerOk(s: Shared, answer: Answer) {
    IsDrawn(s.drawn, answer.event) && answer.event in s.journal.events && Reports(answer.event, answer.decision)
  }

  ghost predicate EventsOk(s: Shared) {
    && (forall e <- s.journal.events :: IsDrawn(s.drawn, e))
    && Distinct(s.journal.events)
  }

  ghost predicate CallsOk(s: Shared) {
    && (forall t <- s.calls :: CallOk(s, s.calls[t]))
    && (forall t, u :: t in s.calls && u in s.calls && t != u ==> s.calls[t].event != s.calls[u].event)
  }

  ghost predicate AnswersOk(s: Shared) {
    && (forall a <- s.answers :: AnswerOk(s, a))
    && (forall i, j :: 0 <= i < j < |s.answers| ==> s.answers[i].event != s.answers[j].event)
    && (forall a, t :: a in s.answers && t in s.calls ==> a.event != s.calls[t].event)
  }

  ghost predicate Inv(s: Shared) {
    DrawnOk(s) && EventsOk(s) && CallsOk(s) && AnswersOk(s)
  }

  lemma DrawKeepsInv(s: Shared, t: nat, tenantId: Id, note: Note, now: int, pending: Option<Recording>)
    requires Inv(s) && t !in s.calls
    requires pending.Some? ==>
               && tenantId == pending.value.Tenant() && pending.value.decision.auditEventId.None?
               && note == NoteOf(pending.value.context, pending.value.capability, pending.value.decision)
    ensures Inv(Draw(s, t, EventFor(tenantId, note, s.journal.sequence, now), pending))
  {
    var event := EventFor(tenantId, note, s.journal.sequence, now);
    var r := Draw(s, t, event, pending);
    assert forall e: AuditEvent :: IsDrawn(s.drawn, e) ==> IsDrawn(r.drawn, e) && e != event;
    assert CallOk(r, r.calls[t]);
    forall u | u in r.calls ensures CallOk(r, r.calls[u]) {
      if u != t {
        assert CallOk(s, s.calls[u]);
      }
    }
    forall a | a in r.answers ensures AnswerOk(r, a) && a.event != event {
      assert AnswerOk(s, a);
    }
    assert forall e <- s.journal.events :: IsDrawn(s.drawn, e);
  }

  lemma DropKeepsInv(s: Shared, t: nat)
    requires Inv(s)
    ensures Inv(Without(s, t))
  {
    var r := Without(s, t);
    forall u | u in r.calls ensures CallOk(r, r.calls[u]) {
      assert CallOk(s, s.calls[u]);
    }
    forall a | a in r.answers ensures AnswerOk(r, a) {
      assert AnswerOk(s, a);
    }
  }

  /** Answers stay in order as long as nothing is forgotten and no call takes over an event. */
  lemma AnswersStayOk(s: Shared, r: Shared)
    requires AnswersOk(s) && r.drawn == s.drawn && r.answers == s.answers
    requires forall e <- s.journal.events :: e in r.journal.events
    requires forall t <- r.calls :: t in s.calls && r.calls[t].event == s.calls[t].event
    ensures AnswersOk(r)
  {
    hide Reports, IsDrawn;
    forall a | a in r.answers ensures AnswerOk(r, a) {
      assert AnswerOk(s, a);
    }
  }

  lemma CallStaysOk(s: Shared, r: Shared, call: Call)
    requires CallOk(s, call) && r.drawn == s.drawn
    requires call.event in s.journal.events <==> call.event in r.journal.events
    ensures CallOk(r, call)
  {
    hide Reports, IsDrawn;
  }

  lemma AppendedEventsOk(s: Shared, t: nat)
    requires EventsOk(s) && t in s.calls && CallOk(s, s.calls[t]) && s.calls[t].Drawn?
    ensures EventsOk(Next(s, AppendDrawn(t, true)))
  {
    hide Reports, IsDrawn;
    var event := s.calls[t].event;
    assert Next(s, AppendDrawn(t, true)).journal.events == s.journal.events + [event];
    DistinctAppend(s.journal.events, event);
  }

  lemma LoggedIsOk(s: Shared, r: Shared, call: Call)
    requires CallOk(s, call) && call.Drawn? && call.pending.Some? && r.drawn == s.drawn && call.event in r.journal.events
    ensures CallOk(r, Logged(call.event, call.pending.value))
  {
    hide Reports, IsDrawn;
  }

  lemma ToldIsOk(s: Shared, r: Shared, call: Call)
    requires CallOk(s, call) && call.Logged? && r.drawn == s.drawn && r.journal == s.journal
    ensures CallOk(r, Told(call.event, call.decided, Tagged(s, call.decided)))
  {
    hide Reports, IsDrawn;
  }

  lemma AppendedCallsOk(s: Shared, t: nat)
    requires CallsOk(s) && t in s.calls && s.calls[t].Drawn?
    ensures CallsOk(Next(s, AppendDrawn(t, true)))
  {
    hide CallOk;
    var r, event := Next(s, AppendDrawn(t, true)), s.calls[t].event;
    assert forall e :: e in r.journal.events <==> e in s.journal.events || e == event;
    forall u | u in r.calls ensures CallOk(r, r.calls[u]) {
      if u == t {
        LoggedIsOk(s, r, s.calls[t]);
      } else {
        CallStaysOk(s, r, s.calls[u]);
      }
    }
  }

  /** Logging the event of a call, which stays for its decision if it has one. */
  lemma AppendKeepsInv(s: Shared, t: nat)
    requires Inv(s) && t in s.calls && s.calls[t].Drawn?
    ensures Inv(Next(s, AppendDrawn(t, true)))
  {
    hide EventsOk, AnswersOk, CallOk;
    assert CallOk(s, s.calls[t]);
    AppendedEventsOk(s, t);
    AppendedCallsOk(s, t);
    AnswersStayOk(s, Next(s, AppendDrawn(t, true)));
  }

  lemma ReadBackKeepsInv(s: Shared, t: nat)
    requires Inv(s) && t in s.calls && s.calls[t].Logged?
    ensures Inv(Next(s, ReadBack(t)))
  {
    hide CallOk, AnswersOk;
    var r := Next(s, ReadBack(t));
    AnswersStayOk(s, r);
    forall u | u in r.calls ensures CallOk(r, r.calls[u]) {
      if u == t {
        ToldIsOk(s, r, s.calls[t]);
      } else {
        CallStaysOk(s, r, s.calls[u]);
      }
    }
  }

  lemma DoneIsOk(s: Shared, r: Shared, call: Call)
    requires CallOk(s, call) && call.Told? && r.drawn == s.drawn && r.journal.events == s.journal.events
    ensures AnswerOk(r, Answer(call.event, call.decision))
  {
    hide IsDrawn;
  }

  lemma AnswerStaysOk(s: Shared, r: Shared, answer: Answer)
    requires AnswerOk(s, answer) && r.drawn == s.drawn && r.journal.events == s.journal.events
    ensures AnswerOk(r, answer)
  {
    hide Reports, IsDrawn;
  }

  lemma ReturnedAnswersOk(s: Shared, t: nat)
    requires CallsOk(s) && AnswersOk(s) && t in s.calls && s.calls[t].Told?
    ensures AnswersOk(Next(s, Return(t)))
  {
    hide CallOk, AnswerOk, Remember;
    var r, call := Next(s, Return(t)), s.calls[t];
    forall a | a in r.answers ensures AnswerOk(r, a) {
      if a in s.answers {
        AnswerStaysOk(s, r, a);
      } else {
        DoneIsOk(s, r, call);
      }
    }
    assert r.answers == s.answers + [Answer(call.event, call.decision)];
    forall i | 0 <= i < |s.answers| ensures s.answers[i].event != call.event {
      assert s.answers[i] in s.answers;
    }
  }

  lemma ReturnKeepsInv(s: Shared, t: nat)
    requires Inv(s) && t in s.calls && s.calls[t].Told?
    ensures Inv(Next(s, Return(t)))
  {
    hide CallOk, AnswersOk, Remember;
    var r := Next(s, Return(t));
    ReturnedAnswersOk(s, t);
    forall u | u in r.calls ensures CallOk(r, r.calls[u]) {
      CallStaysOk(s, r, s.calls[u]);
    }
  }

  lemma NextKeepsInv(s: Shared, a: Action)
    requires Inv(s)
    ensures Inv(Next(s, a))
  {
    hide Inv, Draw, Remember, EventFor, NoteOf;
    match a {
      case DrawEvent(t, tenantId, note, now) =>
        if t !in s.calls {
          DrawKeepsInv(s, t, tenantId, note, now, None);
        }
      case DrawDecision(t, p, now) =>
        if t !in s.calls && p.decision.auditEventId.None? {
          DrawKeepsInv(s, t, p.Tenant(), NoteOf(p.context, p.capability, p.decision), now, Some(p));
        }
      case AppendDrawn(t, accepts) =>
        if t in s.calls && s.calls[t].Drawn? {
          if accepts {
            AppendKeepsInv(s, t);
          } else {
            DropKeepsInv(s, t);
          }
        }
      case ReadBack(t) =>
        if t in s.calls && s.calls[t].Logged? {
          ReadBackKeepsInv(s, t);
        }
      case Return(t) =>
        if t in s.calls && s.calls[t].Told? {
          ReturnKeepsInv(s, t);
        }
    }
  }

  lemma {:induction false} EveryScheduleKeepsInv(states: seq<Shared>, actions: seq<Action>, n: nat)
    requires IsRun(states, actions) && n < |states|
    ensures Inv(states[n])
  {
    hide Next;
    if n > 0 {
      EveryScheduleKeepsInv(states, actions, n - 1);
      NextKeepsInv(states[n - 1], actions[n - 1]);
    }
  }

  // ----- Ids ------------------------------------------------------------------------------------

  /** Under every schedule no two events of the log share an id, and the answers belong to different events of the
      log, each reporting its answer as it was decided: what is returned as allowed was logged as granted. */
  lemma AnswersAreLogged(states: seq<Shared>, actions: seq<Action>, n: nat)
    requires IsRun(states, actions) && n < |states|
    ensures forall i, j :: 0 <= i < j < |states[n].journal.events| ==>
              states[n].journal.events[i].id != states[n].journal.events[j].id
    ensures forall a <- states[n].answers :: a.event in states[n].journal.events && Reports(a.event, a.decision)
    ensures forall i, j :: 0 <= i < j < |states[n].answers| ==> states[n].answers[i].event.id != states[n].answers[j].event.id
  {
    hide Next, Reports;
    EveryScheduleKeepsInv(states, actions, n);
    var s := states[n];
    forall i, j | 0 <= i < j < |s.journal.events| ensures s.journal.events[i].id != s.journal.events[j].id {
      assert IsDrawn(s.drawn, s.journal.events[i]) && IsDrawn(s.drawn, s.journal.events[j]);
    }
    assert forall a <- s.answers :: AnswerOk(s, a);
    forall i, j | 0 <= i < j < |s.answers| ensures s.answers[i].event.id != s.answers[j].event.id {
      assert AnswerOk(s, s.answers[i]) && AnswerOk(s, s.answers[j]);
    }
  }

  /** The step draws a number. */
  predicate Draws(s: Shared, a: Action) {
    || (a.DrawEvent? && a.t !in s.calls)
    || (a.DrawDecision? && a.t !in s.calls && a.decided.decision.auditEventId.None?)
  }

  ghost predicate Holds(s: Shared, t: nat, event: AuditEvent) {
    t in s.calls && s.calls[t].event == event
  }

  lemma DrawsExactly(s: Shared, a: Action)
    requires Inv(s)
    ensures if Draws(s, a) then |Next(s, a).drawn| == |s.drawn| + 1 && s.drawn <= Next(s, a).drawn && Holds(Next(s, a), a.t, Next(s, a).drawn[|s.drawn|])
            else Next(s, a).drawn == s.drawn
    ensures forall t, e :: Holds(Next(s, a), t, e) && !Holds(s, t, e) ==>
              Draws(s, a) && a.t == t && e.id.sequence == |s.drawn|
  {
    hide EventsOk, CallsOk, AnswersOk, Remember, NoteOf;
  }

  /** The step at which a call drew its number. */
  lemma {:induction false} DrawnAt(states: seq<Shared>, actions: seq<Action>, n: nat, t: nat, event: AuditEvent) returns (m: nat)
    requires IsRun(states, actions) && n <= |actions| && Holds(states[n], t, event)
    ensures m < n && Draws(states[m], actions[m]) && actions[m].t == t && event.id.sequence == |states[m].drawn|
    ensures forall k :: m < k <= n ==> Holds(states[k], t, event)
  {
    hide Next, Inv, Draws, Holds;
    assert n > 0 by { NobodyAtFirst(states[0], t, event); }
    EveryScheduleKeepsInv(states, actions, n - 1);
    DrawsExactly(states[n - 1], actions[n - 1]);
    if Holds(states[n - 1], t, event) {
      m := DrawnAt(states, actions, n - 1, t, event);
    } else {
      m := n - 1;
    }
  }

  lemma NobodyAtFirst(s: Shared, t: nat, event: AuditEvent)
    ensures Initial(s) ==> !Holds(s, t, event)
  {
  }

  lemma {:induction false} DrawnSince(states: seq<Shared>, actions: seq<Action>, m: nat, n: nat)
    requires IsRun(states, actions) && m <= n < |states|
    ensures states[m].drawn <= states[n].drawn
    ensures |states[n].drawn| == |states[m].drawn| <==> forall k :: m <= k < n ==> !Draws(states[k], actions[k])
  {
    hide Next, Inv, Draws;
    if m < n {
      DrawnSince(states, actions, m, n - 1);
      EveryScheduleKeepsInv(states, actions, n - 1);
      DrawsExactly(states[n - 1], actions[n - 1]);
    }
  }

  /** Under every schedule a decision is returned under the id of its own event exactly when no other caller has drawn
      a number between its drawing one and its reading the last one back. */
  lemma OwnIdExactly(states: seq<Shared>, actions: seq<Action>, n: nat) returns (m: nat)
    requires IsRun(states, actions) && n < |actions| && actions[n].ReadBack?
    requires actions[n].t in states[n].calls && states[n].calls[actions[n].t].Logged?
    ensures var (t, event) := (actions[n].t, states[n].calls[actions[n].t].event);
            && m < n && Draws(states[m], actions[m]) && actions[m].t == t
            && (forall k :: m < k <= n ==> Holds(states[k], t, event))
            && t in states[n + 1].calls && states[n + 1].calls[t].Told?
            && (states[n + 1].calls[t].decision.auditEventId == Some(event.id) <==>
                forall k :: m < k < n ==> !Draws(states[k], actions[k]))
  {
    hide Inv, Draws, Holds;
    var t, event := actions[n].t, states[n].calls[actions[n].t].event;
    assert Holds(states[n], t, event) by { HoldsIt(states[n], t); }
    m := DrawnAt(states, actions, n, t, event);
    EveryScheduleKeepsInv(states, actions, m);
    EveryScheduleKeepsInv(states, actions, n);
    DrawsExactly(states[m], actions[m]);
    DrawnSince(states, actions, m + 1, n);
    IdRead(states[n], t);
  }

  lemma HoldsIt(s: Shared, t: nat)
    requires t in s.calls
    ensures Holds(s, t, s.calls[t].event)
  {
  }

  /** The id read back, and whether it is that of the call's own event. */
  lemma IdRead(s: Shared, t: nat)
    requires Inv(s) && t in s.calls && s.calls[t].Logged?
    ensures var r := Next(s, ReadBack(t));
            && |s.drawn| > 0 && t in r.calls && r.calls[t].Told?
            && r.calls[t].decision.auditEventId == Some(AuditEventId(s.calls[t].event.tenantId, |s.drawn| - 1))
            && s.calls[t].event.id == AuditEventId(s.calls[t].event.tenantId, s.calls[t].event.id.sequence)
  {
    hide EventsOk, AnswersOk, Reports;
    assert CallOk(s, s.calls[t]);
  }

  /** The id a decision is returned under names some event, its own or another caller's, exactly when the last number
      was drawn for the same tenant; otherwise no event has it or ever will. */
  lemma NamesAnEventExactly(states: seq<Shared>, actions: seq<Action>, n: nat, l: nat)
    requires IsRun(states, actions) && n < |actions| && actions[n].ReadBack? && n < l < |states|
    requires actions[n].t in states[n].calls && states[n].calls[actions[n].t].Logged?
    ensures var (t, s) := (actions[n].t, states[n]);
            && |s.drawn| > 0 && t in states[n + 1].calls && states[n + 1].calls[t].Told?
            && ((exists e <- states[l].drawn :: Some(e.id) == states[n + 1].calls[t].decision.auditEventId) <==>
                s.drawn[|s.drawn| - 1].tenantId == s.calls[t].event.tenantId)
  {
    hide Inv, Next, Draws;
    var t, s := actions[n].t, states[n];
    EveryScheduleKeepsInv(states, actions, n);
    EveryScheduleKeepsInv(states, actions, l);
    assert t in states[n + 1].calls by { IdRead(s, t); }
    IdRead(s, t);
    DrawnSince(states, actions, n, l);
    NumbersAre(states[l]);
    var last := |s.drawn| - 1;
    assert states[l].drawn[last] == s.drawn[last];
    if states[l].drawn[last].tenantId == s.calls[t].event.tenantId {
      assert states[l].drawn[last] in states[l].drawn;
    }
  }

  lemma NumbersAre(s: Shared)
    requires Inv(s)
    ensures forall i :: 0 <= i < |s.drawn| ==> s.drawn[i].id == AuditEventId(s.drawn[i].tenantId, i)
  {
  }

  // ----- One call after another -----------------------------------------------------------------

  /** Recording a decision on one's own is the schedule of its steps back to back. */
  lemma RecordIsASchedule(s: Shared, t: nat, p: Recording, env: Env)
    requires t !in s.calls && p.decision.auditEventId.None?
    ensures var drawn := Next(s, DrawDecision(t, p, env.now));
            var appended := Next(drawn, AppendDrawn(t, env.auditAccepts));
            var done := Next(Next(appended, ReadBack(t)), Return(t));
            var (journal, answered) := Record(s.journal, p.context, p.capability, p.decision, p.revision, env);
            && done.journal == journal && done.calls == s.calls
            && (if env.auditAccepts then |done.answers| == |s.answers| + 1 && done.answers[|s.answers|].decision == answered
                else done.answers == s.answers)
  {
    hide NoteOf, Remember;
    var drawn := Next(s, DrawDecision(t, p, env.now));
    var appended := Next(drawn, AppendDrawn(t, env.auditAccepts));
    assert drawn.calls - {t} == s.calls;
    if env.auditAccepts {
      var read := Next(appended, ReadBack(t));
      assert read.calls[t].Told? && read.calls[t].decision == Tagged(appended, p);
      assert read.calls - {t} == s.calls;
    }
  }

  // ----- A decision under another caller's number -------------------------------------------------

  const HOME := TenantContext("t", "p")
  const PERSON := Principal("u", Human, "t", map[], None)
  const CALLER := RuntimeContext(PERSON, HOME, None, None, None)

  function Denying(capability: Capability): Recording {
    Recording(CALLER, capability, DenyPlain(CapabilityNotGranted), 0)
  }

  const FIRST := EventFor("t", NoteOf(CALLER, "a", DenyPlain(CapabilityNotGranted)), 0, 0)
  const SECOND := EventFor("t", NoteOf(CALLER, "b", DenyPlain(CapabilityNotGranted)), 1, 0)

  /** Both callers have drawn their numbers. */
  const BOTH := Shared(Journal([], 2, []),
                       map[0 := Drawn(FIRST, Some(Denying("a"))), 1 := Drawn(SECOND, Some(Denying("b")))], [FIRST, SECOND], [])

  lemma BothDraw()
    ensures Next(Next(Shared(Journal([], 0, []), map[], [], []), DrawDecision(0, Denying("a"), 0)),
                 DrawDecision(1, Denying("b"), 0)) == BOTH
  {
    hide NoteOf;
    var s := Next(Shared(Journal([], 0, []), map[], [], []), DrawDecision(0, Denying("a"), 0));
    assert s == Shared(Journal([], 1, []), map[0 := Drawn(FIRST, Some(Denying("a")))], [FIRST], []);
  }

  lemma BothAreLogged()
    ensures var s := Next(Next(BOTH, AppendDrawn(0, true)), AppendDrawn(1, true));
            && s.journal == Journal([FIRST, SECOND], 2, [])
            && 0 in s.calls && s.calls[0] == Logged(FIRST, Denying("a"))
  {
    hide NoteOf, EventFor;
    var s := Next(BOTH, AppendDrawn(0, true));
    assert s.journal == Journal([FIRST], 2, []) && s.calls[1] == BOTH.calls[1];
  }

  /** Two callers draw numbers one after the other; the first is then answered under the event of the second. */
  lemma AnsweredUnderAnother() returns (states: seq<Shared>, actions: seq<Action>)
    ensures IsRun(states, actions) && |actions| == 5 && actions[4] == ReadBack(0)
    ensures var s := states[5];
            && s.journal.events == [FIRST, SECOND] && FIRST.capability == Some("a") && SECOND.capability == Some("b")
            && 0 in s.calls && s.calls[0].Told? && s.calls[0].event == FIRST
            && s.calls[0].decision.auditEventId == Some(SECOND.id) != Some(FIRST.id)
  {
    hide Next;
    actions := [DrawDecision(0, Denying("a"), 0), DrawDecision(1, Denying("b"), 0), AppendDrawn(0, true), AppendDrawn(1, true),
                ReadBack(0)];
    var s0 := Shared(Journal([], 0, []), map[], [], []);
    var s1 := Next(s0, actions[0]);
    var s4 := Next(Next(BOTH, actions[2]), actions[3]);
    states := [s0, s1, BOTH, Next(BOTH, actions[2]), s4, Next(s4, actions[4])];
    BothDraw();
    BothAreLogged();
    ReadsLast(s4);
  }

  lemma ReadsLast(s: Shared)
    requires s.journal == Journal([FIRST, SECOND], 2, []) && 0 in s.calls && s.calls[0] == Logged(FIRST, Denying("a"))
    ensures var r := Next(s, ReadBack(0));
            && r.journal == s.journal && 0 in r.calls
            && r.calls[0] == Told(FIRST, Denying("a"), Attach(Denying("a").decision, SECOND.id))
  {
  }
}
