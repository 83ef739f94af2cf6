/** What a case is, and what each call does, in terms of the events so far (core/containment.py:235-488). */
module ContainmentExact {
  import opened Wrappers
  import opened Containment

  // ----- Reading a case off the journal -----

  /** A question about the latest event of some kind on one being. */
  datatype Query =
    | Opening
    | Transition
    | Raising(cid: nat)
    | Touching(cid: nat)
    | FindingBy(v: Node)

  predicate Answers(ev: Event, b: Being, q: Query) {
    ev.being == b &&
    match q
    case Opening => ev.ContainEv?
    case Transition =>
      ev.ContainEv? || ev.CorroborateEv? || ev.ReleaseEv? || ev.RehabilitateEv? || ev.ProposeEv?
    case Raising(cid) => ev.ContainEv? || (ev.ChallengeEv? && ev.cid == cid)
    case Touching(cid) => ev.ContainEv? || (ev.ChallengeEv? && ev.cid == cid) || (ev.ResolveEv? && ev.cid == cid)
    case FindingBy(v) => ev.ContainEv? || ev.RehabilitateEv? || (ev.VerifyEv? && ev.verifier == v)
  }

  /** The latest event that answers the question. */
  function Latest(events: seq<Event>, b: Being, q: Query): (r: Option<Event>)
    ensures r.None? ==> forall k :: 0 <= k < |events| ==> !Answers(events[k], b, q)
    ensures r.Some? ==> exists k :: 0 <= k < |events| && events[k] == r.value && Answers(events[k], b, q)
                                    && forall m :: k < m < |events| ==> !Answers(events[m], b, q)
  {
    if events == [] then None
    else
      var n := |events| - 1;
      if Answers(events[n], b, q) then Some(events[n]) else Latest(events[..n], b, q)
  }

  function StateAfter(ev: Event): CaseState {
    match ev
    case ContainEv(_, _, _, _, _, _) => Contained
    case RehabilitateEv(_, _, _) => Contained
    case CorroborateEv(_, _) => Corroborated
    case ReleaseEv(_, _, _) => Released
    case ProposeEv(_, _, _) => PendingGuardian
    case _ => Active
  }

  /** The author, evidence and clock are those of the latest opening; the state is that of the latest transition. */
  ghost predicate OrderFrom(c: Case, events: seq<Event>, b: Being) {
    var order, moved := Latest(events, b, Opening), Latest(events, b, Transition);
    && order.Some? && order.value.ContainEv? && moved.Some?
    && c.initiator == order.value.initiator && c.evidence == order.value.evidence
    && c.topic == order.value.topic && c.containedAt == order.value.t
    && c.state == StateAfter(moved.value)
  }

  /** A challenge is on the case if raised since it was order, and stands unless its latest resolution rejected it. */
  ghost predicate ChallengeFrom(c: Case, events: seq<Event>, b: Being, cid: nat) {
    var raised, touched := Latest(events, b, Raising(cid)), Latest(events, b, Touching(cid));
    && (cid in c.challenges <==> raised.Some? && raised.value.ChallengeEv?)
    && (cid in c.challenges ==>
          && touched.Some?
          && (c.challenges[cid] <==> touched.value.ChallengeEv? || (touched.value.ResolveEv? && touched.value.upheld)))
  }

  /** A node's finding is its latest since the case was last order or rehabilitated. */
  ghost predicate FindingFrom(c: Case, events: seq<Event>, b: Being, v: Node) {
    var found := Latest(events, b, FindingBy(v));
    && (v in c.verifications <==> found.Some? && found.value.VerifyEv?)
    && (v in c.verifications ==> found.value.VerifyEv? && c.verifications[v] == found.value.supported)
  }

  lemma OpenedIffCase(cases: Cases, ev: Event, b: Being)
    requires Apply(cases, ev).Some?
    ensures b in Apply(cases, ev).value <==> b in cases || Answers(ev, b, Opening)
    ensures b in Apply(cases, ev).value <==> b in cases || Answers(ev, b, Transition)
  {
  }

  /** A being has a case exactly when it was once contained; no transition comes before that. */
  lemma {:induction false} CaseIffOpened(events: seq<Event>, b: Being)
    requires Replay(events).Some?
    ensures b in Replay(events).value <==> Latest(events, b, Opening).Some?
    ensures b in Replay(events).value <==> Latest(events, b, Transition).Some?
    decreases |events|
  {
    hide Apply, Answers;
    if events != [] {
      var n := |events| - 1;
      CaseIffOpened(events[..n], b);
      OpenedIffCase(Replay(events[..n]).value, events[n], b);
    }
  }

  lemma OrderStep(cases: Cases, init: seq<Event>, ev: Event, b: Being)
    requires Apply(cases, ev).Some? && b in Apply(cases, ev).value
    requires b in cases ==> OrderFrom(cases[b], init, b)
    ensures OrderFrom(Apply(cases, ev).value[b], init + [ev], b)
  {
    assert (init + [ev])[..|init|] == init;
    assert Latest(init + [ev], b, Opening) == if Answers(ev, b, Opening) then Some(ev) else Latest(init, b, Opening);
    assert Latest(init + [ev], b, Transition) ==
           if Answers(ev, b, Transition) then Some(ev) else Latest(init, b, Transition);
  }

  lemma ChallengeStep(cases: Cases, init: seq<Event>, ev: Event, b: Being, cid: nat)
    requires Apply(cases, ev).Some? && b in Apply(cases, ev).value
    requires b in cases ==> ChallengeFrom(cases[b], init, b, cid)
    ensures ChallengeFrom(Apply(cases, ev).value[b], init + [ev], b, cid)
  {
    assert (init + [ev])[..|init|] == init;
    assert Latest(init + [ev], b, Raising(cid)) ==
           if Answers(ev, b, Raising(cid)) then Some(ev) else Latest(init, b, Raising(cid));
    assert Latest(init + [ev], b, Touching(cid)) ==
           if Answers(ev, b, Touching(cid)) then Some(ev) else Latest(init, b, Touching(cid));
  }

  lemma FindingStep(cases: Cases, init: seq<Event>, ev: Event, b: Being, v: Node)
    requires Apply(cases, ev).Some? && b in Apply(cases, ev).value
    requires b in cases ==> FindingFrom(cases[b], init, b, v)
    ensures FindingFrom(Apply(cases, ev).value[b], init + [ev], b, v)
  {
    assert (init + [ev])[..|init|] == init;
    assert Latest(init + [ev], b, FindingBy(v)) ==
           if Answers(ev, b, FindingBy(v)) then Some(ev) else Latest(init, b, FindingBy(v));
  }

  /** MAIN: what replay makes of a being is what the latest events on it say: who ordered it, on what evidence and when,
      its state, which challenges are on it and stand, and each node's finding. */
  lemma {:induction false} CaseIsHistory(events: seq<Event>, b: Being, cid: nat, v: Node)
    requires Replay(events).Some? && b in Replay(events).value
    ensures var c := Replay(events).value[b];
            OrderFrom(c, events, b) && ChallengeFrom(c, events, b, cid) && FindingFrom(c, events, b, v)
    decreases |events|
  {
    hide Apply, OrderFrom, ChallengeFrom, FindingFrom;
    var n := |events| - 1;
    var init, last := events[..n], events[n];
    var before := Replay(init).value;
    if b in before {
      CaseIsHistory(init, b, cid, v);
    }
    assert init + [last] == events;
    OrderStep(before, init, last, b);
    ChallengeStep(before, init, last, b, cid);
    FindingStep(before, init, last, b, v);
  }

  // ----- The governor's gate -----

  const EXECUTIVE_SCOPES: set<string> :=
    {"network.egress", "tools.side_effect", "assets.transfer", "governance.class2", "governance.class3",
     "deploy.migrate", "work.accept"}

  const PROTECTED_SCOPES: set<string> :=
    {"inference.pure", "memory.read_own", "witness.append_own", "adjudication", "guardian.contact", "rehabilitation"}

  predicate IsContained(cases: Cases, b: Being) {
    b in cases && Held(cases[b].state)
  }

  predicate Permits(cases: Cases, b: Being, scope: string) {
    !IsContained(cases, b) || scope in PROTECTED_SCOPES
  }

  /** MAIN: after any run the governor severs a scope exactly when it is not a protected one and the being was contained
      and has not been released since. */
  lemma SeveredExactly(cfg: Config, calls: seq<Call>, b: Being, scope: string)
    ensures var l := After(cfg, calls);
            var moved := Latest(l.events, b, Transition);
            !Permits(l.cases, b, scope) <==> scope !in PROTECTED_SCOPES && moved.Some? && !moved.value.ReleaseEv?
  {
    RunsKeepInvariant(cfg, calls);
    hide After, SlashesOf, Slashed, CaseOk, Justified, Replay;
    var l := After(cfg, calls);
    assert Replay(l.events) == Some(l.cases);
    hide Invariant, Journal;
    CaseIffOpened(l.events, b);
    if b in l.cases {
      CaseIsHistory(l.events, b, 0, 0);
      hide ChallengeFrom, FindingFrom;
    }
  }

  lemma ExecutiveIsNotProtected(scope: string)
    requires scope in EXECUTIVE_SCOPES
    ensures scope !in PROTECTED_SCOPES
  {
  }

  // ----- What each call does -----

  /** Containing is refused while the being is held and otherwise opens a fresh case with the order's own words. */
  lemma ContainExact(l: Ledger, cfg: Config, t: int, b: Being, initiator: Node, evidence: nat, topic: nat,
                     qualified: bool)
    requires Invariant(l, cfg)
    ensures var (after, r) := Perform(l, cfg, Contain(t, b, initiator, evidence, topic, qualified));
            if b in l.cases && l.cases[b].state != Released then after == l && r == Refused
            else && r == Done(Contained) && after.slashes == l.slashes
                 && after.events == l.events + [ContainEv(t, b, initiator, evidence, topic, qualified)]
                 && after.cases ==
                    l.cases[b := Case(Contained, initiator, evidence, topic, !qualified, t, map[], map[], {})]
  {
    hide Journal, Slashed;
  }

  /** A challenge is recorded in any state but leaves the state alone. */
  lemma ChallengeExact(l: Ledger, cfg: Config, t: int, b: Being, cid: nat, challenger: Node)
    requires Invariant(l, cfg)
    ensures var (after, r) := Perform(l, cfg, Challenge(t, b, cid, challenger));
            if b !in l.cases then after == l && r == Refused
            else && r == Done(l.cases[b].state) && after.slashes == l.slashes
                 && after.events == l.events + [ChallengeEv(t, b, cid, challenger)]
                 && b in after.cases && Standing(after.cases[b]) && after.cases[b].state == l.cases[b].state
  {
    hide Journal, Slashed;
    if b in l.cases {
      ChallengeStands(l.cases[b], ChallengeEv(t, b, cid, challenger));
    }
  }

  /** A guardian reopens any held case: findings and supporters are dropped, standing challenges stay. */
  lemma RehabilitateExact(l: Ledger, cfg: Config, t: int, b: Being, guardian: Node)
    requires Invariant(l, cfg)
    ensures var (after, r) := Perform(l, cfg, Rehabilitate(t, b, guardian));
            if b !in l.cases || l.cases[b].state == Released then after == l && r == Refused
            else && r == Done(Contained) && after.slashes == l.slashes
                 && after.events == l.events + [RehabilitateEv(t, b, guardian)]
                 && b in after.cases && after.cases[b].state == Contained
                 && after.cases[b].verifications == map[] && after.cases[b].supporters == {}
                 && after.cases[b].challenges == l.cases[b].challenges
  {
    hide Journal, Slashed;
  }

  /** Erasure is handed to the guardians exactly for a corroborated case with no standing challenge. */
  lemma ProposeExact(l: Ledger, cfg: Config, t: int, b: Being, proposer: Node)
    requires Invariant(l, cfg)
    ensures var (after, r) := Perform(l, cfg, ProposeErasure(t, b, proposer));
            if b in l.cases && l.cases[b].state == Corroborated
               && forall cid :: cid in l.cases[b].challenges ==> !l.cases[b].challenges[cid]
            then && r == Done(PendingGuardian) && after.slashes == l.slashes
                 && after.events == l.events + [ProposeEv(t, b, proposer)]
            else after == l && r == Refused
  {
    hide Journal, Slashed;
  }

  /** MAIN: an unsupported finding on a case that is contained or corroborated releases it at once and slashes its
      initiator; a supported one corroborates a contained case exactly when it completes the quorum of qualified
      supporters and no challenge stands.  Nothing else follows a finding. */
  lemma VerifyExact(l: Ledger, cfg: Config, t: int, b: Being, v: Node, supported: bool, qualified: bool)
    requires Invariant(l, cfg) && b in l.cases
    ensures var after := Perform(l, cfg, Verify(t, b, v, supported, qualified)).0;
            var c := l.cases[b];
            var live := c.state == Contained || c.state == Corroborated;
            var backers := if supported && qualified then c.supporters + {v} else c.supporters;
            && after.events == l.events + [VerifyEv(t, b, v, supported, qualified)]
                               + (if live && !supported then [ReleaseEv(t, b, Some(c.initiator))]
                                  else if c.state == Contained && |backers| >= cfg.quorum && !Standing(c)
                                  then [CorroborateEv(t, b)] else [])
            && after.slashes == l.slashes
                                + (if live && !supported && cfg.hasRegistry then [Slash(c.initiator, b, c.lowTrust)]
                                   else [])
  {
    var c, ev := l.cases[b], VerifyEv(t, b, v, supported, qualified);
    assert CaseOk(c, cfg);
    var noted := Emit(l, ev);
    assert noted.cases[b] == Updated(c, ev);
    hide Journal, Slashed, AnyFalse, Standing;
    SameChallengesStand(c, Updated(c, ev));
    if c.state == Contained || c.state == Corroborated {
      FindingsAfter(c, ev);
    }
  }

  /** MAIN: resolving a challenge releases nobody, and corroborates a contained case exactly when its quorum is there
      and no challenge stands any more. */
  lemma ResolveExact(l: Ledger, cfg: Config, t: int, b: Being, cid: nat, upheld: bool)
    requires Invariant(l, cfg) && b in l.cases
    ensures var after := Perform(l, cfg, ResolveChallenge(t, b, cid, upheld)).0;
            var c := l.cases[b];
            && after.events == l.events + [ResolveEv(t, b, cid, upheld)]
                               + (if && c.state == Contained && |c.supporters| >= cfg.quorum
                                     && !StandsAfter(c, cid, upheld)
                                  then [CorroborateEv(t, b)] else [])
            && after.slashes == l.slashes
  {
    var c, ev := l.cases[b], ResolveEv(t, b, cid, upheld);
    assert CaseOk(c, cfg);
    var noted := Emit(l, ev);
    assert noted.cases[b] == Updated(c, ev);
    hide Journal, Slashed, AnyFalse, Standing, StandsAfter;
    ResolvedStanding(c, ev);
    if c.state == Contained || c.state == Corroborated {
      FindingsAfter(c, ev);
    }
  }

  /** A finding or a resolution for a being without a case is refused and leaves no event. */
  lemma NoCaseRefused(l: Ledger, cfg: Config, call: Call)
    requires (call.Verify? || call.ResolveChallenge?) && call.being !in l.cases
    ensures Perform(l, cfg, call) == (l, Refused)
  {
  }
}
