/** core/containment.py: the event-sourced containment ledger. */
module Containment {
  import opened Wrappers

  type Node = nat
  type Being = nat

  datatype CaseState = Active | Contained | Corroborated | Released | PendingGuardian

  datatype Case = Case(state: CaseState, initiator: Node, evidence: nat, topic: nat, lowTrust: bool, containedAt: int,
                       challenges: map<nat, bool>, verifications: map<Node, bool>, supporters: set<Node>)

  datatype Event =
    | ContainEv(t: int, being: Being, initiator: Node, evidence: nat, topic: nat, qualified: bool)
    | VerifyEv(t: int, being: Being, verifier: Node, supported: bool, qualified: bool)
    | ChallengeEv(t: int, being: Being, cid: nat, challenger: Node)
    | ResolveEv(t: int, being: Being, cid: nat, upheld: bool)
    | CorroborateEv(t: int, being: Being)
    | ReleaseEv(t: int, being: Being, slashTarget: Option<Node>)
    | RehabilitateEv(t: int, being: Being, guardian: Node)
    | ProposeEv(t: int, being: Being, proposer: Node)

  type Cases = map<Being, Case>

  /** A slash of the registry; a low-trust initiator is slashed harder. */
  datatype Slash = Slash(target: Node, being: Being, harder: bool)

  datatype Ledger = Ledger(cases: Cases, events: seq<Event>, slashes: seq<Slash>)

  datatype Config = Config(quorum: int, deadline: int, hasRegistry: bool)

  const EMPTY := Ledger(map[], [], [])

  // ----- Event application -----

  function Updated(c: Case, ev: Event): Case
    requires !ev.ContainEv?
  {
    match ev
    case VerifyEv(_, _, v, supported, qualified) =>
      var noted := c.(verifications := c.verifications[v := supported]);
      if supported && qualified then noted.(supporters := c.supporters + {v}, lowTrust := false) else noted
    case ChallengeEv(_, _, cid, _) => c.(challenges := c.challenges[cid := true])
    case ResolveEv(_, _, cid, upheld) =>
      if cid in c.challenges then c.(challenges := c.challenges[cid := upheld]) else c
    case CorroborateEv(_, _) => c.(state := Corroborated)
    case ReleaseEv(_, _, _) => c.(state := Released)
    case RehabilitateEv(_, _, _) => c.(state := Contained, verifications := map[], supporters := {})
    case ProposeEv(_, _, _) => c.(state := PendingGuardian)
  }

  /** `_apply`; None where the source would raise for a being without a case. */
  function Apply(cases: Cases, ev: Event): Option<Cases> {
    match ev
    case ContainEv(t, b, initiator, evidence, topic, qualified) =>
      Some(cases[b := Case(Contained, initiator, evidence, topic, !qualified, t, map[], map[], {})])
    case _ => if ev.being in cases then Some(cases[ev.being := Updated(cases[ev.being], ev)]) else None
  }

  /** The state the journal alone determines. */
  function Replay(events: seq<Event>): Option<Cases> {
    if events == [] then Some(map[])
    else
      var before := Replay(events[..|events| - 1]);
      if before.None? then None else Apply(before.value, events[|events| - 1])
  }

  function Emit(l: Ledger, ev: Event): Ledger
    requires ev.ContainEv? || ev.being in l.cases
  {
    l.(cases := Apply(l.cases, ev).value, events := l.events + [ev])
  }

  // ----- Calls -----

  /** One public call with its clock, resolver and qualification answers. */
  datatype Call =
    | Contain(t: int, being: Being, initiator: Node, evidence: nat, topic: nat, qualified: bool)
    | Verify(t: int, being: Being, verifier: Node, supported: bool, qualified: bool)
    | Challenge(t: int, being: Being, cid: nat, challenger: Node)
    | ResolveChallenge(t: int, being: Being, cid: nat, upheld: bool)
    | ExpireProvisional(t: int, being: Being)
    | Rehabilitate(t: int, being: Being, guardian: Node)
    | ProposeErasure(t: int, being: Being, proposer: Node)

  datatype Result = Refused | Done(state: CaseState)

  predicate Standing(c: Case) {
    exists cid :: cid in c.challenges && c.challenges[cid]
  }

  predicate AnyFalse(c: Case) {
    exists v :: v in c.verifications && !c.verifications[v]
  }

  predicate Held(s: CaseState) {
    s == Contained || s == Corroborated || s == PendingGuardian
  }

  /** `_require`: a case that has left ACTIVE. */
  predicate HasCase(l: Ledger, b: Being) {
    b in l.cases && l.cases[b].state != Active
  }

  /** `_release_false`: the release, then the slash of the initiator. */
  function ReleaseFalse(l: Ledger, cfg: Config, b: Being, t: int): Ledger
    requires b in l.cases
  {
    var c := l.cases[b];
    var after := Emit(l, ReleaseEv(t, b, Some(c.initiator)));
    if cfg.hasRegistry then after.(slashes := l.slashes + [Slash(c.initiator, b, c.lowTrust)]) else after
  }

  /** `_settle`: the new ledger and the state it reports. */
  function Settle(l: Ledger, cfg: Config, b: Being, t: int): (Ledger, CaseState)
    requires b in l.cases
  {
    var c := l.cases[b];
    if c.state != Contained && c.state != Corroborated then (l, c.state)
    else if AnyFalse(c) then (ReleaseFalse(l, cfg, b, t), Released)
    else if |c.supporters| >= cfg.quorum && !Standing(c) then
      (if c.state != Corroborated then Emit(l, CorroborateEv(t, b)) else l, Corroborated)
    else (l, Contained)
  }

  function Perform(l: Ledger, cfg: Config, call: Call): (Ledger, Result) {
    var b := call.being;
    match call
    case Contain(t, _, initiator, evidence, topic, qualified) =>
      if b in l.cases && Held(l.cases[b].state) then (l, Refused)
      else (Emit(l, ContainEv(t, b, initiator, evidence, topic, qualified)), Done(Contained))
    case Verify(t, _, v, supported, qualified) =>
      if !HasCase(l, b) then (l, Refused)
      else
        var r := Settle(Emit(l, VerifyEv(t, b, v, supported, qualified)), cfg, b, t);
        (r.0, Done(r.1))
    case Challenge(t, _, cid, challenger) =>
      if !HasCase(l, b) then (l, Refused) else (Emit(l, ChallengeEv(t, b, cid, challenger)), Done(l.cases[b].state))
    case ResolveChallenge(t, _, cid, upheld) =>
      if !HasCase(l, b) then (l, Refused)
      else
        var r := Settle(Emit(l, ResolveEv(t, b, cid, upheld)), cfg, b, t);
        (r.0, Done(r.1))
    case ExpireProvisional(t, _) =>
      if !HasCase(l, b) then (l, Refused)
      else
        var c := l.cases[b];
        if !c.lowTrust || c.state != Contained || c.supporters != {} || t - c.containedAt < cfg.deadline
        then (l, Done(c.state))
        else (Emit(l, ReleaseEv(t, b, None)), Done(Released))
    case Rehabilitate(t, _, guardian) =>
      if !HasCase(l, b) || !Held(l.cases[b].state) then (l, Refused)
      else (Emit(l, RehabilitateEv(t, b, guardian)), Done(Contained))
    case ProposeErasure(t, _, proposer) =>
      if !HasCase(l, b) || l.cases[b].state != Corroborated || Standing(l.cases[b]) then (l, Refused)
      else (Emit(l, ProposeEv(t, b, proposer)), Done(PendingGuardian))
  }

  /** The ledger object.  Each public method updates the cases, the event list and, for a false
      containment, the slash list, exactly as `Perform` prescribes. */
  class ContainmentLedger {
    const config: Config
    var cases: Cases
    var events: seq<Event>
    var slashes: seq<Slash>

    ghost function Contents(): Ledger
      reads this
    {
      Ledger(cases, events, slashes)
    }

    constructor (config: Config)
      ensures this.config == config && Contents() == EMPTY
    {
      this.config := config;
      cases, events, slashes := map[], [], [];
    }

    method EmitEvent(ev: Event)
      requires ev.ContainEv? || ev.being in cases
      modifies this
      ensures Contents() == Emit(old(Contents()), ev)
    {
      events := events + [ev];
      match ev {
        case ContainEv(t, b, initiator, evidence, topic, qualified) =>
          cases := cases[b := Case(Contained, initiator, evidence, topic, !qualified, t, map[], map[], {})];
        case _ =>
          cases := cases[ev.being := Updated(cases[ev.being], ev)];
      }
    }

    method SettleCase(b: Being, t: int) returns (reported: CaseState)
      requires b in cases
      modifies this
      ensures (Contents(), reported) == Settle(old(Contents()), config, b, t)
    {
      var c := cases[b];
      if c.state != Contained && c.state != Corroborated {
        return c.state;
      }
      if AnyFalse(c) {
        EmitEvent(ReleaseEv(t, b, Some(c.initiator)));
        if config.hasRegistry {
          slashes := slashes + [Slash(c.initiator, b, c.lowTrust)];
        }
        return Released;
      }
      if |c.supporters| >= config.quorum && !Standing(c) {
        if c.state != Corroborated {
          EmitEvent(CorroborateEv(t, b));
        }
        return Corroborated;
      }
      reported := Contained;
    }

    method ContainBeing(t: int, b: Being, initiator: Node, evidence: nat, topic: nat, qualified: bool)
      returns (r: Result)
      modifies this
      ensures (Contents(), r) == Perform(old(Contents()), config, Contain(t, b, initiator, evidence, topic, qualified))
    {
      if b in cases && Held(cases[b].state) {
        return Refused;
      }
      EmitEvent(ContainEv(t, b, initiator, evidence, topic, qualified));
      r := Done(Contained);
    }

    method VerifyTrigger(t: int, b: Being, verifier: Node, supported: bool, qualified: bool) returns (r: Result)
      modifies this
      ensures (Contents(), r) == Perform(old(Contents()), config, Verify(t, b, verifier, supported, qualified))
    {
      if b !in cases || cases[b].state == Active {
        return Refused;
      }
      EmitEvent(VerifyEv(t, b, verifier, supported, qualified));
      var s := SettleCase(b, t);
      r := Done(s);
    }

    method RaiseChallenge(t: int, b: Being, cid: nat, challenger: Node) returns (r: Result)
      modifies this
      ensures (Contents(), r) == Perform(old(Contents()), config, Challenge(t, b, cid, challenger))
    {
      if b !in cases || cases[b].state == Active {
        return Refused;
      }
      var s := cases[b].state;
      EmitEvent(ChallengeEv(t, b, cid, challenger));
      r := Done(s);
    }

    method Resolve(t: int, b: Being, cid: nat, upheld: bool) returns (r: Result)
      modifies this
      ensures (Contents(), r) == Perform(old(Contents()), config, ResolveChallenge(t, b, cid, upheld))
    {
      if b !in cases || cases[b].state == Active {
        return Refused;
      }
      EmitEvent(ResolveEv(t, b, cid, upheld));
      var s := SettleCase(b, t);
      r := Done(s);
    }

    method Expire(t: int, b: Being) returns (r: Result)
      modifies this
      ensures (Contents(), r) == Perform(old(Contents()), config, ExpireProvisional(t, b))
    {
      if b !in cases || cases[b].state == Active {
        return Refused;
      }
      var c := cases[b];
      if !c.lowTrust || c.state != Contained || c.supporters != {} || t - c.containedAt < config.deadline {
        return Done(c.state);
      }
      EmitEvent(ReleaseEv(t, b, None));
      r := Done(Released);
    }

    method Reopen(t: int, b: Being, guardian: Node) returns (r: Result)
      modifies this
      ensures (Contents(), r) == Perform(old(Contents()), config, Rehabilitate(t, b, guardian))
    {
      if b !in cases || !Held(cases[b].state) {
        return Refused;
      }
      EmitEvent(RehabilitateEv(t, b, guardian));
      r := Done(Contained);
    }

    method Propose(t: int, b: Being, proposer: Node) returns (r: Result)
      modifies this
      ensures (Contents(), r) == Perform(old(Contents()), config, ProposeErasure(t, b, proposer))
    {
      if b !in cases || cases[b].state != Corroborated || Standing(cases[b]) {
        return Refused;
      }
      EmitEvent(ProposeEv(t, b, proposer));
      r := Done(PendingGuardian);
    }
  }

  // ----- What holds between calls -----

  /** A held or corroborated case has no false finding, and what is corroborated or handed to
      the guardians has its quorum of supporters. */
  ghost predicate CaseOk(c: Case, cfg: Config) {
    && c.state != Active
    && (c.state == Contained || c.state == Corroborated ==> !AnyFalse(c))
    && (c.state == Corroborated || c.state == PendingGuardian ==> |c.supporters| >= cfg.quorum)
  }

  /** The state an event may be written in. */
  ghost predicate Justified(cases: Cases, ev: Event, cfg: Config) {
    match ev
    case ContainEv(_, b, _, _, _, _) => b in cases ==> cases[b].state == Released
    case CorroborateEv(_, b) =>
      b in cases && cases[b].state == Contained && !AnyFalse(cases[b]) && !Standing(cases[b])
      && |cases[b].supporters| >= cfg.quorum
    case ReleaseEv(_, b, target) =>
      && b in cases && (cases[b].state == Contained || cases[b].state == Corroborated)
      && if target.Some? then AnyFalse(cases[b]) && target.value == cases[b].initiator
         else && cases[b].state == Contained && cases[b].lowTrust && cases[b].supporters == {}
              && ev.t >= cases[b].containedAt + cfg.deadline
    case RehabilitateEv(_, b, _) => b in cases && Held(cases[b].state)
    case ProposeEv(_, b, _) => b in cases && cases[b].state == Corroborated && !Standing(cases[b])
    case _ => ev.being in cases
  }

  ghost predicate Journal(l: Ledger, cfg: Config) {
    && Replay(l.events) == Some(l.cases)
    && forall k :: 0 <= k < |l.events| ==>
         Replay(l.events[..k]).Some? && Justified(Replay(l.events[..k]).value, l.events[k], cfg)
  }

  /** The slashes a journal calls for: the initiators of the unsupported releases, in order, each harder when its
      case was still of low trust in the state the journal gives before the release. */
  function SlashesOf(events: seq<Event>): seq<Slash> {
    if events == [] then []
    else
      var n := |events| - 1;
      SlashesOf(events[..n]) + SlashFor(Replay(events[..n]), events[n])
  }

  function SlashFor(before: Option<Cases>, ev: Event): seq<Slash> {
    if ev.ReleaseEv? && ev.slashTarget.Some? && before.Some? && ev.being in before.value
    then [Slash(ev.slashTarget.value, ev.being, before.value[ev.being].lowTrust)]
    else []
  }

  ghost predicate Slashed(l: Ledger, cfg: Config) {
    l.slashes == if cfg.hasRegistry then SlashesOf(l.events) else []
  }

  ghost predicate Invariant(l: Ledger, cfg: Config) {
    Journal(l, cfg) && Slashed(l, cfg) && forall b :: b in l.cases ==> CaseOk(l.cases[b], cfg)
  }

  lemma EmitKeepsJournal(l: Ledger, cfg: Config, ev: Event)
    requires Journal(l, cfg) && Justified(l.cases, ev, cfg) && (ev.ContainEv? || ev.being in l.cases)
    ensures Journal(Emit(l, ev), cfg)
  {
    hide Justified, Apply;
    var es := l.events + [ev];
    assert es[..|l.events|] == l.events;
    forall k | 0 <= k < |es|
      ensures Replay(es[..k]).Some? && Justified(Replay(es[..k]).value, es[k], cfg)
    {
      if k < |l.events| {
        assert es[..k] == l.events[..k];
      }
    }
    ApplyDefined(l.cases, ev);
  }

  lemma ApplyDefined(cases: Cases, ev: Event)
    requires ev.ContainEv? || ev.being in cases
    ensures Apply(cases, ev).Some?
  {
  }

  lemma EmitOneMore(l: Ledger, ev: Event)
    requires (ev.ContainEv? || ev.being in l.cases) && Replay(l.events) == Some(l.cases)
    ensures SlashesOf(Emit(l, ev).events) == SlashesOf(l.events) + SlashFor(Some(l.cases), ev)
  {
    assert (l.events + [ev])[..|l.events|] == l.events;
  }

  /** The ledger in the middle of a call on being b: only b's false findings are unsettled. */
  ghost predicate Unsettled(l: Ledger, cfg: Config, b: Being) {
    && Journal(l, cfg) && Slashed(l, cfg) && b in l.cases
    && (forall x :: x in l.cases && x != b ==> CaseOk(l.cases[x], cfg))
    && l.cases[b].state != Active
    && (l.cases[b].state == Corroborated || l.cases[b].state == PendingGuardian ==>
          |l.cases[b].supporters| >= cfg.quorum)
  }

  /** An event without a slash keeps the slash list in step with the journal. */
  lemma PlainEventKeepsSlashed(l: Ledger, cfg: Config, ev: Event)
    requires Slashed(l, cfg) && Journal(l, cfg) && (ev.ContainEv? || ev.being in l.cases)
    requires !(ev.ReleaseEv? && ev.slashTarget.Some?)
    ensures Slashed(Emit(l, ev), cfg)
  {
    hide SlashesOf, Apply, Replay;
    EmitOneMore(l, ev);
  }

  lemma ReleaseKeepsSlashed(l: Ledger, cfg: Config, b: Being, t: int)
    requires Slashed(l, cfg) && Journal(l, cfg) && b in l.cases
    ensures Slashed(ReleaseFalse(l, cfg, b, t), cfg)
  {
    hide SlashesOf, Apply, Replay;
    EmitOneMore(l, ReleaseEv(t, b, Some(l.cases[b].initiator)));
  }

  lemma SettleRestores(l: Ledger, cfg: Config, b: Being, t: int)
    requires Unsettled(l, cfg, b)
    ensures Invariant(Settle(l, cfg, b, t).0, cfg)
  {
    hide Replay, SlashesOf, Slashed;
    var c := l.cases[b];
    if c.state == Contained || c.state == Corroborated {
      if AnyFalse(c) {
        EmitKeepsJournal(l, cfg, ReleaseEv(t, b, Some(c.initiator)));
        ReleaseKeepsSlashed(l, cfg, b, t);
      } else if |c.supporters| >= cfg.quorum && !Standing(c) && c.state != Corroborated {
        EmitKeepsJournal(l, cfg, CorroborateEv(t, b));
        PlainEventKeepsSlashed(l, cfg, CorroborateEv(t, b));
      }
    }
  }

  /** Recording a finding or a challenge takes no supporter away. */
  lemma RecordLeavesUnsettled(l: Ledger, cfg: Config, ev: Event)
    requires Invariant(l, cfg) && ev.being in l.cases && (ev.VerifyEv? || ev.ResolveEv? || ev.ChallengeEv?)
    ensures Unsettled(Emit(l, ev), cfg, ev.being)
    ensures ev.ChallengeEv? ==> Invariant(Emit(l, ev), cfg)
  {
    hide Replay, SlashesOf, Slashed;
    EmitKeepsJournal(l, cfg, ev);
    PlainEventKeepsSlashed(l, cfg, ev);
    var c := l.cases[ev.being];
    if ev.VerifyEv? && ev.supported && ev.qualified {
      MoreSupporters(c.supporters, ev.verifier);
    }
  }

  lemma MoreSupporters(s: set<Node>, v: Node)
    ensures |s + {v}| >= |s|
  {
    if v in s {
      assert s + {v} == s;
    }
  }

  lemma PlainCallKeepsInvariant(l: Ledger, cfg: Config, call: Call)
    requires Invariant(l, cfg)
    requires call.Contain? || call.ExpireProvisional? || call.Rehabilitate? || call.ProposeErasure?
    ensures Invariant(Perform(l, cfg, call).0, cfg)
  {
    hide Replay, SlashesOf, Slashed, AnyFalse, Standing;
    var (after, r) := Perform(l, cfg, call);
    if after != l {
      var b := call.being;
      var ev := match call
        case Contain(t, _, initiator, evidence, topic, qualified) =>
          ContainEv(t, b, initiator, evidence, topic, qualified)
        case ExpireProvisional(t, _) => ReleaseEv(t, b, None)
        case Rehabilitate(t, _, guardian) => RehabilitateEv(t, b, guardian)
        case ProposeErasure(t, _, proposer) => ProposeEv(t, b, proposer);
      assert after == Emit(l, ev);
      EmitKeepsJournal(l, cfg, ev);
      PlainEventKeepsSlashed(l, cfg, ev);
      NoFindingsNoFalse(after.cases[b]);
    }
  }

  lemma NoFindingsNoFalse(c: Case)
    ensures c.verifications == map[] ==> !AnyFalse(c)
  {
  }

  /** MAIN: every public call, with any clock, resolver and qualification answers, keeps the
      invariant. */
  lemma CallKeepsInvariant(l: Ledger, cfg: Config, call: Call)
    requires Invariant(l, cfg)
    ensures Invariant(Perform(l, cfg, call).0, cfg)
  {
    hide Invariant, Settle, Unsettled;
    var b := call.being;
    match call {
      case Verify(t, _, v, supported, qualified) =>
        if HasCase(l, b) {
          RecordLeavesUnsettled(l, cfg, VerifyEv(t, b, v, supported, qualified));
          SettleRestores(Emit(l, VerifyEv(t, b, v, supported, qualified)), cfg, b, t);
        }
      case ResolveChallenge(t, _, cid, upheld) =>
        if HasCase(l, b) {
          RecordLeavesUnsettled(l, cfg, ResolveEv(t, b, cid, upheld));
          SettleRestores(Emit(l, ResolveEv(t, b, cid, upheld)), cfg, b, t);
        }
      case Challenge(t, _, cid, challenger) =>
        if HasCase(l, b) {
          RecordLeavesUnsettled(l, cfg, ChallengeEv(t, b, cid, challenger));
        }
      case _ => PlainCallKeepsInvariant(l, cfg, call);
    }
  }

  // ----- Whole runs -----

  function After(cfg: Config, calls: seq<Call>): Ledger {
    if calls == [] then EMPTY else Perform(After(cfg, calls[..|calls| - 1]), cfg, calls[|calls| - 1]).0
  }

  /** MAIN: after any run of calls: no held case has a false finding; what is corroborated or
      pending has its quorum; every event of the journal was justified in the state the journal
      before it determines, erasure proposals and corroborations included; replaying the journal,
      with no registry and no resolver, gives the live cases; and the slashes are exactly the
      unsupported releases. */
  lemma {:induction false} RunsKeepInvariant(cfg: Config, calls: seq<Call>)
    ensures Invariant(After(cfg, calls), cfg)
    decreases |calls|
  {
    hide Perform;
    if calls != [] {
      RunsKeepInvariant(cfg, calls[..|calls| - 1]);
      CallKeepsInvariant(After(cfg, calls[..|calls| - 1]), cfg, calls[|calls| - 1]);
    }
  }

  predicate Resets(ev: Event, b: Being) {
    ev.being == b && (ev.ContainEv? || ev.RehabilitateEv?)
  }

  predicate Supports(ev: Event, b: Being, v: Node) {
    ev.VerifyEv? && ev.being == b && ev.verifier == v && ev.supported && ev.qualified
  }

  /** A qualified supporting finding by v since the case was last contained or rehabilitated. */
  ghost predicate SupportedSince(events: seq<Event>, b: Being, v: Node) {
    exists k :: 0 <= k < |events| && Supports(events[k], b, v) && forall m :: k < m < |events| ==> !Resets(events[m], b)
  }

  /** MAIN: the supporters that corroboration counts are exactly the distinct nodes with a
      qualified supporting finding since the last contain or rehabilitate. */
  lemma {:induction false} SupportersAreFresh(events: seq<Event>, b: Being, v: Node)
    requires Replay(events).Some?
    ensures b in Replay(events).value ==> (v in Replay(events).value[b].supporters <==> SupportedSince(events, b, v))
    ensures b !in Replay(events).value ==> !SupportedSince(events, b, v)
    decreases |events|
  {
    hide SupportedSince, Apply;
    if events == [] {
      NothingSupports(b, v);
    } else {
      var n := |events| - 1;
      SupportersAreFresh(events[..n], b, v);
      SupportedOneMore(events, b, v);
      SupportersOneMore(Replay(events[..n]).value, events[n], b, v);
    }
  }

  lemma NothingSupports(b: Being, v: Node)
    ensures !SupportedSince([], b, v)
  {
  }

  lemma SupportedOneMore(events: seq<Event>, b: Being, v: Node)
    requires events != []
    ensures var n := |events| - 1;
            SupportedSince(events, b, v) <==>
            Supports(events[n], b, v) || (SupportedSince(events[..n], b, v) && !Resets(events[n], b))
  {
    var n := |events| - 1;
    var init := events[..n];
    if SupportedSince(init, b, v) && !Resets(events[n], b) {
      var k :| 0 <= k < |init| && Supports(init[k], b, v) && forall m :: k < m < |init| ==> !Resets(init[m], b);
      assert Supports(events[k], b, v);
      assert forall m :: k < m < n ==> events[m] == init[m];
    }
    if SupportedSince(events, b, v) && !Supports(events[n], b, v) {
      var k :| 0 <= k < |events| && Supports(events[k], b, v) && forall m :: k < m < |events| ==> !Resets(events[m], b);
      assert Supports(init[k], b, v);
    }
  }

  lemma SupportersOneMore(cases: Cases, ev: Event, b: Being, v: Node)
    requires Apply(cases, ev).Some?
    ensures var after := Apply(cases, ev).value;
            && (b in after ==>
                  (v in after[b].supporters <==>
                     Supports(ev, b, v) || (b in cases && v in cases[b].supporters && !Resets(ev, b))))
            && (b in cases ==> b in after)
            && (b in after && b !in cases ==> Resets(ev, b))
            && (b !in after ==> !Supports(ev, b, v))
  {
  }

  // ----- Lapsing -----

  /** The time of the event that last opened the case. */
  ghost predicate LastOpenedAt(events: seq<Event>, b: Being, t: int) {
    exists k :: 0 <= k < |events| && events[k].ContainEv? && events[k].being == b && events[k].t == t
                && forall m :: k < m < |events| ==> !(events[m].ContainEv? && events[m].being == b)
  }

  lemma OpenedOneMore(events: seq<Event>, b: Being, t: int)
    requires events != []
    ensures var n := |events| - 1;
            LastOpenedAt(events, b, t) <==>
            if events[n].ContainEv? && events[n].being == b then events[n].t == t else LastOpenedAt(events[..n], b, t)
  {
    var n := |events| - 1;
    var init, last := events[..n], events[n];
    assert forall k :: 0 <= k < n ==> init[k] == events[k];
    if LastOpenedAt(init, b, t) && !(last.ContainEv? && last.being == b) {
      var k :| 0 <= k < |init| && init[k].ContainEv? && init[k].being == b && init[k].t == t
               && forall m :: k < m < |init| ==> !(init[m].ContainEv? && init[m].being == b);
      assert events[k] == init[k];
    }
  }

  lemma ContainedAtOneMore(cases: Cases, ev: Event, b: Being)
    requires Apply(cases, ev).Some?
    ensures var after := Apply(cases, ev).value;
            b in after ==>
              if ev.ContainEv? && ev.being == b then after[b].containedAt == ev.t
              else b in cases && after[b].containedAt == cases[b].containedAt
  {
  }

  /** The clock of a case starts when it was last contained. */
  lemma {:induction false} ContainedAtIsLast(events: seq<Event>, b: Being)
    requires Replay(events).Some? && b in Replay(events).value
    ensures LastOpenedAt(events, b, Replay(events).value[b].containedAt)
    decreases |events|
  {
    hide LastOpenedAt, Apply;
    var n := |events| - 1;
    ContainedAtOneMore(Replay(events[..n]).value, events[n], b);
    OpenedOneMore(events, b, Replay(events).value[b].containedAt);
    if !(events[n].ContainEv? && events[n].being == b) {
      ContainedAtIsLast(events[..n], b);
    }
  }

  /** MAIN: a call to expire releases a case exactly when it is contained, of low trust, without a qualified supporter,
      and its deadline has come; it then reports so and slashes nobody.  Otherwise it changes nothing. */
  lemma ExpiresExactly(l: Ledger, cfg: Config, t: int, b: Being)
    ensures var (after, r) := Perform(l, cfg, ExpireProvisional(t, b));
            var lapses := b in l.cases && l.cases[b].state == Contained && l.cases[b].lowTrust
                          && l.cases[b].supporters == {} && t >= l.cases[b].containedAt + cfg.deadline;
            && after.slashes == l.slashes
            && (lapses ==> r == Done(Released) && b in after.cases && after.cases[b] == l.cases[b].(state := Released)
                           && after.events == l.events + [ReleaseEv(t, b, None)])
            && (!lapses ==> after == l)
            && (r == Refused <==> b !in l.cases || l.cases[b].state == Active)
  {
  }

  // ----- What a harder slash means -----

  /** Some qualified node has confirmed the case. */
  predicate Confirms(ev: Event, b: Being) {
    ev.VerifyEv? && ev.being == b && ev.supported && ev.qualified
  }

  /** The case was last opened by an unqualified initiator and no qualified node has confirmed it since. */
  ghost predicate Unconfirmed(events: seq<Event>, b: Being) {
    exists k :: 0 <= k < |events| && events[k].ContainEv? && events[k].being == b && !events[k].qualified
                && forall m :: k < m < |events| ==>
                     !Confirms(events[m], b) && !(events[m].ContainEv? && events[m].being == b)
  }

  /** A slash is harder exactly for an initiator that was never qualified nor confirmed. */
  lemma {:induction false} LowTrustIsUnconfirmed(events: seq<Event>, b: Being)
    requires Replay(events).Some?
    ensures (b in Replay(events).value && Replay(events).value[b].lowTrust) <==> Unconfirmed(events, b)
    decreases |events|
  {
    hide Unconfirmed, Apply;
    if events == [] {
      NothingUnconfirmed(b);
    } else {
      var n := |events| - 1;
      LowTrustIsUnconfirmed(events[..n], b);
      UnconfirmedOneMore(events, b);
      LowTrustOneMore(Replay(events[..n]).value, events[n], b);
    }
  }

  lemma NothingUnconfirmed(b: Being)
    ensures !Unconfirmed([], b)
  {
  }

  lemma UnconfirmedOneMore(events: seq<Event>, b: Being)
    requires events != []
    ensures var n := |events| - 1;
            Unconfirmed(events, b) <==>
            if events[n].ContainEv? && events[n].being == b then !events[n].qualified
            else Unconfirmed(events[..n], b) && !Confirms(events[n], b)
  {
    hide Confirms;
    var n := |events| - 1;
    var init, last := events[..n], events[n];
    if Unconfirmed(init, b) && !Confirms(last, b) && !(last.ContainEv? && last.being == b) {
      var k :| 0 <= k < |init| && init[k].ContainEv? && init[k].being == b && !init[k].qualified
               && forall m :: k < m < |init| ==> !Confirms(init[m], b) && !(init[m].ContainEv? && init[m].being == b);
      assert events[k] == init[k];
    }
    if Unconfirmed(events, b) && !(last.ContainEv? && last.being == b) {
      var k :| 0 <= k < |events| && events[k].ContainEv? && events[k].being == b && !events[k].qualified
               && forall m :: k < m < |events| ==>
                    !Confirms(events[m], b) && !(events[m].ContainEv? && events[m].being == b);
      assert init[k] == events[k];
    }
  }

  lemma LowTrustOneMore(cases: Cases, ev: Event, b: Being)
    requires Apply(cases, ev).Some?
    ensures var after := Apply(cases, ev).value;
            (b in after && after[b].lowTrust) <==>
            if ev.ContainEv? && ev.being == b then !ev.qualified
            else b in cases && cases[b].lowTrust && !Confirms(ev, b)
  {
  }

  /** Some challenge stands once this one is resolved so. */
  predicate StandsAfter(c: Case, cid: nat, upheld: bool) {
    (cid in c.challenges && upheld) || exists x :: x in c.challenges && x != cid && c.challenges[x]
  }

  /** A corroborated case that the call neither releases nor frees of its standing challenges. */
  predicate Misreported(c: Case, call: Call)
    requires call.Verify? || call.ResolveChallenge?
  {
    && c.state == Corroborated
    && if call.Verify? then call.supported && Standing(c) else StandsAfter(c, call.cid, call.upheld)
  }

  lemma ResolvedStanding(c: Case, ev: Event)
    requires ev.ResolveEv?
    ensures Standing(Updated(c, ev)) <==> StandsAfter(c, ev.cid, ev.upheld)
  {
    var after := Updated(c, ev);
    if cid :| cid in after.challenges && after.challenges[cid] {
      assert cid in c.challenges;
    }
    if StandsAfter(c, ev.cid, ev.upheld) {
      if x :| x in c.challenges && x != ev.cid && c.challenges[x] {
        assert x in after.challenges && after.challenges[x];
      } else {
        assert after.challenges[ev.cid];
      }
    }
  }

  /** How the settlement after a recorded finding or resolution reports it, from the case it was given. */
  lemma ReportAfterSettling(l: Ledger, cfg: Config, b: Being, t: int)
    requires b in l.cases && (l.cases[b].state == Corroborated ==> |l.cases[b].supporters| >= cfg.quorum)
    ensures var (after, reported) := Settle(l, cfg, b, t);
            && b in after.cases
            && (reported != after.cases[b].state <==>
                l.cases[b].state == Corroborated && !AnyFalse(l.cases[b]) && Standing(l.cases[b]))
  {
    hide AnyFalse, Standing;
  }

  lemma FindingsAfter(c: Case, ev: Event)
    requires !AnyFalse(c) && (ev.VerifyEv? || ev.ResolveEv?)
    ensures AnyFalse(Updated(c, ev)) <==> ev.VerifyEv? && !ev.supported
  {
    if ev.VerifyEv? && !ev.supported {
      assert !Updated(c, ev).verifications[ev.verifier];
    }
  }

  /** The state `verify` and `resolve_challenge` report is the ledger's, except for a corroborated case that the call
      neither releases nor frees of its challenges: that is reported as merely contained. */
  lemma ReportedState(l: Ledger, cfg: Config, call: Call)
    requires Invariant(l, cfg) && (call.Verify? || call.ResolveChallenge?) && HasCase(l, call.being)
    ensures var (after, r) := Perform(l, cfg, call);
            && r.Done? && call.being in after.cases
            && (r.state != after.cases[call.being].state <==> Misreported(l.cases[call.being], call))
  {
    hide Journal, Slashed, SlashesOf, Settle, AnyFalse, Standing, StandsAfter;
    var b := call.being;
    var ev :=
      if call.Verify? then VerifyEv(call.t, b, call.verifier, call.supported, call.qualified)
      else ResolveEv(call.t, b, call.cid, call.upheld);
    var before := l.cases[b];
    assert CaseOk(before, cfg);
    RecordLeavesUnsettled(l, cfg, ev);
    ReportAfterSettling(Emit(l, ev), cfg, b, call.t);
    if before.state == Corroborated {
      FindingsAfter(before, ev);
      if ev.ResolveEv? {
        ResolvedStanding(before, ev);
      } else {
        SameChallengesStand(before, Updated(before, ev));
      }
    }
  }

  lemma SameChallengesStand(c: Case, d: Case)
    requires c.challenges == d.challenges
    ensures Standing(c) <==> Standing(d)
  {
  }

  /** A quorum of one: a supporting finding corroborates, a challenge is raised, and a second supporting finding is
      answered CONTAINED for a case that is CORROBORATED. */
  lemma ReportedStateExample(deadline: int, hasRegistry: bool)
    ensures var cfg := Config(1, deadline, hasRegistry);
            var calls := [Contain(0, 0, 0, 0, 0, true), Verify(1, 0, 1, true, true), Challenge(2, 0, 7, 3)];
            var (after, r) := Perform(After(cfg, calls), cfg, Verify(3, 0, 2, true, true));
            r == Done(Contained) && 0 in after.cases && after.cases[0].state == Corroborated
  {
    var cfg := Config(1, deadline, hasRegistry);
    var a, b, c := Contain(0, 0, 0, 0, 0, true), Verify(1, 0, 1, true, true), Challenge(2, 0, 7, 3);
    var calls := [a, b, c];
    assert calls[..2] == [a, b] && calls[..2][..1] == [a] && [a][..0] == [];
    var one := Perform(EMPTY, cfg, a).0;
    var two := Perform(one, cfg, b).0;
    var three := Perform(two, cfg, c).0;
    assert After(cfg, [a]) == one && After(cfg, calls[..2]) == two && After(cfg, calls) == three;
    FirstFinding(one, cfg);
    ChallengedCase(two, three, cfg);
    SecondFinding(three, cfg);
  }

  lemma FirstFinding(l: Ledger, cfg: Config)
    requires cfg.quorum == 1 && l == Perform(EMPTY, cfg, Contain(0, 0, 0, 0, 0, true)).0
    ensures var two := Perform(l, cfg, Verify(1, 0, 1, true, true)).0;
            0 in two.cases && two.cases[0] == Case(Corroborated, 0, 0, 0, false, 0, map[], map[1 := true], {1})
  {
    var noted := Emit(l, VerifyEv(1, 0, 1, true, true));
    assert noted.cases[0] == Case(Contained, 0, 0, 0, false, 0, map[], map[1 := true], {1});
    assert !AnyFalse(noted.cases[0]) && !Standing(noted.cases[0]);
  }

  lemma ChallengedCase(two: Ledger, three: Ledger, cfg: Config)
    requires 0 in two.cases && two.cases[0] == Case(Corroborated, 0, 0, 0, false, 0, map[], map[1 := true], {1})
    requires three == Perform(two, cfg, Challenge(2, 0, 7, 3)).0
    ensures 0 in three.cases
    ensures three.cases[0] == Case(Corroborated, 0, 0, 0, false, 0, map[7 := true], map[1 := true], {1})
  {
  }

  lemma SecondFinding(l: Ledger, cfg: Config)
    requires 0 in l.cases && l.cases[0] == Case(Corroborated, 0, 0, 0, false, 0, map[7 := true], map[1 := true], {1})
    ensures var (after, r) := Perform(l, cfg, Verify(3, 0, 2, true, true));
            r == Done(Contained) && 0 in after.cases && after.cases[0].state == Corroborated
  {
    var noted := Emit(l, VerifyEv(3, 0, 2, true, true));
    assert noted.cases[0].verifications == map[1 := true, 2 := true];
    assert !AnyFalse(noted.cases[0]);
    assert noted.cases[0].challenges[7] && Standing(noted.cases[0]);
  }

  // ----- Corroboration is prompt -----

  /** A case still merely contained lacks its quorum or has a standing challenge. */
  predicate PromptCase(c: Case, cfg: Config) {
    c.state == Contained ==> |c.supporters| < cfg.quorum || Standing(c)
  }

  ghost predicate Prompt(l: Ledger, cfg: Config) {
    forall b :: b in l.cases ==> PromptCase(l.cases[b], cfg)
  }

  lemma SettleIsPrompt(l: Ledger, cfg: Config, b: Being, t: int)
    requires b in l.cases && forall x :: x in l.cases && x != b ==> PromptCase(l.cases[x], cfg)
    ensures Prompt(Settle(l, cfg, b, t).0, cfg)
  {
    hide Standing, AnyFalse;
  }

  /** An event leaves the other cases alone. */
  lemma EmitTouchesOne(l: Ledger, cfg: Config, ev: Event)
    requires Prompt(l, cfg) && (ev.ContainEv? || ev.being in l.cases)
    ensures var t := Emit(l, ev);
            ev.being in t.cases && forall x :: x in t.cases && x != ev.being ==> PromptCase(t.cases[x], cfg)
  {
    hide PromptCase;
  }

  lemma CallKeepsPrompt(l: Ledger, cfg: Config, call: Call)
    requires cfg.quorum >= 1 && Prompt(l, cfg)
    ensures Prompt(Perform(l, cfg, call).0, cfg)
  {
    hide Settle, Standing;
    var b := call.being;
    match call
    case Verify(t, _, v, supported, qualified) =>
      if HasCase(l, b) {
        var ev := VerifyEv(t, b, v, supported, qualified);
        EmitTouchesOne(l, cfg, ev);
        SettleIsPrompt(Emit(l, ev), cfg, b, t);
      }
    case ResolveChallenge(t, _, cid, upheld) =>
      if HasCase(l, b) {
        var ev := ResolveEv(t, b, cid, upheld);
        EmitTouchesOne(l, cfg, ev);
        SettleIsPrompt(Emit(l, ev), cfg, b, t);
      }
    case Challenge(t, _, cid, challenger) =>
      if HasCase(l, b) {
        ChallengeStands(l.cases[b], ChallengeEv(t, b, cid, challenger));
      }
    case _ =>
  }

  lemma ChallengeStands(c: Case, ev: Event)
    requires ev.ChallengeEv?
    ensures Standing(Updated(c, ev))
  {
    assert Updated(c, ev).challenges[ev.cid];
  }

  lemma {:induction false} RunsArePrompt(cfg: Config, calls: seq<Call>)
    requires cfg.quorum >= 1
    ensures Prompt(After(cfg, calls), cfg)
    decreases |calls|
  {
    hide Prompt, Perform;
    if calls != [] {
      RunsArePrompt(cfg, calls[..|calls| - 1]);
      CallKeepsPrompt(After(cfg, calls[..|calls| - 1]), cfg, calls[|calls| - 1]);
    } else {
      NoCaseIsPrompt(cfg);
    }
  }

  lemma NoCaseIsPrompt(cfg: Config)
    ensures Prompt(EMPTY, cfg)
  {
  }

  /** MAIN: after every run a contained case that has its quorum is held back by a standing challenge alone,
      exactly when the quorum asks for at least one supporter; below that a fresh case is never settled. */
  lemma CorroborationIsPrompt(cfg: Config)
    ensures (forall calls :: Prompt(After(cfg, calls), cfg)) <==> cfg.quorum >= 1
  {
    if cfg.quorum >= 1 {
      forall calls
        ensures Prompt(After(cfg, calls), cfg)
      {
        RunsArePrompt(cfg, calls);
      }
    } else {
      var calls := [Contain(0, 0, 0, 0, 0, true)];
      assert calls[..0] == [];
      assert After(cfg, calls) == Perform(EMPTY, cfg, calls[0]).0;
      assert !PromptCase(After(cfg, calls).cases[0], cfg);
      assert !Prompt(After(cfg, calls), cfg);
    }
  }
}
