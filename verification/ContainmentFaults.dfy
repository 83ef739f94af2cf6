/** core/containment.py:284-407, 471-488: calls that end early because `_emit` raises in its journal write or in its
    witness append, after memory has the event. */
module ContainmentFaults {
  import opened Wrappers
  import opened Containment

  // ----- A call that raises -----

  /** Which event of the call raises: none, the first, or the one its settlement emits. */
  datatype Fault = NoFault | FirstRaises | SettlementRaises

  /** A settlement that raises: the release is in memory and the slash that follows it never happens. */
  function SettleRaising(l: Ledger, cfg: Config, b: Being, t: int): Ledger
    requires b in l.cases
  {
    var c := l.cases[b];
    if (c.state == Contained || c.state == Corroborated) && AnyFalse(c) then Emit(l, ReleaseEv(t, b, Some(c.initiator)))
    else Settle(l, cfg, b, t).0
  }

  function Interrupted(l: Ledger, cfg: Config, ev: Event, f: Fault): Ledger
    requires ev.being in l.cases
  {
    if f == FirstRaises then Emit(l, ev) else SettleRaising(Emit(l, ev), cfg, ev.being, ev.t)
  }

  /** What a call leaves in memory.  The calls that emit one event leave the same, whether or not it raises. */
  function PerformFaulty(l: Ledger, cfg: Config, call: Call, f: Fault): Ledger {
    if f == NoFault || (!call.Verify? && !call.ResolveChallenge?) then Perform(l, cfg, call).0
    else if !HasCase(l, call.being) then l
    else Interrupted(l, cfg, FirstEvent(call), f)
  }

  function FirstEvent(call: Call): Event
    requires call.Verify? || call.ResolveChallenge?
  {
    match call
    case Verify(t, b, v, supported, qualified) => VerifyEv(t, b, v, supported, qualified)
    case ResolveChallenge(t, b, cid, upheld) => ResolveEv(t, b, cid, upheld)
  }

  // ----- What survives -----

  /** The part of the case invariant that a raise cannot touch. */
  ghost predicate CaseSturdy(c: Case, cfg: Config) {
    && c.state != Active
    && (c.state == Corroborated || c.state == PendingGuardian ==> |c.supporters| >= cfg.quorum)
  }

  /** The journal in memory replays to the live cases, every event of it was justified, quorums stand, and no slash was
      made that the journal does not call for. */
  ghost predicate Sturdy(l: Ledger, cfg: Config) {
    && Journal(l, cfg) && (forall b :: b in l.cases ==> CaseSturdy(l.cases[b], cfg))
    && multiset(l.slashes) <= multiset(SlashesOf(l.events))
  }

  /** One justified event keeps it, if the case it leaves has its quorum. */
  lemma EmitKeepsSturdy(l: Ledger, cfg: Config, ev: Event)
    requires Sturdy(l, cfg) && Justified(l.cases, ev, cfg) && (ev.ContainEv? || ev.being in l.cases)
    requires ev.being in Emit(l, ev).cases && CaseSturdy(Emit(l, ev).cases[ev.being], cfg)
    ensures Sturdy(Emit(l, ev), cfg)
  {
    hide Justified, Replay, SlashesOf, CaseSturdy;
    EmitKeepsJournal(l, cfg, ev);
    EmitOneMore(l, ev);
    var called, more := SlashesOf(l.events), SlashFor(Some(l.cases), ev);
    assert multiset(called + more) == multiset(called) + multiset(more);
  }

  lemma RecordKeepsSturdy(l: Ledger, cfg: Config, ev: Event)
    requires Sturdy(l, cfg) && ev.being in l.cases && (ev.VerifyEv? || ev.ResolveEv? || ev.ChallengeEv?)
    ensures Sturdy(Emit(l, ev), cfg) && ev.being in Emit(l, ev).cases
  {
    hide Journal, SlashesOf;
    assert CaseSturdy(l.cases[ev.being], cfg);
    if ev.VerifyEv? && ev.supported && ev.qualified {
      MoreSupporters(l.cases[ev.being].supporters, ev.verifier);
    }
    EmitKeepsSturdy(l, cfg, ev);
  }

  lemma SettleKeepsSturdy(l: Ledger, cfg: Config, b: Being, t: int)
    requires Sturdy(l, cfg) && b in l.cases
    ensures Sturdy(Settle(l, cfg, b, t).0, cfg) && Sturdy(SettleRaising(l, cfg, b, t), cfg)
  {
    hide Journal, SlashesOf, AnyFalse, Standing;
    var c := l.cases[b];
    if c.state == Contained || c.state == Corroborated {
      if AnyFalse(c) {
        ReleaseKeepsSturdy(l, cfg, b, t);
      } else if |c.supporters| >= cfg.quorum && !Standing(c) && c.state != Corroborated {
        EmitKeepsSturdy(l, cfg, CorroborateEv(t, b));
      }
    }
  }

  lemma ReleaseKeepsSturdy(l: Ledger, cfg: Config, b: Being, t: int)
    requires Sturdy(l, cfg) && b in l.cases && AnyFalse(l.cases[b])
    requires l.cases[b].state == Contained || l.cases[b].state == Corroborated
    ensures Sturdy(Emit(l, ReleaseEv(t, b, Some(l.cases[b].initiator))), cfg)
    ensures Sturdy(ReleaseFalse(l, cfg, b, t), cfg)
  {
    hide Replay, SlashesOf, AnyFalse;
    var ev := ReleaseEv(t, b, Some(l.cases[b].initiator));
    EmitKeepsSturdy(l, cfg, ev);
    EmitOneMore(l, ev);
    var called, slash := SlashesOf(l.events), Slash(l.cases[b].initiator, b, l.cases[b].lowTrust);
    assert multiset(called + [slash]) == multiset(called) + multiset{slash};
    assert multiset(l.slashes + [slash]) == multiset(l.slashes) + multiset{slash};
  }

  lemma PlainCallKeepsSturdy(l: Ledger, cfg: Config, call: Call)
    requires Sturdy(l, cfg) && !call.Verify? && !call.ResolveChallenge?
    ensures Sturdy(Perform(l, cfg, call).0, cfg)
  {
    hide Journal, SlashesOf, AnyFalse, Standing;
    var after := Perform(l, cfg, call).0;
    if after != l {
      var b := call.being;
      if b in l.cases {
        assert CaseSturdy(l.cases[b], cfg);
      }
      var ev := match call
        case Contain(t, _, initiator, evidence, topic, qualified) =>
          ContainEv(t, b, initiator, evidence, topic, qualified)
        case Challenge(t, _, cid, challenger) => ChallengeEv(t, b, cid, challenger)
        case ExpireProvisional(t, _) => ReleaseEv(t, b, None)
        case Rehabilitate(t, _, guardian) => RehabilitateEv(t, b, guardian)
        case ProposeErasure(t, _, proposer) => ProposeEv(t, b, proposer);
      assert after == Emit(l, ev);
      EmitKeepsSturdy(l, cfg, ev);
    }
  }

  lemma CallKeepsSturdy(l: Ledger, cfg: Config, call: Call, f: Fault)
    requires Sturdy(l, cfg)
    ensures Sturdy(PerformFaulty(l, cfg, call, f), cfg)
  {
    hide Sturdy, Settle, SettleRaising, Emit;
    if !call.Verify? && !call.ResolveChallenge? {
      PlainCallKeepsSturdy(l, cfg, call);
    } else if HasCase(l, call.being) {
      var ev := FirstEvent(call);
      RecordKeepsSturdy(l, cfg, ev);
      SettleKeepsSturdy(Emit(l, ev), cfg, call.being, call.t);
    }
  }

  /** A call and where it raises. */
  datatype Attempt = Attempt(call: Call, fault: Fault)

  function AfterAttempts(cfg: Config, attempts: seq<Attempt>): Ledger {
    if attempts == [] then EMPTY
    else
      var n := |attempts| - 1;
      PerformFaulty(AfterAttempts(cfg, attempts[..n]), cfg, attempts[n].call, attempts[n].fault)
  }

  /** MAIN: in one process, over every run of calls that raise anywhere, the log in memory replays to the live cases,
      every event was justified, corroborated and pending cases have their quorum, and every slash, with its
      multiplier, is one that an unsupported release calls for. */
  lemma {:induction false} AttemptsKeepSturdy(cfg: Config, attempts: seq<Attempt>)
    ensures Sturdy(AfterAttempts(cfg, attempts), cfg)
    decreases |attempts|
  {
    hide Sturdy, PerformFaulty;
    if attempts == [] {
      NothingIsSturdy(cfg);
    } else {
      var n := |attempts| - 1;
      AttemptsKeepSturdy(cfg, attempts[..n]);
      CallKeepsSturdy(AfterAttempts(cfg, attempts[..n]), cfg, attempts[n].call, attempts[n].fault);
    }
  }

  lemma NothingIsSturdy(cfg: Config)
    ensures Sturdy(EMPTY, cfg)
  {
  }

  // ----- What does not survive -----

  predicate IsOpen(l: Ledger, b: Being) {
    b in l.cases && (l.cases[b].state == Contained || l.cases[b].state == Corroborated)
  }

  /** The call records an unsupported finding on an open case and raises before the release, or before its slash. */
  predicate Breaks(l: Ledger, cfg: Config, call: Call, f: Fault) {
    && call.Verify? && !call.supported && IsOpen(l, call.being)
    && (f == FirstRaises || (f == SettlementRaises && cfg.hasRegistry))
  }

  /** In the middle of a call the invariant fails exactly on an open case with a false finding. */
  lemma UnsettledExact(l: Ledger, cfg: Config, b: Being)
    requires Unsettled(l, cfg, b)
    ensures Invariant(l, cfg) <==> !(IsOpen(l, b) && AnyFalse(l.cases[b]))
  {
    hide Journal, Slashed, AnyFalse;
    if !(IsOpen(l, b) && AnyFalse(l.cases[b])) {
      assert CaseOk(l.cases[b], cfg);
    } else {
      assert !CaseOk(l.cases[b], cfg);
    }
  }

  lemma FirstRaiseExact(l: Ledger, cfg: Config, call: Call)
    requires Invariant(l, cfg) && (call.Verify? || call.ResolveChallenge?) && HasCase(l, call.being)
    ensures Invariant(Emit(l, FirstEvent(call)), cfg) <==> !(call.Verify? && !call.supported && IsOpen(l, call.being))
  {
    hide Unsettled, Emit, AnyFalse;
    RecordedCase(l, cfg, call);
    UnsettledExact(Emit(l, FirstEvent(call)), cfg, call.being);
  }

  lemma SettlementRaiseExact(l: Ledger, cfg: Config, b: Being, t: int)
    requires Unsettled(l, cfg, b)
    ensures Invariant(SettleRaising(l, cfg, b, t), cfg) <==> !(IsOpen(l, b) && AnyFalse(l.cases[b]) && cfg.hasRegistry)
  {
    hide Replay, SlashesOf, Standing, AnyFalse;
    SettleRestores(l, cfg, b, t);
    if IsOpen(l, b) && AnyFalse(l.cases[b]) {
      var ev := ReleaseEv(t, b, Some(l.cases[b].initiator));
      EmitKeepsJournal(l, cfg, ev);
      EmitOneMore(l, ev);
    }
  }

  /** MAIN: a call that raises keeps the whole invariant exactly when it does not record an unsupported finding on an
      open case: such a finding stays held if the first event raises, and its initiator goes unslashed if the release
      does and there is a registry. */
  lemma RaiseKeepsInvariantIff(l: Ledger, cfg: Config, call: Call, f: Fault)
    requires Invariant(l, cfg)
    ensures Invariant(PerformFaulty(l, cfg, call, f), cfg) <==> !Breaks(l, cfg, call, f)
  {
    hide Invariant, SettleRaising, Emit, Perform, Unsettled;
    if f == NoFault || (!call.Verify? && !call.ResolveChallenge?) {
      CallKeepsInvariant(l, cfg, call);
    } else if HasCase(l, call.being) {
      var ev := FirstEvent(call);
      RecordedCase(l, cfg, call);
      if f == FirstRaises {
        FirstRaiseExact(l, cfg, call);
      } else {
        SettlementRaiseExact(Emit(l, ev), cfg, call.being, call.t);
      }
    } else {
      NoCaseIsOpen(l, cfg, call.being);
    }
  }

  lemma NoCaseIsOpen(l: Ledger, cfg: Config, b: Being)
    requires !HasCase(l, b)
    ensures !IsOpen(l, b)
  {
  }

  lemma RecordedCase(l: Ledger, cfg: Config, call: Call)
    requires Invariant(l, cfg) && (call.Verify? || call.ResolveChallenge?) && HasCase(l, call.being)
    ensures var noted := Emit(l, FirstEvent(call));
            && Unsettled(noted, cfg, call.being) && call.being in noted.cases
            && (IsOpen(noted, call.being) <==> IsOpen(l, call.being))
            && (IsOpen(l, call.being) ==> (AnyFalse(noted.cases[call.being]) <==> call.Verify? && !call.supported))
  {
    hide Journal, Slashed, Standing;
    var b, ev := call.being, FirstEvent(call);
    RecordLeavesUnsettled(l, cfg, ev);
    var before, after := l.cases[b], Emit(l, ev).cases[b];
    assert CaseOk(before, cfg);
    if call.Verify? && !call.supported {
      assert !after.verifications[call.verifier] && AnyFalse(after);
    }
  }

  // ----- What repairs it -----

  lemma RecordKeepsUnsettled(l: Ledger, cfg: Config, ev: Event)
    requires Unsettled(l, cfg, ev.being) && (ev.VerifyEv? || ev.ResolveEv?)
    ensures Unsettled(Emit(l, ev), cfg, ev.being)
  {
    hide Replay, SlashesOf, Slashed;
    EmitKeepsJournal(l, cfg, ev);
    PlainEventKeepsSlashed(l, cfg, ev);
    if ev.VerifyEv? && ev.supported && ev.qualified {
      MoreSupporters(l.cases[ev.being].supporters, ev.verifier);
    }
  }

  /** MAIN: a finding left unsettled is settled by the next verification or resolution of that case that does not raise,
      whatever it finds, and by rehabilitation. */
  lemma NextSettlementRepairs(l: Ledger, cfg: Config, call: Call)
    requires Unsettled(l, cfg, call.being)
    requires call.Verify? || call.ResolveChallenge? || (call.Rehabilitate? && Held(l.cases[call.being].state))
    ensures Invariant(Perform(l, cfg, call).0, cfg)
  {
    hide Replay, SlashesOf, Slashed, AnyFalse, Standing;
    var b := call.being;
    if call.Rehabilitate? {
      var ev := RehabilitateEv(call.t, b, call.guardian);
      EmitKeepsJournal(l, cfg, ev);
      PlainEventKeepsSlashed(l, cfg, ev);
      NoFindingsNoFalse(Emit(l, ev).cases[b]);
    } else {
      hide Settle;
      var ev := FirstEvent(call);
      RecordKeepsUnsettled(l, cfg, ev);
      SettleRestores(Emit(l, ev), cfg, b, call.t);
    }
  }

  /** Calls on other beings leave the case as it is. */
  lemma OtherCallsLeaveIt(l: Ledger, cfg: Config, call: Call, f: Fault, b: Being)
    requires b in l.cases && call.being != b
    ensures var after := PerformFaulty(l, cfg, call, f); b in after.cases && after.cases[b] == l.cases[b]
  {
    hide AnyFalse, Standing, Settle, SettleRaising;
    if (call.Verify? || call.ResolveChallenge?) && HasCase(l, call.being) {
      SettleLeavesOthers(Emit(l, FirstEvent(call)), cfg, call.being, call.t, b);
    }
  }

  lemma SettleLeavesOthers(l: Ledger, cfg: Config, b: Being, t: int, other: Being)
    requires b in l.cases && other in l.cases && other != b
    ensures var after := Settle(l, cfg, b, t).0; other in after.cases && after.cases[other] == l.cases[other]
    ensures var after := SettleRaising(l, cfg, b, t); other in after.cases && after.cases[other] == l.cases[other]
  {
    hide AnyFalse, Standing;
  }

  /** The slashes the journal calls for and the registry never saw. */
  function Missed(l: Ledger): int {
    |SlashesOf(l.events)| - |l.slashes|
  }

  lemma EmitMisses(l: Ledger, cfg: Config, ev: Event)
    requires Journal(l, cfg) && (ev.ContainEv? || ev.being in l.cases)
    ensures Missed(Emit(l, ev)) ==
            Missed(l) + if ev.ReleaseEv? && ev.slashTarget.Some? && ev.being in l.cases then 1 else 0
  {
    hide Replay, SlashesOf, Apply;
    EmitOneMore(l, ev);
  }

  lemma SettleMisses(l: Ledger, cfg: Config, b: Being, t: int)
    requires Journal(l, cfg) && b in l.cases && cfg.hasRegistry
    ensures Missed(Settle(l, cfg, b, t).0) == Missed(l)
  {
    hide Journal, SlashesOf, Apply, AnyFalse, Standing;
    var c := l.cases[b];
    EmitMisses(l, cfg, ReleaseEv(t, b, Some(c.initiator)));
    EmitMisses(l, cfg, CorroborateEv(t, b));
  }

  lemma CallMissesNothing(l: Ledger, cfg: Config, call: Call)
    requires Sturdy(l, cfg) && cfg.hasRegistry
    ensures Missed(Perform(l, cfg, call).0) == Missed(l)
  {
    var b := call.being;
    hide Missed, Journal, SlashesOf, Settle, AnyFalse, Standing;
    match call
    case Contain(t, _, initiator, evidence, topic, qualified) =>
      EmitMisses(l, cfg, ContainEv(t, b, initiator, evidence, topic, qualified));
    case Verify(_, _, _, _, _) => NotedCallMissesNothing(l, cfg, call);
    case ResolveChallenge(_, _, _, _) => NotedCallMissesNothing(l, cfg, call);
    case Challenge(t, _, cid, challenger) =>
      if HasCase(l, b) { EmitMisses(l, cfg, ChallengeEv(t, b, cid, challenger)); }
    case ExpireProvisional(t, _) =>
      if HasCase(l, b) { EmitMisses(l, cfg, ReleaseEv(t, b, None)); }
    case Rehabilitate(t, _, guardian) =>
      if HasCase(l, b) { EmitMisses(l, cfg, RehabilitateEv(t, b, guardian)); }
    case ProposeErasure(t, _, proposer) =>
      if HasCase(l, b) { EmitMisses(l, cfg, ProposeEv(t, b, proposer)); }
  }

  lemma NotedCallMissesNothing(l: Ledger, cfg: Config, call: Call)
    requires Sturdy(l, cfg) && cfg.hasRegistry && (call.Verify? || call.ResolveChallenge?)
    ensures Missed(Perform(l, cfg, call).0) == Missed(l)
  {
    hide Missed, SlashesOf, Settle, Replay;
    if HasCase(l, call.being) {
      var ev := FirstEvent(call);
      EmitMisses(l, cfg, ev);
      RecordKeepsSturdy(l, cfg, ev);
      SettleMisses(Emit(l, ev), cfg, call.being, call.t);
    }
  }

  function PerformAll(l: Ledger, cfg: Config, calls: seq<Call>): Ledger {
    if calls == [] then l else Perform(PerformAll(l, cfg, calls[..|calls| - 1]), cfg, calls[|calls| - 1]).0
  }

  /** MAIN: a missed slash is never made good: whatever calls follow, the number missed stays the same. */
  lemma {:induction false} MissedSlashStays(l: Ledger, cfg: Config, calls: seq<Call>)
    requires Sturdy(l, cfg) && cfg.hasRegistry
    ensures Sturdy(PerformAll(l, cfg, calls), cfg) && Missed(PerformAll(l, cfg, calls)) == Missed(l)
    decreases |calls|
  {
    hide Sturdy, Missed, Perform;
    if calls != [] {
      var n := |calls| - 1;
      MissedSlashStays(l, cfg, calls[..n]);
      CallKeepsSturdy(PerformAll(l, cfg, calls[..n]), cfg, calls[n], NoFault);
      CallMissesNothing(PerformAll(l, cfg, calls[..n]), cfg, calls[n]);
    }
  }

  // ----- A run -----

  /** Contained, corroborated by one qualified node, then found unsupported by a call that raises: the case is
      corroborated with a false finding, and its erasure can be proposed. */
  lemma FalseFindingProposedExample(deadline: int, hasRegistry: bool)
    ensures var cfg := Config(1, deadline, hasRegistry);
            var l := AfterAttempts(cfg, [Attempt(Contain(0, 0, 0, 0, 0, true), NoFault),
                                         Attempt(Verify(1, 0, 1, true, true), NoFault),
                                         Attempt(Verify(2, 0, 2, false, true), FirstRaises)]);
            && 0 in l.cases && l.cases[0].state == Corroborated && AnyFalse(l.cases[0])
            && Perform(l, cfg, ProposeErasure(3, 0, 4)).1 == Done(PendingGuardian)
  {
    var cfg := Config(1, deadline, hasRegistry);
    var a := Attempt(Contain(0, 0, 0, 0, 0, true), NoFault);
    var b := Attempt(Verify(1, 0, 1, true, true), NoFault);
    var c := Attempt(Verify(2, 0, 2, false, true), FirstRaises);
    var all := [a, b, c];
    assert all[..2] == [a, b] && all[..2][..1] == [a] && [a][..0] == [];
    hide AnyFalse;
    var one := Perform(EMPTY, cfg, a.call).0;
    var two := Perform(one, cfg, b.call).0;
    assert AfterAttempts(cfg, [a]) == one && AfterAttempts(cfg, all[..2]) == two;
    FirstFinding(one, cfg);
    FindingLeftOpen(two, cfg);
  }

  lemma FindingLeftOpen(two: Ledger, cfg: Config)
    requires 0 in two.cases && two.cases[0] == Case(Corroborated, 0, 0, 0, false, 0, map[], map[1 := true], {1})
    ensures var l := PerformFaulty(two, cfg, Verify(2, 0, 2, false, true), FirstRaises);
            && 0 in l.cases && l.cases[0].state == Corroborated && AnyFalse(l.cases[0])
            && Perform(l, cfg, ProposeErasure(3, 0, 4)).1 == Done(PendingGuardian)
  {
    var l := Emit(two, VerifyEv(2, 0, 2, false, true));
    assert !l.cases[0].verifications[2] && !Standing(l.cases[0]);
  }

  // ----- Restarting from what was written -----

  /** An event of a being comes after the one that opened its case. */
  predicate Opened(events: seq<Event>, k: nat)
    requires k < |events|
  {
    events[k].ContainEv? || exists j :: 0 <= j < k && events[j].ContainEv? && events[j].being == events[k].being
  }

  lemma {:induction false} ReplayHasOpened(events: seq<Event>, b: Being)
    requires Replay(events).Some?
    ensures b in Replay(events).value <==> exists j :: 0 <= j < |events| && events[j].ContainEv? && events[j].being == b
    decreases |events|
  {
    if events != [] {
      var n := |events| - 1;
      ReplayHasOpened(events[..n], b);
      assert forall j :: 0 <= j < n ==> events[..n][j] == events[j];
    }
  }

  /** MAIN: the boot replays a journal exactly when every event in it comes after the one that opened its case. */
  lemma {:induction false} BootsIffOpened(events: seq<Event>)
    ensures Replay(events).Some? <==> forall k :: 0 <= k < |events| ==> Opened(events, k)
    decreases |events|
  {
    if events != [] {
      var n := |events| - 1;
      var init := events[..n];
      BootsIffOpened(init);
      assert forall k :: 0 <= k < n ==> init[k] == events[k];
      assert forall k :: 0 <= k < n ==> (Opened(init, k) <==> Opened(events, k));
      LastOpened(events);
      if Replay(init).Some? {
        hide Opened;
        ReplayHasOpened(init, events[n].being);
        assert Replay(events).Some? <==> Opened(events, n);
      }
    }
  }

  lemma LastOpened(events: seq<Event>)
    requires events != []
    ensures var n := |events| - 1;
            var init, last := events[..n], events[n];
            Opened(events, n) <==>
            last.ContainEv? || exists j :: 0 <= j < |init| && init[j].ContainEv? && init[j].being == last.being
  {
    var n := |events| - 1;
    assert forall j :: 0 <= j < n ==> events[..n][j] == events[j];
  }

  /** The journal write of the first event fails and that of the second does not: the process cannot boot again. */
  lemma LostOpeningExample(t: int, b: Being, v: Node)
    ensures Replay([VerifyEv(t, b, v, true, true)]).None?
  {
    var events := [VerifyEv(t, b, v, true, true)];
    assert !Opened(events, 0);
    BootsIffOpened(events);
  }

  /** The journal write of the supporting finding fails and that of the corroboration does not: after the next boot the
      case is corroborated by nobody. */
  lemma LostSupportExample(t: int, b: Being, initiator: Node, evidence: nat, topic: nat)
    ensures var journal := [ContainEv(t, b, initiator, evidence, topic, true), CorroborateEv(t, b)];
            && Replay(journal).Some? && b in Replay(journal).value
            && Replay(journal).value[b].state == Corroborated && Replay(journal).value[b].supporters == {}
  {
    var opening := ContainEv(t, b, initiator, evidence, topic, true);
    var journal := [opening, CorroborateEv(t, b)];
    assert journal[..1] == [opening] && [opening][..0] == [];
    assert Replay([opening]).Some? && b in Replay([opening]).value;
  }
}
