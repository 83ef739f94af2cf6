/** core/containment.py:471-523: what the audit of a journal against its chain accepts, over every run in which
    journal writes and witness appends may fail and the process may restart. */
module ContainmentAudit {
  import opened Containment

  /** The clear-text digest of a CONTAINMENT record: the event's hash and the hash of the log
      up to and including it, both as free constructors. */
  datatype Binding = Binding(event: Event, log: seq<Event>)

  /** A chain record, reduced to whether it is of kind CONTAINMENT and what it binds. */
  datatype ChainRecord = ContainmentRecord(binding: Binding) | OtherRecord

  function BindingsIn(records: seq<ChainRecord>): seq<Binding> {
    if records == [] then []
    else
      var last := records[|records| - 1];
      BindingsIn(records[..|records| - 1]) + if last.ContainmentRecord? then [last.binding] else []
  }

  function BindingsOf(events: seq<Event>): (bs: seq<Binding>)
    ensures |bs| == |events| && forall i :: 0 <= i < |events| ==> bs[i] == Binding(events[i], events[..i + 1])
  {
    seq(|events|, i requires 0 <= i < |events| => Binding(events[i], events[..i + 1]))
  }

  /** The witness chain beside a journal: one CONTAINMENT record per event, others in between. */
  method VerifyJournalAgainstChain(events: seq<Event>, records: seq<ChainRecord>) returns (ok: bool)
    ensures ok <==> BindingsIn(records) == BindingsOf(events)
  {
    var recs := BindingsIn(records);
    if |recs| != |events| {
      return false;
    }
    var log := [];
    for i := 0 to |events|
      invariant log == events[..i] && forall j :: 0 <= j < i ==> recs[j] == BindingsOf(events)[j]
    {
      log := log + [events[i]];
      assert log == events[..i + 1];
      if recs[i] != Binding(events[i], log) {
        assert recs[i] != BindingsOf(events)[i];
        return false;
      }
    }
    ok := true;
  }

  /** MAIN: a chain accepts one journal only: tampering, loss or reordering is always caught. */
  lemma AuditPinsJournal(a: seq<Event>, b: seq<Event>, records: seq<ChainRecord>)
    requires BindingsIn(records) == BindingsOf(a) && BindingsIn(records) == BindingsOf(b)
    ensures a == b
  {
    assert forall i :: 0 <= i < |a| ==> BindingsOf(a)[i].event == a[i] && BindingsOf(b)[i].event == b[i];
  }

  // ----- Three logs -----

  /** What one event does to the log in memory, the journal and the chain, in the order `_emit` writes them: all three;
      or the journal write raises and only memory has it; or the witness append raises, or the process stops before
      it, and the chain lacks it.  The process may restart from its journal, and other records are chained. */
  datatype ChainStep = Emitted(ev: Event) | Lost(ev: Event) | Unwitnessed(ev: Event) | Restarted | Foreign

  function JournalAfter(steps: seq<ChainStep>): seq<Event> {
    if steps == [] then []
    else
      var s := steps[|steps| - 1];
      JournalAfter(steps[..|steps| - 1]) + if s.Emitted? || s.Unwitnessed? then [s.ev] else []
  }

  function MemoryAfter(steps: seq<ChainStep>): seq<Event> {
    if steps == [] then []
    else
      var init, s := steps[..|steps| - 1], steps[|steps| - 1];
      if s.Restarted? then JournalAfter(init)
      else MemoryAfter(init) + if s.Emitted? || s.Lost? || s.Unwitnessed? then [s.ev] else []
  }

  /** The events that reached the chain. */
  function WitnessedAfter(steps: seq<ChainStep>): seq<Event> {
    if steps == [] then []
    else
      var s := steps[|steps| - 1];
      WitnessedAfter(steps[..|steps| - 1]) + if s.Emitted? then [s.ev] else []
  }

  /** The record of an event binds the log in memory. */
  function ChainAfter(steps: seq<ChainStep>): seq<ChainRecord> {
    if steps == [] then []
    else
      var s := steps[|steps| - 1];
      ChainAfter(steps[..|steps| - 1])
      + [if s.Emitted? then ContainmentRecord(Binding(s.ev, MemoryAfter(steps))) else OtherRecord]
  }

  /** A journal write has failed since the process started. */
  predicate Dirty(steps: seq<ChainStep>) {
    steps != [] &&
    var s := steps[|steps| - 1];
    !s.Restarted? && (s.Lost? || Dirty(steps[..|steps| - 1]))
  }

  /** Some event is in the journal and not on the chain. */
  predicate Gapped(steps: seq<ChainStep>) {
    steps != [] && (steps[|steps| - 1].Unwitnessed? || Gapped(steps[..|steps| - 1]))
  }

  /** No event reached the chain after a journal write had failed in its process or any event had missed the chain. */
  predicate InStep(steps: seq<ChainStep>) {
    steps != [] ==>
      var init := steps[..|steps| - 1];
      InStep(init) && (steps[|steps| - 1].Emitted? ==> !Dirty(init) && !Gapped(init))
  }

  /** The three logs by length, which tells when they are equal. */
  lemma {:induction false} LogsByLength(steps: seq<ChainStep>)
    ensures |MemoryAfter(steps)| >= |JournalAfter(steps)| >= |WitnessedAfter(steps)|
    ensures if Dirty(steps) then |MemoryAfter(steps)| > |JournalAfter(steps)|
            else MemoryAfter(steps) == JournalAfter(steps)
    ensures if Gapped(steps) then |JournalAfter(steps)| > |WitnessedAfter(steps)|
            else JournalAfter(steps) == WitnessedAfter(steps)
    decreases |steps|
  {
    if steps != [] {
      LogsByLength(steps[..|steps| - 1]);
    }
  }

  lemma MemoryIsWitnessedIff(steps: seq<ChainStep>)
    ensures MemoryAfter(steps) == WitnessedAfter(steps) <==> !Dirty(steps) && !Gapped(steps)
  {
    LogsByLength(steps);
  }

  // ----- What the audit accepts -----

  lemma ChainOneMore(steps: seq<ChainStep>)
    requires steps != []
    ensures var init, s := steps[..|steps| - 1], steps[|steps| - 1];
            BindingsIn(ChainAfter(steps)) ==
            BindingsIn(ChainAfter(init)) + if s.Emitted? then [Binding(s.ev, MemoryAfter(init) + [s.ev])] else []
  {
    var init, s := steps[..|steps| - 1], steps[|steps| - 1];
    var chain := ChainAfter(init);
    var r := if s.Emitted? then ContainmentRecord(Binding(s.ev, MemoryAfter(init) + [s.ev])) else OtherRecord;
    assert ChainAfter(steps) == chain + [r] && (chain + [r])[..|chain|] == chain;
  }

  /** One more binding is that of the witnessed events exactly when memory held just those before it. */
  lemma OneBindingMore(bs: seq<Binding>, memory: seq<Event>, seen: seq<Event>, ev: Event)
    requires |bs| == |seen|
    ensures bs + [Binding(ev, memory + [ev])] == BindingsOf(seen + [ev]) <==> bs == BindingsOf(seen) && memory == seen
  {
    BindingsOneMore(seen, ev);
    hide BindingsOf;
    var left, right := bs + [Binding(ev, memory + [ev])], BindingsOf(seen) + [Binding(ev, seen + [ev])];
    if left == right {
      assert left[..|bs|] == bs && right[..|bs|] == BindingsOf(seen);
      assert left[|bs|] == right[|bs|];
      assert (memory + [ev])[..|memory|] == memory && (seen + [ev])[..|seen|] == seen;
    }
  }

  ghost predicate BoundInStep(steps: seq<ChainStep>) {
    var bs, seen := BindingsIn(ChainAfter(steps)), WitnessedAfter(steps);
    && |bs| == |seen| && (forall k :: 0 <= k < |bs| ==> bs[k].event == seen[k])
    && (bs == BindingsOf(seen) <==> InStep(steps))
  }

  lemma EmittedStaysBound(steps: seq<ChainStep>)
    requires steps != [] && steps[|steps| - 1].Emitted? && BoundInStep(steps[..|steps| - 1])
    ensures BoundInStep(steps)
  {
    var init, ev := steps[..|steps| - 1], steps[|steps| - 1].ev;
    ChainOneMore(steps);
    MemoryIsWitnessedIff(init);
    hide BindingsIn, ChainAfter, MemoryAfter, Dirty, Gapped, BindingsOf;
    OneBindingMore(BindingsIn(ChainAfter(init)), MemoryAfter(init), WitnessedAfter(init), ev);
  }

  lemma OtherStaysBound(steps: seq<ChainStep>)
    requires steps != [] && !steps[|steps| - 1].Emitted? && BoundInStep(steps[..|steps| - 1])
    ensures BoundInStep(steps)
  {
    var init := steps[..|steps| - 1];
    OtherStep(steps);
    hide BindingsIn, ChainAfter, WitnessedAfter, InStep, BindingsOf;
  }

  lemma OtherStep(steps: seq<ChainStep>)
    requires steps != [] && !steps[|steps| - 1].Emitted?
    ensures var init := steps[..|steps| - 1];
            && BindingsIn(ChainAfter(steps)) == BindingsIn(ChainAfter(init))
            && WitnessedAfter(steps) == WitnessedAfter(init) && (InStep(steps) <==> InStep(init))
  {
    ChainOneMore(steps);
    hide BindingsIn, ChainAfter, MemoryAfter;
  }

  lemma {:induction false} ChainBindsWitnessed(steps: seq<ChainStep>)
    ensures BoundInStep(steps)
    decreases |steps|
  {
    if steps == [] {
      assert BindingsOf(WitnessedAfter(steps)) == [];
    } else {
      hide BoundInStep;
      ChainBindsWitnessed(steps[..|steps| - 1]);
      if steps[|steps| - 1].Emitted? {
        EmittedStaysBound(steps);
      } else {
        OtherStaysBound(steps);
      }
    }
  }

  /** MAIN: against the chain of any run the audit accepts at most one journal: the events that reached the chain, and
      those exactly when the run stayed in step. */
  lemma AuditAcceptsExactly(steps: seq<ChainStep>, journal: seq<Event>)
    ensures BindingsIn(ChainAfter(steps)) == BindingsOf(journal) <==> InStep(steps) && journal == WitnessedAfter(steps)
  {
    hide InStep, ChainAfter, BindingsIn, WitnessedAfter;
    ChainBindsWitnessed(steps);
    if BindingsIn(ChainAfter(steps)) == BindingsOf(journal) {
      var bs := BindingsIn(ChainAfter(steps));
      assert forall k :: 0 <= k < |journal| ==> bs[k].event == journal[k];
      assert forall k :: 0 <= k < |journal| ==> bs[k].event == WitnessedAfter(steps)[k];
      assert journal == WitnessedAfter(steps);
    }
  }

  /** No event reached the chain after a journal write had failed in its process. */
  predicate Clean(steps: seq<ChainStep>) {
    steps != [] ==>
      Clean(steps[..|steps| - 1]) && (steps[|steps| - 1].Emitted? ==> !Dirty(steps[..|steps| - 1]))
  }

  lemma {:induction false} WithoutGapsInStepIsClean(steps: seq<ChainStep>)
    requires !Gapped(steps)
    ensures InStep(steps) <==> Clean(steps)
    decreases |steps|
  {
    if steps != [] {
      WithoutGapsInStepIsClean(steps[..|steps| - 1]);
    }
  }

  /** MAIN: the journal on disk passes exactly when no event of it missed the chain and none was emitted after a failed
      journal write without a restart between. */
  lemma JournalPassesIff(steps: seq<ChainStep>)
    ensures BindingsIn(ChainAfter(steps)) == BindingsOf(JournalAfter(steps)) <==> !Gapped(steps) && Clean(steps)
  {
    AuditAcceptsExactly(steps, JournalAfter(steps));
    LogsByLength(steps);
    if !Gapped(steps) {
      WithoutGapsInStepIsClean(steps);
    }
  }

  /** An event whose journal write fails, and one more: the audit of the journal that is left fails. */
  lemma LostEventExample(first: Event, second: Event)
    ensures BindingsIn(ChainAfter([Lost(first), Emitted(second)])) != BindingsOf([second])
  {
    var steps := [Lost(first), Emitted(second)];
    assert steps[..1] == [Lost(first)];
    assert Dirty(steps[..1]);
    AuditAcceptsExactly(steps, [second]);
  }

  /** An event whose witness append raises: the journal that holds it fails, and the empty journal passes. */
  lemma UnwitnessedEventExample(ev: Event)
    ensures JournalAfter([Unwitnessed(ev)]) == [ev]
    ensures BindingsIn(ChainAfter([Unwitnessed(ev)])) != BindingsOf([ev])
    ensures BindingsIn(ChainAfter([Unwitnessed(ev)])) == BindingsOf([])
  {
    var steps := [Unwitnessed(ev)];
    assert steps[..0] == [];
    AuditAcceptsExactly(steps, [ev]);
    AuditAcceptsExactly(steps, []);
  }

  lemma BindingsOneMore(events: seq<Event>, ev: Event)
    ensures BindingsOf(events + [ev]) == BindingsOf(events) + [Binding(ev, events + [ev])]
  {
    var all := events + [ev];
    assert all[..|all|] == all;
    forall i | 0 <= i < |events|
      ensures BindingsOf(all)[i] == BindingsOf(events)[i]
    {
      assert all[..i + 1] == events[..i + 1];
    }
  }
}
