/** core/anchoring.py: the external-anchor scheduler, its per-backend ratchets and its restart. */
module Anchoring {
  import opened Wrappers
  import opened Witness
  import opened Ranges

  type Name = nat

  datatype Kind = AnchorQuorum | AnchorExternal | PeerRoot | Substantive(kind: nat)

  predicate Bookkeeping(k: Kind) {
    !k.Substantive?
  }

  datatype Status =
    | Recorded | Confirmed | PendingAttestation | PendingConfirmation | Pending | Failed
    | Unknown(code: nat)

  predicate Terminal(s: Status) {
    s.Recorded? || s.Confirmed?
  }

  predicate InCustody(s: Status) {
    s.PendingAttestation? || s.PendingConfirmation?
  }

  datatype Receipt = Receipt(node: NodeId, backend: Name, count: nat, status: Status, ts: int)

  /** A backend answers a submission with a receipt, or raises. */
  datatype Answer = Reply(status: Status, ts: int) | Raise

  datatype Config = Config(node: NodeId, backends: seq<Name>, required: seq<Name>, backoff: nat)

  predicate ValidConfig(c: Config) {
    c.backends != [] && forall n :: n in c.required ==> n in c.backends
  }

  /** One backend's four marks. */
  datatype Marks = Marks(covered: nat, custody: nat, attempted: nat, success: Option<int>)

  const FRESH_MARKS := Marks(0, 0, 0, None)

  /** The four dictionaries; a backend without an entry stands at its initial zeroes. */
  type Ratchets = map<Name, Marks>

  function At(r: Ratchets, n: Name): Marks {
    if n in r then r[n] else FRESH_MARKS
  }

  datatype State = State(kinds: seq<Kind>, ratchets: Ratchets, receipts: seq<Receipt>, nextRetry: int)

  // ----- One receipt -----

  /** What a receipt does to its backend's marks: every receipt counts as attempted, custody
      and coverage only by its status. */
  function Mark(m: Marks, count: nat, s: Status, ts: int): Marks {
    var tried := m.(attempted := Max(m.attempted, count));
    if Terminal(s) then tried.(covered := Max(m.covered, count), custody := Max(m.custody, count), success := Some(ts))
    else if InCustody(s) then tried.(custody := Max(m.custody, count))
    else tried
  }

  function Ratchet(r: Ratchets, n: Name, count: nat, s: Status, ts: int): Ratchets {
    r[n := Mark(At(r, n), count, s, ts)]
  }

  /** A receipt moves its own backend's marks up and leaves the others alone. */
  lemma RatchetMovesUp(r: Ratchets, n: Name, count: nat, s: Status, ts: int, m: Name)
    ensures var x, y := At(r, m), At(Ratchet(r, n, count, s, ts), m);
            && x.covered <= y.covered && x.custody <= y.custody && x.attempted <= y.attempted
            && (m == n ==> y.attempted >= count && (Terminal(s) ==> y.covered >= count))
            && (x.covered <= x.custody <= x.attempted ==> y.covered <= y.custody <= y.attempted)
            && y.attempted <= Max(x.attempted, count)
  {
  }

  /** The rebuild from the receipt log: foreign nodes and unknown backends are skipped. */
  function Rebuilt(c: Config, log: seq<Receipt>): Ratchets {
    if log == [] then map[]
    else
      var before := Rebuilt(c, log[..|log| - 1]);
      var x := log[|log| - 1];
      if x.node != c.node || x.backend !in c.backends then before
      else Ratchet(before, x.backend, x.count, x.status, x.ts)
  }

  // ----- News -----

  /** Something other than bookkeeping at or after `from`. */
  predicate News(kinds: seq<Kind>, from: nat) {
    exists i :: from <= i < |kinds| && !Bookkeeping(kinds[i])
  }

  function Have(m: Marks): nat {
    Max(m.covered, m.custody)
  }

  /** Required backends with substantive records they neither cover nor hold in custody. */
  function Behind(s: State, c: Config): set<Name> {
    set n | n in c.required && News(s.kinds, Have(At(s.ratchets, n)))
  }

  /** The highest attempted mark. */
  function Highest(r: Ratchets, names: seq<Name>): nat {
    if names == [] then 0 else Max(At(r, names[0]).attempted, Highest(r, names[1..]))
  }

  lemma {:induction false} HighestBounds(r: Ratchets, names: seq<Name>, n: Name)
    requires n in names
    ensures At(r, n).attempted <= Highest(r, names)
    decreases |names|
  {
    if names[0] != n {
      HighestBounds(r, names[1..], n);
    }
  }

  lemma {:induction false} HighestAtMost(r: Ratchets, names: seq<Name>, bound: nat)
    requires forall m :: m in names ==> At(r, m).attempted <= bound
    ensures Highest(r, names) <= bound
    decreases |names|
  {
    if names != [] {
      HighestAtMost(r, names[1..], bound);
    }
  }

  // ----- A round -----

  /** The submission loop: the state after the first n targets, and whether a backend raised
      or reached a terminal status. */
  datatype Progress = Progress(state: State, raised: bool, progressed: bool)

  function OneSubmission(p: Progress, c: Config, t: Name, a: Answer): (q: Progress)
    ensures q.state.kinds == p.state.kinds && q.state.nextRetry == p.state.nextRetry
    ensures p.raised ==> q == p
  {
    if p.raised then p
    else
      match a
      case Raise => p.(raised := true)
      case Reply(status, ts) =>
        var count := |p.state.kinds|;
        Progress(p.state.(ratchets := Ratchet(p.state.ratchets, t, count, status, ts),
                          receipts := p.state.receipts + [Receipt(c.node, t, count, status, ts)]),
                 false, p.progressed || Terminal(status))
  }

  function Submitted(s: State, c: Config, targets: seq<Name>, answers: nat -> Answer, n: nat): (p: Progress)
    requires n <= |targets|
    ensures p.state.kinds == s.kinds && p.state.nextRetry == s.nextRetry
  {
    if n == 0 then Progress(s, false, false)
    else OneSubmission(Submitted(s, c, targets, answers, n - 1), c, targets[n - 1], answers(n - 1))
  }

  function Targets(c: Config, behind: set<Name>, onlyBehind: bool): (ts: seq<Name>)
    ensures forall t :: t in ts ==> t in c.backends && (onlyBehind ==> t in behind)
    ensures !onlyBehind ==> ts == c.backends
  {
    if onlyBehind then Chosen(c.backends, behind) else c.backends
  }

  function Chosen(names: seq<Name>, wanted: set<Name>): (ts: seq<Name>)
    ensures forall t :: t in ts <==> t in names && t in wanted
  {
    if names == [] then []
    else if names[0] in wanted then [names[0]] + Chosen(names[1..], wanted)
    else Chosen(names[1..], wanted)
  }

  /** There is news beyond everything ever attempted. */
  predicate Substantial(s: State, c: Config) {
    News(s.kinds, Highest(s.ratchets, c.backends))
  }

  predicate Runs(s: State, c: Config, now: int)
    requires ValidConfig(c)
  {
    s.kinds != [] && (Substantial(s, c) || (Behind(s, c) != {} && now >= s.nextRetry))
  }

  /** One call of `anchor_now`. */
  function Round(s: State, c: Config, now: int, answers: nat -> Answer): (t: State)
    requires ValidConfig(c)
    ensures t.kinds == s.kinds || t.kinds == s.kinds + [AnchorExternal]
  {
    if !Runs(s, c, now) then s
    else
      var targets := Targets(c, Behind(s, c), !Substantial(s, c));
      var p := Submitted(s, c, targets, answers, |targets|);
      if p.raised then p.state
      else
        var waiting := p.state.(nextRetry := if Behind(p.state, c) != {} then now + c.backoff else 0);
        if !p.progressed && !Substantial(s, c) then waiting
        else waiting.(kinds := s.kinds + [AnchorExternal])
  }

  /** The round while others append: it works on its snapshot, and its own record comes last, unless its append raises,
      which it does after the marks have moved. */
  function RoundDuring(s: State, c: Config, now: int, answers: nat -> Answer, arrived: seq<Kind>,
                       appendOk: bool): (t: State)
    requires ValidConfig(c)
  {
    var r := Round(s, c, now, answers);
    r.(kinds := s.kinds + arrived + if appendOk then r.kinds[|s.kinds|..] else [])
  }

  /** What the round returns: the length of its snapshot and the backends still behind it. */
  datatype Report =
    | Skipped(count: nat, behind: set<Name>)
    | Retried(count: nat, behind: set<Name>)
    | Anchored(count: nat, behind: set<Name>)
    | RoundRaised

  function ReportOf(s: State, c: Config, now: int, answers: nat -> Answer, appendOk: bool): Report
    requires ValidConfig(c)
  {
    if !Runs(s, c, now) then Skipped(|s.kinds|, Behind(s, c))
    else
      var targets := Targets(c, Behind(s, c), !Substantial(s, c));
      var p := Submitted(s, c, targets, answers, |targets|);
      if p.raised then RoundRaised
      else if !p.progressed && !Substantial(s, c) then Retried(|s.kinds|, Behind(p.state, c))
      else if !appendOk then RoundRaised
      else Anchored(|s.kinds|, Behind(p.state, c))
  }

  class AnchorScheduler {
    const config: Config
    var state: State

    constructor (c: Config, kinds: seq<Kind>, log: seq<Receipt>)
      requires ValidConfig(c)
      ensures config == c && state == State(kinds, Rebuilt(c, log), log, 0)
    {
      config := c;
      var r: Ratchets := map[];
      for i := 0 to |log|
        invariant r == Rebuilt(c, log[..i])
      {
        assert log[..i + 1][..i] == log[..i];
        if log[i].node == c.node && log[i].backend in c.backends {
          r := Ratchet(r, log[i].backend, log[i].count, log[i].status, log[i].ts);
        }
      }
      assert log[..|log|] == log;
      state := State(kinds, r, log, 0);
    }

    /** The submission loop. */
    method SubmitAll(targets: seq<Name>, answers: nat -> Answer) returns (raised: bool, progressed: bool)
      requires forall t :: t in targets ==> t in config.backends
      modifies this
      ensures Submitted(old(state), config, targets, answers, |targets|) == Progress(state, raised, progressed)
    {
      hide OneSubmission;
      ghost var before := state;
      var p := Progress(state, false, false);
      for k := 0 to |targets|
        invariant state == p.state && !p.raised
        invariant Submitted(before, config, targets, answers, k) == p
      {
        p := OneSubmission(p, config, targets[k], answers(k));
        state := p.state;
        if p.raised {
          RaiseEndsRound(before, config, targets, answers, k + 1);
          return true, p.progressed;
        }
      }
      raised, progressed := false, p.progressed;
    }

    /** `arrived` is what others append to the chain between the snapshot and the end of the round; `appendOk` is the
        answer of the chain to the round's own record. */
    method AnchorNow(now: int, answers: nat -> Answer, arrived: seq<Kind>, appendOk: bool) returns (report: Report)
      requires ValidConfig(config)
      modifies this
      ensures state == RoundDuring(old(state), config, now, answers, arrived, appendOk)
      ensures old(state).kinds + arrived <= state.kinds
      ensures report == ReportOf(old(state), config, now, answers, appendOk)
    {
      hide News, Submitted, Highest, Chosen;
      var kinds := state.kinds;
      var substantive := Substantial(state, config);
      var behind := Behind(state, config);
      var retryDue := behind != {} && now >= state.nextRetry;
      if kinds == [] || !(substantive || retryDue) {
        state := state.(kinds := kinds + arrived);
        assert kinds + arrived + [] == kinds + arrived;
        return Skipped(|kinds|, behind);
      }
      var targets := Targets(config, behind, retryDue && !substantive);
      var raised, progressed := SubmitAll(targets, answers);
      if raised {
        state := state.(kinds := kinds + arrived);
        assert kinds + arrived + [] == kinds + arrived;
        return RoundRaised;
      }
      var stillBehind := Behind(state, config);
      state := state.(nextRetry := if stillBehind != {} then now + config.backoff else 0);
      if !progressed && !substantive {
        state := state.(kinds := kinds + arrived);
        assert kinds + arrived + [] == kinds + arrived;
        return Retried(|kinds|, stillBehind);
      }
      if !appendOk {
        state := state.(kinds := kinds + arrived);
        assert kinds + arrived + [] == kinds + arrived;
        return RoundRaised;
      }
      state := state.(kinds := kinds + arrived + [AnchorExternal]);
      assert (kinds + [AnchorExternal])[|kinds|..] == [AnchorExternal];
      report := Anchored(|kinds|, stillBehind);
    }
  }

  lemma {:induction false} RaiseEndsRound(s: State, c: Config, targets: seq<Name>, answers: nat -> Answer, n: nat)
    requires n <= |targets|
    requires Submitted(s, c, targets, answers, n).raised
    ensures Submitted(s, c, targets, answers, |targets|) == Submitted(s, c, targets, answers, n)
    decreases |targets| - n
  {
    if n < |targets| {
      RaiseEndsRound(s, c, targets, answers, n + 1);
    }
  }

  // ----- The ratchet invariant -----

  /** covered <= custody <= attempted <= chain length, per backend. */
  ghost predicate Ordered(r: Ratchets, length: nat) {
    forall n :: At(r, n).covered <= At(r, n).custody <= At(r, n).attempted <= length
  }

  lemma SubmissionStaysOrdered(p: Progress, c: Config, t: Name, a: Answer)
    requires Ordered(p.state.ratchets, |p.state.kinds|)
    ensures Ordered(OneSubmission(p, c, t, a).state.ratchets, |p.state.kinds|)
  {
    hide Ratchet;
    if !p.raised && a.Reply? {
      forall m {
        RatchetMovesUp(p.state.ratchets, t, |p.state.kinds|, a.status, a.ts, m);
      }
    }
  }

  lemma {:induction false} SubmittedStaysOrdered(s: State, c: Config, targets: seq<Name>, answers: nat -> Answer,
                                                 n: nat)
    requires Ordered(s.ratchets, |s.kinds|) && n <= |targets|
    ensures Ordered(Submitted(s, c, targets, answers, n).state.ratchets, |s.kinds|)
    decreases n
  {
    hide OneSubmission;
    if n > 0 {
      SubmittedStaysOrdered(s, c, targets, answers, n - 1);
      SubmissionStaysOrdered(Submitted(s, c, targets, answers, n - 1), c, targets[n - 1], answers(n - 1));
    }
  }

  lemma RoundStaysOrdered(s: State, c: Config, now: int, answers: nat -> Answer)
    requires ValidConfig(c) && Ordered(s.ratchets, |s.kinds|)
    ensures var t := Round(s, c, now, answers);
            Ordered(t.ratchets, |s.kinds|) && |s.kinds| <= |t.kinds| <= |s.kinds| + 1
  {
    hide News, Submitted;
    if Runs(s, c, now) {
      var targets := Targets(c, Behind(s, c), !Substantial(s, c));
      SubmittedStaysOrdered(s, c, targets, answers, |targets|);
    }
  }

  /** A rebuilt scheduler starts ordered when its own receipts count at most the chain it has. */
  lemma {:induction false} RebuiltIsOrdered(c: Config, log: seq<Receipt>, length: nat)
    requires forall x :: x in log && x.node == c.node ==> x.count <= length
    ensures Ordered(Rebuilt(c, log), length)
    decreases |log|
  {
    hide Ratchet;
    if log != [] {
      RebuiltIsOrdered(c, log[..|log| - 1], length);
      var x := log[|log| - 1];
      assert x in log;
      if x.node == c.node && x.backend in c.backends {
        forall m
          ensures var x := At(Rebuilt(c, log), m); x.covered <= x.custody <= x.attempted <= length
        {
          RatchetMovesUp(Rebuilt(c, log[..|log| - 1]), x.backend, x.count, x.status, x.ts, m);
        }
      }
    }
  }

  // ----- Restart -----

  lemma RebuiltOneMore(c: Config, log: seq<Receipt>, x: Receipt)
    requires x.node == c.node && x.backend in c.backends
    ensures Rebuilt(c, log + [x]) == Ratchet(Rebuilt(c, log), x.backend, x.count, x.status, x.ts)
  {
    hide Ratchet;
    assert (log + [x])[..|log|] == log;
  }

  lemma SubmissionMatchesLog(p: Progress, c: Config, t: Name, a: Answer)
    requires t in c.backends && p.state.ratchets == Rebuilt(c, p.state.receipts)
    ensures var q := OneSubmission(p, c, t, a).state; q.ratchets == Rebuilt(c, q.receipts)
  {
    hide Ratchet, Rebuilt;
    if !p.raised && a.Reply? {
      RebuiltOneMore(c, p.state.receipts, Receipt(c.node, t, |p.state.kinds|, a.status, a.ts));
    }
  }

  lemma {:induction false} SubmittedMatchesLog(s: State, c: Config, targets: seq<Name>, answers: nat -> Answer, n: nat)
    requires n <= |targets| && (forall t :: t in targets ==> t in c.backends)
    requires s.ratchets == Rebuilt(c, s.receipts)
    ensures var t := Submitted(s, c, targets, answers, n).state; t.ratchets == Rebuilt(c, t.receipts)
    decreases n
  {
    hide OneSubmission, Rebuilt;
    if n > 0 {
      SubmittedMatchesLog(s, c, targets, answers, n - 1);
      SubmissionMatchesLog(Submitted(s, c, targets, answers, n - 1), c, targets[n - 1], answers(n - 1));
    }
  }

  // ----- Runs -----

  /** A round, a record appended by somebody else, or a restart from the receipt log. */
  datatype Event =
    | Anchor(now: int, answers: nat -> Answer, arrived: seq<Kind>, appendOk: bool)
    | Append(kind: Kind)
    | Restart

  function Step(s: State, c: Config, e: Event): (t: State)
    requires ValidConfig(c)
  {
    match e
    case Anchor(now, answers, arrived, appendOk) => RoundDuring(s, c, now, answers, arrived, appendOk)
    case Append(k) => s.(kinds := s.kinds + [k])
    case Restart => Reborn(s, c)
  }

  /** A new scheduler over the same chain and the same receipt log. */
  function Reborn(s: State, c: Config): State {
    State(s.kinds, Rebuilt(c, s.receipts), s.receipts, 0)
  }

  function After(s: State, c: Config, events: seq<Event>): (t: State)
    requires ValidConfig(c)
  {
    if events == [] then s else Step(After(s, c, events[..|events| - 1]), c, events[|events| - 1])
  }

  /** MAIN: through any run of rounds, answers, raised submissions, appends and restarts, the four
      ratchets stay ordered and a restart from the receipt log finds exactly the live ones. */
  lemma {:induction false} RunsStayOrderedAndRebuildable(c: Config, kinds: seq<Kind>, log: seq<Receipt>,
                                                         events: seq<Event>)
    requires ValidConfig(c) && forall x :: x in log && x.node == c.node ==> x.count <= |kinds|
    ensures var t := After(State(kinds, Rebuilt(c, log), log, 0), c, events);
            Ordered(t.ratchets, |t.kinds|) && t.ratchets == Rebuilt(c, t.receipts)
    decreases |events|
  {
    var s := State(kinds, Rebuilt(c, log), log, 0);
    if events == [] {
      RebuiltIsOrdered(c, log, |kinds|);
    } else {
      var n := |events| - 1;
      RunsStayOrderedAndRebuildable(c, kinds, log, events[..n]);
      StepKeepsBoth(After(s, c, events[..n]), c, events[n]);
    }
  }

  lemma StepKeepsBoth(s: State, c: Config, e: Event)
    requires ValidConfig(c) && Ordered(s.ratchets, |s.kinds|) && s.ratchets == Rebuilt(c, s.receipts)
    ensures var t := Step(s, c, e); Ordered(t.ratchets, |t.kinds|) && t.ratchets == Rebuilt(c, t.receipts)
  {
    hide News, Submitted, Rebuilt;
    if e.Anchor? {
      RoundStaysOrdered(s, c, e.now, e.answers);
      var r := Round(s, c, e.now, e.answers);
      assert |s.kinds| <= |Step(s, c, e).kinds| && Step(s, c, e).ratchets == r.ratchets;
      if Runs(s, c, e.now) {
        var targets := Targets(c, Behind(s, c), !Substantial(s, c));
        SubmittedMatchesLog(s, c, targets, e.answers, |targets|);
      }
    }
  }

  // ----- Bounded self-anchoring -----

  /** How many anchor records the scheduler can still write without new substantive records. */
  ghost function Potential(s: State, c: Config): nat
    requires ValidConfig(c)
  {
    (if Substantial(s, c) then 1 else 0) + |Behind(s, c)|
  }

  function Anchors(kinds: seq<Kind>): nat {
    if kinds == [] then 0 else Anchors(kinds[..|kinds| - 1]) + (if kinds[|kinds| - 1].AnchorExternal? then 1 else 0)
  }

  lemma BookkeepingIsNoNews(kinds: seq<Kind>, k: Kind, from: nat)
    requires Bookkeeping(k)
    ensures News(kinds + [k], from) <==> News(kinds, from)
  {
    var longer := kinds + [k];
    if News(kinds, from) {
      var i :| from <= i < |kinds| && !Bookkeeping(kinds[i]);
      assert !Bookkeeping(longer[i]);
    }
  }

  /** One submission, seen from backend m. */
  lemma SubmissionMovesUp(p: Progress, c: Config, t: Name, a: Answer, m: Name)
    ensures var q := OneSubmission(p, c, t, a);
            var x, y := At(p.state.ratchets, m), At(q.state.ratchets, m);
            && x.covered <= y.covered && x.custody <= y.custody && x.attempted <= y.attempted
            && (m == t && !q.raised ==> y.attempted >= |p.state.kinds|)
            && (m == t && q.progressed && !p.progressed ==> y.covered >= |p.state.kinds|)
  {
    hide Ratchet;
    if !p.raised && a.Reply? {
      RatchetMovesUp(p.state.ratchets, t, |p.state.kinds|, a.status, a.ts, m);
    }
  }

  /** Ratchets only move up, so nobody falls behind without news. */
  lemma {:induction false} SubmittedOnlyRaises(s: State, c: Config, targets: seq<Name>, answers: nat -> Answer, n: nat,
                                               m: Name)
    requires n <= |targets|
    ensures var x, y := At(s.ratchets, m), At(Submitted(s, c, targets, answers, n).state.ratchets, m);
            x.covered <= y.covered && x.custody <= y.custody && x.attempted <= y.attempted
    decreases n
  {
    hide OneSubmission;
    if n > 0 {
      SubmittedOnlyRaises(s, c, targets, answers, n - 1, m);
      SubmissionMovesUp(Submitted(s, c, targets, answers, n - 1), c, targets[n - 1], answers(n - 1), m);
    }
  }

  /** Progress means some target now covers the whole chain. */
  lemma {:induction false} ProgressCovers(s: State, c: Config, targets: seq<Name>, answers: nat -> Answer, n: nat)
    returns (m: Name)
    requires n <= |targets|
    requires Submitted(s, c, targets, answers, n).progressed
    ensures m in targets && At(Submitted(s, c, targets, answers, n).state.ratchets, m).covered >= |s.kinds|
    decreases n
  {
    hide OneSubmission;
    if Submitted(s, c, targets, answers, n - 1).progressed {
      m := ProgressCovers(s, c, targets, answers, n - 1);
    } else {
      m := targets[n - 1];
    }
    SubmissionMovesUp(Submitted(s, c, targets, answers, n - 1), c, targets[n - 1], answers(n - 1), m);
  }

  /** A round that reached its end attempted the whole chain at every target. */
  lemma {:induction false} UnraisedAttempts(s: State, c: Config, targets: seq<Name>, answers: nat -> Answer, n: nat,
                                            k: nat)
    requires k < n <= |targets|
    requires !Submitted(s, c, targets, answers, n).raised
    ensures At(Submitted(s, c, targets, answers, n).state.ratchets, targets[k]).attempted >= |s.kinds|
    decreases n
  {
    hide OneSubmission;
    if k < n - 1 {
      UnraisedAttempts(s, c, targets, answers, n - 1, k);
    }
    SubmissionMovesUp(Submitted(s, c, targets, answers, n - 1), c, targets[n - 1], answers(n - 1), targets[k]);
  }

  lemma SubsetSmaller(a: set<Name>, b: set<Name>)
    requires a <= b
    ensures |a| <= |b| && (a != b ==> |a| < |b|)
  {
    assert b == a + (b - a);
    if a != b {
      assert b - a != {};
    }
  }

  /** News counted from a later point is news counted from an earlier one. */
  lemma NewsFromLater(kinds: seq<Kind>, early: nat, late: nat)
    requires early <= late
    ensures News(kinds, late) ==> News(kinds, early)
  {
  }

  /** The submissions of a round take nobody into the behind set. */
  lemma BehindShrinks(s: State, c: Config, targets: seq<Name>, answers: nat -> Answer, n: nat)
    requires ValidConfig(c) && n <= |targets|
    ensures Behind(Submitted(s, c, targets, answers, n).state, c) <= Behind(s, c)
  {
    hide News, Submitted;
    var t := Submitted(s, c, targets, answers, n).state;
    forall m | m in Behind(t, c)
      ensures m in Behind(s, c)
    {
      SubmittedOnlyRaises(s, c, targets, answers, n, m);
      NewsFromLater(s.kinds, Have(At(s.ratchets, m)), Have(At(t.ratchets, m)));
    }
  }

  lemma SubstantialOnlyFades(s: State, c: Config, targets: seq<Name>, answers: nat -> Answer, n: nat)
    requires ValidConfig(c) && n <= |targets|
    ensures Substantial(Submitted(s, c, targets, answers, n).state, c) ==> Substantial(s, c)
  {
    hide News, Submitted;
    var t := Submitted(s, c, targets, answers, n).state;
    forall m | m in c.backends
      ensures At(s.ratchets, m).attempted <= Highest(t.ratchets, c.backends)
    {
      SubmittedOnlyRaises(s, c, targets, answers, n, m);
      HighestBounds(t.ratchets, c.backends, m);
    }
    HighestAtMost(s.ratchets, c.backends, Highest(t.ratchets, c.backends));
    NewsFromLater(s.kinds, Highest(s.ratchets, c.backends), Highest(t.ratchets, c.backends));
  }

  /** A completed substantive round leaves no news beyond what was attempted. */
  lemma NewsIsSpent(s: State, c: Config, answers: nat -> Answer)
    requires ValidConfig(c) && !Submitted(s, c, c.backends, answers, |c.backends|).raised
    ensures !Substantial(Submitted(s, c, c.backends, answers, |c.backends|).state, c)
  {
    hide Submitted;
    var t := Submitted(s, c, c.backends, answers, |c.backends|).state;
    UnraisedAttempts(s, c, c.backends, answers, |c.backends|, 0);
    HighestBounds(t.ratchets, c.backends, c.backends[0]);
  }

  /** A retry that progressed takes at least one backend out of the behind set. */
  lemma ProgressLeavesBehind(s: State, c: Config, answers: nat -> Answer)
    requires ValidConfig(c)
    requires var targets := Targets(c, Behind(s, c), true); Submitted(s, c, targets, answers, |targets|).progressed
    ensures var targets := Targets(c, Behind(s, c), true);
            |Behind(Submitted(s, c, targets, answers, |targets|).state, c)| < |Behind(s, c)|
  {
    hide Submitted, Chosen;
    var targets := Targets(c, Behind(s, c), true);
    var t := Submitted(s, c, targets, answers, |targets|).state;
    BehindShrinks(s, c, targets, answers, |targets|);
    var m := ProgressCovers(s, c, targets, answers, |targets|);
    assert m in Behind(s, c) && m !in Behind(t, c);
    SubsetSmaller(Behind(t, c), Behind(s, c));
  }

  /** Bookkeeping appended after the round changes neither part of the potential. */
  lemma BookkeepingKeepsPotential(s: State, c: Config, k: Kind)
    requires ValidConfig(c) && Bookkeeping(k)
    ensures Potential(s.(kinds := s.kinds + [k]), c) == Potential(s, c)
  {
    hide News;
    var t := s.(kinds := s.kinds + [k]);
    BookkeepingIsNoNews(s.kinds, k, Highest(s.ratchets, c.backends));
    forall m | m in c.required
      ensures m in Behind(t, c) <==> m in Behind(s, c)
    {
      BookkeepingIsNoNews(s.kinds, k, Have(At(s.ratchets, m)));
    }
    assert Behind(t, c) == Behind(s, c);
  }

  lemma AnchorsOneMore(kinds: seq<Kind>, k: Kind)
    ensures Anchors(kinds + [k]) == Anchors(kinds) + if k.AnchorExternal? then 1 else 0
  {
    assert (kinds + [k])[..|kinds|] == kinds;
  }

  /** Every anchor record a round writes is paid for by the potential. */
  lemma RoundPays(s: State, c: Config, now: int, answers: nat -> Answer)
    requires ValidConfig(c)
    ensures var t := Round(s, c, now, answers); Anchors(t.kinds) + Potential(t, c) <= Anchors(s.kinds) + Potential(s, c)
  {
    hide News, Submitted, Anchors, Highest, Chosen;
    if Runs(s, c, now) {
      var targets := Targets(c, Behind(s, c), !Substantial(s, c));
      var p := Submitted(s, c, targets, answers, |targets|);
      BehindShrinks(s, c, targets, answers, |targets|);
      SubsetSmaller(Behind(p.state, c), Behind(s, c));
      SubstantialOnlyFades(s, c, targets, answers, |targets|);
      if !p.raised && (p.progressed || Substantial(s, c)) {
        if Substantial(s, c) {
          NewsIsSpent(s, c, answers);
        } else {
          ProgressLeavesBehind(s, c, answers);
        }
        RecordedRound(s, c, now, p.state);
      }
    }
  }

  lemma RecordedRound(s: State, c: Config, now: int, done: State)
    requires ValidConfig(c) && done.kinds == s.kinds
    ensures var waiting := done.(nextRetry := if Behind(done, c) != {} then now + c.backoff else 0);
            var t := waiting.(kinds := s.kinds + [AnchorExternal]);
            Anchors(t.kinds) == Anchors(s.kinds) + 1 && Potential(t, c) == Potential(done, c)
  {
    hide News, Anchors;
    AnchorsOneMore(s.kinds, AnchorExternal);
    var waiting := done.(nextRetry := if Behind(done, c) != {} then now + c.backoff else 0);
    assert Behind(waiting, c) == Behind(done, c);
    BookkeepingKeepsPotential(waiting, c, AnchorExternal);
  }

  function NamesIn(names: seq<Name>): set<Name> {
    set n | n in names
  }

  lemma {:induction false} DistinctAtMostLength(names: seq<Name>)
    ensures |NamesIn(names)| <= |names|
    decreases |names|
  {
    if names == [] {
      assert NamesIn(names) == {};
    } else {
      DistinctAtMostLength(names[1..]);
      assert NamesIn(names) == {names[0]} + NamesIn(names[1..]);
    }
  }

  lemma PotentialBound(s: State, c: Config)
    requires ValidConfig(c)
    ensures Potential(s, c) <= 1 + |c.required|
  {
    hide News, Highest;
    SubsetSmaller(Behind(s, c), NamesIn(c.required));
    DistinctAtMostLength(c.required);
  }

  predicate OwnBusiness(k: Kind) {
    Bookkeeping(k) && !k.AnchorExternal?
  }

  ghost predicate Quiet(events: seq<Event>) {
    && (forall e :: e in events && e.Append? ==> OwnBusiness(e.kind))
    && (forall e :: e in events && e.Anchor? ==> forall k :: k in e.arrived ==> OwnBusiness(k))
  }

  /** Bookkeeping that arrives during the round is neither news nor an anchor record. */
  lemma {:induction false} ArrivalsChangeNothing(s: State, c: Config, kinds: seq<Kind>, arrived: seq<Kind>)
    requires ValidConfig(c) && forall k :: k in arrived ==> OwnBusiness(k)
    ensures Potential(s.(kinds := kinds + arrived), c) == Potential(s.(kinds := kinds), c)
    ensures Anchors(kinds + arrived) == Anchors(kinds)
    decreases |arrived|
  {
    hide Potential, Anchors;
    if arrived == [] {
      assert kinds + arrived == kinds;
    } else {
      var n := |arrived| - 1;
      var init, k := arrived[..n], arrived[n];
      assert kinds + arrived == (kinds + init) + [k] && k in arrived;
      ArrivalsChangeNothing(s, c, kinds, init);
      BookkeepingKeepsPotential(s.(kinds := kinds + init), c, k);
      AnchorsOneMore(kinds + init, k);
    }
  }

  lemma RoundDuringPays(s: State, c: Config, now: int, answers: nat -> Answer, arrived: seq<Kind>, appendOk: bool)
    requires ValidConfig(c) && forall k :: k in arrived ==> OwnBusiness(k)
    ensures var t := RoundDuring(s, c, now, answers, arrived, appendOk);
            Anchors(t.kinds) + Potential(t, c) <= Anchors(s.kinds) + Potential(s, c)
  {
    hide Potential, Anchors, Round;
    var r := Round(s, c, now, answers);
    RoundPays(s, c, now, answers);
    ArrivalsChangeNothing(r, c, s.kinds, arrived);
    if r.kinds == s.kinds {
      assert r.kinds[|s.kinds|..] == [] && s.kinds + arrived + [] == s.kinds + arrived;
      assert r.(kinds := s.kinds) == r;
    } else {
      assert s.kinds + arrived + [] == s.kinds + arrived;
      assert r.kinds[|s.kinds|..] == [AnchorExternal];
      var longer := r.(kinds := s.kinds + arrived);
      BookkeepingKeepsPotential(longer, c, AnchorExternal);
      BookkeepingKeepsPotential(r.(kinds := s.kinds), c, AnchorExternal);
      AnchorsOneMore(s.kinds + arrived, AnchorExternal);
      AnchorsOneMore(s.kinds, AnchorExternal);
      assert r.(kinds := s.kinds).(kinds := s.kinds + [AnchorExternal]) == r;
    }
  }

  /** A restart finds the live marks and forgets only when to retry. */
  lemma RestartKeepsPotential(s: State, c: Config)
    requires ValidConfig(c) && s.ratchets == Rebuilt(c, s.receipts)
    ensures Reborn(s, c) == s.(nextRetry := 0) && Potential(Reborn(s, c), c) == Potential(s, c)
  {
    hide Potential, Rebuilt;
    RetryTimeIsNoNews(s, c, 0);
  }

  lemma StepKeepsRebuilt(s: State, c: Config, e: Event)
    requires ValidConfig(c) && s.ratchets == Rebuilt(c, s.receipts)
    ensures Step(s, c, e).ratchets == Rebuilt(c, Step(s, c, e).receipts)
  {
    hide News, Submitted, Rebuilt;
    if e.Anchor? && Runs(s, c, e.now) {
      var targets := Targets(c, Behind(s, c), !Substantial(s, c));
      SubmittedMatchesLog(s, c, targets, e.answers, |targets|);
    }
  }

  /** MAIN: over any number of rounds with any clocks and backend answers, with any other bookkeeping between and
      during them and with restarts, but no new substantive record, the scheduler writes at most
      1 + |required_backends| ANCHOR_EXTERNAL records.  Without a restart that holds from any state at all; with
      one, from any state whose marks are those of its receipts, as every run keeps them. */
  lemma {:induction false} SelfAnchoringIsBounded(s: State, c: Config, events: seq<Event>)
    requires ValidConfig(c) && Quiet(events)
    requires s.ratchets == Rebuilt(c, s.receipts) || forall e :: e in events ==> !e.Restart?
    ensures Anchors(After(s, c, events).kinds) + Potential(After(s, c, events), c) <= Anchors(s.kinds) + Potential(s, c)
    ensures Anchors(After(s, c, events).kinds) <= Anchors(s.kinds) + 1 + |c.required|
    ensures s.ratchets == Rebuilt(c, s.receipts) ==>
              After(s, c, events).ratchets == Rebuilt(c, After(s, c, events).receipts)
    decreases |events|
  {
    hide Potential, Anchors, Rebuilt, RoundDuring;
    PotentialBound(s, c);
    if events != [] {
      var n := |events| - 1;
      SelfAnchoringIsBounded(s, c, events[..n]);
      var w, e := After(s, c, events[..n]), events[n];
      assert e in events;
      if s.ratchets == Rebuilt(c, s.receipts) {
        StepKeepsRebuilt(w, c, e);
      }
      match e {
        case Anchor(now, answers, arrived, appendOk) => RoundDuringPays(w, c, now, answers, arrived, appendOk);
        case Append(k) =>
          BookkeepingKeepsPotential(w, c, k);
          AnchorsOneMore(w.kinds, k);
        case Restart => RestartKeepsPotential(w, c);
      }
    }
  }

  // ----- And it does anchor -----

  /** The backend answered and holds the range, confirmed or in custody. */
  predicate Keeps(a: Answer) {
    a.Reply? && (Terminal(a.status) || InCustody(a.status))
  }

  lemma {:induction false} KeepersNeverRaise(s: State, c: Config, targets: seq<Name>, answers: nat -> Answer, n: nat)
    requires n <= |targets| && forall k :: 0 <= k < n ==> Keeps(answers(k))
    ensures !Submitted(s, c, targets, answers, n).raised
    decreases n
  {
    if n > 0 {
      KeepersNeverRaise(s, c, targets, answers, n - 1);
      assert Keeps(answers(n - 1));
    }
  }

  lemma KeeperHas(p: Progress, c: Config, t: Name, a: Answer)
    requires !p.raised && Keeps(a)
    ensures Have(At(OneSubmission(p, c, t, a).state.ratchets, t)) >= |p.state.kinds|
  {
  }

  lemma {:induction false} KeepersHave(s: State, c: Config, targets: seq<Name>, answers: nat -> Answer, n: nat, k: nat)
    requires k < n <= |targets| && forall j :: 0 <= j < n ==> Keeps(answers(j))
    ensures Have(At(Submitted(s, c, targets, answers, n).state.ratchets, targets[k])) >= |s.kinds|
    decreases n
  {
    hide OneSubmission;
    var p := Submitted(s, c, targets, answers, n - 1);
    KeepersNeverRaise(s, c, targets, answers, n - 1);
    if k == n - 1 {
      KeeperHas(p, c, targets[k], answers(k));
    } else {
      KeepersHave(s, c, targets, answers, n - 1, k);
      SubmissionMovesUp(p, c, targets[n - 1], answers(n - 1), targets[k]);
    }
  }

  lemma NobodyLeftBehind(s: State, c: Config, targets: seq<Name>, answers: nat -> Answer)
    requires ValidConfig(c) && (forall k :: 0 <= k < |targets| ==> Keeps(answers(k)))
             && forall m :: m in Behind(s, c) ==> m in targets
    ensures Behind(Submitted(s, c, targets, answers, |targets|).state, c) == {}
  {
    hide Submitted;
    var t := Submitted(s, c, targets, answers, |targets|).state;
    BehindShrinks(s, c, targets, answers, |targets|);
    forall m | m in Behind(t, c)
      ensures false
    {
      var k :| 0 <= k < |targets| && targets[k] == m;
      KeepersHave(s, c, targets, answers, |targets|, k);
    }
  }

  /** MAIN: a round that acts and whose backends all keep what they are given leaves nobody behind and no news:
      whatever the clock and the backends say next, the scheduler then stays still.  News is recorded once. */
  lemma HealthyRoundSettles(s: State, c: Config, now: int, answers: nat -> Answer, later: int, next: nat -> Answer)
    requires ValidConfig(c) && Runs(s, c, now) && forall k :: 0 <= k < |c.backends| ==> Keeps(answers(k))
    ensures var t := Round(s, c, now, answers);
            && Potential(t, c) == 0 && t.nextRetry == 0 && Round(t, c, later, next) == t
            && (Substantial(s, c) ==> t.kinds == s.kinds + [AnchorExternal])
  {
    hide Submitted, Substantial, Behind, Chosen;
    var targets := Targets(c, Behind(s, c), !Substantial(s, c));
    var p := Submitted(s, c, targets, answers, |targets|);
    SettledTargets(s, c, answers);
    RetryTimeIsNoNews(p.state, c, 0);
    BookkeepingKeepsPotential(p.state.(nextRetry := 0), c, AnchorExternal);
    QuietIsStill(Round(s, c, now, answers), c, later, next);
  }

  lemma {:induction false} FewerChosen(names: seq<Name>, wanted: set<Name>)
    ensures |Chosen(names, wanted)| <= |names|
    decreases |names|
  {
    if names != [] {
      FewerChosen(names[1..], wanted);
    }
  }

  lemma SettledTargets(s: State, c: Config, answers: nat -> Answer)
    requires ValidConfig(c) && forall k :: 0 <= k < |c.backends| ==> Keeps(answers(k))
    ensures var targets := Targets(c, Behind(s, c), !Substantial(s, c));
            var p := Submitted(s, c, targets, answers, |targets|);
            !p.raised && Behind(p.state, c) == {} && !Substantial(p.state, c)
  {
    hide Submitted, Substantial, News, Chosen;
    var targets := Targets(c, Behind(s, c), !Substantial(s, c));
    FewerChosen(c.backends, Behind(s, c));
    KeepersNeverRaise(s, c, targets, answers, |targets|);
    NobodyLeftBehind(s, c, targets, answers);
    if Substantial(s, c) {
      NewsIsSpent(s, c, answers);
    } else {
      SubstantialOnlyFades(s, c, targets, answers, |targets|);
    }
  }

  lemma RetryTimeIsNoNews(s: State, c: Config, t: int)
    requires ValidConfig(c)
    ensures Potential(s.(nextRetry := t), c) == Potential(s, c)
  {
    hide News;
    assert Behind(s.(nextRetry := t), c) == Behind(s, c);
  }

  lemma QuietIsStill(s: State, c: Config, now: int, answers: nat -> Answer)
    requires ValidConfig(c) && Potential(s, c) == 0
    ensures Round(s, c, now, answers) == s
  {
    hide Substantial, Behind;
  }

  /** The report tells what the round did: a record exactly when it says so, nothing on a skip, and the backends that
      are behind on the chain the round leaves. */
  lemma ReportTellsTheRound(s: State, c: Config, now: int, answers: nat -> Answer)
    requires ValidConfig(c)
    ensures var t, r := Round(s, c, now, answers), ReportOf(s, c, now, answers, true);
            && (r.Anchored? <==> t.kinds == s.kinds + [AnchorExternal])
            && (r.Skipped? ==> t == s)
            && (!r.RoundRaised? ==> r.count == |s.kinds| && r.behind == Behind(t, c))
  {
    hide News, Submitted, Highest, Chosen;
    if Runs(s, c, now) {
      var targets := Targets(c, Behind(s, c), !Substantial(s, c));
      var done := Submitted(s, c, targets, answers, |targets|).state;
      var t := Round(s, c, now, answers);
      forall m | m in c.required
        ensures News(s.kinds + [AnchorExternal], Have(At(done.ratchets, m))) <==>
                News(s.kinds, Have(At(done.ratchets, m)))
      {
        BookkeepingIsNoNews(s.kinds, AnchorExternal, Have(At(done.ratchets, m)));
      }
      assert t.ratchets == done.ratchets ==> Behind(t, c) == Behind(done, c);
    }
  }

  /** MAIN: the marks move before the record is appended.  If that append raises in a round whose backends keep what
      they are given, the record is never written: no later round acts until there is new news. */
  lemma LostAnchorRecordStaysLost(s: State, c: Config, now: int, answers: nat -> Answer,
                                  later: int, next: nat -> Answer)
    requires ValidConfig(c) && Substantial(s, c) && forall k :: 0 <= k < |c.backends| ==> Keeps(answers(k))
    ensures var t := RoundDuring(s, c, now, answers, [], false);
            t.kinds == s.kinds && ReportOf(s, c, now, answers, false) == RoundRaised && Round(t, c, later, next) == t
  {
    hide Submitted, News, Behind, Chosen, Highest;
    NewsMeansRecords(s, c);
    HealthyRoundSettles(s, c, now, answers, later, next);
    var r := Round(s, c, now, answers);
    var t := RoundDuring(s, c, now, answers, [], false);
    assert t.kinds == s.kinds && r == t.(kinds := s.kinds + [AnchorExternal]);
    BookkeepingKeepsPotential(t, c, AnchorExternal);
    QuietIsStill(t, c, later, next);
    SettledTargets(s, c, answers);
  }

  lemma NewsMeansRecords(s: State, c: Config)
    requires ValidConfig(c) && Substantial(s, c)
    ensures s.kinds != []
  {
  }
}
