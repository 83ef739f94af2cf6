/** When a round acts, whom it asks and what it writes, read off the receipts and the clock (core/anchoring.py:284-335,
    443-536). */
module AnchoringExact {
  import opened Anchoring

  // ----- The marks are what the receipts say -----

  predicate Own(x: Receipt, c: Config, n: Name, i: int) {
    x.node == c.node && x.backend == n && x.count > i
  }

  /** The backend was asked about a chain that reaches past position i. */
  ghost predicate Asked(log: seq<Receipt>, c: Config, n: Name, i: int) {
    exists x :: x in log && Own(x, c, n, i)
  }

  predicate Confirms(x: Receipt) {
    x.status == Recorded || x.status == Confirmed
  }

  predicate Holds(x: Receipt) {
    Confirms(x) || x.status == PendingAttestation || x.status == PendingConfirmation
  }

  /** ... and holds it, confirmed or in custody. */
  ghost predicate Kept(log: seq<Receipt>, c: Config, n: Name, i: int) {
    exists x :: x in log && Own(x, c, n, i) && Holds(x)
  }

  /** ... and has confirmed it. */
  ghost predicate Covered(log: seq<Receipt>, c: Config, n: Name, i: int) {
    exists x :: x in log && Own(x, c, n, i) && Confirms(x)
  }

  ghost predicate MarksSay(m: Marks, log: seq<Receipt>, c: Config, n: Name) {
    forall i :: i >= 0 ==>
      && (m.attempted > i <==> Asked(log, c, n, i))
      && (m.custody > i <==> Kept(log, c, n, i))
      && (m.covered > i <==> Covered(log, c, n, i))
  }

  lemma ReceiptsOneMore(log: seq<Receipt>, x: Receipt, c: Config, n: Name, i: int)
    ensures Asked(log + [x], c, n, i) <==> Asked(log, c, n, i) || Own(x, c, n, i)
    ensures Kept(log + [x], c, n, i) <==> Kept(log, c, n, i) || (Own(x, c, n, i) && Holds(x))
    ensures Covered(log + [x], c, n, i) <==> Covered(log, c, n, i) || (Own(x, c, n, i) && Confirms(x))
  {
    hide Own;
    assert forall y :: y in log + [x] <==> y in log || y == x;
  }

  lemma MarkSays(m: Marks, log: seq<Receipt>, x: Receipt, c: Config, n: Name)
    requires MarksSay(m, log, c, n) && x.node == c.node && x.backend == n
    ensures MarksSay(Mark(m, x.count, x.status, x.ts), log + [x], c, n)
  {
    forall i | i >= 0
      ensures var k := Mark(m, x.count, x.status, x.ts);
              && (k.attempted > i <==> Asked(log + [x], c, n, i))
              && (k.custody > i <==> Kept(log + [x], c, n, i))
              && (k.covered > i <==> Covered(log + [x], c, n, i))
    {
      ReceiptsOneMore(log, x, c, n, i);
      hide Asked, Kept, Covered;
    }
  }

  lemma OtherReceiptSays(m: Marks, log: seq<Receipt>, x: Receipt, c: Config, n: Name)
    requires MarksSay(m, log, c, n) && (x.node != c.node || x.backend != n)
    ensures MarksSay(m, log + [x], c, n)
  {
    forall i | i >= 0
      ensures && (m.attempted > i <==> Asked(log + [x], c, n, i))
              && (m.custody > i <==> Kept(log + [x], c, n, i))
              && (m.covered > i <==> Covered(log + [x], c, n, i))
    {
      ReceiptsOneMore(log, x, c, n, i);
      hide Asked, Kept, Covered;
    }
  }

  /** MAIN: after any restart, and so after any run, a backend's marks are the highest counts it was asked about, holds
      and has confirmed, by the node's own receipts. */
  lemma {:induction false} MarksExact(c: Config, log: seq<Receipt>, n: Name)
    requires n in c.backends
    ensures MarksSay(At(Rebuilt(c, log), n), log, c, n)
    decreases |log|
  {
    hide MarksSay, Mark;
    if log == [] {
      NothingSaid(c, n);
    } else {
      var init, x := log[..|log| - 1], log[|log| - 1];
      assert log == init + [x];
      MarksExact(c, init, n);
      if x.node == c.node && x.backend == n {
        MarkSays(At(Rebuilt(c, init), n), init, x, c, n);
      } else {
        OtherReceiptSays(At(Rebuilt(c, init), n), init, x, c, n);
      }
    }
  }

  lemma NothingSaid(c: Config, n: Name)
    ensures MarksSay(FRESH_MARKS, [], c, n)
  {
  }

  predicate Success(x: Receipt, c: Config, n: Name) {
    x.node == c.node && x.backend == n && Confirms(x)
  }

  /** The backend's last success, by the node's own receipts, was at this time. */
  ghost predicate LastSuccessAt(log: seq<Receipt>, c: Config, n: Name, t: int) {
    exists k :: 0 <= k < |log| && Success(log[k], c, n) && log[k].ts == t
                && forall m :: k < m < |log| ==> !Success(log[m], c, n)
  }

  lemma LastSuccessOneMore(init: seq<Receipt>, x: Receipt, c: Config, n: Name, t: int)
    ensures Success(x, c, n) ==> LastSuccessAt(init + [x], c, n, x.ts)
    ensures LastSuccessAt(init, c, n, t) && !Success(x, c, n) ==> LastSuccessAt(init + [x], c, n, t)
  {
    var log := init + [x];
    assert log[|init|] == x;
    if LastSuccessAt(init, c, n, t) && !Success(x, c, n) {
      var k :| 0 <= k < |init| && Success(init[k], c, n) && init[k].ts == t
               && forall m :: k < m < |init| ==> !Success(init[m], c, n);
      assert log[k] == init[k];
    }
  }

  /** The success time kept for a backend is that of its last confirming receipt, and there is none without one. */
  lemma {:induction false} SuccessExact(c: Config, log: seq<Receipt>, n: Name)
    requires n in c.backends
    ensures var s := At(Rebuilt(c, log), n).success;
            && (s.None? <==> forall x :: x in log ==> !Success(x, c, n))
            && (s.Some? ==> LastSuccessAt(log, c, n, s.value))
    decreases |log|
  {
    hide LastSuccessAt;
    if log != [] {
      var init, x := log[..|log| - 1], log[|log| - 1];
      assert log == init + [x];
      SuccessExact(c, init, n);
      var before := At(Rebuilt(c, init), n).success;
      LastSuccessOneMore(init, x, c, n, if before.Some? then before.value else 0);
    }
  }

  /** A restart keeps the chain and the receipts, reads the marks back from the receipts and may retry at once. */
  lemma RestartExact(s: State, c: Config)
    requires ValidConfig(c)
    ensures var t := Step(s, c, Restart);
            t.kinds == s.kinds && t.receipts == s.receipts && t.nextRetry == 0 && Synced(t, c)
  {
  }

  // ----- Who is behind, and what is news -----

  ghost predicate Synced(s: State, c: Config) {
    s.ratchets == Rebuilt(c, s.receipts)
  }

  /** The required backend lacks a record other than bookkeeping. */
  ghost predicate Lacks(s: State, c: Config, n: Name) {
    n in c.required && exists i :: 0 <= i < |s.kinds| && s.kinds[i].Substantive? && !Kept(s.receipts, c, n, i)
  }

  ghost predicate NeverSent(log: seq<Receipt>, c: Config, i: int) {
    forall n :: n in c.backends ==> !Asked(log, c, n, i)
  }

  /** Some record other than bookkeeping has never been sent to any backend. */
  ghost predicate Unsent(s: State, c: Config) {
    exists i :: 0 <= i < |s.kinds| && s.kinds[i].Substantive? && NeverSent(s.receipts, c, i)
  }

  lemma BehindExact(s: State, c: Config, n: Name)
    requires ValidConfig(c) && Synced(s, c)
    ensures n in Behind(s, c) <==> Lacks(s, c, n)
  {
    if n in c.required {
      hide Rebuilt;
      MarksExact(c, s.receipts, n);
      var m := At(s.ratchets, n);
      CustodyIsAll(s, c, n);
      assert forall i :: 0 <= i < |s.kinds| ==> (Have(m) <= i <==> !Kept(s.receipts, c, n, i));
      hide MarksSay, Kept, Have;
      if News(s.kinds, Have(m)) {
        var i :| Have(m) <= i < |s.kinds| && !Bookkeeping(s.kinds[i]);
        assert s.kinds[i].Substantive? && !Kept(s.receipts, c, n, i);
      }
      if Lacks(s, c, n) {
        var i :| 0 <= i < |s.kinds| && s.kinds[i].Substantive? && !Kept(s.receipts, c, n, i);
        assert Have(m) <= i && !Bookkeeping(s.kinds[i]);
      }
    }
  }

  /** What is confirmed is in custody too. */
  lemma CustodyIsAll(s: State, c: Config, n: Name)
    requires n in c.backends && Synced(s, c)
    ensures At(s.ratchets, n).covered <= At(s.ratchets, n).custody
  {
    hide Rebuilt;
    MarksExact(c, s.receipts, n);
    CoveredIsKept(s.receipts, c, n, At(s.ratchets, n).custody);
  }

  lemma CoveredIsKept(log: seq<Receipt>, c: Config, n: Name, i: int)
    ensures Covered(log, c, n, i) ==> Kept(log, c, n, i)
  {
    hide Own;
  }

  lemma {:induction false} HighestExact(r: Ratchets, names: seq<Name>, i: nat)
    ensures Highest(r, names) > i <==> exists n :: n in names && At(r, n).attempted > i
    decreases |names|
  {
    if names != [] {
      HighestExact(r, names[1..], i);
      assert names == [names[0]] + names[1..];
    }
  }

  lemma UnsentExact(s: State, c: Config)
    requires ValidConfig(c) && Synced(s, c)
    ensures Substantial(s, c) <==> Unsent(s, c)
  {
    hide Rebuilt, Highest;
    forall n | n in c.backends
      ensures MarksSay(At(s.ratchets, n), s.receipts, c, n)
    {
      MarksExact(c, s.receipts, n);
    }
    forall i | 0 <= i < |s.kinds|
      ensures Highest(s.ratchets, c.backends) <= i <==> NeverSent(s.receipts, c, i)
    {
      HighestExact(s.ratchets, c.backends, i);
    }
    hide MarksSay, NeverSent;
    if Substantial(s, c) {
      var i :| Highest(s.ratchets, c.backends) <= i < |s.kinds| && !Bookkeeping(s.kinds[i]);
      assert s.kinds[i].Substantive?;
    }
    if Unsent(s, c) {
      var i :| 0 <= i < |s.kinds| && s.kinds[i].Substantive? && NeverSent(s.receipts, c, i);
      assert !Bookkeeping(s.kinds[i]);
    }
  }

  // ----- One round -----

  /** How many of the targets answer before one raises. */
  function Answering(answers: nat -> Answer, n: nat): (k: nat)
    ensures k <= n && (forall j :: 0 <= j < k ==> answers(j).Reply?) && (k < n ==> answers(k).Raise?)
  {
    if n == 0 then 0
    else
      var k := Answering(answers, n - 1);
      if k == n - 1 && answers(k).Reply? then n else k
  }

  function ReceiptsFor(c: Config, targets: seq<Name>, answers: nat -> Answer, count: nat, k: nat): seq<Receipt>
    requires k <= |targets| && forall j :: 0 <= j < k ==> answers(j).Reply?
  {
    seq(k, j requires 0 <= j < k => Receipt(c.node, targets[j], count, answers(j).status, answers(j).ts))
  }

  predicate Final(a: Answer) {
    a.Reply? && (a.status == Recorded || a.status == Confirmed)
  }

  /** The loop adds one receipt for each target asked, in order, up to one that raises. */
  ghost predicate SubmittedSo(p: Progress, s: State, c: Config, targets: seq<Name>, answers: nat -> Answer, n: nat)
    requires n <= |targets|
  {
    var k := Answering(answers, n);
    && p.state.receipts == s.receipts + ReceiptsFor(c, targets, answers, |s.kinds|, k)
    && (p.raised <==> k < n)
    && (p.progressed <==> exists j :: 0 <= j < k && Final(answers(j)))
  }

  lemma {:induction false} SubmittedExact(s: State, c: Config, targets: seq<Name>, answers: nat -> Answer, n: nat)
    requires n <= |targets|
    ensures SubmittedSo(Submitted(s, c, targets, answers, n), s, c, targets, answers, n)
    decreases n
  {
    if n > 0 {
      SubmittedExact(s, c, targets, answers, n - 1);
      hide Submitted;
      var p := Submitted(s, c, targets, answers, n - 1);
      OneSubmissionSo(p, s, c, targets, answers, n);
      assert Submitted(s, c, targets, answers, n) == OneSubmission(p, c, targets[n - 1], answers(n - 1)) by {
        SubmittedUnfolds(s, c, targets, answers, n);
      }
    }
  }

  lemma SubmittedUnfolds(s: State, c: Config, targets: seq<Name>, answers: nat -> Answer, n: nat)
    requires 0 < n <= |targets|
    ensures Submitted(s, c, targets, answers, n) ==
            OneSubmission(Submitted(s, c, targets, answers, n - 1), c, targets[n - 1], answers(n - 1))
  {
  }

  lemma OneSubmissionSo(p: Progress, s: State, c: Config, targets: seq<Name>, answers: nat -> Answer, n: nat)
    requires 0 < n <= |targets| && p.state.kinds == s.kinds && SubmittedSo(p, s, c, targets, answers, n - 1)
    ensures SubmittedSo(OneSubmission(p, c, targets[n - 1], answers(n - 1)), s, c, targets, answers, n)
  {
    hide Ratchet;
    var k := Answering(answers, n - 1);
    if k == n - 1 && answers(k).Reply? {
      var before := ReceiptsFor(c, targets, answers, |s.kinds|, k);
      var after := ReceiptsFor(c, targets, answers, |s.kinds|, n);
      assert after == before + [after[k]];
      assert (s.receipts + before) + [after[k]] == s.receipts + after;
      assert Final(answers(k)) <==> Terminal(answers(k).status);
    }
  }

  /** Whom the round asks: everybody when something was never sent, else those that lack something and are due. */
  ghost predicate Asks(s: State, c: Config, now: int, targets: seq<Name>) {
    if Unsent(s, c) then targets == c.backends
    else if now >= s.nextRetry then
      && (forall n :: n in targets <==> n in c.backends && Lacks(s, c, n))
      && IsPartOf(targets, c.backends)
    else targets == []
  }

  /** In the same order, with nothing left out that is listed. */
  ghost predicate IsPartOf(part: seq<Name>, whole: seq<Name>) {
    part == Chosen(whole, set n | n in part)
  }

  lemma {:induction false} ChosenDepends(names: seq<Name>, a: set<Name>, b: set<Name>)
    requires forall n :: n in names ==> (n in a <==> n in b)
    ensures Chosen(names, a) == Chosen(names, b)
    decreases |names|
  {
    if names != [] {
      ChosenDepends(names[1..], a, b);
    }
  }

  lemma TargetsExact(s: State, c: Config, now: int)
    requires ValidConfig(c) && Synced(s, c)
    ensures var targets := Targets(c, Behind(s, c), !Substantial(s, c));
            Asks(s, c, now, if Runs(s, c, now) then targets else [])
  {
    hide Substantial, Behind, Rebuilt, Chosen, Lacks, Unsent;
    UnsentExact(s, c);
    forall n
      ensures n in Behind(s, c) <==> Lacks(s, c, n)
    {
      BehindExact(s, c, n);
    }
    if s.kinds == [] {
      NobodyLacksNothing(s, c);
    }
    var targets := Chosen(c.backends, Behind(s, c));
    assert forall n :: n in targets <==> n in c.backends && Lacks(s, c, n);
    ChosenDepends(c.backends, Behind(s, c), set n | n in targets);
    if Behind(s, c) == {} {
      assert targets == [] by {
        NothingChosen(c.backends);
      }
    }
  }

  lemma {:induction false} NothingChosen(names: seq<Name>)
    ensures Chosen(names, {}) == []
    decreases |names|
  {
    if names != [] {
      NothingChosen(names[1..]);
    }
  }

  lemma NobodyLacksNothing(s: State, c: Config)
    requires s.kinds == []
    ensures !Unsent(s, c) && forall n :: !Lacks(s, c, n)
  {
  }

  /** MAIN: what a round does, from the receipts and the clock alone. */
  ghost predicate RoundDoes(s: State, c: Config, now: int, answers: nat -> Answer, targets: seq<Name>, t: State) {
    var k := Answering(answers, |targets|);
    && t.receipts == s.receipts + ReceiptsFor(c, targets, answers, |s.kinds|, k)
    && t.kinds == s.kinds + (if targets != [] && k == |targets|
                                && (Unsent(s, c) || exists j :: 0 <= j < k && Final(answers(j)))
                             then [AnchorExternal] else [])
    && t.nextRetry == (if targets == [] || k < |targets| then s.nextRetry
                       else if exists n :: Lacks(t, c, n) then now + c.backoff else 0)
    && Synced(t, c) && (targets == [] ==> t == s)
  }

  lemma RoundExact(s: State, c: Config, now: int, answers: nat -> Answer) returns (targets: seq<Name>)
    requires ValidConfig(c) && Synced(s, c)
    ensures Asks(s, c, now, targets) && RoundDoes(s, c, now, answers, targets, Round(s, c, now, answers))
    ensures ReportOf(s, c, now, answers, true).Skipped? <==> targets == []
    ensures ReportOf(s, c, now, answers, true).RoundRaised? <==> Answering(answers, |targets|) < |targets|
  {
    hide Substantial, Behind, Rebuilt, Chosen, Lacks, Unsent, Submitted;
    TargetsExact(s, c, now);
    if !Runs(s, c, now) {
      targets := [];
      assert s.receipts + ReceiptsFor(c, targets, answers, |s.kinds|, 0) == s.receipts;
      assert s.kinds + [] == s.kinds;
    } else {
      targets := Targets(c, Behind(s, c), !Substantial(s, c));
      SomebodyIsAsked(s, c, now);
      SubmittedExact(s, c, targets, answers, |targets|);
      SubmittedMatchesLog(s, c, targets, answers, |targets|);
      UnsentExact(s, c);
      RoundLeaves(s, c, now, answers);
      assert s.kinds + [] == s.kinds;
    }
  }

  lemma SomebodyIsAsked(s: State, c: Config, now: int)
    requires ValidConfig(c) && Runs(s, c, now)
    ensures Targets(c, Behind(s, c), !Substantial(s, c)) != []
  {
    hide News;
    if !Substantial(s, c) {
      var n :| n in Behind(s, c);
      assert n in Chosen(c.backends, Behind(s, c));
    }
  }

  /** The retry time a completed round leaves, by who lacks something on the chain it leaves. */
  lemma RoundLeaves(s: State, c: Config, now: int, answers: nat -> Answer)
    requires ValidConfig(c) && Synced(s, c) && Runs(s, c, now)
    ensures var targets := Targets(c, Behind(s, c), !Substantial(s, c));
            var p, t := Submitted(s, c, targets, answers, |targets|), Round(s, c, now, answers);
            && t.ratchets == p.state.ratchets && t.receipts == p.state.receipts && Synced(t, c)
            && (!p.raised ==> t.nextRetry == if exists n :: Lacks(t, c, n) then now + c.backoff else 0)
            && (p.raised ==> t == p.state)
  {
    hide Substantial, Rebuilt, Chosen, Lacks, Submitted, News, Highest;
    var targets := Targets(c, Behind(s, c), !Substantial(s, c));
    SubmittedMatchesLog(s, c, targets, answers, |targets|);
    var p, t := Submitted(s, c, targets, answers, |targets|), Round(s, c, now, answers);
    forall n
      ensures n in Behind(p.state, c) <==> Lacks(t, c, n)
    {
      BookkeepingIsNoNews(s.kinds, AnchorExternal, Have(At(p.state.ratchets, n)));
      BehindExact(t, c, n);
    }
  }

  // ----- The clock -----

  /** MAIN: after a completed round at t that leaves a required backend lacking something, and with nothing unsent, a
      round before t + backoff changes nothing and reports so; at or after it, exactly the backends that still lack
      something get one more receipt each, in order, up to one that raises. */
  lemma RetryClock(s: State, c: Config, t: int, answers: nat -> Answer, u: int, next: nat -> Answer)
    returns (targets: seq<Name>)
    requires ValidConfig(c) && Synced(s, c)
    requires ReportOf(s, c, t, answers, true).Anchored? || ReportOf(s, c, t, answers, true).Retried?
    requires var r := Round(s, c, t, answers); !Unsent(r, c) && exists n :: Lacks(r, c, n)
    ensures var r := Round(s, c, t, answers);
            var q := Round(r, c, u, next);
            && (u < t + c.backoff ==> q == r && ReportOf(r, c, u, next, true).Skipped?)
            && (u >= t + c.backoff ==>
                  && targets != [] && (forall n :: n in targets <==> n in c.backends && Lacks(r, c, n))
                  && q.receipts == r.receipts + ReceiptsFor(c, targets, next, |r.kinds|, Answering(next, |targets|)))
  {
    hide Round, ReportOf, Rebuilt, Lacks, Unsent, ReceiptsFor, IsPartOf;
    var first := RoundExact(s, c, t, answers);
    var r := Round(s, c, t, answers);
    targets := RoundExact(r, c, u, next);
    var n :| Lacks(r, c, n);
    LackingIsThere(r, c, n);
  }

  lemma LackingIsThere(s: State, c: Config, n: Name)
    requires ValidConfig(c) && Lacks(s, c, n)
    ensures n in c.backends
  {
  }

  /** With nothing unsent and nobody lacking anything no clock makes the scheduler act; with something unsent every
      clock makes it ask every backend. */
  lemma ClockMattersOnlyForRetries(s: State, c: Config, now: int, answers: nat -> Answer)
    requires ValidConfig(c) && Synced(s, c)
    ensures !Unsent(s, c) && (forall n :: !Lacks(s, c, n)) ==> Round(s, c, now, answers) == s
    ensures Unsent(s, c) ==>
              Round(s, c, now, answers).receipts ==
              s.receipts + ReceiptsFor(c, c.backends, answers, |s.kinds|, Answering(answers, |c.backends|))
  {
    hide Round, Rebuilt, Lacks, Unsent, ReceiptsFor, IsPartOf;
    var targets := RoundExact(s, c, now, answers);
    assert targets == [] || targets[0] in targets;
  }
}
