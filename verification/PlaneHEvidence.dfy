/** Roots, proofs and the witness log of the governed store (core/plane_h.py:230-281, core/rag_store.py:87-114). */
module PlaneHEvidence {
  import opened Wrappers
  import opened Witness
  import opened MerkleTree
  import opened RagStore
  import opened PlaneH
  import opened PlaneHRuns

  // ----- Redaction and the tree -----

  /** MAIN: redaction leaves every namespace root and every inclusion proof exactly as it was. */
  lemma RedactionKeepsProofs(t: Tables, env: Envelope, ns: string, id: int)
    requires CanRedact(t, env.body)
    ensures var u := Redacted(t, env);
            RootOf(u.chunks, ns) == RootOf(t.chunks, ns) && ProofOf(u.chunks, ns, id) == ProofOf(t.chunks, ns, id)
  {
    hide RootOf, ProofOf;
    ProofsIgnoreText(t.chunks, Redacted(t, env).chunks, ns, id);
  }

  /** The reply to an accepted write carries a proof that verifies against the root now in force. */
  lemma ReplyProves(s: State, cfg: Config, env: Envelope, text: Option<string>, witnessFails: bool)
    requires Reply(s, cfg, env, text, witnessFails).Applied?
    ensures var o := Reply(s, cfg, env, text, witnessFails);
            var t := Write(s, cfg, env, text, witnessFails).tables;
            && o.proof.Some? && Proves(o.proof.value)
            && o.proof.value.leaf == o.hash == t.chunks[o.chunk - 1].hash
            && o.proof.value.root == o.root == RootOf(t.chunks, env.body.ns)
  {
    hide Mutated, Verifies, RootOf, Proves;
    var (t, id) := Mutated(s.tables, env, text).value;
    ProofVerifies(t.chunks, env.body.ns, id);
  }

  /** A call that does not report success has changed nothing; one that does is witnessed. */
  lemma NothingUnwitnessed(s: State, cfg: Config, env: Envelope, text: Option<string>, witnessFails: bool)
    ensures var o, u := Reply(s, cfg, env, text, witnessFails), Write(s, cfg, env, text, witnessFails);
            && (!o.Applied? ==> u == s)
            && (o.Applied? && cfg.witnessed ==> !witnessFails && u.log == s.log + [MemoryRecord(env, o.chunk, o.root)])
  {
    hide Mutated, Verifies, RootOf, ProofOf;
  }

  // ----- Witnessed roots -----

  /** The record's root is the root of the table as it stood with its first n chunks. */
  predicate RootAfter(t: Tables, rec: MemoryRecord, n: int) {
    1 <= rec.chunk <= n <= |t.chunks| && rec.root == RootOf(t.chunks[..n], rec.envelope.body.ns)
  }

  ghost predicate RecordBacked(t: Tables, rec: MemoryRecord) {
    exists n :: RootAfter(t, rec, n)
  }

  ghost predicate LogBacked(s: State) {
    forall rec <- s.log :: RecordBacked(s.tables, rec)
  }

  lemma RecordStaysBacked(t: Tables, u: Tables, rec: MemoryRecord)
    requires Grows(t, u) && RecordBacked(t, rec)
    ensures RecordBacked(u, rec)
  {
    hide RootOf;
    var n :| RootAfter(t, rec, n);
    assert forall i :: 0 <= i < n ==> KeepsChunk(t.chunks[i], u.chunks[i]);
    ProofsIgnoreText(t.chunks[..n], u.chunks[..n], rec.envelope.body.ns, 0);
    assert RootAfter(u, rec, n);
  }

  lemma NewRecordBacked(t: Tables, env: Envelope, id: nat)
    requires 1 <= id <= |t.chunks|
    ensures RecordBacked(t, MemoryRecord(env, id, RootOf(t.chunks, env.body.ns)))
  {
    assert t.chunks[..|t.chunks|] == t.chunks;
    assert RootAfter(t, MemoryRecord(env, id, RootOf(t.chunks, env.body.ns)), |t.chunks|);
  }

  lemma {:induction false} RunsKeepLogBacked(s: State, cfg: Config, es: seq<Event>)
    requires AllAttested(s.tables) && LogBacked(s)
    ensures LogBacked(Run(s, cfg, es))
  {
    hide AllAttested, Grows, RecordBacked, Mutated, Verifies, RootOf;
    if es != [] {
      var before, e := Run(s, cfg, es[..|es| - 1]), es[|es| - 1];
      var after := Perform(before, cfg, e);
      RunsKeepLogBacked(s, cfg, es[..|es| - 1]);
      RunsKeepInvariant(s, cfg, es[..|es| - 1]);
      PerformStep(before, cfg, e);
      forall rec | rec in after.log
        ensures RecordBacked(after.tables, rec)
      {
        if rec in before.log {
          RecordStaysBacked(before.tables, after.tables, rec);
        } else {
          NewRecordBacked(after.tables, rec.envelope, rec.chunk);
        }
      }
    }
  }

  /** MAIN: after any run, whatever verifies against any root ever witnessed is the hash of a chunk still
      held in that namespace, redacted or not. */
  lemma WitnessedLeafIsHeld(cfg: Config, es: seq<Event>, rec: MemoryRecord, p: Proof)
    requires rec in Run(Empty(), cfg, es).log && Proves(p) && p.root == rec.root
    ensures var chunks := Run(Empty(), cfg, es).tables.chunks;
            exists id :: Holds(chunks, rec.envelope.body.ns, id) && chunks[id - 1].hash == p.leaf
  {
    hide Run, Proves, RootOf;
    RunsKeepLogBacked(Empty(), cfg, es);
    var t := Run(Empty(), cfg, es).tables;
    var n :| RootAfter(t, rec, n);
    ProvenLeafIsHeld(t.chunks[..n], rec.envelope.body.ns, p);
    var id :| Holds(t.chunks[..n], rec.envelope.body.ns, id) && t.chunks[..n][id - 1].hash == p.leaf;
    assert Holds(t.chunks, rec.envelope.body.ns, id);
  }

  function Empty(): State {
    State(Tables([], map[]), [], {})
  }

  // ----- The metadata is a function of the witness log -----

  function Replayed(meta: map<int, Meta>, rec: MemoryRecord): map<int, Meta> {
    var b := rec.envelope.body;
    match b.op
    case Add => meta[rec.chunk := Meta(1, None, None, false, rec.envelope, None)]
    case Supersede =>
      if b.target.Some? && b.target.value in meta then
        var m := meta[b.target.value];
        meta[rec.chunk := Meta(m.version + 1, b.target, None, false, rec.envelope, None)]
            [b.target.value := m.(supersededBy := Some(rec.chunk))]
      else meta
    case Redact =>
      if rec.chunk in meta then meta[rec.chunk := meta[rec.chunk].(redacted := true, redaction := Some(rec.envelope))]
      else meta
    case UnknownOp => meta
  }

  function MetaFromLog(log: seq<MemoryRecord>): map<int, Meta> {
    if log == [] then map[] else Replayed(MetaFromLog(log[..|log| - 1]), log[|log| - 1])
  }

  lemma MutationIsReplay(t: Tables, env: Envelope, text: Option<string>, root: Digest<ContentHash>)
    requires Verifies(env, text) && Mutated(t, env, text).Some?
    ensures var (u, id) := Mutated(t, env, text).value; u.meta == Replayed(t.meta, MemoryRecord(env, id, root))
  {
    hide AuthorStatementOk;
  }

  /** MAIN: with a witness attached, over every run of writes, refusals, failing witnesses, policy changes and
      raw inserts, replaying the witness log gives the metadata table: nothing governed is unwitnessed and
      nothing witnessed is missing. */
  lemma {:induction false} MetaIsWitnessed(cfg: Config, es: seq<Event>)
    requires cfg.witnessed
    ensures MetaFromLog(Run(Empty(), cfg, es).log) == Run(Empty(), cfg, es).tables.meta
  {
    hide Mutated, Verifies, RootOf, Replayed;
    if es != [] {
      var before, e := Run(Empty(), cfg, es[..|es| - 1]), es[|es| - 1];
      MetaIsWitnessed(cfg, es[..|es| - 1]);
      if && e.Proposed? && !e.witnessFails && Admitted(before, cfg, e.env, e.text)
         && Mutated(before.tables, e.env, e.text).Some?
      {
        var (t, id) := Mutated(before.tables, e.env, e.text).value;
        var rec := MemoryRecord(e.env, id, RootOf(t.chunks, e.env.body.ns));
        MutationIsReplay(before.tables, e.env, e.text, rec.root);
        assert (before.log + [rec])[..|before.log|] == before.log;
      }
    }
  }

  // ----- Replayed proposals -----

  /** Once applied, a supersede or redact envelope is refused after every further run; an add is not. */
  lemma ReplayRefused(s: State, cfg: Config, env: Envelope, text: Option<string>, es: seq<Event>, again: Option<string>)
    requires AllAttested(s.tables) && Admitted(s, cfg, env, text) && Mutated(s.tables, env, text).Some?
    requires Verifies(env, again)
    ensures var later := Run(s.(tables := Mutated(s.tables, env, text).value.0), cfg, es).tables;
            Mutated(later, env, again).Some? <==> env.body.op == Add
  {
    hide AuthorStatementOk, Linked, Attested;
    var s' := s.(tables := Mutated(s.tables, env, text).value.0);
    MutationStep(s.tables, env, text);
    RunsKeepInvariant(s', cfg, es);
    if env.body.op != Add {
      var target := env.body.target.value;
      assert target in s'.tables.meta;
      assert KeepsMeta(s'.tables.meta[target], Run(s', cfg, es).tables.meta[target]);
    }
  }

  // ----- A commit that is lost -----

  /** The witness record is written and the process stops, or the commit fails, before the tables are. */
  function CommitLost(s: State, cfg: Config, env: Envelope, text: Option<string>): State {
    s.(log := Write(s, cfg, env, text, false).log)
  }

  lemma MutationMoves(t: Tables, env: Envelope, text: Option<string>)
    requires AllLinked(t) && Verifies(env, text) && Mutated(t, env, text).Some?
    ensures Mutated(t, env, text).value.0.meta != t.meta
  {
    hide AuthorStatementOk, NextVersion;
    var u, next := Mutated(t, env, text).value.0, |t.chunks| + 1;
    if env.body.op == Redact {
      assert u.meta[env.body.target.value].redacted && !t.meta[env.body.target.value].redacted;
    } else {
      assert next !in t.meta && next in u.meta;
    }
  }

  /** MAIN: between the witness record and the commit the two can part.  If the commit is lost, the log and the
      metadata agree afterwards exactly when the proposal was not admitted or its operation was refused. */
  lemma LostCommitParts(s: State, cfg: Config, env: Envelope, text: Option<string>)
    requires cfg.witnessed && AllLinked(s.tables) && MetaFromLog(s.log) == s.tables.meta
    ensures MetaFromLog(CommitLost(s, cfg, env, text).log) == s.tables.meta <==>
            !Admitted(s, cfg, env, text) || Mutated(s.tables, env, text).None?
  {
    hide Mutated, Verifies, RootOf, Replayed, AllLinked;
    if Admitted(s, cfg, env, text) && Mutated(s.tables, env, text).Some? {
      var (t, id) := Mutated(s.tables, env, text).value;
      var rec := MemoryRecord(env, id, RootOf(t.chunks, env.body.ns));
      MutationIsReplay(s.tables, env, text, rec.root);
      MutationMoves(s.tables, env, text);
      assert (s.log + [rec])[..|s.log|] == s.log;
    }
  }

  /** The first proposal to a fresh store: it is witnessed as chunk 1 and no chunk exists. */
  lemma LostCommitExample(sk: Key, reserved: set<string>, ns: string, doc: string, text: string, now: int)
    requires text != "" && ns !in reserved
    ensures var made := MakeProposal(sk, Add, ns, doc, Some(text), None, 1.0, Public, None, None, now);
            && made.Some?
            && var s := State(Tables([], map[]), [], {Grant(ns, Add, NodeOf(sk))});
               var lost := CommitLost(s, Config(true, reserved), made.value, Some(text));
               |lost.log| == 1 && lost.log[0].chunk == 1 && lost.tables.chunks == []
  {
    hide RootOf;
    var made := MakeProposal(sk, Add, ns, doc, Some(text), None, 1.0, Public, None, None, now);
    MadeProposalVerifies(sk, Add, ns, doc, Some(text), None, 1.0, Public, None, None, now, Some(text));
    assert made.Some? && Verifies(made.value, Some(text));
  }
}
