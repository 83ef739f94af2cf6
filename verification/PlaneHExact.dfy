/** Which proposals `apply` accepts, what it answers to the others, and what an accepted one changes
    (core/plane_h.py:128-171, 230-353). */
module PlaneHExact {
  import opened Wrappers
  import opened Witness
  import opened RagStore
  import opened PlaneH
  import opened PlaneHRuns
  import opened PlaneHEvidence

  // ----- Signatures -----

  /** The node that carries the proposal signed it, and so did the being it names as its author. */
  ghost predicate Signed(env: Envelope) {
    && (exists k: Key :: env.body.author == NodeOf(k) && env.pub == k && env.sig == SignedBy(k, Carried(env.body)))
    && match env.body.being {
         case None => env.beingSig == None
         case Some(b) =>
           exists k: Key :: b == BeingOf(k) && env.beingPub == Some(k)
                            && env.beingSig == Some(SignedBy(k, Authored(env.body)))
       }
  }

  /** The proposal says something that can be done, and shows the text whose hash was signed. */
  ghost predicate WellPut(b: Proposal, text: Option<string>) {
    && b.isProposal && (b.op == Add || b.op == Supersede || b.op == Redact)
    && (b.access == Public || b.access == Internal || b.access == Restricted)
    && 0.0 <= b.confidence <= 1.0
    && (b.op == Redact || exists words :: text == Some(words) && b.contentHash == Some(Sha256(words)))
  }

  /** A proposal verifies exactly when it is well put and signed, by the node that carries it and the being it names. */
  lemma VerifiesIff(env: Envelope, text: Option<string>)
    ensures Verifies(env, text) <==> Signed(env) && WellPut(env.body, text)
  {
    SignedIff(env);
    hide Signed, AuthorStatementOk;
  }

  lemma SignedIff(env: Envelope)
    ensures Signed(env) <==>
            NodeOf(env.pub) == env.body.author && env.sig == SignedBy(env.pub, Carried(env.body))
            && AuthorStatementOk(env)
  {
  }

  // ----- Answers -----

  /** The target is a governed chunk of this namespace that has not been redacted. */
  ghost predicate Stands(t: Tables, b: Proposal) {
    exists id: int :: b.target == Some(id) && 1 <= id <= |t.chunks| && id in t.meta
                      && t.chunks[id - 1].ns == b.ns && !t.meta[id].redacted
  }

  /** ... and is the newest version of this document. */
  ghost predicate IsNewest(t: Tables, b: Proposal) {
    exists id: int :: b.target == Some(id) && 1 <= id <= |t.chunks| && id in t.meta
                      && t.chunks[id - 1].doc == b.doc && t.meta[id].supersededBy == None
  }

  ghost predicate Possible(t: Tables, b: Proposal) {
    match b.op
    case Add => true
    case Supersede => Stands(t, b) && IsNewest(t, b)
    case Redact => Stands(t, b)
    case UnknownOp => false
  }

  lemma PossibleIff(t: Tables, env: Envelope, text: Option<string>)
    requires Verifies(env, text)
    ensures Mutated(t, env, text).Some? <==> Possible(t, env.body)
  {
    hide AuthorStatementOk, Inserted, Superseded, Redacted;
  }

  /** MAIN: each answer of `apply` is given exactly when its reason holds and no earlier one does: a bad proposal, a
      reserved namespace, a missing grant for this namespace, operation and author, a target that does not allow it, a
      witness that fails.  It succeeds in every other case. */
  lemma AnswerExact(s: State, cfg: Config, env: Envelope, text: Option<string>, witnessFails: bool)
    ensures var o, b := Reply(s, cfg, env, text, witnessFails), env.body;
            var proper := Signed(env) && WellPut(b, text);
            var open := proper && b.ns !in cfg.reserved;
            var granted := open && Grant(b.ns, b.op, b.author) in s.grants;
            var possible := granted && Possible(s.tables, b);
            && (o.Rejected? <==> !proper)
            && (o.ReservedNamespace? <==> proper && b.ns in cfg.reserved)
            && (o.NotAuthorized? <==> open && !granted)
            && (o.Refused? <==> granted && !possible)
            && (o.WitnessFailed? <==> possible && cfg.witnessed && witnessFails)
            && (o.Applied? <==> possible && !(cfg.witnessed && witnessFails))
  {
    VerifiesIff(env, text);
    hide Verifies, Signed, WellPut, Possible, Mutated, RootOf, ProofOf;
    if Verifies(env, text) {
      PossibleIff(s.tables, env, text);
    }
  }

  // ----- Effects -----

  /** MAIN: an accepted addition or new version appends one chunk with the proposal's namespace, document and text
      under the next id, at version 1 or one above its target, and touches no other chunk. */
  lemma AcceptedTextIsStored(s: State, cfg: Config, env: Envelope, text: Option<string>, witnessFails: bool)
    requires Reply(s, cfg, env, text, witnessFails).Applied? && env.body.op != Redact
    ensures var t, u := s.tables, Write(s, cfg, env, text, witnessFails).tables;
            var o := Reply(s, cfg, env, text, witnessFails);
            var id := |t.chunks| + 1;
            && text.Some? && o.chunk == id && o.hash == Sha256(text.value)
            && u.chunks == t.chunks + [Chunk(env.body.ns, env.body.doc, text, Sha256(text.value))]
            && id in u.meta && u.meta[id].envelope == env && u.meta[id].version == o.version
            && !u.meta[id].redacted && u.meta[id].supersededBy == None
            && (env.body.op == Add ==> o.version == 1 && u.meta[id].supersedes == None)
            && (env.body.op == Supersede ==>
                  && env.body.target.Some? && env.body.target.value in t.meta && env.body.target.value in u.meta
                  && o.version == t.meta[env.body.target.value].version + 1 && u.meta[id].supersedes == env.body.target
                  && u.meta[env.body.target.value].supersededBy == Some(id))
            && forall x :: x in t.meta && x != id && (env.body.op == Add || Some(x) != env.body.target) ==>
                 x in u.meta && u.meta[x] == t.meta[x]
  {
    hide AuthorStatementOk, RootOf, ProofOf;
  }

  /** MAIN: an accepted redaction removes the target's text, marks it with the envelope that asked for it, and changes
      nothing else: not its hash, and no other chunk or row. */
  lemma AcceptedRedactionRemoves(s: State, cfg: Config, env: Envelope, text: Option<string>, witnessFails: bool)
    requires Reply(s, cfg, env, text, witnessFails).Applied? && env.body.op == Redact
    ensures var t, u := s.tables, Write(s, cfg, env, text, witnessFails).tables;
            var o := Reply(s, cfg, env, text, witnessFails);
            && 1 <= o.chunk <= |t.chunks| && env.body.target == Some(o.chunk) && |u.chunks| == |t.chunks|
            && u.chunks[o.chunk - 1] == t.chunks[o.chunk - 1].(text := None)
            && (forall i :: 0 <= i < |t.chunks| && i != o.chunk - 1 ==> u.chunks[i] == t.chunks[i])
            && o.chunk in t.meta && u.meta.Keys == t.meta.Keys
            && u.meta[o.chunk] == t.meta[o.chunk].(redacted := true, redaction := Some(env))
            && (forall x :: x in t.meta && x != o.chunk ==> u.meta[x] == t.meta[x])
            && o.hash == t.chunks[o.chunk - 1].hash && o.version == t.meta[o.chunk].version
  {
    hide AuthorStatementOk, RootOf, ProofOf;
  }

  // ----- Whole runs -----

  /** Event k proposed what the record says, and was properly signed and granted at that time. */
  ghost predicate GrantedAt(cfg: Config, es: seq<Event>, k: int, rec: MemoryRecord) {
    && 0 <= k < |es| && es[k].Proposed? && es[k].env == rec.envelope
    && Signed(rec.envelope) && WellPut(rec.envelope.body, es[k].text)
    && rec.envelope.body.ns !in cfg.reserved
    && var b := rec.envelope.body; Grant(b.ns, b.op, b.author) in Run(Empty(), cfg, es[..k]).grants
  }

  /** MAIN: behind every record of the witness log of any run stands a proposal of that run, signed by its node and its
      being, outside the reserved namespaces and granted by the policy in force when it arrived. */
  lemma {:induction false} WitnessedWasGranted(cfg: Config, es: seq<Event>, rec: MemoryRecord) returns (k: int)
    requires rec in Run(Empty(), cfg, es).log
    ensures GrantedAt(cfg, es, k, rec)
    decreases |es|
  {
    hide Signed, WellPut, Verifies, Mutated, RootOf;
    var n := |es| - 1;
    var before, e := Run(Empty(), cfg, es[..n]), es[n];
    if rec in before.log {
      k := WitnessedWasGranted(cfg, es[..n], rec);
      assert es[..n][..k] == es[..k];
    } else {
      k := n;
      VerifiesIff(e.env, e.text);
    }
  }
}
