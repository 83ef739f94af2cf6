/** core/plane_h.py: signed, authorized and witnessed writes over the chunk table. */
module PlaneH {
  import opened Wrappers
  import opened Witness
  import opened MerkleTree
  import opened RagStore

  // ----- Proposals -----

  datatype Op = Add | Supersede | Redact | UnknownOp

  datatype Access = Public | Internal | Restricted | UnknownAccess

  datatype BeingId = BeingOf(key: Key)

  datatype Proposal = Proposal(
    isProposal: bool, op: Op, ns: string, doc: string, contentHash: Option<ContentHash>, target: Option<int>,
    confidence: real, access: Access, expires: Option<int>, author: NodeId, being: Option<BeingId>, createdAt: int)

  /** The two signing domains: the node's statement and the being's. */
  datatype Statement = Carried(body: Proposal) | Authored(body: Proposal)

  datatype Envelope = Envelope(body: Proposal, pub: Key, sig: Signature<Statement>,
                               beingPub: Option<Key>, beingSig: Option<Signature<Statement>>)

  predicate AuthorStatementOk(env: Envelope) {
    match env.body.being
    case None => env.beingSig.None?
    case Some(b) =>
      && env.beingPub.Some? && env.beingSig.Some?
      && BeingOf(env.beingPub.value) == b
      && env.beingSig.value == SignedBy(env.beingPub.value, Authored(env.body))
  }

  predicate TextOk(body: Proposal, text: Option<string>) {
    body.op == Redact || (text.Some? && body.contentHash == Some(Sha256(text.value)))
  }

  /** verify_write_proposal. */
  predicate Verifies(env: Envelope, text: Option<string>) {
    && env.body.isProposal && env.body.op != UnknownOp
    && NodeOf(env.pub) == env.body.author
    && env.body.access != UnknownAccess
    && 0.0 <= env.body.confidence <= 1.0
    && TextOk(env.body, text)
    && env.sig == SignedBy(env.pub, Carried(env.body))
    && AuthorStatementOk(env)
  }

  /** make_write_proposal; None where it raises. */
  function MakeProposal(sk: Key, op: Op, ns: string, doc: string, text: Option<string>, target: Option<int>,
                        confidence: real, access: Access, expires: Option<int>, beingSk: Option<Key>,
                        now: int): Option<Envelope>
  {
    if op == UnknownOp || (op != Redact && text in {None, Some("")}) || (op != Add && target.None?) then None
    else
      var hash := if text.Some? then Some(Sha256(text.value)) else None;
      var body := Proposal(true, op, ns, doc, hash, target, confidence, access, expires,
                           NodeOf(sk), if beingSk.Some? then Some(BeingOf(beingSk.value)) else None, now);
      Some(Envelope(body, sk, SignedBy(sk, Carried(body)), beingSk,
                    if beingSk.Some? then Some(SignedBy(beingSk.value, Authored(body))) else None))
  }

  /** A made proposal verifies with exactly the text it was made for, if access and confidence are in range. */
  lemma MadeProposalVerifies(sk: Key, op: Op, ns: string, doc: string, text: Option<string>, target: Option<int>,
                             confidence: real, access: Access, expires: Option<int>, beingSk: Option<Key>, now: int,
                             shown: Option<string>)
    ensures var made := MakeProposal(sk, op, ns, doc, text, target, confidence, access, expires, beingSk, now);
            made.Some? ==>
              (Verifies(made.value, shown) <==>
               (op == Redact || shown == text) && access != UnknownAccess && 0.0 <= confidence <= 1.0)
  {
    var made := MakeProposal(sk, op, ns, doc, text, target, confidence, access, expires, beingSk, now);
    if made.Some? {
      assert AuthorStatementOk(made.value);
      assert TextOk(made.value.body, shown) <==> op == Redact || shown == text;
    }
  }

  /** A proposal can be made exactly for a known operation, with a text unless it redacts and a target unless it adds;
      it then carries what it was given, in the name of the keys that sign it. */
  lemma MadeExact(sk: Key, op: Op, ns: string, doc: string, text: Option<string>, target: Option<int>,
                  confidence: real, access: Access, expires: Option<int>, beingSk: Option<Key>, now: int)
    ensures var made := MakeProposal(sk, op, ns, doc, text, target, confidence, access, expires, beingSk, now);
            && (made.Some? <==>
                match op {
                  case Add => text.Some? && text.value != ""
                  case Supersede => text.Some? && text.value != "" && target.Some?
                  case Redact => target.Some?
                  case UnknownOp => false
                })
            && (made.Some? ==>
                  var b := made.value.body;
                  && b.op == op && b.ns == ns && b.doc == doc && b.target == target && b.confidence == confidence
                  && b.access == access && b.expires == expires && b.createdAt == now
                  && (b.contentHash.Some? <==> text.Some?)
                  && (text.Some? ==> b.contentHash == Some(Sha256(text.value)))
                  && b.author == NodeOf(sk) && (b.being.Some? <==> beingSk.Some?)
                  && (beingSk.Some? ==> b.being == Some(BeingOf(beingSk.value))))
  {
  }

  /** After redaction the text is gone, and then the envelope of the removed chunk no longer passes the verifier. */
  lemma EnvelopeNeedsItsText(env: Envelope, shown: Option<string>, text: string)
    requires Verifies(env, Some(text)) && env.body.op != Redact
    ensures Verifies(env, shown) <==> shown == Some(text)
  {
    assert env.body.contentHash == Some(Sha256(text));
  }

  /** A proposal to add, once made, passes with its text and fails without it. */
  lemma ForgottenTextExample(sk: Key, ns: string, doc: string, text: string, now: int)
    requires text != ""
    ensures var made := MakeProposal(sk, Add, ns, doc, Some(text), None, 1.0, Public, None, None, now);
            made.Some? && Verifies(made.value, Some(text)) && !Verifies(made.value, None)
  {
    MadeProposalVerifies(sk, Add, ns, doc, Some(text), None, 1.0, Public, None, None, now, Some(text));
    MadeProposalVerifies(sk, Add, ns, doc, Some(text), None, 1.0, Public, None, None, now, None);
  }

  // ----- Tables -----

  datatype Meta = Meta(version: nat, supersedes: Option<int>, supersededBy: Option<int>, redacted: bool,
                       envelope: Envelope, redaction: Option<Envelope>)

  datatype Tables = Tables(chunks: seq<Chunk>, meta: map<int, Meta>)

  function Inserted(t: Tables, env: Envelope, text: string, version: nat, supersedes: Option<int>): Tables {
    var id := |t.chunks| + 1;
    Tables(t.chunks + [Chunk(env.body.ns, env.body.doc, Some(text), Sha256(text))],
           t.meta[id := Meta(version, supersedes, None, false, env, None)])
  }

  predicate Governed(t: Tables, id: Option<int>) {
    id.Some? && 1 <= id.value <= |t.chunks| && id.value in t.meta
  }

  predicate CanSupersede(t: Tables, b: Proposal) {
    && Governed(t, b.target)
    && var told := t.chunks[b.target.value - 1];
       var m := t.meta[b.target.value];
       told.ns == b.ns && told.doc == b.doc && m.supersededBy.None? && !m.redacted
  }

  predicate CanRedact(t: Tables, b: Proposal) {
    Governed(t, b.target) && t.chunks[b.target.value - 1].ns == b.ns && !t.meta[b.target.value].redacted
  }

  function Superseded(t: Tables, env: Envelope, text: string): Tables
    requires CanSupersede(t, env.body)
  {
    var target := env.body.target.value;
    var t' := Inserted(t, env, text, t.meta[target].version + 1, Some(target));
    t'.(meta := t'.meta[target := t.meta[target].(supersededBy := Some(|t.chunks| + 1))])
  }

  function Redacted(t: Tables, env: Envelope): Tables
    requires CanRedact(t, env.body)
  {
    var target := env.body.target.value;
    Tables(t.chunks[target - 1 := t.chunks[target - 1].(text := None)],
           t.meta[target := t.meta[target].(redacted := true, redaction := Some(env))])
  }

  /** The table change of one verified proposal and the chunk it concerns; None where it is refused. */
  function Mutated(t: Tables, env: Envelope, text: Option<string>): (m: Option<(Tables, nat)>)
    requires Verifies(env, text)
    ensures m.Some? ==> 1 <= m.value.1 <= |m.value.0.chunks| && m.value.1 in m.value.0.meta
    ensures m.Some? ==> m.value.0.chunks[m.value.1 - 1].ns == env.body.ns
  {
    match env.body.op
    case Add => Some((Inserted(t, env, text.value, 1, None), |t.chunks| + 1))
    case Supersede => if CanSupersede(t, env.body) then Some((Superseded(t, env, text.value), |t.chunks| + 1)) else None
    case Redact => if CanRedact(t, env.body) then Some((Redacted(t, env), env.body.target.value)) else None
  }

  // ----- The governed store -----

  /** A MEMORY record: the committed envelope and the public digest. */
  datatype MemoryRecord = MemoryRecord(envelope: Envelope, chunk: nat, root: Digest<ContentHash>)

  datatype Grant = Grant(ns: string, op: Op, author: NodeId)

  datatype State = State(tables: Tables, log: seq<MemoryRecord>, grants: set<Grant>)

  datatype Config = Config(witnessed: bool, reserved: set<string>)

  datatype Outcome =
    | Applied(chunk: nat, hash: ContentHash, version: nat, proof: Option<Proof>, root: Digest<ContentHash>)
    | Rejected
    | ReservedNamespace
    | NotAuthorized
    | Refused
    | WitnessFailed

  predicate Admitted(s: State, cfg: Config, env: Envelope, text: Option<string>) {
    Verifies(env, text) && env.body.ns !in cfg.reserved && Grant(env.body.ns, env.body.op, env.body.author) in s.grants
  }

  function Write(s: State, cfg: Config, env: Envelope, text: Option<string>, witnessFails: bool): State {
    if !Admitted(s, cfg, env, text) then s
    else
      var m := Mutated(s.tables, env, text);
      if m.None? || (cfg.witnessed && witnessFails) then s
      else
        var (t, id) := m.value;
        var rec := MemoryRecord(env, id, RootOf(t.chunks, env.body.ns));
        State(t, if cfg.witnessed then s.log + [rec] else s.log, s.grants)
  }

  /** What the caller of `apply` gets back, or which check raised. */
  function Reply(s: State, cfg: Config, env: Envelope, text: Option<string>, witnessFails: bool): Outcome {
    if !Verifies(env, text) then Rejected
    else if env.body.ns in cfg.reserved then ReservedNamespace
    else if !Admitted(s, cfg, env, text) then NotAuthorized
    else
      var m := Mutated(s.tables, env, text);
      if m.None? then Refused
      else if cfg.witnessed && witnessFails then WitnessFailed
      else
        var (t, id) := m.value;
        Applied(id, t.chunks[id - 1].hash, t.meta[id].version, ProofOf(t.chunks, env.body.ns, id),
                RootOf(t.chunks, env.body.ns))
  }

  class GovernedPlaneH {
    const store: Store
    const cfg: Config
    var meta: map<int, Meta>
    var log: seq<MemoryRecord>
    var grants: set<Grant>

    constructor (store: Store, cfg: Config)
      ensures this.store == store && this.cfg == cfg && meta == map[] && log == [] && grants == {}
    {
      this.store, this.cfg := store, cfg;
      meta, log, grants := map[], [], {};
    }

    ghost function Now(): Tables
      reads this, store
    {
      Tables(store.chunks, meta)
    }

    ghost function StateNow(): State
      reads this, store
    {
      State(Now(), log, grants)
    }

    method ApplyAdd(env: Envelope, text: string) returns (id: nat, version: nat)
      modifies this`meta, store
      ensures Now() == Inserted(old(Now()), env, text, 1, None)
      ensures id == old(|store.chunks|) + 1 && version == 1
    {
      var h;
      id, h := store.Add(env.body.ns, env.body.doc, text);
      version := 1;
      meta := meta[id := Meta(version, None, None, false, env, None)];
    }

    method ApplySupersede(env: Envelope, text: string) returns (ok: bool, id: nat, version: nat)
      modifies this`meta, store
      ensures ok == old(CanSupersede(Now(), env.body))
      ensures ok ==>
                Now() == Superseded(old(Now()), env, text) && id == old(|store.chunks|) + 1
                && version == old(meta)[env.body.target.value].version + 1
      ensures !ok ==> Now() == old(Now())
    {
      var b := env.body;
      if b.target.None? || !(1 <= b.target.value <= |store.chunks|) || b.target.value !in meta {
        return false, 0, 0;
      }
      var target := b.target.value;
      var told := store.chunks[target - 1];
      if told.ns != b.ns || told.doc != b.doc || meta[target].supersededBy.Some? || meta[target].redacted {
        return false, 0, 0;
      }
      var h;
      id, h := store.Add(b.ns, b.doc, text);
      version := meta[target].version + 1;
      meta := meta[id := Meta(version, Some(target), None, false, env, None)];
      meta := meta[target := meta[target].(supersededBy := Some(id))];
      ok := true;
    }

    method ApplyRedact(env: Envelope) returns (ok: bool, id: nat, version: nat)
      modifies this`meta, store
      ensures ok == old(CanRedact(Now(), env.body))
      ensures ok ==>
                Now() == Redacted(old(Now()), env) && id == env.body.target.value && version == old(meta)[id].version
      ensures !ok ==> Now() == old(Now())
    {
      var b := env.body;
      if b.target.None? || !(1 <= b.target.value <= |store.chunks|) || b.target.value !in meta {
        return false, 0, 0;
      }
      id := b.target.value;
      if store.chunks[id - 1].ns != b.ns || meta[id].redacted {
        return false, 0, 0;
      }
      version := meta[id].version;
      store.chunks := store.chunks[id - 1 := store.chunks[id - 1].(text := None)];
      meta := meta[id := meta[id].(redacted := true, redaction := Some(env))];
      ok := true;
    }

    method Mutate(env: Envelope, text: Option<string>) returns (ok: bool, id: nat, version: nat)
      requires Verifies(env, text)
      modifies this`meta, store
      ensures var m := Mutated(old(Now()), env, text);
              ok == m.Some? && Now() == (if ok then m.value.0 else old(Now()))
              && (ok ==> id == m.value.1 && id in meta && version == meta[id].version)
    {
      hide AuthorStatementOk;
      match env.body.op
      case Add =>
        id, version := ApplyAdd(env, text.value);
        ok := true;
      case Supersede =>
        ok, id, version := ApplySupersede(env, text.value);
      case Redact =>
        ok, id, version := ApplyRedact(env);
    }

    /** The store change and the witness record happen together or not at all. */
    method Apply(env: Envelope, text: Option<string>, witnessFails: bool) returns (o: Outcome)
      modifies this, store
      ensures StateNow() == Write(old(StateNow()), cfg, env, text, witnessFails)
      ensures o == Reply(old(StateNow()), cfg, env, text, witnessFails)
    {
      if !Verifies(env, text) {
        return Rejected;
      }
      if env.body.ns in cfg.reserved {
        return ReservedNamespace;
      }
      if Grant(env.body.ns, env.body.op, env.body.author) !in grants {
        return NotAuthorized;
      }
      hide Verifies, Mutated, ProofOf, RootOf;
      var savedChunks, savedMeta := store.chunks, meta;
      var ok, id, version := Mutate(env, text);
      if !ok {
        store.chunks, meta := savedChunks, savedMeta;
        return Refused;
      }
      var proof := store.Prove(env.body.ns, id);
      var root := store.NamespaceRoot(env.body.ns);
      if cfg.witnessed {
        if witnessFails {
          store.chunks, meta := savedChunks, savedMeta;
          return WitnessFailed;
        }
        log := log + [MemoryRecord(env, id, root)];
      }
      o := Applied(id, store.chunks[id - 1].hash, version, proof, root);
    }
  }
}
