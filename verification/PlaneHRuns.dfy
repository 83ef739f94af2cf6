/** What every run of the governed store keeps (core/plane_h.py:8-28). */
module PlaneHRuns {
  import opened Wrappers
  import opened RagStore
  import opened PlaneH

  // ----- The invariant -----

  predicate SameDocument(t: Tables, a: int, b: int)
    requires 1 <= a <= |t.chunks| && 1 <= b <= |t.chunks|
  {
    t.chunks[a - 1].ns == t.chunks[b - 1].ns && t.chunks[a - 1].doc == t.chunks[b - 1].doc
  }

  /** `id` is the next version of `p` in the same document. */
  predicate NextVersion(t: Tables, p: int, id: int) {
    && 1 <= p < id <= |t.chunks| && p in t.meta && id in t.meta
    && t.meta[p].supersededBy == Some(id) && t.meta[id].supersedes == Some(p)
    && t.meta[id].version == t.meta[p].version + 1
    && SameDocument(t, p, id)
  }

  predicate Linked(t: Tables, id: int)
    requires id in t.meta
  {
    var m := t.meta[id];
    && 1 <= id <= |t.chunks|
    && (m.supersedes.None? ==> m.version == 1)
    && (m.supersedes.Some? ==> NextVersion(t, m.supersedes.value, id))
    && (m.supersededBy.Some? ==> NextVersion(t, id, m.supersededBy.value))
  }

  /** The leaf is what the author signed; the text is that leaf's or, once redaction was signed for, gone. */
  predicate Attested(t: Tables, id: int)
    requires id in t.meta && 1 <= id <= |t.chunks|
  {
    var m, c := t.meta[id], t.chunks[id - 1];
    && m.envelope.body.op != Redact && m.envelope.body.ns == c.ns && m.envelope.body.doc == c.doc
    && Verifies(m.envelope, Some(c.hash.text))
    && c.text == (if m.redacted then None else Some(c.hash.text))
    && (m.redacted <==> m.redaction.Some?)
    && (m.redacted ==> RedactionOf(m.redaction.value, c.ns, id))
  }

  predicate RedactionOf(env: Envelope, ns: string, id: int) {
    Verifies(env, None) && env.body.op == Redact && env.body.ns == ns && env.body.target == Some(id)
  }

  ghost predicate AllLinked(t: Tables) {
    forall id :: id in t.meta ==> Linked(t, id)
  }

  ghost predicate AllAttested(t: Tables) {
    AllLinked(t) && forall id :: id in t.meta ==> Attested(t, id)
  }

  // ----- One step -----

  /** What no step changes: the leaf of a chunk, its place in its lineage, and what was once set. */
  ghost predicate Grows(t: Tables, u: Tables) {
    && |t.chunks| <= |u.chunks|
    && (forall i :: 0 <= i < |t.chunks| ==> KeepsChunk(t.chunks[i], u.chunks[i]))
    && (forall id :: id in t.meta ==> id in u.meta && KeepsMeta(t.meta[id], u.meta[id]))
  }

  predicate KeepsChunk(c: Chunk, d: Chunk) {
    d.ns == c.ns && d.doc == c.doc && d.hash == c.hash && (d.text == c.text || d.text == None)
  }

  /** A chunk that was redacted while it was the head stays the head: its lineage has ended. */
  predicate KeepsMeta(m: Meta, n: Meta) {
    && n.version == m.version && n.supersedes == m.supersedes && n.envelope == m.envelope
    && (m.supersededBy.Some? || m.redacted ==> n.supersededBy == m.supersededBy)
    && (m.redacted ==> n.redacted && n.redaction == m.redaction)
  }

  lemma GrowsTransitive(t: Tables, u: Tables, v: Tables)
    requires Grows(t, u) && Grows(u, v)
    ensures Grows(t, v)
  {
    assert forall i :: 0 <= i < |t.chunks| ==>
             KeepsChunk(t.chunks[i], u.chunks[i]) && KeepsChunk(u.chunks[i], v.chunks[i]);
    assert forall id :: id in t.meta ==> KeepsMeta(t.meta[id], u.meta[id]) && KeepsMeta(u.meta[id], v.meta[id]);
  }

  /** Links survive where nothing they mention changes. */
  lemma LinkedFrame(t: Tables, u: Tables, id: int)
    requires Grows(t, u) && id in t.meta && Linked(t, id) && u.meta[id].supersededBy == t.meta[id].supersededBy
    requires t.meta[id].supersedes.Some? ==>
               NextVersion(t, t.meta[id].supersedes.value, id)
               && u.meta[t.meta[id].supersedes.value].supersededBy == Some(id)
    ensures Linked(u, id)
  {
    var m := t.meta[id];
    assert KeepsMeta(m, u.meta[id]) && KeepsChunk(t.chunks[id - 1], u.chunks[id - 1]);
    if m.supersedes.Some? {
      var p := m.supersedes.value;
      assert KeepsMeta(t.meta[p], u.meta[p]) && KeepsChunk(t.chunks[p - 1], u.chunks[p - 1]);
    }
    if m.supersededBy.Some? {
      var c := m.supersededBy.value;
      assert KeepsMeta(t.meta[c], u.meta[c]) && KeepsChunk(t.chunks[c - 1], u.chunks[c - 1]);
    }
  }

  lemma AttestedFrame(t: Tables, u: Tables, id: int)
    requires Grows(t, u) && id in t.meta && 1 <= id <= |t.chunks| && Attested(t, id)
    requires u.chunks[id - 1] == t.chunks[id - 1] && u.meta[id].redacted == t.meta[id].redacted
    requires u.meta[id].redaction == t.meta[id].redaction
    ensures Attested(u, id)
  {
    hide Verifies, RedactionOf;
    assert KeepsMeta(t.meta[id], u.meta[id]);
  }

  /** A new row under a fresh id, with or without governance metadata. */
  lemma InsertGrows(t: Tables, c: Chunk, m: Option<Meta>)
    requires AllLinked(t)
    ensures var u := Tables(t.chunks + [c], if m.Some? then t.meta[|t.chunks| + 1 := m.value] else t.meta);
            Grows(t, u) && forall id :: id in t.meta ==> u.meta[id] == t.meta[id] && id <= |t.chunks| && Linked(u, id)
  {
    var u := Tables(t.chunks + [c], if m.Some? then t.meta[|t.chunks| + 1 := m.value] else t.meta);
    forall id | id in t.meta
      ensures u.meta[id] == t.meta[id] && id <= |t.chunks|
    {
      assert Linked(t, id);
    }
    assert Grows(t, u);
    forall id | id in t.meta
      ensures Linked(u, id)
    {
      assert Linked(t, id);
      LinkedFrame(t, u, id);
    }
  }

  lemma InsertKeepsAttested(t: Tables, env: Envelope, text: string, version: nat, supersedes: Option<int>)
    requires AllAttested(t) && Verifies(env, Some(text)) && env.body.op != Redact
    ensures var u := Inserted(t, env, text, version, supersedes);
            && Grows(t, u) && Attested(u, |u.chunks|)
            && forall id :: id in t.meta ==>
                 u.meta[id] == t.meta[id] && id <= |t.chunks| && Linked(u, id) && Attested(u, id)
  {
    hide Verifies, RedactionOf, NextVersion;
    var u := Inserted(t, env, text, version, supersedes);
    InsertGrows(t, u.chunks[|t.chunks|], Some(u.meta[|t.chunks| + 1]));
    assert Verifies(env, Some(u.chunks[|t.chunks|].hash.text));
    forall id | id in t.meta
      ensures Attested(u, id)
    {
      assert Linked(t, id);
      AttestedFrame(t, u, id);
    }
  }

  lemma AddStep(t: Tables, env: Envelope, text: string)
    requires AllAttested(t) && Verifies(env, Some(text)) && env.body.op != Redact
    ensures var u := Inserted(t, env, text, 1, None); AllAttested(u) && Grows(t, u)
  {
    hide Verifies, Attested, NextVersion;
    InsertKeepsAttested(t, env, text, 1, None);
  }

  lemma SupersedeLinks(t: Tables, env: Envelope, text: string)
    requires AllAttested(t) && Verifies(env, Some(text)) && env.body.op != Redact && CanSupersede(t, env.body)
    ensures var u := Superseded(t, env, text); Grows(t, u) && AllLinked(u)
  {
    hide Verifies, Attested;
    var target, u := env.body.target.value, Superseded(t, env, text);
    InsertGrows(t, u.chunks[|t.chunks|], None);
    assert Grows(t, u);
    assert NextVersion(u, target, |u.chunks|);
    forall id | id in u.meta
      ensures Linked(u, id)
    {
      if id in t.meta && id != target {
        assert Linked(t, id);
        LinkedFrame(t, u, id);
      } else if id == target {
        assert Linked(t, id);
      }
    }
  }

  lemma SupersedeStep(t: Tables, env: Envelope, text: string)
    requires AllAttested(t) && Verifies(env, Some(text)) && env.body.op != Redact && CanSupersede(t, env.body)
    ensures var u := Superseded(t, env, text); AllAttested(u) && Grows(t, u)
  {
    var target := env.body.target.value;
    var v, u := Inserted(t, env, text, t.meta[target].version + 1, Some(target)), Superseded(t, env, text);
    SupersedeLinks(t, env, text);
    InsertKeepsAttested(t, env, text, t.meta[target].version + 1, Some(target));
    hide Verifies, RedactionOf, Linked, NextVersion;
    forall id | id in u.meta
      ensures 1 <= id <= |u.chunks| && Attested(u, id)
    {
      assert id in v.meta && u.chunks == v.chunks && Attested(v, id);
    }
  }

  lemma RedactStep(t: Tables, env: Envelope)
    requires AllAttested(t) && Verifies(env, None) && env.body.op == Redact && CanRedact(t, env.body)
    ensures var u := Redacted(t, env); AllAttested(u) && Grows(t, u)
  {
    hide Verifies, NextVersion;
    var target, u := env.body.target.value, Redacted(t, env);
    assert Attested(t, target);
    assert Grows(t, u);
    forall id | id in u.meta
      ensures Linked(u, id) && Attested(u, id)
    {
      assert Linked(t, id) && Attested(t, id);
      RedactLinked(t, env, id);
      if id != target {
        AttestedFrame(t, u, id);
      }
    }
  }

  lemma RedactLinked(t: Tables, env: Envelope, id: int)
    requires CanRedact(t, env.body) && id in t.meta && Linked(t, id) && Grows(t, Redacted(t, env))
    ensures Linked(Redacted(t, env), id)
  {
    LinkedFrame(t, Redacted(t, env), id);
  }

  /** Every accepted write keeps the tables attested and only adds to what was there. */
  lemma MutationStep(t: Tables, env: Envelope, text: Option<string>)
    requires AllAttested(t) && Verifies(env, text) && Mutated(t, env, text).Some?
    ensures var u := Mutated(t, env, text).value.0; AllAttested(u) && Grows(t, u)
  {
    hide AllAttested, Grows, Inserted, Superseded, Redacted, CanSupersede, CanRedact, AuthorStatementOk;
    match env.body.op
    case Add => AddStep(t, env, text.value);
    case Supersede => SupersedeStep(t, env, text.value);
    case Redact => RedactStep(t, env);
  }

  // ----- Runs -----

  /** A proposal arrives, a chunk is added past governance, or the policy changes. */
  datatype Event =
    | Proposed(env: Envelope, text: Option<string>, witnessFails: bool)
    | RawAdd(ns: string, doc: string, body: string)
    | Regrant(grants: set<Grant>)

  function Perform(s: State, cfg: Config, e: Event): State {
    match e
    case Proposed(env, text, witnessFails) => Write(s, cfg, env, text, witnessFails)
    case RawAdd(ns, doc, body) =>
      s.(tables := s.tables.(chunks := s.tables.chunks + [Chunk(ns, doc, Some(body), Sha256(body))]))
    case Regrant(grants) => s.(grants := grants)
  }

  function Run(s: State, cfg: Config, es: seq<Event>): State {
    if es == [] then s else Perform(Run(s, cfg, es[..|es| - 1]), cfg, es[|es| - 1])
  }

  lemma GrowsReflexive(t: Tables)
    ensures Grows(t, t)
  {
  }

  lemma RawAddStep(t: Tables, c: Chunk)
    requires AllAttested(t)
    ensures var u := t.(chunks := t.chunks + [c]); AllAttested(u) && Grows(t, u)
  {
    hide Verifies, RedactionOf, NextVersion;
    var u := t.(chunks := t.chunks + [c]);
    InsertGrows(t, c, None);
    forall id | id in t.meta
      ensures Attested(u, id)
    {
      AttestedFrame(t, u, id);
    }
  }

  lemma PerformStep(s: State, cfg: Config, e: Event)
    requires AllAttested(s.tables)
    ensures var u := Perform(s, cfg, e).tables; AllAttested(u) && Grows(s.tables, u)
  {
    hide AllAttested, Grows, Mutated, Verifies, RootOf;
    GrowsReflexive(s.tables);
    match e
    case Proposed(env, text, witnessFails) =>
      if Admitted(s, cfg, env, text) && Mutated(s.tables, env, text).Some? {
        MutationStep(s.tables, env, text);
      }
    case RawAdd(ns, doc, body) => RawAddStep(s.tables, Chunk(ns, doc, Some(body), Sha256(body)));
    case Regrant(_) =>
  }

  /** MAIN: over every run the links stay mutually inverse and version-counting inside one document, every
      leaf stays what its author signed, text leaves only under a signed redaction, and nothing set is undone. */
  lemma {:induction false} RunsKeepInvariant(s: State, cfg: Config, es: seq<Event>)
    requires AllAttested(s.tables)
    ensures var u := Run(s, cfg, es).tables; AllAttested(u) && Grows(s.tables, u)
  {
    hide AllAttested, Grows, Perform;
    if es == [] {
      GrowsReflexive(s.tables);
    } else {
      var before := Run(s, cfg, es[..|es| - 1]);
      RunsKeepInvariant(s, cfg, es[..|es| - 1]);
      PerformStep(before, cfg, es[|es| - 1]);
      GrowsTransitive(s.tables, before.tables, Run(s, cfg, es).tables);
    }
  }

  // ----- Lineages -----

  function Origin(t: Tables, id: int): int
    requires AllLinked(t) && id in t.meta
    decreases id
  {
    assert Linked(t, id);
    if t.meta[id].supersedes.None? then id else Origin(t, t.meta[id].supersedes.value)
  }

  lemma {:induction false} VersionsStartAtOne(t: Tables, id: int)
    requires AllLinked(t) && id in t.meta
    ensures t.meta[id].version >= 1 && (t.meta[id].version == 1 <==> t.meta[id].supersedes.None?)
    decreases id
  {
    assert Linked(t, id);
    if t.meta[id].supersedes.Some? {
      VersionsStartAtOne(t, t.meta[id].supersedes.value);
    }
  }

  /** MAIN: a lineage is a line: origin and version name one chunk. */
  lemma {:induction false} LineageIsLinear(t: Tables, a: int, b: int)
    requires AllLinked(t) && a in t.meta && b in t.meta
    requires Origin(t, a) == Origin(t, b) && t.meta[a].version == t.meta[b].version
    ensures a == b
    decreases a
  {
    VersionsStartAtOne(t, a);
    VersionsStartAtOne(t, b);
    assert Linked(t, a) && Linked(t, b);
    if t.meta[a].version > 1 {
      LineageIsLinear(t, t.meta[a].supersedes.value, t.meta[b].supersedes.value);
    }
  }

  lemma {:induction false} EarlierVersion(t: Tables, id: int, v: nat) returns (x: int)
    requires AllLinked(t) && id in t.meta && 1 <= v < t.meta[id].version
    ensures x in t.meta && Origin(t, x) == Origin(t, id) && t.meta[x].version == v && t.meta[x].supersededBy.Some?
    decreases id
  {
    VersionsStartAtOne(t, id);
    assert Linked(t, id);
    x := t.meta[id].supersedes.value;
    if v < t.meta[x].version {
      x := EarlierVersion(t, x, v);
    }
  }

  /** MAIN: each lineage has at most one head, and it is the newest version. */
  lemma OneHead(t: Tables, a: int, b: int)
    requires AllLinked(t) && a in t.meta && b in t.meta && Origin(t, a) == Origin(t, b) && t.meta[a].supersededBy.None?
    ensures t.meta[b].version <= t.meta[a].version && (t.meta[b].supersededBy.None? ==> a == b)
  {
    hide Origin, AllLinked;
    VersionsStartAtOne(t, a);
    VersionsStartAtOne(t, b);
    if t.meta[a].version < t.meta[b].version {
      var x := EarlierVersion(t, b, t.meta[a].version);
      LineageIsLinear(t, a, x);
    } else if t.meta[b].supersededBy.None? {
      if t.meta[b].version < t.meta[a].version {
        var x := EarlierVersion(t, a, t.meta[b].version);
        LineageIsLinear(t, b, x);
      } else {
        LineageIsLinear(t, a, b);
      }
    }
  }
}
