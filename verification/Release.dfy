/** jjdai/release.py: release attestations judged at their position in the witness chain. */
module Release {
  import opened Wrappers
  import opened Witness
  import opened Ranges

  type KeyId = nat

  datatype Role = Builder | Verifier

  datatype Transition = Activated | Revoked

  datatype Control = Control(threshold: int, keys: int, devices: int, principals: int)

  /** `wellFormed` is the verdict of the field-by-field schema validation. */
  datatype Statement = Statement(wellFormed: bool, version: nat, tree: nat, control: Control, rest: nat)

  datatype StatementHash = HashOfStatement(statement: Statement)

  datatype ApprovalBody = ApprovalBody(statementHash: StatementHash, keyId: KeyId, principal: nat, device: nat,
                                       role: Role, rest: nat)

  datatype Approval = Approval(wellFormed: bool, body: ApprovalBody, sig: Signature<ApprovalBody>)

  datatype Attestation = Attestation(schemaOk: bool, statement: Statement, statementHash: StatementHash,
                                     approvals: seq<Approval>)

  datatype Provenance = Provenance(attestation: Attestation, statementHash: StatementHash, version: nat, tree: nat)

  datatype RevocationClaim = RevocationClaim(statementHash: StatementHash, keyId: KeyId, reason: nat)

  datatype Revocation = Revocation(schemaOk: bool, claim: RevocationClaim, sig: Signature<RevocationClaim>)

  /** Hashes are free constructors over what they address. */
  datatype ProvenanceHash = OfRelease(p: Provenance) | OfRevocation(r: Revocation) | OfOther(n: nat)

  datatype SemanticDigest =
    | LifecycleDigest(keyId: KeyId, transition: Transition, public: Key)
    | RevocationDigest(statementHash: StatementHash)
    | AttestationDigest(attestation: Attestation)
    | OtherDigest(n: nat)

  datatype Kind = KeyActivated | KeyRevoked | ReleaseAttested | ReleaseRevoked | OtherKind(name: nat)

  datatype Content = Content(kind: Kind, digest: SemanticDigest, provenance: Option<ProvenanceHash>)

  type Chain = seq<Record<Content>>

  datatype RegisteredKey = RegisteredKey(keyId: KeyId, public: Key, device: nat, principal: nat, roles: set<Role>,
                                         activated: int, revoked: Option<int>)

  type Registry = map<KeyId, RegisteredKey>

  /** What the registry loader guarantees about the keys of the dictionary. */
  predicate Keyed(reg: Registry) {
    forall k :: k in reg ==> reg[k].keyId == k
  }

  function Publics(reg: Registry): map<KeyId, Key> {
    map k | k in reg :: reg[k].public
  }

  /** The facts from outside the statement.  `external` stands for the tag, tree, acceptance,
      environment, byte and rebuild checks, which see the registry through its public keys only;
      `reader` resolves a revocation body from its hash. */
  datatype Context = Context(complete: bool, debtClear: bool,
                             external: (Statement, seq<Approval>, map<KeyId, Key>) -> bool,
                             reader: Option<ProvenanceHash -> Option<Revocation>>)

  // ----- Key validity at a position -----

  predicate KeyValidAt(key: RegisteredKey, at: int) {
    at >= key.activated && (key.revoked.Some? ==> at < key.revoked.value)
  }

  /** Python indexing: a negative position counts from the end. */
  function RecordAt(chain: Chain, position: int): Option<Record<Content>> {
    if 0 <= position < |chain| then Some(chain[position])
    else if -|chain| <= position < 0 then Some(chain[|chain| + position])
    else None
  }

  /** Each record is found at its index and at its index from the end, and nowhere else is there one. */
  lemma RecordAtExact(chain: Chain, position: int, k: nat)
    ensures RecordAt(chain, position).Some? <==> -|chain| <= position < |chain|
    ensures k < |chain| ==> RecordAt(chain, k) == RecordAt(chain, k - |chain|) == Some(chain[k])
  {
  }

  function KindOf(t: Transition): Kind {
    if t == Activated then KeyActivated else KeyRevoked
  }

  predicate Names(c: Content, keyId: KeyId, public: Key, t: Transition) {
    c.kind == KindOf(t) && c.digest == LifecycleDigest(keyId, t, public)
  }

  /** The index of the first of the first n records naming the transition: `lifecycle_projection`. */
  function First(chain: Chain, n: nat, keyId: KeyId, public: Key, t: Transition): (at: Option<int>)
    requires n <= |chain|
  {
    if n == 0 then None
    else
      var before := First(chain, n - 1, keyId, public, t);
      if before.Some? then before
      else if Names(chain[n - 1].body.content, keyId, public, t) then Some(chain[n - 1].body.index)
      else None
  }

  /** Every position naming the transition, in chain order. */
  function Positions(chain: Chain, n: nat, keyId: KeyId, public: Key, t: Transition): (ps: seq<int>)
    requires n <= |chain|
    ensures First(chain, n, keyId, public, t) == if ps == [] then None else Some(ps[0])
  {
    if n == 0 then []
    else
      Positions(chain, n - 1, keyId, public, t)
      + if Names(chain[n - 1].body.content, keyId, public, t) then [chain[n - 1].body.index] else []
  }

  function Declared(key: RegisteredKey, t: Transition): Option<int> {
    if t == Activated then Some(key.activated) else key.revoked
  }

  predicate TransitionWitnessed(key: RegisteredKey, chain: Chain, t: Transition) {
    var declared, first := Declared(key, t), First(chain, |chain|, key.keyId, key.public, t);
    && (declared.Some? ==>
          var r := RecordAt(chain, declared.value); r.Some? && Names(r.value.body.content, key.keyId, key.public, t))
    && (declared.None? ==> first.None?)
    && (declared.Some? && first.Some? ==> declared.value == first.value)
  }

  predicate KeyWitnessed(key: RegisteredKey, chain: Chain) {
    TransitionWitnessed(key, chain, Activated) && TransitionWitnessed(key, chain, Revoked)
  }

  predicate LifecycleWitnessed(reg: Registry, chain: Chain) {
    forall k :: k in reg ==> KeyWitnessed(reg[k], chain)
  }

  /** The projection loop, both transitions at once. */
  method LifecycleProjection(chain: Chain, key: RegisteredKey) returns (activated: seq<int>, revoked: seq<int>)
    ensures activated == Positions(chain, |chain|, key.keyId, key.public, Activated)
    ensures revoked == Positions(chain, |chain|, key.keyId, key.public, Revoked)
  {
    activated, revoked := [], [];
    for i := 0 to |chain|
      invariant activated == Positions(chain, i, key.keyId, key.public, Activated)
      invariant revoked == Positions(chain, i, key.keyId, key.public, Revoked)
    {
      var c := chain[i].body.content;
      if c.kind == KeyActivated {
        if c.digest == LifecycleDigest(key.keyId, Activated, key.public) {
          activated := activated + [chain[i].body.index];
        }
      } else if c.kind == KeyRevoked {
        if c.digest == LifecycleDigest(key.keyId, Revoked, key.public) {
          revoked := revoked + [chain[i].body.index];
        }
      }
    }
  }

  predicate PositionNames(key: RegisteredKey, chain: Chain, declared: Option<int>, t: Transition) {
    declared.Some? ==>
      var r := RecordAt(chain, declared.value); r.Some? && Names(r.value.body.content, key.keyId, key.public, t)
  }

  method CheckKey(key: RegisteredKey, chain: Chain) returns (ok: bool)
    ensures ok <==> KeyWitnessed(key, chain)
  {
    hide First, Positions, RecordAt, Names;
    if !PositionNames(key, chain, Some(key.activated), Activated) || !PositionNames(key, chain, key.revoked, Revoked) {
      return false;
    }
    var activated, revoked := LifecycleProjection(chain, key);
    var okA := activated == [] || key.activated == activated[0];
    var okR := if key.revoked.None? then revoked == [] else revoked == [] || key.revoked.value == revoked[0];
    return okA && okR;
  }

  method CheckLifecycleWitnessed(reg: Registry, chain: Chain) returns (ok: bool)
    ensures ok <==> LifecycleWitnessed(reg, chain)
  {
    hide KeyWitnessed;
    var rest := reg.Keys;
    while rest != {}
      invariant rest <= reg.Keys && forall k :: k in reg && k !in rest ==> KeyWitnessed(reg[k], chain)
      decreases rest
    {
      var k := Pick(rest);
      ok := CheckKey(reg[k], chain);
      if !ok {
        return false;
      }
      rest := rest - {k};
    }
    ok := true;
  }

  // ----- Revocation by name -----

  predicate Revokes(c: Content, s: Statement) {
    c.kind == ReleaseRevoked && c.digest == RevocationDigest(HashOfStatement(s))
  }

  ghost predicate RevokedIn(chain: Chain, s: Statement) {
    exists i :: 0 <= i < |chain| && Revokes(chain[i].body.content, s)
  }

  predicate FirstRevocation(chain: Chain, i: int, s: Statement) {
    && 0 <= i < |chain| && Revokes(chain[i].body.content, s)
    && forall j :: 0 <= j < i ==> !Revokes(chain[j].body.content, s)
  }

  datatype Code = RevokedUnresolved | KeyNotValid | ReleaseIsRevoked

  /** How one matching record refuses.  Every path refuses. */
  function RevocationCode(r: Record<Content>, s: Statement, reg: Registry, ctx: Context): Code {
    if ctx.reader.None? || r.body.content.provenance.None? then RevokedUnresolved
    else
      var body := ctx.reader.value(r.body.content.provenance.value);
      if body.None? || OfRevocation(body.value) != r.body.content.provenance.value || !body.value.schemaOk
      then RevokedUnresolved
      else if body.value.claim.statementHash != HashOfStatement(s) || body.value.claim.keyId !in reg
      then RevokedUnresolved
      else if body.value.sig != SignedBy(reg[body.value.claim.keyId].public, body.value.claim) then RevokedUnresolved
      else if !KeyValidAt(reg[body.value.claim.keyId], r.body.index) then KeyNotValid
      else ReleaseIsRevoked
  }

  method CheckNotRevoked(s: Statement, chain: Chain, reg: Registry, ctx: Context) returns (code: Option<Code>)
    ensures code.Some? <==> RevokedIn(chain, s)
    ensures code.Some? ==>
              exists i :: FirstRevocation(chain, i, s) && code.value == RevocationCode(chain[i], s, reg, ctx)
  {
    for i := 0 to |chain|
      invariant forall j :: 0 <= j < i ==> !Revokes(chain[j].body.content, s)
    {
      if Revokes(chain[i].body.content, s) {
        assert FirstRevocation(chain, i, s);
        return Some(RevocationCode(chain[i], s, reg, ctx));
      }
    }
    code := None;
  }

  // ----- The attestation -----

  predicate ApprovalOk(a: Approval, want: StatementHash, reg: Registry, at: int) {
    && a.wellFormed && a.body.statementHash == want && a.body.keyId in reg
    && var key := reg[a.body.keyId];
    && KeyValidAt(key, at) && a.body.role in key.roles
    && a.body.device == key.device && a.body.principal == key.principal
    && a.sig == SignedBy(key.public, a.body)
  }

  function KeysOf(approvals: seq<Approval>): set<KeyId> {
    set i | 0 <= i < |approvals| :: approvals[i].body.keyId
  }

  function DevicesOf(approvals: seq<Approval>): set<nat> {
    set i | 0 <= i < |approvals| :: approvals[i].body.device
  }

  function PrincipalsOf(approvals: seq<Approval>): set<nat> {
    set i | 0 <= i < |approvals| :: approvals[i].body.principal
  }

  function RolesOf(approvals: seq<Approval>): set<Role> {
    set i | 0 <= i < |approvals| :: approvals[i].body.role
  }

  /** No key and no device approves twice. */
  predicate AllDistinct(approvals: seq<Approval>) {
    forall i, j :: 0 <= i < j < |approvals| ==>
      approvals[i].body.keyId != approvals[j].body.keyId && approvals[i].body.device != approvals[j].body.device
  }

  predicate ControlMatches(s: Statement, approvals: seq<Approval>) {
    && s.control.threshold == |approvals| && s.control.keys == |KeysOf(approvals)|
    && s.control.devices == |DevicesOf(approvals)| && s.control.principals == |PrincipalsOf(approvals)|
    && |KeysOf(approvals)| >= 2 && |DevicesOf(approvals)| >= 2
  }

  predicate AttestationOk(att: Attestation, reg: Registry, at: int, ctx: Context) {
    && att.schemaOk && att.statement.wellFormed && att.statementHash == HashOfStatement(att.statement)
    && (forall i :: 0 <= i < |att.approvals| ==> ApprovalOk(att.approvals[i], att.statementHash, reg, at))
    && AllDistinct(att.approvals)
    && Builder in RolesOf(att.approvals) && Verifier in RolesOf(att.approvals)
    && ControlMatches(att.statement, att.approvals)
    && ctx.external(att.statement, att.approvals, Publics(reg))
  }

  /** The approval loop: it fills the key, device, principal and role sets, and stops at a bad
      approval, a reused key or a reused device. */
  method CountApprovals(approvals: seq<Approval>, want: StatementHash, reg: Registry, at: int)
    returns (ok: bool, keys: set<KeyId>, devices: set<nat>, principals: set<nat>, roles: set<Role>)
    requires Keyed(reg)
    ensures ok <==>
            (forall i :: 0 <= i < |approvals| ==> ApprovalOk(approvals[i], want, reg, at)) && AllDistinct(approvals)
    ensures ok ==>
              keys == KeysOf(approvals) && devices == DevicesOf(approvals) && principals == PrincipalsOf(approvals)
              && roles == RolesOf(approvals)
  {
    keys, devices, principals, roles := {}, {}, {}, {};
    for n := 0 to |approvals|
      invariant forall i :: 0 <= i < n ==> ApprovalOk(approvals[i], want, reg, at)
      invariant AllDistinct(approvals[..n])
      invariant keys == KeysOf(approvals[..n]) && devices == DevicesOf(approvals[..n])
      invariant principals == PrincipalsOf(approvals[..n]) && roles == RolesOf(approvals[..n])
    {
      var a := approvals[n];
      if !ApprovalOk(a, want, reg, at) {
        return false, keys, devices, principals, roles;
      }
      var key := reg[a.body.keyId];
      SetsOneMore(approvals, n);
      if key.keyId in keys || key.device in devices {
        ReuseBreaksDistinct(approvals, n);
        return false, keys, devices, principals, roles;
      }
      DistinctOneMore(approvals, n);
      keys, devices := keys + {key.keyId}, devices + {key.device};
      principals, roles := principals + {key.principal}, roles + {a.body.role};
    }
    assert approvals[..|approvals|] == approvals;
    ok := true;
  }

  lemma SetsOneMore(approvals: seq<Approval>, n: nat)
    requires n < |approvals|
    ensures KeysOf(approvals[..n + 1]) == KeysOf(approvals[..n]) + {approvals[n].body.keyId}
    ensures DevicesOf(approvals[..n + 1]) == DevicesOf(approvals[..n]) + {approvals[n].body.device}
    ensures PrincipalsOf(approvals[..n + 1]) == PrincipalsOf(approvals[..n]) + {approvals[n].body.principal}
    ensures RolesOf(approvals[..n + 1]) == RolesOf(approvals[..n]) + {approvals[n].body.role}
  {
    var m, p := approvals[..n], approvals[..n + 1];
    assert forall i :: 0 <= i < n ==> p[i] == m[i];
    assert p[n] == approvals[n];
    assert forall i :: 0 <= i < |p| ==> p[i].body.keyId in KeysOf(m) + {approvals[n].body.keyId};
    assert forall i :: 0 <= i < |m| ==> p[i].body.keyId in KeysOf(p);
  }

  lemma ReuseBreaksDistinct(approvals: seq<Approval>, n: nat)
    requires n < |approvals|
    requires approvals[n].body.keyId in KeysOf(approvals[..n]) || approvals[n].body.device in DevicesOf(approvals[..n])
    ensures !AllDistinct(approvals)
  {
    var m := approvals[..n];
    if approvals[n].body.keyId in KeysOf(m) {
      var i :| 0 <= i < |m| && m[i].body.keyId == approvals[n].body.keyId;
      assert approvals[i].body.keyId == approvals[n].body.keyId;
    } else {
      var i :| 0 <= i < |m| && m[i].body.device == approvals[n].body.device;
      assert approvals[i].body.device == approvals[n].body.device;
    }
  }

  lemma DistinctOneMore(approvals: seq<Approval>, n: nat)
    requires n < |approvals| && AllDistinct(approvals[..n]) && approvals[n].body.keyId !in KeysOf(approvals[..n])
    requires approvals[n].body.device !in DevicesOf(approvals[..n])
    ensures AllDistinct(approvals[..n + 1])
  {
    var m, p := approvals[..n], approvals[..n + 1];
    forall i, j | 0 <= i < j < |p|
      ensures p[i].body.keyId != p[j].body.keyId && p[i].body.device != p[j].body.device
    {
      assert p[i] == m[i];
      if j < n {
        assert p[j] == m[j];
      } else {
        assert m[i].body.keyId in KeysOf(m) && m[i].body.device in DevicesOf(m);
      }
    }
  }

  method VerifyAttestation(att: Attestation, reg: Registry, at: int, ctx: Context) returns (counted: Option<Control>)
    requires Keyed(reg)
    ensures counted.Some? <==> AttestationOk(att, reg, at, ctx)
    ensures counted.Some? ==> counted.value == att.statement.control
  {
    hide AllDistinct, ApprovalOk;
    if !att.schemaOk || !att.statement.wellFormed || att.statementHash != HashOfStatement(att.statement) {
      return None;
    }
    var ok, keys, devices, principals, roles := CountApprovals(att.approvals, att.statementHash, reg, at);
    if !ok || Builder !in roles || Verifier !in roles {
      return None;
    }
    var c := Control(|att.approvals|, |keys|, |devices|, |principals|);
    if c != att.statement.control || c.keys < 2 || c.devices < 2 {
      return None;
    }
    if !ctx.external(att.statement, att.approvals, Publics(reg)) {
      return None;
    }
    counted := Some(c);
  }

  // ----- Publication -----

  datatype WitnessRef = WitnessRef(index: int, thisHash: Hash<Content>, provenance: Option<Provenance>)

  datatype Publication = Publication(schemaOk: bool, attestation: Attestation, ref: WitnessRef)

  function ReleaseProvenance(att: Attestation): Provenance {
    Provenance(att, att.statementHash, att.statement.version, att.statement.tree)
  }

  ghost predicate Publishable(att: Attestation, chain: Chain, node: Key, reg: Registry, ctx: Context) {
    && ctx.complete && ctx.debtClear
    && Sound(chain, node) && LifecycleWitnessed(reg, chain) && !RevokedIn(chain, att.statement)
    && AttestationOk(att, reg, |chain|, ctx)
  }

  function NextRecord(chain: Chain, node: Key, content: Content): Record<Content> {
    var body := Body(|chain|, HeadOf(chain), NodeOf(node), content);
    Record(body, HashOf(body), SignedBy(node, HashOf(body)))
  }

  function AttestedContent(att: Attestation): Content {
    Content(ReleaseAttested, AttestationDigest(att), Some(OfRelease(ReleaseProvenance(att))))
  }

  function PublicationAt(att: Attestation, chain: Chain, node: Key): Publication {
    Publication(true, att,
                WitnessRef(|chain|, NextRecord(chain, node, AttestedContent(att)).thisHash,
                           Some(ReleaseProvenance(att))))
  }

  ghost predicate PublicationOk(p: Publication, chain: Chain, node: Key, reg: Registry, ctx: Context) {
    && p.schemaOk
    && LifecycleWitnessed(reg, chain) && !RevokedIn(chain, p.attestation.statement) && Sound(chain, node)
    && var r := RecordAt(chain, p.ref.index);
    && r.Some? && r.value.body.content.kind == ReleaseAttested && r.value.thisHash == p.ref.thisHash
    && p.ref.provenance.Some? && r.value.body.content.provenance == Some(OfRelease(p.ref.provenance.value))
    && p.ref.provenance.value == ReleaseProvenance(p.attestation)
    && AttestationOk(p.attestation, reg, p.ref.index, ctx)
  }

  method VerifyPublication(p: Publication, chain: Chain, node: Key, reg: Registry, ctx: Context)
    returns (counted: Option<Control>)
    requires Keyed(reg)
    ensures counted.Some? <==> PublicationOk(p, chain, node, reg, ctx)
    ensures counted.Some? ==> counted.value == p.attestation.statement.control
  {
    hide LifecycleWitnessed, AttestationOk, Sound, RevokedIn;
    if !p.schemaOk {
      return None;
    }
    var ok := CheckLifecycleWitnessed(reg, chain);
    var code := CheckNotRevoked(p.attestation.statement, chain, reg, ctx);
    if !ok || code.Some? {
      return None;
    }
    var sound := VerifyChain(chain, node);
    var r := RecordAt(chain, p.ref.index);
    if !sound || r.None? || r.value.body.content.kind != ReleaseAttested || r.value.thisHash != p.ref.thisHash {
      return None;
    }
    if p.ref.provenance.None? || r.value.body.content.provenance != Some(OfRelease(p.ref.provenance.value)) {
      return None;
    }
    if p.ref.provenance.value != ReleaseProvenance(p.attestation) {
      return None;
    }
    counted := VerifyAttestation(p.attestation, reg, p.ref.index, ctx);
  }

  ghost predicate Revocable(keyId: KeyId, reason: Option<nat>, signer: Key, chain: Chain, node: Key, reg: Registry) {
    && reason.Some? && keyId in reg && reg[keyId].public == signer
    && Sound(chain, node) && KeyWitnessed(reg[keyId], chain) && KeyValidAt(reg[keyId], |chain|)
  }

  function RevokedContent(h: StatementHash, keyId: KeyId, reason: nat, signer: Key): Content {
    var claim := RevocationClaim(h, keyId, reason);
    Content(ReleaseRevoked, RevocationDigest(h), Some(OfRevocation(Revocation(true, claim, SignedBy(signer, claim)))))
  }

  /** The chain as the release code writes it, one lock hold per call. */
  class ReleaseChain {
    const node: Key
    var records: Chain

    constructor (node: Key)
      ensures this.node == node && records == []
    {
      this.node := node;
      records := [];
    }

    method Publish(att: Attestation, reg: Registry, ctx: Context) returns (p: Option<Publication>)
      requires Keyed(reg)
      modifies this
      ensures p.Some? <==> Publishable(att, old(records), node, reg, ctx)
      ensures p.None? ==> records == old(records)
      ensures p.Some? ==> p.value == PublicationAt(att, old(records), node)
                          && records == old(records) + [NextRecord(old(records), node, AttestedContent(att))]
    {
      hide LifecycleWitnessed, AttestationOk, Sound, RevokedIn;
      if !ctx.complete || !ctx.debtClear {
        return None;
      }
      var sound := VerifyChain(records, node);
      var ok := CheckLifecycleWitnessed(reg, records);
      var code := CheckNotRevoked(att.statement, records, reg, ctx);
      if !sound || !ok || code.Some? {
        return None;
      }
      var seqNo := |records|;
      var counted := VerifyAttestation(att, reg, seqNo, ctx);
      if counted.None? {
        return None;
      }
      var r := NextRecord(records, node, AttestedContent(att));
      records := records + [r];
      p := Some(Publication(true, att, WitnessRef(seqNo, r.thisHash, Some(ReleaseProvenance(att)))));
    }

    method RevokeRelease(h: StatementHash, keyId: KeyId, reason: Option<nat>, signer: Key, reg: Registry)
      returns (done: bool)
      modifies this
      ensures done <==> Revocable(keyId, reason, signer, old(records), node, reg)
      ensures !done ==> records == old(records)
      ensures done ==>
                var c := RevokedContent(h, keyId, reason.value, signer);
                records == old(records) + [NextRecord(old(records), node, c)]
    {
      hide KeyWitnessed, Sound;
      if reason.None? || keyId !in reg {
        return false;
      }
      var claim := RevocationClaim(h, keyId, reason.value);
      if SignedBy(signer, claim) != SignedBy(reg[keyId].public, claim) {
        return false;
      }
      var sound := VerifyChain(records, node);
      var ok := CheckKey(reg[keyId], records);
      if !sound || !ok || !KeyValidAt(reg[keyId], |records|) {
        return false;
      }
      records := records + [NextRecord(records, node, RevokedContent(h, keyId, reason.value, signer))];
      done := true;
    }
  }
}
