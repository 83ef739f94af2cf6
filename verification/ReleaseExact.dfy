/** What `publish`, `verify_publication` and `revoke_release` answer, in terms of the chain and the approvals alone
    (jjdai/release.py:581-688, 1067-1194, 1457-1591). */
module ReleaseExact {
  import opened Wrappers
  import opened Witness
  import opened Release
  import opened ReleaseRuns

  // ----- Keys, read off the chain -----

  predicate Activates(c: Content, keyId: KeyId, public: Key) {
    c.kind == KeyActivated && c.digest == LifecycleDigest(keyId, Activated, public)
  }

  predicate RevokesKey(c: Content, keyId: KeyId, public: Key) {
    c.kind == KeyRevoked && c.digest == LifecycleDigest(keyId, Revoked, public)
  }

  /** Activated at or before position i, and revoked at no position up to it. */
  ghost predicate LiveAt(chain: Chain, keyId: KeyId, public: Key, i: nat) {
    && (exists j :: 0 <= j <= i && j < |chain| && Activates(chain[j].body.content, keyId, public))
    && (forall j :: 0 <= j <= i && j < |chain| ==> !RevokesKey(chain[j].body.content, keyId, public))
  }

  lemma ValidIffLive(key: RegisteredKey, chain: Chain, node: Key, i: nat)
    requires Sound(chain, node) && KeyWitnessed(key, chain) && i <= |chain|
    ensures KeyValidAt(key, i) <==> LiveAt(chain, key.keyId, key.public, i)
  {
    hide First, KeyWitnessed, Sound;
    RegistryIsChainFunction(key, chain, node);
    SoundIsIndexed(chain, node);
    FirstIsFirst(chain, |chain|, key.keyId, key.public, Activated);
    FirstIsFirst(chain, |chain|, key.keyId, key.public, Revoked);
    assert forall j :: 0 <= j < |chain| ==>
             && (Names(chain[j].body.content, key.keyId, key.public, Activated) <==>
                 Activates(chain[j].body.content, key.keyId, key.public))
             && (Names(chain[j].body.content, key.keyId, key.public, Revoked) <==>
                 RevokesKey(chain[j].body.content, key.keyId, key.public));
    if KeyValidAt(key, i) {
      assert Activates(chain[key.activated].body.content, key.keyId, key.public);
    }
  }

  // ----- Approvals -----

  /** The approval is for this statement, by a registered key that is live at i, in a role, on a device and for a
      principal registered for that key, and signed with it. */
  ghost predicate Endorses(a: Approval, s: Statement, reg: Registry, chain: Chain, i: nat) {
    && a.wellFormed && a.body.statementHash == HashOfStatement(s) && a.body.keyId in reg
    && var key := reg[a.body.keyId];
       && LiveAt(chain, key.keyId, key.public, i) && a.sig == SignedBy(key.public, a.body)
       && a.body.role in key.roles && a.body.device == key.device && a.body.principal == key.principal
  }

  /** Two or more endorsements, no key and no device twice, both roles among them, and a control that counts them. */
  ghost predicate Endorsed(att: Attestation, reg: Registry, chain: Chain, i: nat) {
    var s, n := att.statement, |att.approvals|;
    && att.schemaOk && s.wellFormed && att.statementHash == HashOfStatement(s) && n >= 2
    && (forall k :: 0 <= k < n ==> Endorses(att.approvals[k], s, reg, chain, i))
    && (forall j, k :: 0 <= j < k < n ==>
          && att.approvals[j].body.keyId != att.approvals[k].body.keyId
          && att.approvals[j].body.device != att.approvals[k].body.device)
    && (exists k :: 0 <= k < n && att.approvals[k].body.role == Builder)
    && (exists k :: 0 <= k < n && att.approvals[k].body.role == Verifier)
    && s.control == Control(n, n, n, |set a | a in att.approvals :: a.body.principal|)
  }

  lemma EndorsesIffOk(a: Approval, s: Statement, reg: Registry, chain: Chain, node: Key, i: nat)
    requires Sound(chain, node) && LifecycleWitnessed(reg, chain) && i <= |chain|
    ensures ApprovalOk(a, HashOfStatement(s), reg, i) <==> Endorses(a, s, reg, chain, i)
  {
    hide KeyValidAt, LiveAt, KeyWitnessed, Sound;
    if a.body.keyId in reg {
      ValidIffLive(reg[a.body.keyId], chain, node, i);
    }
  }

  /** Distinct approvals count once each. */
  lemma {:induction false} DistinctCounts(approvals: seq<Approval>)
    requires AllDistinct(approvals)
    ensures |KeysOf(approvals)| == |DevicesOf(approvals)| == |approvals|
    decreases |approvals|
  {
    if approvals != [] {
      var n := |approvals| - 1;
      var init := approvals[..n];
      assert approvals[..n + 1] == approvals;
      SetsOneMore(approvals, n);
      DistinctCounts(init);
      assert forall j :: 0 <= j < n ==> init[j] == approvals[j];
      assert approvals[n].body.keyId !in KeysOf(init) && approvals[n].body.device !in DevicesOf(init);
    }
  }

  lemma PrincipalsAre(approvals: seq<Approval>)
    ensures PrincipalsOf(approvals) == set a | a in approvals :: a.body.principal
  {
    var there := set a | a in approvals :: a.body.principal;
    forall p | p in PrincipalsOf(approvals)
      ensures p in there
    {
      var k :| 0 <= k < |approvals| && approvals[k].body.principal == p;
      assert approvals[k] in approvals;
    }
  }

  lemma DistinctIs(approvals: seq<Approval>)
    ensures AllDistinct(approvals) <==>
            forall j, k :: 0 <= j < k < |approvals| ==>
              && approvals[j].body.keyId != approvals[k].body.keyId
              && approvals[j].body.device != approvals[k].body.device
  {
  }

  lemma RolesAre(approvals: seq<Approval>, r: Role)
    ensures r in RolesOf(approvals) <==> exists k :: 0 <= k < |approvals| && approvals[k].body.role == r
  {
  }

  lemma ControlIs(s: Statement, approvals: seq<Approval>)
    requires AllDistinct(approvals)
    ensures ControlMatches(s, approvals) <==>
            && |approvals| >= 2
            && s.control == Control(|approvals|, |approvals|, |approvals|, |set a | a in approvals :: a.body.principal|)
  {
    hide AllDistinct, KeysOf, DevicesOf, PrincipalsOf;
    DistinctCounts(approvals);
    PrincipalsAre(approvals);
  }

  /** MAIN: on a sound chain with a passing registry, an attestation verifies at position i exactly when it is endorsed
      there and the outside facts hold. */
  lemma AttestationExact(att: Attestation, reg: Registry, chain: Chain, node: Key, i: nat, ctx: Context)
    requires Sound(chain, node) && LifecycleWitnessed(reg, chain) && i <= |chain|
    ensures AttestationOk(att, reg, i, ctx) <==>
            Endorsed(att, reg, chain, i) && ctx.external(att.statement, att.approvals, Publics(reg))
  {
    hide ApprovalOk, Endorses, Sound, LifecycleWitnessed, RolesOf, ControlMatches, Publics;
    forall k | 0 <= k < |att.approvals|
      ensures ApprovalOk(att.approvals[k], HashOfStatement(att.statement), reg, i) <==>
              Endorses(att.approvals[k], att.statement, reg, chain, i)
    {
      EndorsesIffOk(att.approvals[k], att.statement, reg, chain, node, i);
    }
    RolesAre(att.approvals, Builder);
    RolesAre(att.approvals, Verifier);
    DistinctIs(att.approvals);
    hide AllDistinct;
    if AllDistinct(att.approvals) {
      ControlIs(att.statement, att.approvals);
    }
  }

  /** What stops an approval being carried to another release: signed for one statement, it counts for no other, under
      any registry, at any position, in any context. */
  lemma ForeignApprovalNeverCounts(att: Attestation, reg: Registry, at: int, ctx: Context, a: Approval, s: Statement)
    requires a in att.approvals && a.body.statementHash == HashOfStatement(s) && s != att.statement
    ensures !AttestationOk(att, reg, at, ctx)
  {
    hide AllDistinct, ControlMatches, RolesOf;
    var k :| 0 <= k < |att.approvals| && att.approvals[k] == a;
    assert !ApprovalOk(att.approvals[k], HashOfStatement(att.statement), reg, at);
  }

  // ----- Publishing -----

  ghost predicate NamedRevoked(chain: Chain, s: Statement) {
    exists i :: 0 <= i < |chain| && chain[i].body.content.kind == ReleaseRevoked
                && chain[i].body.content.digest == RevocationDigest(HashOfStatement(s))
  }

  lemma RevokedIs(chain: Chain, s: Statement)
    ensures RevokedIn(chain, s) <==> NamedRevoked(chain, s)
  {
    if RevokedIn(chain, s) {
      var i :| 0 <= i < |chain| && Revokes(chain[i].body.content, s);
      assert NamedRevoked(chain, s);
    }
    if NamedRevoked(chain, s) {
      var i :| 0 <= i < |chain| && chain[i].body.content.kind == ReleaseRevoked
               && chain[i].body.content.digest == RevocationDigest(HashOfStatement(s));
      assert Revokes(chain[i].body.content, s);
    }
  }

  /** MAIN: `publish` succeeds exactly on a complete context with no blocking debt, a sound chain, a passing registry, a
      statement not revoked by name, an attestation endorsed at the next position, and the outside facts. */
  lemma PublishExact(att: Attestation, chain: Chain, node: Key, reg: Registry, ctx: Context)
    ensures Publishable(att, chain, node, reg, ctx) <==>
            && ctx.complete && ctx.debtClear
            && Sound(chain, node) && LifecycleWitnessed(reg, chain) && !NamedRevoked(chain, att.statement)
            && Endorsed(att, reg, chain, |chain|) && ctx.external(att.statement, att.approvals, Publics(reg))
  {
    hide Sound, LifecycleWitnessed, AttestationOk, Endorsed, RevokedIn, NamedRevoked;
    RevokedIs(chain, att.statement);
    if Sound(chain, node) && LifecycleWitnessed(reg, chain) {
      AttestationExact(att, reg, chain, node, |chain|, ctx);
    }
  }

  /** MAIN: over every run each published release was endorsed at the position it took, under the registry it was given,
      which passed on the chain below it. */
  lemma ReleasesAreEndorsed(events: seq<Event>, node: Key, n: nat)
    requires AllowedRun(events, node) && n < |events| && events[n].Publish?
    ensures var below := After(events[..n], node);
            LifecycleWitnessed(events[n].reg, below) && Endorsed(events[n].att, events[n].reg, below, |below|)
  {
    hide After, Endorsed, LifecycleWitnessed, Publishable;
    assert Allowed(After(events[..n], node), events[n], node);
    PublishExact(events[n].att, After(events[..n], node), node, events[n].reg, events[n].ctx);
  }

  /** The reference resolves to a real record that attests exactly this attestation. */
  ghost predicate Attests(p: Publication, chain: Chain) {
    var att := p.attestation;
    && 0 <= p.ref.index < |chain| && chain[p.ref.index].thisHash == p.ref.thisHash
    && p.ref.provenance == Some(Provenance(att, att.statementHash, att.statement.version, att.statement.tree))
    && chain[p.ref.index].body.content.kind == ReleaseAttested
    && chain[p.ref.index].body.content.provenance == Some(OfRelease(p.ref.provenance.value))
  }

  /** MAIN: a publication verifies exactly when the chain is sound, the registry passes, the release is not revoked by
      name, and its reference resolves to a record of this attestation that was endorsed at that position. */
  lemma PublicationExact(p: Publication, chain: Chain, node: Key, reg: Registry, ctx: Context)
    ensures PublicationOk(p, chain, node, reg, ctx) <==>
            && p.schemaOk && Sound(chain, node) && LifecycleWitnessed(reg, chain)
            && !NamedRevoked(chain, p.attestation.statement) && Attests(p, chain)
            && Endorsed(p.attestation, reg, chain, p.ref.index)
            && ctx.external(p.attestation.statement, p.attestation.approvals, Publics(reg))
  {
    hide Sound, LifecycleWitnessed, AttestationOk, Endorsed, RevokedIn, NamedRevoked;
    RevokedIs(chain, p.attestation.statement);
    if PublicationOk(p, chain, node, reg, ctx) {
      PublicationPositionIsReal(p, chain, node, reg, ctx);
    }
    if Sound(chain, node) && LifecycleWitnessed(reg, chain) && 0 <= p.ref.index < |chain| {
      AttestationExact(p.attestation, reg, chain, node, p.ref.index, ctx);
    }
  }

  /** The record a publication adds is the next of the chain and attests it. */
  lemma PublishedRecord(att: Attestation, chain: Chain, node: Key)
    requires Sound(chain, node)
    ensures var ext := chain + [NextRecord(chain, node, AttestedContent(att))];
            Sound(ext, node) && Attests(PublicationAt(att, chain, node), ext)
            && ext[|chain|].body.content.digest == AttestationDigest(att)
  {
    hide Sound;
    NextRecordExtends(chain, node, AttestedContent(att));
  }

  // ----- Revoking -----

  /** MAIN: after a successful `revoke_release` of h the chain is sound, no publication of a statement hashing to h
      verifies on any extension, and a reader that resolves the revocation is told it is revoked. */
  lemma RevocationTakesEffect(h: StatementHash, keyId: KeyId, reason: nat, signer: Key, chain: Chain, node: Key,
                              reg: Registry, p: Publication, ext: Chain, any: Registry, ctx: Context)
    requires Revocable(keyId, Some(reason), signer, chain, node, reg)
    requires HashOfStatement(p.attestation.statement) == h
    requires chain + [NextRecord(chain, node, RevokedContent(h, keyId, reason, signer))] <= ext
    ensures Sound(chain + [NextRecord(chain, node, RevokedContent(h, keyId, reason, signer))], node)
    ensures !PublicationOk(p, ext, node, any, ctx)
    ensures var r := ext[|chain|];
            var claim := RevocationClaim(h, keyId, reason);
            var body := Revocation(true, claim, SignedBy(signer, claim));
            && r.body.content.provenance == Some(OfRevocation(body))
            && (ctx.reader.Some? && ctx.reader.value(OfRevocation(body)) == Some(body) ==>
                  RevocationCode(r, p.attestation.statement, reg, ctx) == ReleaseIsRevoked)
  {
    hide Sound, KeyWitnessed, PublicationOk;
    var c := RevokedContent(h, keyId, reason, signer);
    var now := chain + [NextRecord(chain, node, c)];
    NextRecordExtends(chain, node, c);
    assert now[|chain|] == NextRecord(chain, node, c) && ext[|chain|] == now[|chain|];
    assert Revokes(now[|chain|].body.content, p.attestation.statement);
    assert RevokedIn(now, p.attestation.statement);
    RevokedForever(p, now, ext, node, any, ctx);
  }

  /** `revoke_release` succeeds exactly for a stated reason and the registered key itself, live on a sound chain. */
  lemma RevokeExact(keyId: KeyId, reason: Option<nat>, signer: Key, chain: Chain, node: Key, reg: Registry)
    requires Keyed(reg)
    ensures Revocable(keyId, reason, signer, chain, node, reg) <==>
            && reason.Some? && keyId in reg && reg[keyId].public == signer && Sound(chain, node)
            && KeyWitnessed(reg[keyId], chain) && LiveAt(chain, keyId, signer, |chain|)
  {
    hide Sound, KeyWitnessed, KeyValidAt, LiveAt;
    if keyId in reg && Sound(chain, node) && KeyWitnessed(reg[keyId], chain) {
      ValidIffLive(reg[keyId], chain, node, |chain|);
    }
  }
}
