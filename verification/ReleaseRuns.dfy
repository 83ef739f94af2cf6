/** What the release chain guarantees over positions, extensions and whole runs. */
module ReleaseRuns {
  import opened Wrappers
  import opened Witness
  import opened Release

  ghost predicate Indexed(chain: Chain) {
    forall i :: 0 <= i < |chain| ==> chain[i].body.index == i
  }

  lemma SoundIsIndexed(chain: Chain, node: Key)
    requires Sound(chain, node)
    ensures Indexed(chain)
  {
    forall i | 0 <= i < |chain|
      ensures chain[i].body.index == i
    {
      assert LinkSound(chain, i, node);
    }
  }

  // ----- The registry is a function of the chain -----

  lemma {:induction false} FirstIsFirst(chain: Chain, n: nat, keyId: KeyId, public: Key, t: Transition)
    requires Indexed(chain) && n <= |chain|
    ensures var at := First(chain, n, keyId, public, t);
            && (at.None? <==> forall j :: 0 <= j < n ==> !Names(chain[j].body.content, keyId, public, t))
            && (at.Some? ==> 0 <= at.value < n && Names(chain[at.value].body.content, keyId, public, t)
                             && forall j :: 0 <= j < at.value ==> !Names(chain[j].body.content, keyId, public, t))
    decreases n
  {
    if n > 0 {
      FirstIsFirst(chain, n - 1, keyId, public, t);
    }
  }

  /** MAIN: on a sound chain the lifecycle check passes exactly when the registry states the
      first witnessed activation, and the first witnessed revocation or none. */
  lemma RegistryIsChainFunction(key: RegisteredKey, chain: Chain, node: Key)
    requires Sound(chain, node)
    ensures KeyWitnessed(key, chain) <==>
            && First(chain, |chain|, key.keyId, key.public, Activated) == Some(key.activated)
            && First(chain, |chain|, key.keyId, key.public, Revoked) == key.revoked
  {
    hide First;
    SoundIsIndexed(chain, node);
    FirstIsFirst(chain, |chain|, key.keyId, key.public, Activated);
    FirstIsFirst(chain, |chain|, key.keyId, key.public, Revoked);
  }

  /** ... so two registries that pass on one chain agree about every key they share. */
  lemma PassingRegistriesAgree(a: Registry, b: Registry, chain: Chain, node: Key, k: KeyId)
    requires Sound(chain, node) && LifecycleWitnessed(a, chain) && LifecycleWitnessed(b, chain)
    requires k in a && k in b && a[k].keyId == b[k].keyId && a[k].public == b[k].public
    ensures a[k].activated == b[k].activated && a[k].revoked == b[k].revoked
  {
    RegistryIsChainFunction(a[k], chain, node);
    RegistryIsChainFunction(b[k], chain, node);
  }

  // ----- Extensions -----

  lemma {:induction false} FirstOfPrefix(chain: Chain, ext: Chain, n: nat, keyId: KeyId, public: Key, t: Transition)
    requires chain <= ext && n <= |chain|
    ensures First(ext, n, keyId, public, t) == First(chain, n, keyId, public, t)
    decreases n
  {
    if n > 0 {
      FirstOfPrefix(chain, ext, n - 1, keyId, public, t);
    }
  }

  /** A witnessed first position never moves; one that is not witnessed yet can only be later. */
  lemma {:induction false} FirstUnderExtension(chain: Chain, ext: Chain, n: nat, keyId: KeyId, public: Key,
                                               t: Transition)
    requires Indexed(ext) && chain <= ext && |chain| <= n <= |ext|
    ensures var before, after := First(chain, |chain|, keyId, public, t), First(ext, n, keyId, public, t);
            (before.Some? ==> after == before) && (before.None? && after.Some? ==> |chain| <= after.value < n)
    decreases n
  {
    if n == |chain| {
      FirstOfPrefix(chain, ext, n, keyId, public, t);
    } else {
      FirstUnderExtension(chain, ext, n - 1, keyId, public, t);
    }
  }

  /** The same keys, whatever the two registries say about their lifecycle. */
  ghost predicate SameKeys(a: Registry, b: Registry) {
    && a.Keys == b.Keys
    && forall k :: k in a ==> a[k].keyId == b[k].keyId && a[k].public == b[k].public && a[k].device == b[k].device
                              && a[k].principal == b[k].principal && a[k].roles == b[k].roles
  }

  /** A key keeps its verdict at a position of the old chain. */
  lemma ValidityFixedAtPosition(a: RegisteredKey, b: RegisteredKey, chain: Chain, ext: Chain, node: Key, at: int)
    requires a.keyId == b.keyId && a.public == b.public && chain <= ext && Sound(chain, node) && Sound(ext, node)
    requires at < |chain|
    requires KeyWitnessed(a, chain) && KeyWitnessed(b, ext)
    ensures KeyValidAt(a, at) <==> KeyValidAt(b, at)
  {
    hide First, KeyWitnessed;
    RegistryIsChainFunction(a, chain, node);
    RegistryIsChainFunction(b, ext, node);
    SoundIsIndexed(ext, node);
    FirstUnderExtension(chain, ext, |ext|, a.keyId, a.public, Activated);
    FirstUnderExtension(chain, ext, |ext|, a.keyId, a.public, Revoked);
  }

  lemma AttestationFixedAtPosition(att: Attestation, a: Registry, b: Registry, chain: Chain, ext: Chain, node: Key,
                                   at: int, ctx: Context)
    requires SameKeys(a, b) && chain <= ext && Sound(chain, node) && Sound(ext, node) && at < |chain|
    requires LifecycleWitnessed(a, chain) && LifecycleWitnessed(b, ext) && AttestationOk(att, a, at, ctx)
    ensures AttestationOk(att, b, at, ctx)
  {
    hide AllDistinct, ControlMatches, KeyWitnessed, KeyValidAt;
    assert Publics(a) == Publics(b);
    forall i | 0 <= i < |att.approvals|
      ensures ApprovalOk(att.approvals[i], att.statementHash, b, at)
    {
      var k := att.approvals[i].body.keyId;
      assert ApprovalOk(att.approvals[i], att.statementHash, a, at);
      ValidityFixedAtPosition(a[k], b[k], chain, ext, node, at);
    }
  }

  lemma {:induction false} KeysAtMostApprovals(approvals: seq<Approval>)
    ensures |KeysOf(approvals)| <= |approvals|
    decreases |approvals|
  {
    if approvals != [] {
      var n := |approvals| - 1;
      KeysAtMostApprovals(approvals[..n]);
      SetsOneMore(approvals, n);
      assert approvals[..n + 1] == approvals;
    }
  }

  /** An accepted publication points at a real position, never at one counted from the end. */
  lemma PublicationPositionIsReal(p: Publication, chain: Chain, node: Key, reg: Registry, ctx: Context)
    requires PublicationOk(p, chain, node, reg, ctx)
    ensures 0 <= p.ref.index < |chain|
  {
    var approvals := p.attestation.approvals;
    KeysAtMostApprovals(approvals);
    var k := approvals[0].body.keyId;
    assert ApprovalOk(approvals[0], p.attestation.statementHash, reg, p.ref.index);
    RegistryIsChainFunction(reg[k], chain, node);
    SoundIsIndexed(chain, node);
    FirstIsFirst(chain, |chain|, reg[k].keyId, reg[k].public, Activated);
  }

  /** MAIN: a publication that verified keeps verifying on every sound extension of the chain,
      under any registry that the longer chain accepts for the same keys (later key revocations
      included), exactly as long as the release itself is not revoked by name. */
  lemma PublicationPersists(p: Publication, chain: Chain, ext: Chain, node: Key, reg: Registry, later: Registry,
                            ctx: Context)
    requires PublicationOk(p, chain, node, reg, ctx)
    requires chain <= ext && Sound(ext, node) && SameKeys(reg, later) && LifecycleWitnessed(later, ext)
    ensures PublicationOk(p, ext, node, later, ctx) <==> !RevokedIn(ext, p.attestation.statement)
  {
    hide LifecycleWitnessed, AttestationOk, Sound;
    PublicationPositionIsReal(p, chain, node, reg, ctx);
    AttestationFixedAtPosition(p.attestation, reg, later, chain, ext, node, p.ref.index, ctx);
    assert RecordAt(ext, p.ref.index) == RecordAt(chain, p.ref.index);
  }

  /** MAIN: once a matching revocation is in the chain, no registry, no context and no
      extension makes any publication of that statement verify again. */
  lemma RevokedForever(p: Publication, chain: Chain, ext: Chain, node: Key, reg: Registry, ctx: Context)
    requires RevokedIn(chain, p.attestation.statement) && chain <= ext
    ensures !PublicationOk(p, ext, node, reg, ctx)
  {
    var i :| 0 <= i < |chain| && Revokes(chain[i].body.content, p.attestation.statement);
    assert Revokes(ext[i].body.content, p.attestation.statement);
  }

  // ----- Publishing -----

  lemma OtherRecordKeepsLifecycle(key: RegisteredKey, chain: Chain, r: Record<Content>, node: Key)
    requires Sound(chain, node) && Sound(chain + [r], node) && KeyWitnessed(key, chain)
    requires r.body.content.kind != KeyActivated && r.body.content.kind != KeyRevoked
    ensures KeyWitnessed(key, chain + [r])
  {
    hide KeyWitnessed;
    var ext := chain + [r];
    RegistryIsChainFunction(key, chain, node);
    RegistryIsChainFunction(key, ext, node);
    FirstOfPrefix(chain, ext, |chain|, key.keyId, key.public, Activated);
    FirstOfPrefix(chain, ext, |chain|, key.keyId, key.public, Revoked);
    assert ext[|ext| - 1] == r;
  }

  lemma NextRecordExtends(chain: Chain, node: Key, c: Content)
    requires Sound(chain, node)
    ensures Sound(chain + [NextRecord(chain, node, c)], node)
  {
    SoundExtends(chain, NextRecord(chain, node, c), node);
  }

  /** MAIN: whatever `publish` returns is accepted at once by `verify_publication`, on the chain
      it has just written and with the registry and context it was given. */
  lemma PublishedVerifies(att: Attestation, chain: Chain, node: Key, reg: Registry, ctx: Context)
    requires Publishable(att, chain, node, reg, ctx)
    ensures PublicationOk(PublicationAt(att, chain, node), chain + [NextRecord(chain, node, AttestedContent(att))],
                          node, reg, ctx)
  {
    hide AttestationOk, Sound, KeyWitnessed;
    var r := NextRecord(chain, node, AttestedContent(att));
    var ext := chain + [r];
    NextRecordExtends(chain, node, AttestedContent(att));
    forall k | k in reg
      ensures KeyWitnessed(reg[k], ext)
    {
      OtherRecordKeepsLifecycle(reg[k], chain, r, node);
    }
    assert !RevokedIn(ext, att.statement);
    assert RecordAt(ext, |chain|) == Some(r);
  }

  // ----- Whole runs -----

  /** One append under the chain's lock.  Only `publish` writes RELEASE_ATTESTED. */
  datatype Event =
    | Publish(att: Attestation, reg: Registry, ctx: Context)
    | Revoke(h: StatementHash, keyId: KeyId, reason: nat, signer: Key, keys: Registry)
    | Other(content: Content)

  ghost predicate Allowed(chain: Chain, e: Event, node: Key) {
    match e
    case Publish(att, reg, ctx) => Publishable(att, chain, node, reg, ctx)
    case Revoke(h, keyId, reason, signer, keys) => Revocable(keyId, Some(reason), signer, chain, node, keys)
    case Other(c) => c.kind != ReleaseAttested
  }

  function ContentOf(e: Event): Content {
    match e
    case Publish(att, _, _) => AttestedContent(att)
    case Revoke(h, keyId, reason, signer, _) => RevokedContent(h, keyId, reason, signer)
    case Other(c) => c
  }

  function After(events: seq<Event>, node: Key): Chain {
    if events == [] then []
    else
      var before := After(events[..|events| - 1], node);
      before + [NextRecord(before, node, ContentOf(events[|events| - 1]))]
  }

  ghost predicate AllowedRun(events: seq<Event>, node: Key) {
    forall n :: 0 <= n < |events| ==> Allowed(After(events[..n], node), events[n], node)
  }

  /** The key behind an approval: some public key under which it is signed, first activated
      before position i and not revoked at or before it. */
  ghost predicate ApprovedByLiveKey(a: Approval, keyId: KeyId, chain: Chain, i: nat)
    requires i < |chain|
  {
    exists public: Key ::
      && a.sig == SignedBy(public, a.body)
      && (exists j :: 0 <= j < i && Names(chain[j].body.content, keyId, public, Activated))
      && (forall j :: 0 <= j <= i ==> !Names(chain[j].body.content, keyId, public, Revoked))
  }

  /** A RELEASE_ATTESTED record binds an attestation by two or more distinct keys on two or more
      distinct devices, none used twice, a builder and a verifier among them, each of whose
      approvals names this statement and was live at it. */
  ghost predicate SoundRelease(chain: Chain, i: nat)
    requires i < |chain|
  {
    var c := chain[i].body.content;
    c.kind == ReleaseAttested ==>
      && c.provenance.Some? && c.provenance.value.OfRelease?
      && var att := c.provenance.value.p.attestation;
      && c.digest == AttestationDigest(att) && AllDistinct(att.approvals)
      && (forall a :: a in att.approvals ==> a.body.statementHash == HashOfStatement(att.statement))
      && (exists a :: a in att.approvals && a.body.role == Builder)
      && (exists a :: a in att.approvals && a.body.role == Verifier)
      && |KeysOf(att.approvals)| >= 2 && |DevicesOf(att.approvals)| >= 2
      && forall a :: a in att.approvals ==> ApprovedByLiveKey(a, a.body.keyId, chain, i)
  }

  lemma LiveKeyUnderExtension(a: Approval, keyId: KeyId, chain: Chain, ext: Chain, i: nat)
    requires chain <= ext && i < |chain| && ApprovedByLiveKey(a, keyId, chain, i)
    ensures ApprovedByLiveKey(a, keyId, ext, i)
  {
    hide Names;
    var public: Key :|
      && a.sig == SignedBy(public, a.body)
      && (exists j :: 0 <= j < i && Names(chain[j].body.content, keyId, public, Activated))
      && (forall j :: 0 <= j <= i ==> !Names(chain[j].body.content, keyId, public, Revoked));
    var j :| 0 <= j < i && Names(chain[j].body.content, keyId, public, Activated);
    assert Names(ext[j].body.content, keyId, public, Activated);
    assert forall j :: 0 <= j <= i ==> ext[j] == chain[j];
  }

  /** At the position a release takes, every approving key is live on the chain itself. */
  lemma PublishedApprovalIsLive(att: Attestation, chain: Chain, node: Key, reg: Registry, ctx: Context, n: nat)
    requires Publishable(att, chain, node, reg, ctx) && Keyed(reg) && n < |att.approvals|
    ensures var a := att.approvals[n];
            ApprovedByLiveKey(a, a.body.keyId, chain + [NextRecord(chain, node, AttestedContent(att))], |chain|)
  {
    hide AllDistinct, ControlMatches, First, KeyWitnessed;
    var a := att.approvals[n];
    var ext := chain + [NextRecord(chain, node, AttestedContent(att))];
    assert ApprovalOk(a, att.statementHash, reg, |chain|);
    var key := reg[a.body.keyId];
    RegistryIsChainFunction(key, chain, node);
    SoundIsIndexed(chain, node);
    FirstIsFirst(chain, |chain|, key.keyId, key.public, Activated);
    FirstIsFirst(chain, |chain|, key.keyId, key.public, Revoked);
    assert Names(ext[key.activated].body.content, key.keyId, key.public, Activated);
    assert forall j :: 0 <= j < |chain| ==> ext[j] == chain[j];
  }

  ghost predicate KeyedRun(events: seq<Event>) {
    forall e :: e in events && e.Publish? ==> Keyed(e.reg)
  }

  /** MAIN: in every chain built by publications, revocations and other appends, each release
      record at position i carries approvals of its own statement by at least two distinct keys
      on two distinct devices, no key or device twice, by a builder and a verifier, every one of
      them under a key first activated before i and not revoked at or before i; and the chain
      verifies throughout. */
  lemma {:induction false} ReleasesAreSound(events: seq<Event>, node: Key)
    requires AllowedRun(events, node) && KeyedRun(events)
    ensures Sound(After(events, node), node)
    ensures forall i :: 0 <= i < |After(events, node)| ==> SoundRelease(After(events, node), i)
    decreases |events|
  {
    hide Sound, SoundRelease, AllowedRun, Allowed, Keyed;
    if events == [] {
      EmptyIsSound(node);
    } else {
      var n := |events| - 1;
      AllowedPrefix(events, node);
      ReleasesAreSound(events[..n], node);
      var chain, e := After(events[..n], node), events[n];
      assert e in events;
      NextRecordExtends(chain, node, ContentOf(e));
      StepKeepsReleases(chain, e, node);
    }
  }

  lemma AllowedPrefix(events: seq<Event>, node: Key)
    requires AllowedRun(events, node) && events != []
    ensures var n := |events| - 1;
            AllowedRun(events[..n], node) && Allowed(After(events[..n], node), events[n], node)
  {
    hide After, Allowed;
    var n := |events| - 1;
    forall m | 0 <= m < n
      ensures Allowed(After(events[..n][..m], node), events[..n][m], node)
    {
      assert events[..n][..m] == events[..m];
    }
  }

  lemma EmptyIsSound(node: Key)
    ensures Sound<Content>([], node)
  {
  }

  lemma StepKeepsReleases(chain: Chain, e: Event, node: Key)
    requires Allowed(chain, e, node) && (e.Publish? ==> Keyed(e.reg))
    requires forall i :: 0 <= i < |chain| ==> SoundRelease(chain, i)
    ensures forall i :: 0 <= i <= |chain| ==> SoundRelease(chain + [NextRecord(chain, node, ContentOf(e))], i)
  {
    hide ApprovedByLiveKey;
    var ext := chain + [NextRecord(chain, node, ContentOf(e))];
    forall i | 0 <= i <= |chain|
      ensures SoundRelease(ext, i)
    {
      if i < |chain| {
        OldReleaseStaysSound(chain, ext, i);
      } else if e.Publish? {
        NewReleaseIsSound(chain, e, node);
      }
    }
  }

  lemma OldReleaseStaysSound(chain: Chain, ext: Chain, i: nat)
    requires chain <= ext && i < |chain| && SoundRelease(chain, i)
    ensures SoundRelease(ext, i)
  {
    hide ApprovedByLiveKey;
    var c := chain[i].body.content;
    assert ext[i] == chain[i];
    if c.kind == ReleaseAttested {
      forall a | a in c.provenance.value.p.attestation.approvals
        ensures ApprovedByLiveKey(a, a.body.keyId, ext, i)
      {
        LiveKeyUnderExtension(a, a.body.keyId, chain, ext, i);
      }
    }
  }

  lemma NewReleaseIsSound(chain: Chain, e: Event, node: Key)
    requires e.Publish? && Allowed(chain, e, node) && Keyed(e.reg)
    ensures SoundRelease(chain + [NextRecord(chain, node, ContentOf(e))], |chain|)
  {
    hide ApprovedByLiveKey, AllDistinct, KeysOf, DevicesOf;
    var ext := chain + [NextRecord(chain, node, ContentOf(e))];
    ApprovalsAreForIt(e.att, e.reg, |chain|, e.ctx);
    forall a | a in e.att.approvals
      ensures ApprovedByLiveKey(a, a.body.keyId, ext, |chain|)
    {
      var n :| 0 <= n < |e.att.approvals| && e.att.approvals[n] == a;
      PublishedApprovalIsLive(e.att, chain, node, e.reg, e.ctx, n);
    }
  }

  lemma ApprovalsAreForIt(att: Attestation, reg: Registry, at: int, ctx: Context)
    requires AttestationOk(att, reg, at, ctx)
    ensures forall a :: a in att.approvals ==> a.body.statementHash == HashOfStatement(att.statement)
    ensures exists a :: a in att.approvals && a.body.role == Builder
    ensures exists a :: a in att.approvals && a.body.role == Verifier
  {
    hide AllDistinct, ControlMatches;
    forall a | a in att.approvals
      ensures a.body.statementHash == HashOfStatement(att.statement)
    {
      var k :| 0 <= k < |att.approvals| && att.approvals[k] == a;
      assert ApprovalOk(att.approvals[k], att.statementHash, reg, at);
    }
    var b :| 0 <= b < |att.approvals| && att.approvals[b].body.role == Builder;
    var v :| 0 <= v < |att.approvals| && att.approvals[v].body.role == Verifier;
    assert att.approvals[b] in att.approvals && att.approvals[v] in att.approvals;
  }
}
