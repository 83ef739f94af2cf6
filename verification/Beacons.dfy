/** core/entanglement.py:142-180: the beacon a recipient embeds in its records. */
module Beacons {
  import opened Wrappers
  import opened Witness
  import opened Entanglement

  datatype Beacon = Beacon(salts: seq<SaltEntry>, distinctIssuers: nat, minIssuedAt: int)

  // ----- Sorting by issuer -----

  /** Node names are ordered as their keys. */
  predicate Before(a: SaltEntry, b: SaltEntry) {
    a.issuerNode.key < b.issuerNode.key
  }

  predicate Ascending(s: seq<SaltEntry>) {
    forall i, j :: 0 <= i < j < |s| ==> s[i].issuerNode.key <= s[j].issuerNode.key
  }

  function Insert(e: SaltEntry, s: seq<SaltEntry>): (r: seq<SaltEntry>)
    ensures multiset(r) == multiset{e} + multiset(s)
  {
    if s == [] || !Before(s[0], e) then [e] + s
    else
      assert s == [s[0]] + s[1..];
      [s[0]] + Insert(e, s[1..])
  }

  /** `sorted` with the issuer as key: it keeps the order of equal keys. */
  function Sort(s: seq<SaltEntry>): (r: seq<SaltEntry>)
    ensures multiset(r) == multiset(s)
  {
    if s == [] then []
    else
      assert s == [s[0]] + s[1..];
      Insert(s[0], Sort(s[1..]))
  }

  /** One issuer's salts, in their order. */
  function Of(s: seq<SaltEntry>, issuer: NodeId): seq<SaltEntry> {
    if s == [] then [] else (if s[0].issuerNode == issuer then [s[0]] else []) + Of(s[1..], issuer)
  }

  lemma {:induction false} InsertAscends(e: SaltEntry, s: seq<SaltEntry>)
    requires Ascending(s)
    ensures Ascending(Insert(e, s))
    decreases |s|
  {
    if s != [] && Before(s[0], e) {
      InsertAscends(e, s[1..]);
      var r := Insert(e, s[1..]);
      forall j | 0 <= j < |r|
        ensures !Before(r[j], s[0])
      {
        assert r[j] in multiset(r);
        assert r[j] == e || r[j] in s[1..];
      }
    }
  }

  lemma {:induction false} InsertKeepsOrder(e: SaltEntry, s: seq<SaltEntry>, issuer: NodeId)
    requires Ascending(s)
    ensures Of(Insert(e, s), issuer) == (if e.issuerNode == issuer then [e] else []) + Of(s, issuer)
    decreases |s|
  {
    if s == [] || !Before(s[0], e) {
      assert ([e] + s)[1..] == s;
    } else {
      InsertKeepsOrder(e, s[1..], issuer);
      var r := Insert(e, s);
      assert r[0] == s[0] && r[1..] == Insert(e, s[1..]);
    }
  }

  /** The sorted salts ascend by issuer and keep each issuer's own order. */
  lemma {:induction false} SortIsStable(s: seq<SaltEntry>, issuer: NodeId)
    ensures Ascending(Sort(s)) && Of(Sort(s), issuer) == Of(s, issuer)
    decreases |s|
  {
    if s != [] {
      SortIsStable(s[1..], issuer);
      InsertAscends(s[0], Sort(s[1..]));
      InsertKeepsOrder(s[0], Sort(s[1..]), issuer);
    }
  }

  // ----- The beacon -----

  function Entries(envs: seq<SaltEnv>): (es: seq<SaltEntry>)
    ensures |es| == |envs| && forall i :: 0 <= i < |envs| ==> es[i] == EntryOf(envs[i])
  {
    seq(|envs|, i requires 0 <= i < |envs| => EntryOf(envs[i]))
  }

  function Issuers(envs: seq<SaltEnv>): set<NodeId> {
    set e | e in envs :: e.body.issuer
  }

  predicate IsEarliest(at: int, envs: seq<SaltEnv>) {
    (forall e :: e in envs ==> at <= e.body.issuedAt) && exists e :: e in envs && e.body.issuedAt == at
  }

  /** None when a salt is bad or, where the recipient is known, addressed elsewhere, or there is none. */
  method BeaconFrom(envs: seq<SaltEnv>, recipient: Option<NodeId>) returns (beacon: Option<Beacon>)
    ensures beacon.Some? <==>
            && envs != [] && (forall e :: e in envs ==> ValidSalt(e))
            && (recipient.Some? ==> forall e :: e in envs ==> e.body.recipient == recipient.value)
    ensures beacon.Some? ==>
              && beacon.value.salts == Sort(Entries(envs))
              && beacon.value.distinctIssuers == |Issuers(envs)|
              && IsEarliest(beacon.value.minIssuedAt, envs)
  {
    hide ValidSalt, EntryOf;
    var salts: seq<SaltEntry>, issuers: set<NodeId>, earliest: Option<int> := [], {}, None;
    for i := 0 to |envs|
      invariant salts == Entries(envs[..i]) && issuers == Issuers(envs[..i])
      invariant earliest.None? <==> i == 0
      invariant earliest.Some? ==> IsEarliest(earliest.value, envs[..i])
      invariant forall e :: e in envs[..i] ==> ValidSalt(e)
      invariant recipient.Some? ==> forall e :: e in envs[..i] ==> e.body.recipient == recipient.value
    {
      var env := envs[i];
      if !ValidSalt(env) || (recipient.Some? && env.body.recipient != recipient.value) {
        assert env in envs;
        return None;
      }
      OneMoreSalt(envs, i, earliest);
      salts, issuers := salts + [EntryOf(env)], issuers + {env.body.issuer};
      if earliest.None? || env.body.issuedAt < earliest.value {
        earliest := Some(env.body.issuedAt);
      }
    }
    assert envs[..|envs|] == envs;
    if salts == [] {
      return None;
    }
    beacon := Some(Beacon(Sort(salts), |issuers|, earliest.value));
  }

  lemma OneMoreSalt(envs: seq<SaltEnv>, i: nat, earliest: Option<int>)
    requires i < |envs| && (earliest.None? <==> i == 0) && (earliest.Some? ==> IsEarliest(earliest.value, envs[..i]))
    ensures Entries(envs[..i + 1]) == Entries(envs[..i]) + [EntryOf(envs[i])]
    ensures Issuers(envs[..i + 1]) == Issuers(envs[..i]) + {envs[i].body.issuer}
    ensures forall e :: e in envs[..i + 1] <==> e in envs[..i] || e == envs[i]
    ensures var at := envs[i].body.issuedAt;
            IsEarliest(if earliest.None? || at < earliest.value then at else earliest.value, envs[..i + 1])
  {
    hide EntryOf;
    assert envs[..i + 1] == envs[..i] + [envs[i]];
    assert forall e :: e in envs[..i + 1] <==> e in envs[..i] || e == envs[i];
    if earliest.Some? {
      var e :| e in envs[..i] && e.body.issuedAt == earliest.value;
      assert e in envs[..i + 1];
    }
    assert envs[i] in envs[..i + 1];
  }
}
