/** The WitnessChain object of jjdai/witness.py: append, crash and reload. */
module WitnessLog {
  import opened Wrappers
  import opened Witness

  datatype Field = Request | Response

  /** A value offered to the canonical serializer, which raises on some of them. */
  datatype Json = Serializable(value: nat) | Unserializable

  datatype Commitment = Commit(salt: nat, value: nat)

  datatype Content = Content(kind: string, request: Option<Commitment>, response: Option<Commitment>,
                             provenanceHash: Option<nat>, rest: nat)

  type Entry = Record<Content>

  /** One call of `append`.  `admitted` is the verdict of the vocabulary and reserve checks,
      `diskOk` the answer of the durable write, and the two salts are freshly drawn. */
  datatype AppendCall = AppendCall(admitted: bool, kind: string, request: Option<Json>, response: Option<Json>,
                                   provenance: Option<Json>, rest: Json,
                                   requestSalt: nat, responseSalt: nat, diskOk: bool)

  datatype Outcome = Refused | NotSerializable | NotPersisted | Appended(index: nat, hash: Hash<Content>)

  datatype State = State(records: seq<Entry>, salts: map<(int, Field), nat>, log: seq<Entry>)

  predicate Bad(v: Option<Json>) {
    v.Some? && v.value.Unserializable?
  }

  type Salts = map<(int, Field), nat>

  function Mint(salts: Salts, idx: int, field: Field, v: Option<Json>, salt: nat): Salts {
    if v.Some? then salts[(idx, field) := salt] else salts
  }

  function Committed(v: Option<Json>, salt: nat): Option<Commitment>
    requires !Bad(v)
  {
    if v.Some? then Some(Commit(salt, v.value.value)) else None
  }

  function NewEntry(s: State, key: Key, c: AppendCall): Entry
    requires !Bad(c.request) && !Bad(c.response) && !Bad(c.provenance) && c.rest.Serializable?
  {
    var content := Content(c.kind, Committed(c.request, c.requestSalt), Committed(c.response, c.responseSalt),
                           if c.provenance.Some? then Some(c.provenance.value.value) else None, c.rest.value);
    var body := Body(|s.records|, HeadOf(s.records), NodeOf(key), content);
    Record(body, HashOf(body), SignedBy(key, HashOf(body)))
  }

  /** The new state and the outcome of one append. */
  function AppendStep(s: State, key: Key, c: AppendCall): (State, Outcome) {
    var idx := |s.records|;
    if !c.admitted then (s, Refused)
    else if Bad(c.request) then (s, NotSerializable)
    else
      var salts1 := Mint(s.salts, idx, Request, c.request, c.requestSalt);
      if Bad(c.response) then (s.(salts := salts1), NotSerializable)
      else
        var salts2 := Mint(salts1, idx, Response, c.response, c.responseSalt);
        if Bad(c.provenance) || c.rest.Unserializable? then (s.(salts := salts2), NotSerializable)
        else if !c.diskOk then (s.(salts := salts2 - {(idx, Request), (idx, Response)}), NotPersisted)
        else
          var e := NewEntry(s, key, c);
          (State(s.records + [e], salts2, s.log + [e]), Appended(idx, e.thisHash))
  }

  class WitnessChain {
    const key: Key
    var records: seq<Entry>
    var salts: map<(int, Field), nat>
    var log: seq<Entry>

    ghost function Contents(): State
      reads this
    {
      State(records, salts, log)
    }

    constructor (key: Key)
      ensures this.key == key && Contents() == State([], map[], [])
    {
      this.key := key;
      records, salts, log := [], map[], [];
    }

    method Append(c: AppendCall) returns (out: Outcome)
      modifies this
      ensures (Contents(), out) == AppendStep(old(Contents()), key, c)
    {
      ghost var before := Contents();
      if !c.admitted {
        return Refused;
      }
      var idx := |records|;
      var request, response: Option<Commitment> := None, None;
      if c.request.Some? {
        if c.request.value.Unserializable? {
          return NotSerializable;
        }
        request := Some(Commit(c.requestSalt, c.request.value.value));
        salts := salts[(idx, Request) := c.requestSalt];
      }
      if c.response.Some? {
        if c.response.value.Unserializable? {
          return NotSerializable;
        }
        response := Some(Commit(c.responseSalt, c.response.value.value));
        salts := salts[(idx, Response) := c.responseSalt];
      }
      if Bad(c.provenance) || c.rest.Unserializable? {
        return NotSerializable;
      }
      var head := if records == [] then Genesis else records[|records| - 1].thisHash;
      var provenance := if c.provenance.Some? then Some(c.provenance.value.value) else None;
      var body := Body(idx, head, NodeOf(key), Content(c.kind, request, response, provenance, c.rest.value));
      var e := Record(body, HashOf(body), SignedBy(key, HashOf(body)));
      assert e == NewEntry(before, key, c);
      if !c.diskOk {
        salts := salts - {(idx, Request), (idx, Response)};
        return NotPersisted;
      }
      log := log + [e];
      records := records + [e];
      out := Appended(idx, e.thisHash);
    }

    /** A restart: memory is rebuilt from the log and the local salts are gone. */
    method Reload()
      modifies this
      ensures Contents() == ReloadStep(old(Contents()))
    {
      records, salts := log, map[];
    }
  }

  function ReloadStep(s: State): State {
    State(s.log, map[], s.log)
  }

  // ----- Whole runs -----

  datatype Event = Call(c: AppendCall) | Restart

  function Step(s: State, key: Key, e: Event): State {
    match e
    case Call(c) => AppendStep(s, key, c).0
    case Restart => ReloadStep(s)
  }

  function Run(key: Key, events: seq<Event>): State {
    if events == [] then State([], map[], [])
    else Step(Run(key, events[..|events| - 1]), key, events[|events| - 1])
  }

  /** What every call keeps, whatever it is given and however it fails. */
  ghost predicate Intact(s: State, key: Key) {
    Sound(s.records, key) && s.log == s.records
  }

  function CommitmentOf(e: Entry, field: Field): Option<Commitment> {
    if field == Request then e.body.content.request else e.body.content.response
  }

  /** Every local salt belongs to an existing record and opens its commitment. */
  ghost predicate SaltsOpen(s: State) {
    forall k :: k in s.salts ==>
      && 0 <= k.0 < |s.records|
      && CommitmentOf(s.records[k.0], k.1).Some?
      && CommitmentOf(s.records[k.0], k.1).value.salt == s.salts[k]
  }

  /** The calls that mint a salt and then raise before the write: nothing rolls them back. */
  predicate LeaksSalt(c: AppendCall) {
    && c.admitted && !Bad(c.request)
    && if Bad(c.response) then c.request.Some?
       else (c.request.Some? || c.response.Some?) && (Bad(c.provenance) || c.rest.Unserializable?)
  }

  lemma StepKeepsIntact(s: State, key: Key, e: Event)
    requires Intact(s, key)
    ensures Intact(Step(s, key, e), key)
  {
    if e.Call? && AppendStep(s, key, e.c).1.Appended? {
      SoundExtends(s.records, NewEntry(s, key, e.c), key);
    }
  }

  /** MAIN: from good salts, the salts stay good exactly when the call does not leak one. */
  lemma SaltsStayOpen(s: State, key: Key, c: AppendCall)
    requires SaltsOpen(s)
    ensures SaltsOpen(AppendStep(s, key, c).0) <==> !LeaksSalt(c)
  {
    var (t, out) := AppendStep(s, key, c);
    var idx := |s.records|;
    if LeaksSalt(c) {
      if c.request.Some? {
        assert (idx, Request) in t.salts;
      } else {
        assert (idx, Response) in t.salts;
      }
    } else {
      forall k | k in t.salts
        ensures 0 <= k.0 < |t.records| && CommitmentOf(t.records[k.0], k.1).Some?
        ensures CommitmentOf(t.records[k.0], k.1).value.salt == t.salts[k]
      {
        if out.Appended? && k.0 == idx {
          assert k == (idx, k.1);
        }
      }
    }
  }

  /** A call that leaks: the request is committed, then the response cannot be serialized. */
  lemma SaltLeakExample(key: Key)
    ensures var c := AppendCall(true, "INFER", Some(Serializable(1)), Some(Unserializable), None, Serializable(0),
                                7, 8, true);
            !SaltsOpen(AppendStep(State([], map[], []), key, c).0)
  {
    var c := AppendCall(true, "INFER", Some(Serializable(1)), Some(Unserializable), None, Serializable(0), 7, 8, true);
    assert (0, Request) in AppendStep(State([], map[], []), key, c).0.salts;
  }

  /** MAIN: after any run of accepted, refused, failing and failed-persist appends and
      restarts, the chain verifies, memory equals the log and replay reaches the head. */
  lemma {:induction false} RunsStayIntact(key: Key, events: seq<Event>)
    ensures Intact(Run(key, events), key)
    ensures ReplayOf(Run(key, events).records) == HeadOf(Run(key, events).records)
    decreases |events|
  {
    if events != [] {
      var n := |events| - 1;
      RunsStayIntact(key, events[..n]);
      StepKeepsIntact(Run(key, events[..n]), key, events[n]);
    }
    ReplayReachesHead(Run(key, events).records, key);
  }

  /** MAIN: and if no call of the run leaked, every local salt opens its record. */
  lemma {:induction false} RunsKeepSaltsOpen(key: Key, events: seq<Event>)
    requires forall e :: e in events && e.Call? ==> !LeaksSalt(e.c)
    ensures SaltsOpen(Run(key, events))
    decreases |events|
  {
    if events != [] {
      var n := |events| - 1;
      RunsKeepSaltsOpen(key, events[..n]);
      assert events[n] in events;
      if events[n].Call? {
        SaltsStayOpen(Run(key, events[..n]), key, events[n].c);
      }
    }
  }

  /** MAIN: a record once in the chain stays there, at its index, through every later event. */
  lemma {:induction false} RunsOnlyAppend(key: Key, events: seq<Event>, n: nat)
    requires n <= |events|
    ensures Run(key, events[..n]).records <= Run(key, events).records
    decreases |events| - n
  {
    if n == |events| {
      assert events[..n] == events;
    } else {
      RunsOnlyAppend(key, events, n + 1);
      assert events[..n + 1][..n] == events[..n];
      RunsStayIntact(key, events[..n]);
    }
  }

  // ----- What a record says -----

  /** MAIN: an append succeeds exactly when it is admitted, every part serializes and the write succeeds; then the new
      record, in memory and in the log, has the next index, the head and the node, and the kind, provenance and fields
      it was given. */
  lemma AppendExact(s: State, key: Key, c: AppendCall)
    ensures var (t, out) := AppendStep(s, key, c);
            && (out.Appended? <==>
                && c.admitted && c.request != Some(Unserializable) && c.response != Some(Unserializable)
                && c.provenance != Some(Unserializable) && c.rest != Unserializable && c.diskOk)
            && (!out.Appended? ==> t.records == s.records && t.log == s.log)
            && (out.Appended? ==>
                  && |t.records| == |s.records| + 1 && |t.log| == |s.log| + 1
                  && var r := t.records[|s.records|];
                     && t.records == s.records + [r] && t.log == s.log + [r]
                     && out.index == |s.records| && out.hash == r.thisHash == HashOf(r.body)
                     && r.sig == SignedBy(key, r.thisHash)
                     && r.body.index == |s.records| && r.body.prev == HeadOf(s.records) && r.body.node == NodeOf(key)
                     && r.body.content.kind == c.kind && c.rest == Serializable(r.body.content.rest)
                     && (c.provenance.None? ==> r.body.content.provenanceHash.None?)
                     && (c.provenance.Some? ==>
                           r.body.content.provenanceHash.Some?
                           && c.provenance.value == Serializable(r.body.content.provenanceHash.value))
                     && (r.body.content.request.Some? <==> c.request.Some?)
                     && (r.body.content.response.Some? <==> c.response.Some?))
  {
  }

  /** A restart reads the records back from the log and forgets every salt, so that nothing opens any more. */
  lemma RestartForgets(s: State, key: Key)
    ensures var t := Step(s, key, Restart); t.records == s.log && t.log == s.log && t.salts == map[]
  {
  }

  /** Which refusal: not admitted, else not serializable, else not written. */
  lemma RefusalExact(s: State, key: Key, c: AppendCall)
    ensures var (t, out) := AppendStep(s, key, c);
            && (out.Refused? <==> !c.admitted) && (out.Refused? ==> t == s)
            && (out.NotPersisted? ==> c.admitted && !c.diskOk)
            && (out.NotSerializable? <==>
                c.admitted && (c.request == Some(Unserializable) || c.response == Some(Unserializable)
                               || c.provenance == Some(Unserializable) || c.rest == Unserializable))
  {
  }

  // ----- Opening a commitment -----

  /** `open`: the local salt opens the commitment of the record to this value. */
  predicate Opens(s: State, idx: nat, field: Field, v: nat)
    requires idx < |s.records|
  {
    (idx, field) in s.salts && CommitmentOf(s.records[idx], field) == Some(Commit(s.salts[(idx, field)], v))
  }

  function Offered(c: AppendCall, field: Field): Option<Json> {
    if field == Request then c.request else c.response
  }

  lemma AppendedOpens(s: State, key: Key, c: AppendCall, field: Field, v: nat)
    requires SaltsOpen(s) && AppendStep(s, key, c).1.Appended?
    ensures var t := AppendStep(s, key, c).0;
            |t.records| == |s.records| + 1
            && (Opens(t, |s.records|, field, v) <==> Offered(c, field) == Some(Serializable(v)))
  {
    assert (|s.records|, field) !in s.salts;
  }

  function CallAll(s: State, key: Key, cs: seq<AppendCall>): State {
    if cs == [] then s else AppendStep(CallAll(s, key, cs[..|cs| - 1]), key, cs[|cs| - 1]).0
  }

  /** Later calls, however they end, change neither a record nor its opening. */
  lemma {:induction false} OpeningsLast(s: State, key: Key, cs: seq<AppendCall>, idx: nat, field: Field, v: nat)
    requires idx < |s.records|
    ensures s.records <= CallAll(s, key, cs).records
    ensures Opens(CallAll(s, key, cs), idx, field, v) <==> Opens(s, idx, field, v)
    decreases |cs|
  {
    if cs != [] {
      OpeningsLast(s, key, cs[..|cs| - 1], idx, field, v);
      OneCallKeepsOpening(CallAll(s, key, cs[..|cs| - 1]), key, cs[|cs| - 1], idx, field, v);
    }
  }

  lemma OneCallKeepsOpening(s: State, key: Key, c: AppendCall, idx: nat, field: Field, v: nat)
    requires idx < |s.records|
    ensures var t := AppendStep(s, key, c).0;
            && s.records <= t.records
            && (Opens(t, idx, field, v) <==> Opens(s, idx, field, v))
  {
  }

  /** MAIN: until a restart, an appended record opens to exactly the request and the response it was given. */
  lemma OpensToWhatWasGiven(s: State, key: Key, c: AppendCall, later: seq<AppendCall>, field: Field, v: nat)
    requires SaltsOpen(s) && AppendStep(s, key, c).1.Appended?
    ensures var t := CallAll(AppendStep(s, key, c).0, key, later);
            |s.records| < |t.records|
            && (Opens(t, |s.records|, field, v) <==> Offered(c, field) == Some(Serializable(v)))
  {
    hide AppendStep, Opens, SaltsOpen;
    AppendedOpens(s, key, c, field, v);
    OpeningsLast(AppendStep(s, key, c).0, key, later, |s.records|, field, v);
  }
}
