/** The similarity-index cache under callers that interleave between its two locked
    regions. Documents, fingerprints and indexes are opaque. */
module IndexCache {
  import opened Base

  type Docs(==, !new)
  type Fingerprint(==, !new)
  type Index(==, !new)

  /** What a caller supplies: the kind, the fingerprint and the documents. */
  datatype Request = Request(kind: string, fingerprint: Fingerprint, docs: Docs)

  datatype Entry = Entry(fingerprint: Fingerprint, index: Index)

  /** Where a caller stands: before the first lock, building outside any lock, before
      the second lock, or done. */
  datatype Caller =
    | Arriving(request: Request)
    | Building(request: Request)
    | Storing(request: Request, index: Index)
    | Returned(request: Request, index: Index)

  /** `supplied` remembers every request ever made. */
  datatype State = State(entries: map<string, Entry>, callers: map<Id, Caller>, supplied: set<Request>)

  datatype Step = Call(c: Id, request: Request) | Look(c: Id) | Build(c: Id) | Store(c: Id) | Clear

  /** What the first locked region finds. */
  function Cached(entries: map<string, Entry>, r: Request): Option<Index> {
    if r.kind in entries && entries[r.kind].fingerprint == r.fingerprint then Some(entries[r.kind].index) else None
  }

  /** One step of one caller; a step that is not the caller's next does nothing. */
  function Apply(s: State, build: Docs -> Index, e: Step): State {
    match e
    case Call(c, r) =>
      if c in s.callers then s else s.(callers := s.callers[c := Arriving(r)], supplied := s.supplied + {r})
    case Look(c) =>
      if c in s.callers && s.callers[c].Arriving? then
        var r := s.callers[c].request;
        var cached := Cached(s.entries, r);
        s.(callers := s.callers[c := if cached.Some? then Returned(r, cached.value) else Building(r)])
      else s
    case Build(c) =>
      if c in s.callers && s.callers[c].Building? then
        var r := s.callers[c].request;
        s.(callers := s.callers[c := Storing(r, build(r.docs))])
      else s
    case Store(c) =>
      if c in s.callers && s.callers[c].Storing? then
        var r, index := s.callers[c].request, s.callers[c].index;
        s.(entries := s.entries[r.kind := Entry(r.fingerprint, index)], callers := s.callers[c := Returned(r, index)])
      else s
    case Clear => s.(entries := map[])
  }

  function Run(s: State, build: Docs -> Index, es: seq<Step>): State
    decreases |es|
  {
    if es == [] then s else Run(Apply(s, build, es[0]), build, es[1..])
  }

  const INITIAL := State(map[], map[], {})

  /** Some request of this kind and fingerprint supplied documents that give this index. */
  ghost predicate Grounded(s: State, build: Docs -> Index, kind: string, fingerprint: Fingerprint, index: Index) {
    exists r <- s.supplied :: r.kind == kind && r.fingerprint == fingerprint && build(r.docs) == index
  }

  ghost predicate Sound(s: State, build: Docs -> Index) {
    && (forall k | k in s.entries :: Grounded(s, build, k, s.entries[k].fingerprint, s.entries[k].index))
    && (forall c | c in s.callers :: s.callers[c].request in s.supplied)
    && (forall c | c in s.callers && s.callers[c].Storing? :: s.callers[c].index == build(s.callers[c].request.docs))
    && (forall c | c in s.callers && s.callers[c].Returned? ::
          Grounded(s, build, s.callers[c].request.kind, s.callers[c].request.fingerprint, s.callers[c].index))
  }

  lemma KeepsSound(s: State, build: Docs -> Index, e: Step)
    requires Sound(s, build)
    ensures Sound(Apply(s, build, e), build)
  {
    var t := Apply(s, build, e);
    forall k, f, i | Grounded(s, build, k, f, i) ensures Grounded(t, build, k, f, i) {
      var r :| r in s.supplied && r.kind == k && r.fingerprint == f && build(r.docs) == i;
      assert r in t.supplied;
    }
  }

  lemma {:induction false} RunsKeepSound(s: State, build: Docs -> Index, es: seq<Step>)
    requires Sound(s, build)
    ensures Sound(Run(s, build, es), build)
    decreases |es|
  {
    if es != [] {
      KeepsSound(s, build, es[0]);
      RunsKeepSound(Apply(s, build, es[0]), build, es[1..]);
    }
  }

  /** However the callers interleave, even when a slower one overwrites a newer entry, the
      index a caller receives was built from documents supplied with the same kind and an
      equal fingerprint. */
  lemma ReceivedIndexIsGrounded(build: Docs -> Index, es: seq<Step>, c: Id)
    requires var s := Run(INITIAL, build, es); c in s.callers && s.callers[c].Returned?
    ensures var s := Run(INITIAL, build, es);
            Grounded(s, build, s.callers[c].request.kind, s.callers[c].request.fingerprint, s.callers[c].index)
  {
    RunsKeepSound(INITIAL, build, es);
  }

  /** Where equal fingerprints mean equal documents, every caller receives the index of
      its own documents, as if there were no cache. */
  lemma CacheIsInvisible(build: Docs -> Index, es: seq<Step>, c: Id)
    requires var s := Run(INITIAL, build, es);
             && c in s.callers && s.callers[c].Returned?
             && forall a, b | a in s.supplied && b in s.supplied && a.kind == b.kind && a.fingerprint == b.fingerprint ::
                  a.docs == b.docs
    ensures var s := Run(INITIAL, build, es); s.callers[c].index == build(s.callers[c].request.docs)
  {
    ReceivedIndexIsGrounded(build, es, c);
    RunsKeepSound(INITIAL, build, es);
  }

  /** A caller nobody disturbs: a matching entry is the answer and nothing is built or stored;
      otherwise the index of the caller's own documents is built, kept and the answer. Nobody
      else is touched, and clearing forgets every entry and no caller. */
  lemma AloneACallerIsAnswered(s: State, build: Docs -> Index, c: Id, r: Request)
    requires c !in s.callers
    ensures var looked := Apply(Apply(s, build, Call(c, r)), build, Look(c));
            var stored := Apply(Apply(looked, build, Build(c)), build, Store(c));
            && Run(s, build, [Call(c, r), Look(c), Build(c), Store(c)]) == stored
            && if r.kind in s.entries && s.entries[r.kind].fingerprint == r.fingerprint then
                 looked == State(s.entries, s.callers[c := Returned(r, s.entries[r.kind].index)], s.supplied + {r})
                 && stored == looked
               else
                 && looked.entries == s.entries && c in looked.callers && looked.callers[c] == Building(r)
                 && stored == State(s.entries[r.kind := Entry(r.fingerprint, build(r.docs))],
                                    s.callers[c := Returned(r, build(r.docs))], s.supplied + {r})
    ensures Apply(s, build, Clear) == State(map[], s.callers, s.supplied)
  {
    var called := Apply(s, build, Call(c, r));
    var looked := Apply(called, build, Look(c));
    assert called.callers[c] == Arriving(r);
    assert looked.callers == s.callers[c := looked.callers[c]];
    var built := Apply(looked, build, Build(c));
    assert built.callers == s.callers[c := built.callers[c]];
    assert Apply(built, build, Store(c)).callers == s.callers[c := Apply(built, build, Store(c)).callers[c]];
    FourSteps(s, build, Call(c, r), Look(c), Build(c), Store(c));
  }

  lemma FourSteps(s: State, build: Docs -> Index, a: Step, b: Step, c: Step, d: Step)
    ensures Run(s, build, [a, b, c, d])
         == Apply(Apply(Apply(Apply(s, build, a), build, b), build, c), build, d)
  {
    hide Apply;
    assert [a, b, c, d][1..] == [b, c, d] && [b, c, d][1..] == [c, d] && [c, d][1..] == [d] && [d][1..] == [];
    var t := Apply(Apply(s, build, a), build, b);
    assert Run(s, build, [a, b, c, d]) == Run(Apply(s, build, a), build, [b, c, d]) == Run(t, build, [c, d]);
    assert Run(t, build, [c, d]) == Run(Apply(t, build, c), build, [d]);
    assert Run(Apply(t, build, c), build, [d]) == Run(Apply(Apply(t, build, c), build, d), build, []);
  }

  // ----- the cache itself -----

  class Cache {
    var entries: map<string, Entry>

    constructor ()
      ensures entries == map[]
    {
      entries := map[];
    }

    /** The first locked region. */
    method Find(r: Request) returns (hit: Option<Index>)
      ensures hit == Cached(entries, r)
    {
      hit := None;
      if r.kind in entries {
        var cached := entries[r.kind];
        if cached.fingerprint == r.fingerprint { hit := Some(cached.index); }
      }
    }

    /** The second. */
    method Put(r: Request, index: Index)
      modifies this
      ensures entries == old(entries)[r.kind := Entry(r.fingerprint, index)]
    {
      entries := entries[r.kind := Entry(r.fingerprint, index)];
    }

    /** Undisturbed, a call answers from a matching entry or builds and keeps the index;
        either way the next call with the same request is a hit on the same answer. */
    method GetOrBuild(r: Request, build: Docs -> Index) returns (index: Index)
      modifies this
      ensures Cached(old(entries), r).Some? ==> index == Cached(old(entries), r).value && entries == old(entries)
      ensures Cached(old(entries), r).None? ==>
                index == build(r.docs) && entries == old(entries)[r.kind := Entry(r.fingerprint, index)]
      ensures Cached(entries, r) == Some(index)
    {
      var hit := Find(r);
      if hit.Some? { return hit.value; }
      index := build(r.docs);
      Put(r, index);
    }

    method Clear()
      modifies this
      ensures entries == map[]
    {
      entries := map[];
    }
  }
}
