/**
 * What the choice of a transport promises about probe results, costs and evidence, field by field
 * (src/nnrp/native.py:6344-6633 and 6712-6804).
 */
module SelectionOrder {
  import opened Outcomes
  import opened Sequences
  import opened Sorting
  import opened TransportSelection

  /** The strings agree before a position at which one of them ends or has the smaller character. */
  ghost predicate FirstDifference(a: string, b: string, k: int) {
    0 <= k <= |a| && k < |b| && a[..k] == b[..k] && (k == |a| || a[k] < b[k])
  }

  /** Provider ids are compared at the first position where they differ, and a proper prefix comes first. */
  lemma {:induction false} PrecedesIff(a: string, b: string)
    ensures Precedes(a, b) <==> exists k :: FirstDifference(a, b, k)
  {
    if a == [] && b != [] {
      assert FirstDifference(a, b, 0);
    } else if a != [] && b != [] {
      var c, d := a[1..], b[1..];
      PrecedesIff(c, d);
      forall k
        ensures FirstDifference(a, b, k) <==>
                if k == 0 then a[0] < b[0] else a[0] == b[0] && FirstDifference(c, d, k - 1)
      {
        if 0 < k <= |a| && k < |b| {
          assert a[..k] == [a[0]] + c[..k - 1] && b[..k] == [b[0]] + d[..k - 1];
          assert a[..k][0] == a[0] && a[..k][1..] == c[..k - 1];
          assert b[..k][0] == b[0] && b[..k][1..] == d[..k - 1];
        }
      }
      DifferenceFound(a, b, c, d);
    }
  }

  lemma DifferenceFound(a: string, b: string, c: string, d: string)
    requires a != [] && b != []
    requires forall k :: FirstDifference(a, b, k) <==>
               if k == 0 then a[0] < b[0] else a[0] == b[0] && FirstDifference(c, d, k - 1)
    ensures (exists k :: FirstDifference(a, b, k)) <==>
            a[0] < b[0] || (a[0] == b[0] && exists k :: FirstDifference(c, d, k))
  {
    if k :| FirstDifference(c, d, k) && a[0] == b[0] {
      assert k + 1 != 0;
      assert FirstDifference(a, b, k + 1);
    }
    if a[0] < b[0] {
      assert FirstDifference(a, b, 0);
    }
    if k :| FirstDifference(a, b, k) {
      assert k != 0 ==> FirstDifference(c, d, k - 1);
    }
  }

  /**
   The order of probed candidates: more successes, then higher throughput, then lower round-trip time, then fewer
   units within one declared cost model, then the preferred transport, then lower preference rank, then lower
   transport id, then the provider id.
   */
  lemma BetterIff(x: Candidate, y: Candidate, policy: Policy)
    requires x.probe.Some? && y.probe.Some?
    ensures var a, b, p, q := x.probe.value, y.probe.value, x.provider, y.provider;
            var comparable := p.cost.model != 0 && p.cost.model == q.cost.model;
            var first, second := policy == Prefer(p.transport), policy == Prefer(q.transport);
            Better(policy)(x, y) <==>
              if a.successes != b.successes then a.successes > b.successes
              else if a.throughput != b.throughput then a.throughput > b.throughput
              else if a.rtt != b.rtt then a.rtt < b.rtt
              else if comparable && p.cost.units != q.cost.units then p.cost.units < q.cost.units
              else if first != second then first
              else if p.preference != q.preference then p.preference < q.preference
              else if p.transport != q.transport then p.transport < q.transport
              else Precedes(p.id, q.id)
  {
    hide Precedes;
    PrecedesOneWay(x.provider.id, y.provider.id);
  }

  // Evidence

  ghost predicate ReadyFor(r: Readiness, p: Provider) {
    r.transport == p.transport && r.id == p.id
  }

  ghost predicate ObservedFor(b: Observation, p: Provider) {
    b.transport == p.transport && b.id == p.id
  }

  /** No two providers share a transport or an id. */
  ghost predicate DistinctProviders(providers: seq<Provider>) {
    forall i, j :: 0 <= i < j < |providers| ==>
      providers[i].transport != providers[j].transport && providers[i].id != providers[j].id
  }

  /** Every readiness record is for a provider, no two are for the same one, and every provider has one. */
  ghost predicate OneReadinessEach(providers: seq<Provider>, records: seq<Readiness>) {
    && (forall r :: r in records ==> exists p :: p in providers && ReadyFor(r, p))
    && (forall i, j :: 0 <= i < j < |records| ==>
          records[i].transport != records[j].transport || records[i].id != records[j].id)
    && (forall p :: p in providers ==> exists r :: r in records && ReadyFor(r, p))
  }

  /** Every observation is for a provider, and no two are for the same one. */
  ghost predicate AtMostOneObservationEach(providers: seq<Provider>, records: seq<Observation>) {
    && (forall b :: b in records ==> exists p :: p in providers && ObservedFor(b, p))
    && (forall i, j :: 0 <= i < j < |records| ==>
          records[i].transport != records[j].transport || records[i].id != records[j].id)
  }

  /** Evidence is accepted exactly when it says one thing about every provider and nothing about anything else. */
  lemma FaultlessIff(providers: seq<Provider>, o: Options)
    ensures Fault(providers, o).None? <==>
              && DistinctProviders(providers)
              && OneReadinessEach(providers, o.readiness)
              && AtMostOneObservationEach(providers, o.observations)
  {
    RegistryIff(providers);
    ReadyWithin(providers, o.readiness);
    ObservedWithin(providers, o.observations);
    NoRepeatsBy(o.readiness, ReadinessKey);
    NoRepeatsBy(o.observations, ObservationKey);
    hide Map, Within, ReadyFor, ObservedFor;
  }

  lemma NoRepeatsBy<S, T>(s: seq<S>, f: S -> T)
    ensures NoRepeats(Map(s, f)) <==> forall i, j :: 0 <= i < j < |s| ==> f(s[i]) != f(s[j])
  {
    var t := Map(s, f);
    assert forall i :: 0 <= i < |s| ==> t[i] == f(s[i]);
    if NoRepeats(t) {
      forall i, j | 0 <= i < j < |s|
        ensures f(s[i]) != f(s[j])
      {
        assert t[i] != t[j];
      }
    }
  }

  lemma RegistryIff(providers: seq<Provider>)
    ensures NoRepeats(Map(providers, ProviderTransport)) && NoRepeats(Map(providers, ProviderId)) <==>
            DistinctProviders(providers)
  {
    NoRepeatsBy(providers, ProviderTransport);
    NoRepeatsBy(providers, ProviderId);
    hide Map;
    if NoRepeats(Map(providers, ProviderTransport)) && NoRepeats(Map(providers, ProviderId)) {
      forall i, j | 0 <= i < j < |providers|
        ensures providers[i].transport != providers[j].transport && providers[i].id != providers[j].id
      {
        assert ProviderTransport(providers[i]) != ProviderTransport(providers[j]);
        assert ProviderId(providers[i]) != ProviderId(providers[j]);
      }
    }
  }

  lemma WithinBy<S, T>(s: seq<S>, f: S -> (nat, string), t: seq<T>, g: T -> (nat, string))
    ensures Within(Map(s, f), Map(t, g)) <==> forall x :: x in s ==> exists y :: y in t && f(x) == g(y)
  {
    var a, b := Map(s, f), Map(t, g);
    if Within(a, b) {
      forall x | x in s
        ensures exists y :: y in t && f(x) == g(y)
      {
        var i :| 0 <= i < |s| && s[i] == x;
        assert a[i] in a;
        var j :| 0 <= j < |b| && b[j] == a[i];
        assert t[j] in t;
      }
    }
    if forall x :: x in s ==> exists y :: y in t && f(x) == g(y) {
      forall k | k in a
        ensures k in b
      {
        var i :| 0 <= i < |a| && a[i] == k;
        assert s[i] in s;
        var y :| y in t && f(s[i]) == g(y);
        var j :| 0 <= j < |t| && t[j] == y;
        assert b[j] in b;
      }
    }
  }

  lemma ReadyWithin(providers: seq<Provider>, records: seq<Readiness>)
    ensures Within(Map(records, ReadinessKey), Map(providers, ProviderKey)) <==>
            forall r :: r in records ==> exists p :: p in providers && ReadyFor(r, p)
    ensures Within(Map(providers, ProviderKey), Map(records, ReadinessKey)) <==>
            forall p :: p in providers ==> exists r :: r in records && ReadyFor(r, p)
  {
    WithinBy(records, ReadinessKey, providers, ProviderKey);
    WithinBy(providers, ProviderKey, records, ReadinessKey);
    assert forall r, p :: ReadinessKey(r) == ProviderKey(p) <==> ReadyFor(r, p);
  }

  lemma ObservedWithin(providers: seq<Provider>, records: seq<Observation>)
    ensures Within(Map(records, ObservationKey), Map(providers, ProviderKey)) <==>
            forall b :: b in records ==> exists p :: p in providers && ObservedFor(b, p)
  {
    WithinBy(records, ObservationKey, providers, ProviderKey);
    assert forall b, p :: ObservationKey(b) == ProviderKey(p) <==> ObservedFor(b, p);
  }

  // Candidates

  lemma {:induction false} FirstObservation(p: Provider, records: seq<Observation>)
    ensures var b := ObservationOf(p, records);
            && (b.Some? ==> b.value in records && ObservedFor(b.value, p))
            && (b.None? ==> forall r :: r in records ==> !ObservedFor(r, p))
  {
    if records != [] && !ObservedFor(records[0], p) {
      FirstObservation(p, records[1..]);
      assert records == [records[0]] + records[1..];
    }
  }

  /** Valid evidence has one readiness record for a provider, which is the one used, and at most one observation. */
  lemma EvidenceUsed(providers: seq<Provider>, o: Options, p: Provider)
    requires Fault(providers, o).None? && p in providers
    ensures forall r :: r in o.readiness && ReadyFor(r, p) ==> ReadinessOf(p, o.readiness) == r
    ensures forall b :: b in o.observations && ObservedFor(b, p) ==> ObservationOf(p, o.observations) == Some(b)
    ensures (forall b :: b in o.observations ==> !ObservedFor(b, p)) ==> ObservationOf(p, o.observations).None?
  {
    hide Fault, ReadinessOf, ObservationOf;
    FaultlessIff(providers, o);
    FirstObservation(p, o.observations);
    var i :| 0 <= i < |providers| && providers[i] == p;
    forall r | r in o.readiness && ReadyFor(r, p)
      ensures ReadinessOf(p, o.readiness) == r
    {
      var k :| 0 <= k < |o.readiness| && o.readiness[k] == r;
      ReadinessFound(providers, o, i, k);
    }
    forall b | b in o.observations && ObservedFor(b, p)
      ensures ObservationOf(p, o.observations) == Some(b)
    {
      var used := ObservationOf(p, o.observations).value;
      var j :| 0 <= j < |o.observations| && o.observations[j] == b;
      var k :| 0 <= k < |o.observations| && o.observations[k] == used;
    }
  }

  /** The diagnostic record of a provider before any probe; the first check that fails gives the rejection. */
  lemma EvaluatedAs(providers: seq<Provider>, o: Options, p: Provider, r: Readiness)
    requires Fault(providers, o).None? && p in providers && r in o.readiness && ReadyFor(r, p)
    ensures var c := Evaluate(p, o);
            && c.provider == p && c.state.NotRun? && c.probe.None? && c.rank.None?
            && (c.localAvailable <==> (p.id in o.availability ==> o.availability[p.id]))
            && (c.peerSupported <==> p.transport in o.supported)
            && (c.withinLimits <==> (o.requested.Some? ==> o.requested.value <= p.maxFrameBytes))
            && c.rejection == (if o.policy.Force? && o.policy.transport != p.transport then Some(PolicyDisallowed)
                               else if !c.localAvailable then Some(LocalUnavailable)
                               else if !c.peerSupported then Some(PeerUnsupported)
                               else if !c.withinLimits then Some(LimitExceeded)
                               else if !r.routeResolved then Some(RouteUnresolved)
                               else if !r.securitySatisfied then Some(SecurityUnsatisfied)
                               else None)
            && c.note == (if c.localAvailable then r.note else if p.id in o.notes then o.notes[p.id] else None)
  {
    hide Fault, ReadinessOf;
    EvidenceUsed(providers, o, p);
  }

  lemma ProbedWith(c: Candidate, o: Options)
    ensures c.rejection.Some? ==> Probe(c, o) == c
    ensures c.rejection.None? ==>
              var b := ObservationOf(c.provider, o.observations);
              Probe(c, o) ==
                if b.None? then c.(state := Missing, rejection := Some(ProbeMissing))
                else if b.value.metrics.Some?
                then c.(state := Succeeded, probe := b.value.metrics, note := b.value.note)
                else c.(state := Failed, rejection := Some(ProbeFailed), note := b.value.note)
  {
    hide ObservationOf;
    match ObservationOf(c.provider, o.observations)
    case None =>
    case Some(Observation(_, _, None, _)) =>
    case Some(Observation(_, _, Some(_), _)) =>
  }

  /** What probing makes of a candidate: a rejected one stays as it is, and the others are judged by observation. */
  lemma ProbedAs(providers: seq<Provider>, o: Options, p: Provider)
    requires Fault(providers, o).None? && p in providers
    ensures var e, c := Evaluate(p, o), Probe(Evaluate(p, o), o);
            && (e.rejection.Some? ==> c == e)
            && (e.rejection.None? ==>
                  && (forall b :: b in o.observations && ObservedFor(b, p) ==>
                        c == if b.metrics.Some?
                             then e.(state := Succeeded, probe := b.metrics, note := b.note)
                             else e.(state := Failed, rejection := Some(ProbeFailed), note := b.note))
                  && ((forall b :: b in o.observations ==> !ObservedFor(b, p)) ==>
                        c == e.(state := Missing, rejection := Some(ProbeMissing))))
  {
    hide Fault, ObservationOf, Evaluate, ObservedFor, Probe;
    EvidenceUsed(providers, o, p);
    SameProvider(p, o);
    ProbedWith(Evaluate(p, o), o);
  }

  /** The contenders are the usable providers whose observation has metrics, with those metrics. */
  lemma ContendersIff(providers: seq<Provider>, o: Options, p: Provider)
    requires Fault(providers, o).None?
    ensures p in providers && Usable(p, o)
            && (exists b :: b in o.observations && ObservedFor(b, p) && b.metrics.Some?) <==>
            exists c :: c in Contenders(providers, o) && c.provider == p
    ensures forall b, c :: b in o.observations && ObservedFor(b, p) && c in Contenders(providers, o) && c.provider == p
              ==> c.probe == b.metrics && b.metrics.Some?
  {
    hide Fault, Filter, Evaluate, Probe, ObservationOf, Usable, ObservedFor, Probed, ReadinessOf, Contenders;
    if b :| p in providers && Usable(p, o) && b in o.observations && ObservedFor(b, p) && b.metrics.Some? {
      Contends(providers, o, p, b);
    }
    forall c | c in Contenders(providers, o) && c.provider == p
      ensures p in providers && Usable(p, o)
      ensures exists b :: b in o.observations && ObservedFor(b, p) && b.metrics.Some? && c.probe == b.metrics
    {
      var b := Contended(providers, o, c);
    }
    forall b, c | b in o.observations && ObservedFor(b, p) && c in Contenders(providers, o) && c.provider == p
      ensures c.probe == b.metrics && b.metrics.Some?
    {
      EvidenceUsed(providers, o, p);
      var other := Contended(providers, o, c);
    }
  }

  lemma Contends(providers: seq<Provider>, o: Options, p: Provider, b: Observation)
    requires Fault(providers, o).None? && p in providers && Usable(p, o)
    requires b in o.observations && ObservedFor(b, p) && b.metrics.Some?
    ensures var c := Probe(Evaluate(p, o), o);
            c in Contenders(providers, o) && c.provider == p && c.probe == b.metrics
  {
    hide Fault, Filter, Evaluate, Probe, Usable, ObservedFor, Probed;
    FaultlessTransports(providers, o);
    ProbedShape(providers, o);
    FilterMembers(Probed(providers, o), Successful);
    ProbedAs(providers, o, p);
    EligibleIsUsable(p, o);
    SameProvider(p, o);
    var i :| 0 <= i < |providers| && providers[i] == p;
    assert Probed(providers, o)[i] in Probed(providers, o);
  }

  lemma Contended(providers: seq<Provider>, o: Options, c: Candidate) returns (b: Observation)
    requires Fault(providers, o).None? && c in Contenders(providers, o)
    ensures c.provider in providers && Usable(c.provider, o)
    ensures b in o.observations && ObservedFor(b, c.provider) && b.metrics.Some? && c.probe == b.metrics
  {
    hide Fault, Filter, Evaluate, Probe, Usable, ObservedFor, Probed, ObservationOf;
    FaultlessTransports(providers, o);
    ProbedShape(providers, o);
    FilterMembers(Probed(providers, o), Successful);
    var i :| 0 <= i < |providers| && Probed(providers, o)[i] == c;
    var p := providers[i];
    ProbedAs(providers, o, p);
    EligibleIsUsable(p, o);
    SameProvider(p, o);
    FirstObservation(p, o.observations);
    b := ObservationOf(p, o.observations).value;
  }

  // The answer

  /** Strictly better by probe result alone. */
  predicate Outprobes(x: Candidate, y: Candidate) {
    var a, b := MetricsOf(x), MetricsOf(y);
    if a.successes != b.successes then a.successes > b.successes
    else if a.throughput != b.throughput then a.throughput > b.throughput
    else a.rtt < b.rtt
  }

  lemma ProbesFirst(policy: Policy)
    ensures Refines(Better(policy), Outprobes)
  {
    hide Precedes, ComparedCost, ComparedIds;
  }

  lemma SelectedWins(p: seq<Provider>, o: Options)
    requires Select(p, o).Ok? && !Select(p, o).value.direct
    ensures Fault(p, o).None? && Winners(p, o) != []
    ensures Winners(p, o)[0].provider == Select(p, o).value.provider
    ensures Permuted(Winners(p, o), Contenders(p, o))
  {
    hide Filter, Sort, Fault, Better, Listed, Select, Evaluated, Probed, Winners;
    SelectOkFaultless(p, o);
    if |Filter(Evaluated(p, o), Eligible)| == 1 {
      DirectShape(p, o);
    }
    SelectionShape(p, o);
  }

  /**
   Whatever cycles the costs make, no usable provider was probed with a better result than the selected one: none had
   more successes, with as many none had higher throughput, and with that equal too none a lower round-trip time.
   */
  lemma SelectedHasBestProbe(p: seq<Provider>, o: Options, q: Provider, b: Observation)
    requires Select(p, o).Ok? && !Select(p, o).value.direct
    requires q in p && Usable(q, o) && b in o.observations && ObservedFor(b, q) && b.metrics.Some?
    ensures exists best :: best in o.observations && ObservedFor(best, Select(p, o).value.provider)
              && best.metrics.Some?
              && var m, n := best.metrics.value, b.metrics.value;
              if m.successes != n.successes then m.successes > n.successes
              else if m.throughput != n.throughput then m.throughput > n.throughput
              else m.rtt <= n.rtt
  {
    hide Filter, Sort, Fault, Better, Usable, ObservedFor, Select, Evaluate, Probe, Probed, Contenders;
    SelectedWins(p, o);
    Contends(p, o, q, b);
    var w, c := Winners(p, o), Probe(Evaluate(q, o), o);
    ProbesFirst(o.policy);
    WinnersAreSorted(p, o);
    SortRefined(Contenders(p, o), Better(o.policy), Outprobes);
    assert w[0] in w;
    PermutedMember(w, Contenders(p, o), w[0]);
    var best := Contended(p, o, w[0]);
    PermutedMembers(w, Contenders(p, o));
    var i :| 0 <= i < |w| && w[i] == c;
    assert !Outprobes(c, w[0]);
  }

  lemma ContendersAre(p: seq<Provider>, o: Options)
    ensures Contenders(p, o) == Filter(Probed(p, o), Successful)
  {
  }

  /**
   Without a cycle the selected provider leads every other contender by the first key in which they differ: successes,
   throughput, round-trip time, units of one cost model, the preferred transport, preference rank, transport id.
   */
  lemma SelectedLeads(p: seq<Provider>, o: Options, q: Provider, b: Observation)
    requires Select(p, o).Ok? && !Select(p, o).value.direct && Acyclic(Contenders(p, o), Better(o.policy))
    requires q in p && Usable(q, o) && b in o.observations && ObservedFor(b, q) && b.metrics.Some?
    requires q != Select(p, o).value.provider
    ensures exists best :: best in o.observations && ObservedFor(best, Select(p, o).value.provider)
              && best.metrics.Some?
              && var m, n, s := best.metrics.value, b.metrics.value, Select(p, o).value.provider;
              if m.successes != n.successes then m.successes > n.successes
              else if m.throughput != n.throughput then m.throughput > n.throughput
              else if m.rtt != n.rtt then m.rtt < n.rtt
              else if s.cost.model != 0 && s.cost.model == q.cost.model && s.cost.units != q.cost.units
              then s.cost.units < q.cost.units
              else if o.policy == Prefer(s.transport) then true
              else if o.policy == Prefer(q.transport) then false
              else if s.preference != q.preference then s.preference < q.preference
              else s.transport < q.transport
  {
    hide Filter, Sort, Fault, Better, Usable, ObservedFor, Select, Evaluate, Probe, Probed, Contenders, Precedes,
      OwnTransports;
    SelectedWins(p, o);
    Contends(p, o, q, b);
    WinnersInOrder(p, o);
    ContendersTotal(p, o);
    var w, c := Winners(p, o), Probe(Evaluate(q, o), o);
    assert w[0] in w;
    PermutedMember(w, Contenders(p, o), w[0]);
    var best := Contended(p, o, w[0]);
    PermutedMembers(w, Contenders(p, o));
    var i :| 0 <= i < |w| && w[i] == c;
    assert !Better(o.policy)(c, w[0]);
    BetterIff(c, w[0], o.policy);
    FaultlessTransports(p, o);
    ProbedShape(p, o);
    ContendersOwn(Probed(p, o));
    ContendersAre(p, o);
    DifferentTransports(Contenders(p, o), c, w[0]);
  }

  /** A report lists every provider once: those ranked by rank from 0, then the others by transport id. */
  ghost predicate Reports(cs: seq<Candidate>, ranked: nat, providers: seq<Provider>) {
    && Permuted(Map(cs, ProviderOf), providers)
    && ranked <= |cs|
    && (forall i :: 0 <= i < ranked ==> cs[i].rank == Some(i))
    && (forall i :: ranked <= i < |cs| ==> cs[i].rank.None?)
    && (forall i, j :: ranked <= i < j < |cs| ==> cs[i].provider.transport < cs[j].provider.transport)
  }

  lemma ReportOf(cs: seq<Candidate>, winners: seq<Candidate>, rest: seq<Candidate>)
    requires OwnTransports(cs) && Unranked(cs) && Permuted(cs, winners + rest)
    ensures Reports(Numbered(winners) + Sort(rest, Listed), |winners|, Map(cs, ProviderOf))
  {
    hide Sort, Map, OwnTransports, Unranked;
    var tail := Sort(rest, Listed);
    RestOf(cs, winners, rest);
    TailInOrder(rest, tail);
    SortPermutes(rest, Listed);
    assert Permuted(winners + rest, winners + tail);
    MapPermuted(cs, winners + tail, ProviderOf);
    SameProviders(winners, tail);
    var report := Numbered(winners) + tail;
    forall i, j | |winners| <= i < j < |report|
      ensures report[i].provider.transport < report[j].provider.transport && report[i].rank.None?
    {
      var a, b := i - |winners|, j - |winners|;
      assert 0 <= a < b < |tail|;
      assert report[i] == tail[a];
      assert report[j] == tail[b];
      assert tail[a].provider.transport < tail[b].provider.transport;
    }
  }

  lemma RestOf(cs: seq<Candidate>, winners: seq<Candidate>, rest: seq<Candidate>)
    requires OwnTransports(cs) && Unranked(cs) && Permuted(cs, winners + rest)
    ensures OwnTransports(rest) && Unranked(rest)
  {
    OwnTransportsPermuted(cs, winners + rest);
    assert forall i :: 0 <= i < |rest| ==> rest[i] == (winners + rest)[|winners| + i];
    forall i | 0 <= i < |rest|
      ensures rest[i].rank.None?
    {
      assert rest[i] in winners + rest;
      PermutedMember(winners + rest, cs, rest[i]);
    }
  }

  /** Candidates without ranks are listed by transport id. */
  lemma TailInOrder(rest: seq<Candidate>, tail: seq<Candidate>)
    requires OwnTransports(rest) && Unranked(rest) && tail == Sort(rest, Listed)
    ensures forall i :: 0 <= i < |tail| ==> tail[i].rank.None?
    ensures forall i, j :: 0 <= i < j < |tail| ==> tail[i].provider.transport < tail[j].provider.transport
  {
    hide Sort, Listed, OwnTransports;
    assert [] + rest == rest && [] + tail == tail;
    ListedInOrder([], rest);
    SortPermutes(rest, Listed);
    OwnTransportsPermuted(rest, tail);
    forall i | 0 <= i < |tail|
      ensures tail[i].rank.None?
    {
      assert tail[i] in tail;
      PermutedMember(tail, rest, tail[i]);
    }
    SortedByTransport(tail);
  }

  lemma SameProviders(winners: seq<Candidate>, tail: seq<Candidate>)
    ensures Map(Numbered(winners) + tail, ProviderOf) == Map(winners + tail, ProviderOf)
  {
  }

  lemma SortedByTransport(cs: seq<Candidate>)
    requires OwnTransports(cs) && Unranked(cs) && Sorted(cs, Listed)
    ensures forall i, j :: 0 <= i < j < |cs| ==> cs[i].provider.transport < cs[j].provider.transport
  {
    forall i, j | 0 <= i < j < |cs|
      ensures cs[i].provider.transport < cs[j].provider.transport
    {
      assert !Listed(cs[j], cs[i]);
    }
  }

  /**
   What every answer to valid evidence reports. With one eligible provider only it is ranked; otherwise those whose
   probe succeeded are, and an error ranks none. The selected provider is at the head.
   */
  lemma AnswerReports(p: seq<Provider>, o: Options)
    requires Fault(p, o).None?
    ensures var r := Select(p, o);
            if r.Err? then !r.error.InvalidEvidence? && Reports(r.error.candidates, 0, p)
            else exists n: nat :: 1 <= n && (r.value.direct ==> n == 1) && Reports(r.value.candidates, n, p)
                                && r.value.candidates[0].provider == r.value.provider
                                && (!r.value.direct ==>
                                    forall i :: 0 <= i < |r.value.candidates| ==>
                                      (r.value.candidates[i].state.Succeeded? <==> i < n))
  {
    hide Filter, Sort, Fault, Probe, Evaluate, Listed, Select, Reports, Better, Evaluated, Probed;
    FaultlessTransports(p, o);
    ProbedShape(p, o);
    var e, c := Evaluated(p, o), Probed(p, o);
    forall i | 0 <= i < |p|
      ensures e[i].rank.None? && c[i].rank.None? && e[i].provider == c[i].provider == p[i]
    {
      SameProvider(p[i], o);
    }
    assert Map(e, ProviderOf) == p && Map(c, ProviderOf) == p;
    if |Filter(e, Eligible)| == 1 {
      DirectShape(p, o);
      FilterSplit(e, Eligible, Ineligible);
      ReportOf(e, Filter(e, Eligible), Filter(e, Ineligible));
      assert Numbered(Filter(e, Eligible)) == [Filter(e, Eligible)[0].(rank := Some(0))];
      assert Reports(Select(p, o).value.candidates, 1, p);
    } else {
      SelectionShape(p, o);
      var w, rest := Winners(p, o), Filter(c, Unsuccessful);
      FilterSplit(c, Successful, Unsuccessful);
      assert Permuted(c, w + rest);
      ReportOf(c, w, rest);
      var tail := Sort(rest, Listed);
      if w == [] {
        assert Numbered(w) + tail == tail;
      } else {
        StatesShown(c, w, tail);
        assert Reports(Select(p, o).value.candidates, |w|, p);
      }
    }
  }

  lemma StatesShown(c: seq<Candidate>, w: seq<Candidate>, tail: seq<Candidate>)
    requires Permuted(w, Filter(c, Successful)) && tail == Sort(Filter(c, Unsuccessful), Listed)
    ensures var report := Numbered(w) + tail;
            forall i :: 0 <= i < |report| ==> (report[i].state.Succeeded? <==> i < |w|)
  {
    hide Filter, Sort;
    FilterMembers(c, Successful);
    FilterMembers(c, Unsuccessful);
    SortPermutes(Filter(c, Unsuccessful), Listed);
    var report := Numbered(w) + tail;
    forall i | 0 <= i < |report|
      ensures report[i].state.Succeeded? <==> i < |w|
    {
      if i < |w| {
        assert w[i] in w;
        PermutedMember(w, Filter(c, Successful), w[i]);
      } else {
        assert tail[i - |w|] in tail;
        PermutedMember(tail, Filter(c, Unsuccessful), tail[i - |w|]);
      }
    }
  }

  /**
   An error under a forced policy names the forced transport and the rejection of its provider, if one is registered;
   under any other policy nothing is viable.
   */
  lemma RefusedAs(p: seq<Provider>, o: Options)
    requires Fault(p, o).None? && Select(p, o).Err?
    ensures var error := Select(p, o).error;
            && (!o.policy.Force? ==> error.NoViable?)
            && (o.policy.Force? ==>
                  && error.ForcedUnavailable? && error.transport == o.policy.transport
                  && ((forall c :: c in error.candidates ==> c.provider.transport != o.policy.transport) ==>
                        error.rejection.None?)
                  && forall c :: c in error.candidates && c.provider.transport == o.policy.transport ==>
                       error.rejection == c.rejection)
  {
    hide Filter, Sort, Fault, Listed, Select, Evaluated, Probed, Winners, RejectionOf;
    if |Filter(Evaluated(p, o), Eligible)| == 1 {
      DirectShape(p, o);
    }
    SelectionShape(p, o);
    AnswerReports(p, o);
    var cs := Select(p, o).error.candidates;
    if o.policy.Force? {
      RejectionFound(cs, o.policy.transport);
    }
  }

  lemma {:induction false} RejectionFound(cs: seq<Candidate>, transport: nat)
    requires forall i, j :: 0 <= i < j < |cs| ==> cs[i].provider.transport < cs[j].provider.transport
    ensures (forall c :: c in cs ==> c.provider.transport != transport) ==> RejectionOf(cs, transport).None?
    ensures forall c :: c in cs && c.provider.transport == transport ==> RejectionOf(cs, transport) == c.rejection
  {
    if cs != [] {
      RejectionFound(cs[1..], transport);
      assert cs == [cs[0]] + cs[1..];
      forall c | c in cs && c.provider.transport == transport
        ensures RejectionOf(cs, transport) == c.rejection
      {
        var i :| 0 <= i < |cs| && cs[i] == c;
        assert i > 0 ==> cs[0].provider.transport < cs[i].provider.transport;
      }
    }
  }
}
