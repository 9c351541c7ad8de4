/** Deterministic choice of a native transport provider (src/nnrp/native.py:6344-6633, 6662-6804). */
module TransportSelection {
  import opened Outcomes
  import opened Sequences
  import opened Sorting

  /** Model 0 means that no cost is declared; units of different models are not comparable. */
  datatype Cost = Cost(model: nat, units: nat)

  datatype Metrics = Metrics(samples: nat, successes: nat, throughput: nat, rtt: nat)

  datatype Provider = Provider(transport: nat, id: string, maxFrameBytes: nat, cost: Cost, preference: nat)

  datatype Policy = Auto | Prefer(transport: nat) | Force(transport: nat)

  datatype ProbeState = NotRun | Succeeded | Failed | Missing

  datatype Rejection =
    | PolicyDisallowed | LocalUnavailable | PeerUnsupported | LimitExceeded | RouteUnresolved | SecurityUnsatisfied
    | ProbeFailed | ProbeMissing

  /** A provider with its diagnostic record. */
  datatype Candidate = Candidate(
    provider: Provider, localAvailable: bool, peerSupported: bool, withinLimits: bool, state: ProbeState,
    probe: Option<Metrics>, rank: Option<nat>, rejection: Option<Rejection>, note: Option<string>)

  datatype Readiness = Readiness(
    transport: nat, id: string, routeResolved: bool, securitySatisfied: bool, note: Option<string>)

  /** A probe that succeeded has metrics, one that failed has none. */
  datatype Observation = Observation(transport: nat, id: string, metrics: Option<Metrics>, note: Option<string>)

  datatype Options = Options(
    policy: Policy, supported: set<nat>, requested: Option<nat>, readiness: seq<Readiness>,
    observations: seq<Observation>, availability: map<string, bool>, notes: map<string, Option<string>>)

  datatype EvidenceFault =
    | DuplicateProvider | UnmatchedReadiness | DuplicateReadiness | MissingReadiness
    | UnmatchedObservation | DuplicateObservation

  datatype SelectionError =
    | InvalidEvidence(fault: EvidenceFault)
    | NoViable(candidates: seq<Candidate>)
    | ForcedUnavailable(transport: nat, rejection: Option<Rejection>, candidates: seq<Candidate>)

  datatype Selection = Selection(provider: Provider, candidates: seq<Candidate>, direct: bool)

  // Evidence

  function ProviderKey(p: Provider): (nat, string) {
    (p.transport, p.id)
  }

  function ProviderTransport(p: Provider): nat {
    p.transport
  }

  function ProviderId(p: Provider): string {
    p.id
  }

  function ReadinessKey(r: Readiness): (nat, string) {
    (r.transport, r.id)
  }

  function ObservationKey(b: Observation): (nat, string) {
    (b.transport, b.id)
  }

  predicate Within(part: seq<(nat, string)>, whole: seq<(nat, string)>) {
    forall k :: k in part ==> k in whole
  }

  function Fault(providers: seq<Provider>, o: Options): Option<EvidenceFault> {
    var keys := Map(providers, ProviderKey);
    var ready, observed := Map(o.readiness, ReadinessKey), Map(o.observations, ObservationKey);
    if !NoRepeats(Map(providers, ProviderTransport)) || !NoRepeats(Map(providers, ProviderId))
    then Some(DuplicateProvider)
    else if !Within(ready, keys) then Some(UnmatchedReadiness)
    else if !NoRepeats(ready) then Some(DuplicateReadiness)
    else if !Within(keys, ready) then Some(MissingReadiness)
    else if !Within(observed, keys) then Some(UnmatchedObservation)
    else if !NoRepeats(observed) then Some(DuplicateObservation)
    else None
  }

  // Candidates

  /** The first record for a provider. Validated evidence has one; the answer without one is never used. */
  function ReadinessOf(p: Provider, records: seq<Readiness>): Readiness {
    if records == [] then Readiness(p.transport, p.id, false, false, None)
    else if records[0].transport == p.transport && records[0].id == p.id then records[0]
    else ReadinessOf(p, records[1..])
  }

  function ObservationOf(p: Provider, records: seq<Observation>): Option<Observation> {
    if records == [] then None
    else if records[0].transport == p.transport && records[0].id == p.id then Some(records[0])
    else ObservationOf(p, records[1..])
  }

  predicate Allows(policy: Policy, transport: nat) {
    policy.Force? ==> policy.transport == transport
  }

  function Evaluate(p: Provider, o: Options): Candidate {
    var ready := ReadinessOf(p, o.readiness);
    var available := p.id in o.availability ==> o.availability[p.id];
    var supported := p.transport in o.supported;
    var within := o.requested.Some? ==> o.requested.value <= p.maxFrameBytes;
    var rejection :=
      if !Allows(o.policy, p.transport) then Some(PolicyDisallowed)
      else if !available then Some(LocalUnavailable)
      else if !supported then Some(PeerUnsupported)
      else if !within then Some(LimitExceeded)
      else if !ready.routeResolved then Some(RouteUnresolved)
      else if !ready.securitySatisfied then Some(SecurityUnsatisfied)
      else None;
    Candidate(p, available, supported, within, NotRun, None, None, rejection,
              if available then ready.note else if p.id in o.notes then o.notes[p.id] else None)
  }

  predicate Eligible(c: Candidate) {
    c.rejection.None?
  }

  function Probe(c: Candidate, o: Options): Candidate {
    if !Eligible(c) then c
    else
      match ObservationOf(c.provider, o.observations)
      case None => c.(state := Missing, rejection := Some(ProbeMissing))
      case Some(Observation(_, _, Some(m), note)) => c.(state := Succeeded, probe := Some(m), note := note)
      case Some(Observation(_, _, None, note)) => c.(state := Failed, rejection := Some(ProbeFailed), note := note)
  }

  predicate Successful(c: Candidate) {
    c.state == Succeeded
  }

  predicate Unsuccessful(c: Candidate) {
    c.state != Succeeded
  }

  // The comparator

  function Compared(left: int, right: int): int {
    if left > right then 1 else if left < right then -1 else 0
  }

  function ComparedCost(left: Cost, right: Cost): int {
    if left.model != 0 && left.model == right.model then Compared(left.units, right.units) else 0
  }

  predicate Precedes(left: string, right: string) {
    if right == [] then false
    else if left == [] then true
    else left[0] < right[0] || (left[0] == right[0] && Precedes(left[1..], right[1..]))
  }

  function ComparedIds(left: string, right: string): int {
    if Precedes(right, left) then 1 else if Precedes(left, right) then -1 else 0
  }

  function PreferenceOf(policy: Policy, transport: nat): int {
    if policy.Prefer? && policy.transport == transport then 0 else 1
  }

  /** Successful candidates carry metrics; no other candidate is compared. */
  function MetricsOf(c: Candidate): Metrics {
    if c.probe.Some? then c.probe.value else Metrics(0, 0, 0, 0)
  }

  function FirstOf(a: int, b: int): int {
    if a != 0 then a else b
  }

  function Compare(left: Candidate, right: Candidate, policy: Policy): int {
    var l, r := MetricsOf(left), MetricsOf(right);
    FirstOf(Compared(r.successes, l.successes),
    FirstOf(Compared(r.throughput, l.throughput),
    FirstOf(Compared(l.rtt, r.rtt),
    FirstOf(ComparedCost(left.provider.cost, right.provider.cost),
    FirstOf(Compared(PreferenceOf(policy, left.provider.transport), PreferenceOf(policy, right.provider.transport)),
    FirstOf(Compared(left.provider.preference, right.provider.preference),
    FirstOf(Compared(left.provider.transport, right.provider.transport),
            ComparedIds(left.provider.id, right.provider.id))))))))
  }

  function Better(policy: Policy): (Candidate, Candidate) -> bool {
    (left: Candidate, right: Candidate) => Compare(left, right, policy) < 0
  }

  // The result

  /** Ranked candidates by rank, then the others by transport id and provider id. */
  predicate Listed(left: Candidate, right: Candidate) {
    if left.rank.Some? != right.rank.Some? then left.rank.Some?
    else if left.rank.Some? then left.rank.value < right.rank.value
    else
      || left.provider.transport < right.provider.transport
      || (left.provider.transport == right.provider.transport && Precedes(left.provider.id, right.provider.id))
  }

  function Ordered(candidates: seq<Candidate>): seq<Candidate> {
    Sort(candidates, Listed)
  }

  function IndexOf(s: seq<Candidate>, c: Candidate): (i: nat)
    requires c in s
    ensures i < |s| && s[i] == c
  {
    if s[0] == c then 0 else 1 + IndexOf(s[1..], c)
  }

  /** Gives the members of `order` their positions as ranks. */
  function RankedBy(order: seq<Candidate>): Candidate -> Candidate {
    (c: Candidate) => if c in order then c.(rank := Some(IndexOf(order, c))) else c
  }

  function Evaluating(o: Options): Provider -> Candidate {
    (p: Provider) => Evaluate(p, o)
  }

  function Probing(o: Options): Candidate -> Candidate {
    (c: Candidate) => Probe(c, o)
  }

  function Evaluated(providers: seq<Provider>, o: Options): seq<Candidate> {
    Map(providers, Evaluating(o))
  }

  function Probed(providers: seq<Provider>, o: Options): seq<Candidate> {
    Map(Evaluated(providers, o), Probing(o))
  }

  /** The successful candidates, in the order of the comparator. */
  function Winners(providers: seq<Provider>, o: Options): seq<Candidate> {
    Sort(Filter(Probed(providers, o), Successful), Better(o.policy))
  }

  function RejectionOf(candidates: seq<Candidate>, transport: nat): Option<Rejection> {
    if candidates == [] then None
    else if candidates[0].provider.transport == transport then candidates[0].rejection
    else RejectionOf(candidates[1..], transport)
  }

  function Refusal(policy: Policy, candidates: seq<Candidate>): SelectionError {
    if policy.Force? then ForcedUnavailable(policy.transport, RejectionOf(candidates, policy.transport), candidates)
    else NoViable(candidates)
  }

  function Select(providers: seq<Provider>, o: Options): Result<Selection, SelectionError> {
    var fault := Fault(providers, o);
    if fault.Some? then Err(InvalidEvidence(fault.value))
    else
      var evaluated := Evaluated(providers, o);
      var eligible := Filter(evaluated, Eligible);
      if |eligible| == 1 then
        Ok(Selection(eligible[0].provider, Ordered(Map(evaluated, RankedBy(eligible))), true))
      else
        var winners := Winners(providers, o);
        var ordered := Ordered(Map(Probed(providers, o), RankedBy(winners)));
        if winners == [] then Err(Refusal(o.policy, ordered))
        else Ok(Selection(winners[0].provider, ordered, false))
  }

  // The comparator is total, and what can make it cyclic

  /** No two candidates have one transport id. */
  ghost predicate OwnTransports(cs: seq<Candidate>) {
    forall i, j :: 0 <= i < j < |cs| ==> cs[i].provider.transport != cs[j].provider.transport
  }

  ghost predicate OneCostModel(cs: seq<Candidate>) {
    forall x, y :: x in cs && y in cs ==> x.provider.cost.model == y.provider.cost.model
  }

  ghost predicate NoSharedCostModel(cs: seq<Candidate>) {
    forall x, y :: x in cs && y in cs && x != y ==>
      x.provider.cost.model == 0 || x.provider.cost.model != y.provider.cost.model
  }

  lemma {:induction false} PrecedesOneWay(a: string, b: string)
    ensures !(Precedes(a, b) && Precedes(b, a))
  {
    if a != [] && b != [] {
      PrecedesOneWay(a[1..], b[1..]);
    }
  }

  lemma BetterTotal(cs: seq<Candidate>, policy: Policy)
    requires OwnTransports(cs)
    ensures Total(cs, Better(policy))
  {
    forall x, y | x in cs && y in cs
      ensures !(Better(policy)(x, y) && Better(policy)(y, x))
      ensures x != y ==> Better(policy)(x, y) || Better(policy)(y, x)
    {
      PrecedesOneWay(x.provider.id, y.provider.id);
      assert Compare(x, y, policy) == -Compare(y, x, policy);
      if x != y {
        var i :| 0 <= i < |cs| && cs[i] == x;
        var j :| 0 <= j < |cs| && cs[j] == y;
        assert x.provider.transport != y.provider.transport;
      }
    }
  }

  /** Round a cycle of the comparator the probe results are all equal. */
  lemma CycleTies(x: Candidate, y: Candidate, z: Candidate, policy: Policy)
    requires Better(policy)(x, y) && Better(policy)(y, z) && Better(policy)(z, x)
    ensures var a, b, c := MetricsOf(x), MetricsOf(y), MetricsOf(z);
            && a.successes == b.successes == c.successes
            && a.throughput == b.throughput == c.throughput
            && a.rtt == b.rtt == c.rtt
  {
    hide Precedes, ComparedCost, ComparedIds;
  }

  /** What the comparator decides by after the cost. */
  function AfterCost(left: Candidate, right: Candidate, policy: Policy): int {
    FirstOf(Compared(PreferenceOf(policy, left.provider.transport), PreferenceOf(policy, right.provider.transport)),
    FirstOf(Compared(left.provider.preference, right.provider.preference),
            Compared(left.provider.transport, right.provider.transport)))
  }

  lemma AfterTies(x: Candidate, y: Candidate, policy: Policy)
    requires MetricsOf(x).successes == MetricsOf(y).successes
    requires MetricsOf(x).throughput == MetricsOf(y).throughput && MetricsOf(x).rtt == MetricsOf(y).rtt
    requires x.provider.transport != y.provider.transport
    ensures Compare(x, y, policy) == FirstOf(ComparedCost(x.provider.cost, y.provider.cost), AfterCost(x, y, policy))
  {
  }

  lemma AfterCostAcyclic(x: Candidate, y: Candidate, z: Candidate, policy: Policy)
    ensures !(AfterCost(x, y, policy) < 0 && AfterCost(y, z, policy) < 0 && AfterCost(z, x, policy) < 0)
  {
  }

  /**
   * A cycle among three candidates is: equal probe results, costs that decide some but not all of the three pairs,
   * and the later keys against them.
   */
  lemma CycleIff(x: Candidate, y: Candidate, z: Candidate, policy: Policy)
    requires x.provider.transport != y.provider.transport && y.provider.transport != z.provider.transport
    requires z.provider.transport != x.provider.transport
    ensures (Better(policy)(x, y) && Better(policy)(y, z) && Better(policy)(z, x)) <==>
            var a, b, c := MetricsOf(x), MetricsOf(y), MetricsOf(z);
            && a.successes == b.successes == c.successes
            && a.throughput == b.throughput == c.throughput
            && a.rtt == b.rtt == c.rtt
            && FirstOf(ComparedCost(x.provider.cost, y.provider.cost), AfterCost(x, y, policy)) < 0
            && FirstOf(ComparedCost(y.provider.cost, z.provider.cost), AfterCost(y, z, policy)) < 0
            && FirstOf(ComparedCost(z.provider.cost, x.provider.cost), AfterCost(z, x, policy)) < 0
  {
    hide Compare, AfterCost, ComparedCost, FirstOf;
    if Better(policy)(x, y) && Better(policy)(y, z) && Better(policy)(z, x) {
      CycleTies(x, y, z, policy);
    }
    var a, b, c := MetricsOf(x), MetricsOf(y), MetricsOf(z);
    if && a.successes == b.successes == c.successes && a.throughput == b.throughput == c.throughput
       && a.rtt == b.rtt == c.rtt {
      AfterTies(x, y, policy);
      AfterTies(y, z, policy);
      AfterTies(z, x, policy);
    }
  }

  /** One cost model for all, or no non-zero model shared by two: then the comparator has no cycle. */
  lemma CostModelsAcyclic(cs: seq<Candidate>, policy: Policy)
    requires OwnTransports(cs)
    requires OneCostModel(cs) || NoSharedCostModel(cs)
    ensures Acyclic(cs, Better(policy))
  {
    BetterTotal(cs, policy);
    hide Better;
    forall x, y, z | x in cs && y in cs && z in cs
      ensures !(Better(policy)(x, y) && Better(policy)(y, z) && Better(policy)(z, x))
    {
      if x != y && y != z && z != x {
        DifferentTransports(cs, x, y);
        DifferentTransports(cs, y, z);
        DifferentTransports(cs, z, x);
        CycleIff(x, y, z, policy);
        AfterCostAcyclic(x, y, z, policy);
        CostsAgree(x.provider.cost, y.provider.cost, z.provider.cost, AfterCost(x, y, policy),
                   AfterCost(y, z, policy), AfterCost(z, x, policy));
      }
    }
  }

  lemma DifferentTransports(cs: seq<Candidate>, x: Candidate, y: Candidate)
    requires OwnTransports(cs) && x in cs && y in cs && x != y
    ensures x.provider.transport != y.provider.transport
  {
    var i :| 0 <= i < |cs| && cs[i] == x;
    var j :| 0 <= j < |cs| && cs[j] == y;
  }

  lemma CostsAgree(a: Cost, b: Cost, c: Cost, ab: int, bc: int, ca: int)
    requires a.model == b.model == c.model ||
             ((a.model == 0 || a.model != b.model) && (b.model == 0 || b.model != c.model) &&
              (c.model == 0 || c.model != a.model))
    requires !(ab < 0 && bc < 0 && ca < 0)
    ensures !(FirstOf(ComparedCost(a, b), ab) < 0 && FirstOf(ComparedCost(b, c), bc) < 0 &&
              FirstOf(ComparedCost(c, a), ca) < 0)
  {
  }

  // Every arrangement of the providers

  function TransportOf(c: Candidate): nat {
    c.provider.transport
  }

  lemma OwnTransportsPermuted(s: seq<Candidate>, t: seq<Candidate>)
    requires OwnTransports(s) && Permuted(s, t)
    ensures OwnTransports(t)
  {
    var ts, tt := Map(s, TransportOf), Map(t, TransportOf);
    assert NoRepeats(ts) by {
      forall i, j | 0 <= i < j < |ts|
        ensures ts[i] != ts[j]
      {
      }
    }
    MapPermuted(s, t, TransportOf);
    NoRepeatsPermuted(ts, tt);
    forall i, j | 0 <= i < j < |t|
      ensures TransportOf(t[i]) != TransportOf(t[j])
    {
    }
  }

  /** The candidates of a valid registry: one per transport, in the providers' order, none ranked yet. */
  lemma ProbedShape(providers: seq<Provider>, o: Options)
    requires NoRepeats(Map(providers, ProviderTransport))
    ensures var e, c := Evaluated(providers, o), Probed(providers, o);
            && |e| == |c| == |providers|
            && (forall i :: 0 <= i < |c| ==> e[i] == Evaluate(providers[i], o) && c[i] == Probe(e[i], o))
            && OwnTransports(e) && OwnTransports(c)
  {
    hide Evaluate, Probe;
    var e, c := Evaluated(providers, o), Probed(providers, o);
    forall i | 0 <= i < |c|
      ensures e[i] == Evaluate(providers[i], o) && c[i] == Probe(e[i], o)
    {
    }
    forall i, j | 0 <= i < j < |c|
      ensures TransportOf(e[i]) != TransportOf(e[j]) && TransportOf(c[i]) != TransportOf(c[j])
    {
      SameProvider(providers[i], o);
      SameProvider(providers[j], o);
    }
  }

  lemma SameProvider(p: Provider, o: Options)
    ensures Evaluate(p, o).provider == p && Probe(Evaluate(p, o), o).provider == p
    ensures Evaluate(p, o).rank.None? && Probe(Evaluate(p, o), o).rank.None?
    ensures Evaluate(p, o).state == NotRun
  {
  }

  /** A list of winners with their positions as ranks. */
  function Numbered(winners: seq<Candidate>): seq<Candidate> {
    seq(|winners|, i requires 0 <= i < |winners| => winners[i].(rank := Some(i)))
  }

  ghost predicate Unranked(cs: seq<Candidate>) {
    forall i :: 0 <= i < |cs| ==> cs[i].rank.None?
  }

  lemma ListedAcyclic(ranked: seq<Candidate>, rest: seq<Candidate>)
    requires OwnTransports(ranked + rest) && Unranked(rest)
    requires forall i :: 0 <= i < |ranked| ==> ranked[i].rank == Some(i)
    ensures Total(ranked + rest, Listed) && Acyclic(ranked + rest, Listed)
  {
    var all := ranked + rest;
    forall x, y | x in all && y in all
      ensures !(Listed(x, y) && Listed(y, x)) && (x != y ==> Listed(x, y) || Listed(y, x))
    {
      var i :| 0 <= i < |all| && all[i] == x;
      var j :| 0 <= j < |all| && all[j] == y;
      PrecedesOneWay(x.provider.id, y.provider.id);
    }
    forall x, y, z | x in all && y in all && z in all
      ensures !(Listed(x, y) && Listed(y, z) && Listed(z, x))
    {
      if x != y && y != z && z != x {
        DifferentTransports(all, x, y);
        DifferentTransports(all, y, z);
        DifferentTransports(all, z, x);
      }
    }
  }

  lemma {:induction false} IndexOfAt(s: seq<Candidate>, i: nat)
    requires NoRepeats(s) && i < |s|
    ensures IndexOf(s, s[i]) == i
  {
    if i > 0 {
      assert s[1..][i - 1] == s[i] && s[0] != s[i];
      IndexOfAt(s[1..], i - 1);
    }
  }

  lemma RankedMap(winners: seq<Candidate>, rest: seq<Candidate>)
    requires OwnTransports(winners + rest)
    ensures Map(winners + rest, RankedBy(winners)) == Numbered(winners) + rest
  {
    var f := RankedBy(winners);
    var all := winners + rest;
    forall i | 0 <= i < |all|
      ensures Map(all, f)[i] == (Numbered(winners) + rest)[i]
    {
      if i < |winners| {
        assert NoRepeats(winners) by {
          assert forall a, b :: 0 <= a < b < |winners| ==> all[a] == winners[a] && all[b] == winners[b];
        }
        IndexOfAt(winners, i);
      } else {
        assert forall k :: 0 <= k < |winners| ==> all[k] == winners[k] && TransportOf(all[k]) != TransportOf(all[i]);
        assert all[i] !in winners;
      }
    }
  }

  /** Listing candidates of which `winners` are ranked: the winners by rank, then the others by transport. */
  lemma OrderedShape(cs: seq<Candidate>, winners: seq<Candidate>, rest: seq<Candidate>)
    requires OwnTransports(cs) && Unranked(cs) && Permuted(cs, winners + rest)
    ensures Ordered(Map(cs, RankedBy(winners))) == Numbered(winners) + Sort(rest, Listed)
  {
    hide Listed, Sort, Map;
    var all, numbered := winners + rest, Numbered(winners);
    OwnTransportsPermuted(cs, all);
    RankedMap(winners, rest);
    MapPermuted(cs, all, RankedBy(winners));
    assert Unranked(rest) by {
      forall i | 0 <= i < |rest|
        ensures rest[i].rank.None?
      {
        assert rest[i] == all[|winners| + i];
        assert rest[i] in all;
        PermutedMember(all, cs, rest[i]);
      }
    }
    var listed := Map(cs, RankedBy(winners));
    assert OwnTransports(numbered + rest) by {
      assert forall i :: 0 <= i < |all| ==> (numbered + rest)[i].provider == all[i].provider;
    }
    ListedAcyclic(numbered, rest);
    SortIgnoresOrder(numbered + rest, listed, Listed);
    SortPermutes(rest, Listed);
    SortPermutes(numbered + rest, Listed);
    SortSorted(numbered + rest, Listed);
    var answer := numbered + Sort(rest, Listed);
    assert Permuted(numbered + rest, answer);
    TotalForPermuted(numbered + rest, Sort(numbered + rest, Listed), Listed);
    ListedInOrder(numbered, rest);
    SortedUnique(Sort(numbered + rest, Listed), answer, Listed);
  }

  lemma ListedInOrder(numbered: seq<Candidate>, rest: seq<Candidate>)
    requires OwnTransports(numbered + rest) && Unranked(rest)
    requires forall i :: 0 <= i < |numbered| ==> numbered[i].rank == Some(i)
    ensures Sorted(numbered + Sort(rest, Listed), Listed)
  {
    hide Sort;
    var back := Sort(rest, Listed);
    assert OwnTransports([] + rest) by {
      assert forall i :: 0 <= i < |rest| ==> rest[i] == (numbered + rest)[|numbered| + i];
    }
    ListedAcyclic([], rest);
    assert [] + rest == rest;
    SortSorted(rest, Listed);
    SortPermutes(rest, Listed);
    assert Unranked(back) by {
      forall i | 0 <= i < |back|
        ensures back[i].rank.None?
      {
        assert back[i] in back;
        PermutedMember(back, rest, back[i]);
      }
    }
  }

  lemma FaultPermuted(p: seq<Provider>, q: seq<Provider>, o: Options)
    requires Permuted(p, q)
    ensures Fault(p, o) == Fault(q, o)
  {
    MapPermuted(p, q, ProviderKey);
    WithinPermuted(Map(o.readiness, ReadinessKey), Map(p, ProviderKey), Map(q, ProviderKey));
    WithinPermuted(Map(o.observations, ObservationKey), Map(p, ProviderKey), Map(q, ProviderKey));
    MapPermuted(p, q, ProviderTransport);
    MapPermuted(p, q, ProviderId);
    SameRepeats(Map(p, ProviderTransport), Map(q, ProviderTransport));
    SameRepeats(Map(p, ProviderId), Map(q, ProviderId));
  }

  lemma WithinPermuted(a: seq<(nat, string)>, b: seq<(nat, string)>, c: seq<(nat, string)>)
    requires Permuted(b, c)
    ensures Within(a, b) == Within(a, c) && Within(b, a) == Within(c, a)
  {
    forall k
      ensures k in b <==> k in c
    {
      if k in b {
        PermutedMember(b, c, k);
      } else if k in c {
        PermutedMember(c, b, k);
      }
    }
  }

  lemma SameRepeats<T>(s: seq<T>, t: seq<T>)
    requires Permuted(s, t)
    ensures NoRepeats(s) == NoRepeats(t)
  {
    if NoRepeats(s) {
      NoRepeatsPermuted(s, t);
    } else if NoRepeats(t) {
      NoRepeatsPermuted(t, s);
    }
  }

  lemma FaultlessTransports(providers: seq<Provider>, o: Options)
    requires Fault(providers, o).None?
    ensures NoRepeats(Map(providers, ProviderTransport))
  {
  }

  predicate Ineligible(c: Candidate) {
    c.rejection.Some?
  }

  /** The candidates among which order can matter, in the providers' order. */
  function Contenders(providers: seq<Provider>, o: Options): seq<Candidate> {
    Filter(Probed(providers, o), Successful)
  }

  /**
   * What a selection reports when it probes: the successful candidates ranked 0, 1, ... in the order of the
   * comparator, then the rejected ones by transport id; the first winner's provider is selected, and without a
   * winner the same list goes into the error.
   */
  lemma SelectionShape(providers: seq<Provider>, o: Options)
    requires Fault(providers, o).None? && |Filter(Evaluated(providers, o), Eligible)| != 1
    ensures var w, rejected := Winners(providers, o), Filter(Probed(providers, o), Unsuccessful);
            && Permuted(w, Contenders(providers, o))
            && Select(providers, o) ==
               if w == [] then Err(Refusal(o.policy, Sort(rejected, Listed)))
               else Ok(Selection(w[0].provider, Numbered(w) + Sort(rejected, Listed), false))
  {
    hide Filter, Sort, Fault, Probe, Evaluate;
    FaultlessTransports(providers, o);
    ProbedShape(providers, o);
    var cs := Probed(providers, o);
    var w, rejected := Winners(providers, o), Filter(cs, Unsuccessful);
    SortPermutes(Contenders(providers, o), Better(o.policy));
    FilterSplit(cs, Successful, Unsuccessful);
    forall i | 0 <= i < |cs|
      ensures cs[i].rank.None?
    {
      SameProvider(providers[i], o);
    }
    OrderedShape(cs, w, rejected);
    assert [] + Sort(rejected, Listed) == Sort(rejected, Listed);
  }

  /** A single eligible candidate is selected at rank 0 without a look at the probes. */
  lemma DirectShape(providers: seq<Provider>, o: Options)
    requires Fault(providers, o).None? && |Filter(Evaluated(providers, o), Eligible)| == 1
    ensures var cs := Evaluated(providers, o);
            var only := Filter(cs, Eligible)[0];
            Select(providers, o) ==
            Ok(Selection(only.provider, [only.(rank := Some(0))] + Sort(Filter(cs, Ineligible), Listed), true))
  {
    hide Filter, Sort, Fault, Probe, Evaluate;
    FaultlessTransports(providers, o);
    ProbedShape(providers, o);
    var cs := Evaluated(providers, o);
    var eligible, others := Filter(cs, Eligible), Filter(cs, Ineligible);
    FilterSplit(cs, Eligible, Ineligible);
    forall i | 0 <= i < |cs|
      ensures cs[i].rank.None?
    {
      SameProvider(providers[i], o);
    }
    OrderedShape(cs, eligible, others);
    assert Numbered(eligible) == [eligible[0].(rank := Some(0))];
  }

  lemma RejectedTotal(cs: seq<Candidate>, drop: Candidate -> bool)
    requires OwnTransports(cs) && Unranked(cs)
    ensures Total(Filter(cs, drop), Listed) && Acyclic(Filter(cs, drop), Listed)
  {
    hide Filter, Listed;
    assert [] + cs == cs;
    ListedAcyclic([], cs);
    FilterMembers(cs, drop);
  }

  lemma ContendersTotal(providers: seq<Provider>, o: Options)
    requires Fault(providers, o).None?
    ensures Total(Contenders(providers, o), Better(o.policy))
  {
    hide Filter, Fault, Better;
    FaultlessTransports(providers, o);
    ProbedShape(providers, o);
    BetterTotal(Probed(providers, o), o.policy);
    FilterMembers(Probed(providers, o), Successful);
  }

  /** Without cycles among the contenders the whole answer is the same for every order of the providers. */
  lemma SelectIgnoresOrder(p: seq<Provider>, q: seq<Provider>, o: Options)
    requires Permuted(p, q)
    requires Fault(p, o).None? ==>
               Acyclic(Contenders(p, o), Better(o.policy)) || |Filter(Evaluated(p, o), Eligible)| == 1
    ensures Select(p, o) == Select(q, o)
  {
    hide Filter, Sort, Fault, Probe, Evaluate, Better;
    FaultPermuted(p, q, o);
    if Fault(p, o).None? {
      CandidatesPermuted(p, q, o);
      FaultlessTransports(p, o);
      ProbedShape(p, o);
      FilterPermuted(Evaluated(p, o), Evaluated(q, o), Eligible);
      PermutedMembers(Filter(Evaluated(p, o), Eligible), Filter(Evaluated(q, o), Eligible));
      if |Filter(Evaluated(p, o), Eligible)| == 1 {
        DirectIgnoresOrder(p, q, o);
      } else {
        ProbedIgnoresOrder(p, q, o);
      }
    }
  }

  lemma CandidatesPermuted(p: seq<Provider>, q: seq<Provider>, o: Options)
    requires Permuted(p, q)
    ensures Permuted(Evaluated(p, o), Evaluated(q, o)) && Permuted(Probed(p, o), Probed(q, o))
  {
    MapPermuted(p, q, Evaluating(o));
    MapPermuted(Evaluated(p, o), Evaluated(q, o), Probing(o));
  }

  lemma DirectIgnoresOrder(p: seq<Provider>, q: seq<Provider>, o: Options)
    requires Permuted(p, q) && Fault(p, o).None? && Fault(q, o).None?
    requires |Filter(Evaluated(p, o), Eligible)| == 1
    ensures Select(p, o) == Select(q, o)
  {
    hide Filter, Sort, Fault, Probe, Evaluate, Evaluated, Probed, Listed, Select;
    CandidatesPermuted(p, q, o);
    FilterPermuted(Evaluated(p, o), Evaluated(q, o), Eligible);
    var ep, eq := Filter(Evaluated(p, o), Eligible), Filter(Evaluated(q, o), Eligible);
    PermutedMembers(ep, eq);
    assert ep[0] in ep;
    PermutedMember(ep, eq, ep[0]);
    DirectShape(p, o);
    DirectShape(q, o);
    FaultlessTransports(p, o);
    ProbedShape(p, o);
    RejectedIgnoreOrder(Evaluated(p, o), Evaluated(q, o), Ineligible, p, o);
  }

  lemma ProbedIgnoresOrder(p: seq<Provider>, q: seq<Provider>, o: Options)
    requires Permuted(p, q) && Fault(p, o).None? && Fault(q, o).None?
    requires |Filter(Evaluated(p, o), Eligible)| != 1 && |Filter(Evaluated(q, o), Eligible)| != 1
    requires Acyclic(Contenders(p, o), Better(o.policy))
    ensures Select(p, o) == Select(q, o)
  {
    hide Filter, Sort, Fault, Probe, Evaluate, Evaluated, Probed, Listed, Better, Select;
    CandidatesPermuted(p, q, o);
    SelectionShape(p, o);
    SelectionShape(q, o);
    FilterPermuted(Probed(p, o), Probed(q, o), Successful);
    ContendersTotal(p, o);
    SortIgnoresOrder(Contenders(p, o), Contenders(q, o), Better(o.policy));
    FaultlessTransports(p, o);
    ProbedShape(p, o);
    RejectedIgnoreOrder(Probed(p, o), Probed(q, o), Unsuccessful, p, o);
  }

  lemma RejectedIgnoreOrder(cs: seq<Candidate>, ds: seq<Candidate>, drop: Candidate -> bool,
                            providers: seq<Provider>, o: Options)
    requires OwnTransports(cs) && Permuted(cs, ds) && |cs| == |providers|
    requires forall i :: 0 <= i < |cs| ==> var e := Evaluate(providers[i], o); cs[i] == e || cs[i] == Probe(e, o)
    ensures Sort(Filter(cs, drop), Listed) == Sort(Filter(ds, drop), Listed)
  {
    hide Filter, Sort, Evaluate, Probe, Listed;
    forall i | 0 <= i < |cs|
      ensures cs[i].rank.None?
    {
      SameProvider(providers[i], o);
    }
    RejectedTotal(cs, drop);
    FilterPermuted(cs, ds, drop);
    SortIgnoresOrder(Filter(cs, drop), Filter(ds, drop), Listed);
  }

  /** With one cost model, or none shared by two contenders, the answer never depends on the providers' order. */
  lemma CostModelsDecide(p: seq<Provider>, q: seq<Provider>, o: Options)
    requires Permuted(p, q)
    requires OneCostModel(Contenders(p, o)) || NoSharedCostModel(Contenders(p, o))
    ensures Select(p, o) == Select(q, o)
  {
    hide Filter, Sort, Probe, Evaluate, Better, Fault;
    if Fault(p, o).None? {
      FaultlessTransports(p, o);
      ProbedShape(p, o);
      ContendersOwn(Probed(p, o));
      CostModelsAcyclic(Contenders(p, o), o.policy);
    }
    SelectIgnoresOrder(p, q, o);
  }

  lemma {:induction false} ContendersOwn(cs: seq<Candidate>)
    requires OwnTransports(cs)
    ensures OwnTransports(Filter(cs, Successful))
  {
    if cs != [] {
      var front := cs[..|cs| - 1];
      ContendersOwn(front);
      FilterMembers(front, Successful);
      var kept := Filter(front, Successful);
      forall i | 0 <= i < |kept|
        ensures kept[i].provider.transport != cs[|cs| - 1].provider.transport
      {
        assert kept[i] in kept;
        var k :| 0 <= k < |front| && front[k] == kept[i];
      }
    }
  }

  function ProviderOf(c: Candidate): Provider {
    c.provider
  }

  /** Any arrangement of the contenders comes from an arrangement of the providers. */
  lemma Rearranged(p: seq<Provider>, o: Options, t: seq<Candidate>) returns (q: seq<Provider>)
    requires Fault(p, o).None? && Permuted(Contenders(p, o), t)
    ensures Permuted(p, q) && Contenders(q, o) == t
  {
    hide Filter, Sort, Fault, Probe, Evaluate, Better, Listed, Select;
    FaultlessTransports(p, o);
    ProbedShape(p, o);
    var cs := Probed(p, o);
    var rejected := Filter(cs, Unsuccessful);
    FilterSplit(cs, Successful, Unsuccessful);
    var all := t + rejected;
    assert Permuted(cs, all);
    q := Map(all, ProviderOf);
    MapPermuted(cs, all, ProviderOf);
    assert Map(cs, ProviderOf) == p by {
      forall i | 0 <= i < |p|
        ensures Map(cs, ProviderOf)[i] == p[i]
      {
        SameProvider(p[i], o);
      }
    }
    Reprobed(p, all, o);
    FilterAppend(t, rejected, Successful);
    FilterMembers(cs, Successful);
    FilterMembers(cs, Unsuccessful);
    forall c | c in t
      ensures Successful(c)
    {
      PermutedMember(t, Filter(cs, Successful), c);
    }
    FilterAll(t, Successful);
    FilterNone(rejected, Successful);
    assert t + [] == t;
  }

  /** Probing the providers of probed candidates again gives the same candidates. */
  lemma Reprobed(p: seq<Provider>, all: seq<Candidate>, o: Options)
    requires NoRepeats(Map(p, ProviderTransport)) && Permuted(Probed(p, o), all)
    ensures Probed(Map(all, ProviderOf), o) == all
  {
    hide Probe, Evaluate;
    ProbedShape(p, o);
    var q := Map(all, ProviderOf);
    forall i | 0 <= i < |all|
      ensures Probed(q, o)[i] == all[i]
    {
      assert all[i] in all;
      PermutedMember(all, Probed(p, o), all[i]);
      var k :| 0 <= k < |p| && Probed(p, o)[k] == all[i];
      SameProvider(p[k], o);
    }
  }

  /** Different orders of the contenders make different answers. */
  lemma WinnersShow(p: seq<Provider>, q: seq<Provider>, o: Options)
    requires Permuted(p, q) && Fault(p, o).None? && |Filter(Evaluated(p, o), Eligible)| != 1
    requires Contenders(p, o) != [] && Select(p, o) == Select(q, o)
    ensures Winners(p, o) == Winners(q, o)
  {
    hide Filter, Sort, Fault, Probe, Evaluate, Evaluated, Probed, Listed, Better, Select;
    FaultPermuted(p, q, o);
    CandidatesPermuted(p, q, o);
    FilterPermuted(Evaluated(p, o), Evaluated(q, o), Eligible);
    PermutedMembers(Filter(Evaluated(p, o), Eligible), Filter(Evaluated(q, o), Eligible));
    SelectionShape(p, o);
    SelectionShape(q, o);
    FilterPermuted(Probed(p, o), Probed(q, o), Successful);
    var v, w := Winners(p, o), Winners(q, o);
    PermutedMembers(v, Contenders(p, o));
    PermutedMembers(w, Contenders(q, o));
    PermutedMembers(Contenders(p, o), Contenders(q, o));
    var a, b := Numbered(v) + Sort(Filter(Probed(p, o), Unsuccessful), Listed),
                Numbered(w) + Sort(Filter(Probed(q, o), Unsuccessful), Listed);
    assert a == b;
    assert forall c :: c in Contenders(p, o) || c in Contenders(q, o) ==> c.rank.None? by {
      ContendersUnranked(p, o);
      ContendersUnranked(q, o);
    }
    forall i | 0 <= i < |v|
      ensures v[i] == w[i]
    {
      assert a[i] == v[i].(rank := Some(i)) && b[i] == w[i].(rank := Some(i));
      assert v[i] in v && w[i] in w;
      PermutedMember(v, Contenders(p, o), v[i]);
      PermutedMember(w, Contenders(q, o), w[i]);
    }
  }

  lemma ContendersUnranked(p: seq<Provider>, o: Options)
    ensures forall c :: c in Contenders(p, o) ==> c.rank.None?
  {
    hide Filter, Evaluate, Probe;
    var cs := Probed(p, o);
    FilterMembers(cs, Successful);
    forall c | c in Contenders(p, o)
      ensures c.rank.None?
    {
      var i :| 0 <= i < |cs| && cs[i] == c;
      SameProvider(p[i], o);
    }
  }

  /**
   * The exact condition, for a valid registry that must probe: every order of the providers gives one answer if and
   * only if the comparator has no cycle among the successful candidates.
   */
  lemma OrderMattersIffCycle(p: seq<Provider>, o: Options)
    requires Fault(p, o).None? && |Filter(Evaluated(p, o), Eligible)| != 1
    ensures (forall q :: Permuted(p, q) ==> Select(q, o) == Select(p, o)) <==>
            Acyclic(Contenders(p, o), Better(o.policy))
  {
    hide Select, Fault, Better, Contenders;
    var s, less := Contenders(p, o), Better(o.policy);
    if Acyclic(s, less) {
      forall q | Permuted(p, q)
        ensures Select(q, o) == Select(p, o)
      {
        SelectIgnoresOrder(p, q, o);
      }
    } else {
      var x, y, z :| x in s && y in s && z in s && less(x, y) && less(y, z) && less(z, x);
      var q, r := CycleShows(p, o, x, y, z);
      assert Select(q, o) != Select(p, o) || Select(r, o) != Select(p, o);
    }
  }

  lemma CycleShows(p: seq<Provider>, o: Options, x: Candidate, y: Candidate, z: Candidate)
    returns (q: seq<Provider>, r: seq<Provider>)
    requires Fault(p, o).None? && |Filter(Evaluated(p, o), Eligible)| != 1
    requires x in Contenders(p, o) && y in Contenders(p, o) && z in Contenders(p, o)
    requires Better(o.policy)(x, y) && Better(o.policy)(y, z) && Better(o.policy)(z, x)
    ensures Permuted(p, q) && Permuted(p, r) && Select(q, o) != Select(r, o)
  {
    hide Select, Fault, Better, Filter, Sort, Evaluated, Probed;
    var s, less := Contenders(p, o), Better(o.policy);
    ContendersTotal(p, o);
    assert x != y && y != z && z != x;
    var rest := PullOutThree(s, x, y, z);
    var t, u := [x, y, z] + rest, [y, z, x] + rest;
    hide Total;
    TotalForPermuted(s, t, less);
    FaultlessTransports(p, o);
    ProbedShape(p, o);
    ContendersOwn(Probed(p, o));
    OwnTransportsPermuted(s, t);
    CycleDependsOnOrder(x, y, z, rest, less);
    q := Rearranged(p, o, t);
    r := Rearranged(p, o, u);
    if Select(q, o) == Select(r, o) {
      FaultPermuted(p, q, o);
      CandidatesPermuted(p, q, o);
      FilterPermuted(Evaluated(p, o), Evaluated(q, o), Eligible);
      PermutedMembers(Filter(Evaluated(p, o), Eligible), Filter(Evaluated(q, o), Eligible));
      assert Contenders(q, o) == t && t[0] == x;
      WinnersShow(q, r, o);
    }
  }

  /** The winners are the successful candidates, and without a cycle they are in the order of the comparator. */
  lemma WinnersInOrder(p: seq<Provider>, o: Options)
    requires Fault(p, o).None?
    ensures Permuted(Winners(p, o), Contenders(p, o))
    ensures Acyclic(Contenders(p, o), Better(o.policy)) ==> Sorted(Winners(p, o), Better(o.policy))
  {
    hide Better, Filter, Fault, Probed;
    SortPermutes(Contenders(p, o), Better(o.policy));
    ContendersTotal(p, o);
    if Acyclic(Contenders(p, o), Better(o.policy)) {
      SortSorted(Contenders(p, o), Better(o.policy));
    }
  }

  /** The policy allows the provider, it is available, supported and large enough, route and security are settled. */
  predicate Usable(p: Provider, o: Options) {
    && (o.policy.Force? ==> p.transport == o.policy.transport)
    && (p.id in o.availability ==> o.availability[p.id])
    && p.transport in o.supported
    && (o.requested.Some? ==> o.requested.value <= p.maxFrameBytes)
    && ReadinessOf(p, o.readiness).routeResolved && ReadinessOf(p, o.readiness).securitySatisfied
  }

  lemma EligibleIsUsable(p: Provider, o: Options)
    ensures Eligible(Evaluate(p, o)) <==> Usable(p, o)
    ensures Successful(Probe(Evaluate(p, o), o)) ==>
              var b := ObservationOf(p, o.observations);
              Usable(p, o) && b.Some? && b.value.metrics.Some?
  {
    hide ReadinessOf, ObservationOf;
  }

  /**
   * Whatever is selected is a registered and usable provider, and unless it is the only such one its probe succeeded.
   */
  lemma SelectedIsSound(p: seq<Provider>, o: Options)
    requires Select(p, o).Ok?
    ensures var sel := Select(p, o).value;
            && sel.provider in p && Usable(sel.provider, o)
            && (sel.direct <==> |Filter(Evaluated(p, o), Eligible)| == 1)
            && (!sel.direct ==> var b := ObservationOf(sel.provider, o.observations); b.Some? && b.value.metrics.Some?)
  {
    hide Filter, Sort, Fault, Better, Usable, ObservationOf, Listed, Select, Evaluate, Probe, Eligible, Successful;
    SelectOkFaultless(p, o);
    FaultlessTransports(p, o);
    ProbedShape(p, o);
    var e, c := Evaluated(p, o), Probed(p, o);
    if |Filter(e, Eligible)| == 1 {
      DirectShape(p, o);
      var only := Filter(e, Eligible)[0];
      FilterMembers(e, Eligible);
      assert only in Filter(e, Eligible);
      var i :| 0 <= i < |e| && e[i] == only;
      SameProvider(p[i], o);
      EligibleIsUsable(p[i], o);
    } else {
      SelectionShape(p, o);
      var w := Winners(p, o);
      FilterMembers(c, Successful);
      assert w[0] in w;
      PermutedMember(w, Contenders(p, o), w[0]);
      var i :| 0 <= i < |c| && c[i] == w[0];
      SameProvider(p[i], o);
      EligibleIsUsable(p[i], o);
    }
  }

  lemma SelectOkFaultless(p: seq<Provider>, o: Options)
    requires Select(p, o).Ok?
    ensures Fault(p, o).None?
  {
    hide Fault, Filter, Winners, Ordered;
  }

  /** With valid evidence, selection fails exactly when several or no candidates are eligible and no probe succeeded. */
  lemma FailsIffNoContender(p: seq<Provider>, o: Options)
    requires Fault(p, o).None?
    ensures Select(p, o).Err? <==> |Filter(Evaluated(p, o), Eligible)| != 1 && Contenders(p, o) == []
  {
    hide Filter, Sort, Fault, Better, Listed, Select, Evaluated, Probed;
    if |Filter(Evaluated(p, o), Eligible)| == 1 {
      DirectShape(p, o);
    } else {
      SelectionShape(p, o);
      PermutedMembers(Winners(p, o), Contenders(p, o));
    }
  }

  /** Without a cycle no successful candidate is better than the selected one. */
  lemma SelectedIsBest(p: seq<Provider>, o: Options, c: Candidate)
    requires Select(p, o).Ok? && !Select(p, o).value.direct
    requires Acyclic(Contenders(p, o), Better(o.policy)) && c in Contenders(p, o)
    ensures exists best :: best in Contenders(p, o) && best.provider == Select(p, o).value.provider &&
                           !Better(o.policy)(c, best)
  {
    hide Filter, Sort, Fault, Better, Listed, Select, Evaluated, Probed;
    SelectOkFaultless(p, o);
    if |Filter(Evaluated(p, o), Eligible)| == 1 {
      DirectShape(p, o);
    }
    SelectionShape(p, o);
    WinnersInOrder(p, o);
    ContendersTotal(p, o);
    var w := Winners(p, o);
    assert w[0] in w;
    PermutedMember(w, Contenders(p, o), w[0]);
    PermutedMember(Contenders(p, o), w, c);
    var i :| 0 <= i < |w| && w[i] == c;
    assert !Better(o.policy)(c, w[0]);
  }

  /** Two providers of one cost model and one of another are enough for a cycle. */
  lemma MixedModelsCycle(m: Metrics, quic: Candidate, tcp: Candidate, ipc: Candidate)
    requires quic.probe == tcp.probe == ipc.probe == Some(m)
    requires quic.provider == Provider(1, "quic", 65536, Cost(1, 10), 2)
    requires tcp.provider == Provider(2, "tcp", 65536, Cost(1, 20), 0)
    requires ipc.provider == Provider(3, "ipc", 65536, Cost(2, 10), 1)
    ensures !Acyclic([quic, tcp, ipc], Better(Auto))
    ensures Better(Auto)(quic, tcp) && Better(Auto)(tcp, ipc) && Better(Auto)(ipc, quic)
  {
    hide Precedes;
    var cs := [quic, tcp, ipc];
    assert cs[0] == quic && cs[1] == tcp && cs[2] == ipc;
    CycleIff(quic, tcp, ipc, Auto);
  }

  const QUIC := Provider(1, "quic", 65536, Cost(1, 10), 2)
  const TCP := Provider(2, "tcp", 65536, Cost(1, 20), 0)
  const IPC := Provider(3, "ipc", 65536, Cost(2, 10), 1)

  /** Evidence under which all three providers are ready and were probed with the same result. */
  function MixedEvidence(m: Metrics): Options {
    Options(
      Auto, {1, 2, 3}, None,
      [Readiness(1, "quic", true, true, None)] + [Readiness(2, "tcp", true, true, None)]
      + [Readiness(3, "ipc", true, true, None)],
      [Observation(1, "quic", Some(m), None)] + [Observation(2, "tcp", Some(m), None)]
      + [Observation(3, "ipc", Some(m), None)],
      map[], map[])
  }

  function Contender(p: Provider, m: Metrics): Candidate {
    Candidate(p, true, true, true, Succeeded, Some(m), None, None, None)
  }

  lemma MapThree<S, T>(a: S, b: S, c: S, f: S -> T)
    ensures Map([a, b, c], f) == [f(a), f(b), f(c)]
  {
  }

  lemma MixedReady(m: Metrics)
    ensures var o := MixedEvidence(m);
            forall p :: p in {QUIC, TCP, IPC} ==>
              && Probe(Evaluate(p, o), o) == Contender(p, m) && Eligible(Evaluate(p, o))
  {
    var o := MixedEvidence(m);
    var r, b := o.readiness, o.observations;
    assert r == [r[0]] + ([r[1]] + ([r[2]] + [])) && b == [b[0]] + ([b[1]] + ([b[2]] + []));
    forall p | p in {QUIC, TCP, IPC}
      ensures Probe(Evaluate(p, o), o) == Contender(p, m) && Eligible(Evaluate(p, o))
    {
      ReadinessNext(p, r[0], [r[1]] + ([r[2]] + []));
      ReadinessNext(p, r[1], [r[2]] + []);
      ReadinessNext(p, r[2], []);
      ObservationNext(p, b[0], [b[1]] + ([b[2]] + []));
      ObservationNext(p, b[1], [b[2]] + []);
      ObservationNext(p, b[2], []);
      hide ReadinessOf, ObservationOf;
    }
  }

  lemma ReadinessNext(p: Provider, first: Readiness, rest: seq<Readiness>)
    ensures ReadinessOf(p, [first] + rest) ==
            if ReadinessKey(first) == ProviderKey(p) then first else ReadinessOf(p, rest)
  {
    assert ([first] + rest)[1..] == rest;
  }

  lemma ObservationNext(p: Provider, first: Observation, rest: seq<Observation>)
    ensures ObservationOf(p, [first] + rest) ==
            if ObservationKey(first) == ProviderKey(p) then Some(first) else ObservationOf(p, rest)
  {
    assert ([first] + rest)[1..] == rest;
  }

  lemma MixedFaultless(m: Metrics)
    ensures Fault([QUIC, TCP, IPC], MixedEvidence(m)).None?
  {
    var o := MixedEvidence(m);
    var r, b := o.readiness, o.observations;
    assert r == [r[0], r[1], r[2]] && b == [b[0], b[1], b[2]];
    MapThree(QUIC, TCP, IPC, ProviderKey);
    MapThree(QUIC, TCP, IPC, ProviderTransport);
    MapThree(QUIC, TCP, IPC, ProviderId);
    MapThree(r[0], r[1], r[2], ReadinessKey);
    MapThree(b[0], b[1], b[2], ObservationKey);
    hide Map;
    DifferentIds();
    assert Map(r, ReadinessKey) == Map([QUIC, TCP, IPC], ProviderKey);
    assert Map(b, ObservationKey) == Map([QUIC, TCP, IPC], ProviderKey);
  }

  lemma DifferentIds()
    ensures "quic" != "tcp" && "tcp" != "ipc" && "quic" != "ipc"
  {
    assert |"quic"| == 4 && |"tcp"| == 3;
    assert "tcp"[0] == 't' && "ipc"[0] == 'i';
  }

  /** Whatever the order of three of these providers, all are eligible and all probes succeed. */
  lemma MixedContenders(x: Provider, y: Provider, z: Provider, m: Metrics)
    requires x in {QUIC, TCP, IPC} && y in {QUIC, TCP, IPC} && z in {QUIC, TCP, IPC}
    ensures var p, o := [x, y, z], MixedEvidence(m);
            && |Filter(Evaluated(p, o), Eligible)| == 3
            && Contenders(p, o) == [Contender(x, m), Contender(y, m), Contender(z, m)]
  {
    hide Evaluate, Probe, MixedEvidence, Map, Filter, QUIC, TCP, IPC;
    var o := MixedEvidence(m);
    MixedReady(m);
    MapThree(x, y, z, Evaluating(o));
    var e := [Evaluate(x, o), Evaluate(y, o), Evaluate(z, o)];
    MapThree(e[0], e[1], e[2], Probing(o));
    FilterAll(e, Eligible);
    FilterAll([Contender(x, m), Contender(y, m), Contender(z, m)], Successful);
  }

  /** What selection answers for three of these providers in an order that follows the cycle. */
  lemma SelectsFirst(x: Provider, y: Provider, z: Provider, m: Metrics)
    requires Permuted([QUIC, TCP, IPC], [x, y, z])
    requires Better(Auto)(Contender(x, m), Contender(y, m)) && Better(Auto)(Contender(y, m), Contender(z, m))
    requires !Better(Auto)(Contender(y, m), Contender(x, m)) && !Better(Auto)(Contender(z, m), Contender(y, m))
    ensures Select([x, y, z], MixedEvidence(m)).Ok? && Select([x, y, z], MixedEvidence(m)).value.provider == x
  {
    var p, o := [x, y, z], MixedEvidence(m);
    MixedFaultless(m);
    assert o.policy == Auto;
    hide Fault, Better, MixedEvidence, Select, Sort, Filter, Probed, Evaluated, Contenders, QUIC, TCP, IPC, Permuted;
    FaultPermuted([QUIC, TCP, IPC], p, o);
    MemberOfThree(x, p);
    MemberOfThree(y, p);
    MemberOfThree(z, p);
    MixedContenders(x, y, z, m);
    SelectionShape(p, o);
    WinnersAreSorted(p, o);
    SortThree(Contender(x, m), Contender(y, m), Contender(z, m), Better(Auto));
  }

  lemma WinnersAreSorted(p: seq<Provider>, o: Options)
    ensures Winners(p, o) == Sort(Contenders(p, o), Better(o.policy))
  {
  }

  lemma MemberOfThree(x: Provider, p: seq<Provider>)
    requires Permuted([QUIC, TCP, IPC], p) && x in p
    ensures x in {QUIC, TCP, IPC}
  {
    PermutedMember(p, [QUIC, TCP, IPC], x);
  }

  /** The comparator goes round one way only. */
  lemma MixedOneWay(m: Metrics)
    ensures var quic, tcp, ipc := Contender(QUIC, m), Contender(TCP, m), Contender(IPC, m);
            && Better(Auto)(quic, tcp) && Better(Auto)(tcp, ipc) && Better(Auto)(ipc, quic)
            && !Better(Auto)(tcp, quic) && !Better(Auto)(ipc, tcp) && !Better(Auto)(quic, ipc)
  {
    var cs := [Contender(QUIC, m), Contender(TCP, m), Contender(IPC, m)];
    hide Better;
    MixedModelsCycle(m, cs[0], cs[1], cs[2]);
    BetterTotal(cs, Auto);
    assert cs[0] in cs && cs[1] in cs && cs[2] in cs;
  }

  /** The same providers and evidence in two orders: one selects QUIC, the other TCP. */
  lemma OrderChangesProvider(m: Metrics)
    ensures Permuted([QUIC, TCP, IPC], [TCP, IPC, QUIC])
    ensures var p, q := Select([QUIC, TCP, IPC], MixedEvidence(m)), Select([TCP, IPC, QUIC], MixedEvidence(m));
            p.Ok? && p.value.provider == QUIC && q.Ok? && q.value.provider == TCP
  {
    hide Select, Fault, MixedEvidence, Better, QUIC, TCP, IPC, Contender;
    MixedOneWay(m);
    SelectsFirst(QUIC, TCP, IPC, m);
    assert multiset([QUIC, TCP, IPC]) == multiset([TCP, IPC, QUIC]);
    SelectsFirst(TCP, IPC, QUIC, m);
  }

  // The function as it is written: a list of candidates rewritten in place

  function Second(e: (nat, Candidate)): Candidate {
    e.1
  }

  function BetterEntry(policy: Policy): ((nat, Candidate), (nat, Candidate)) -> bool {
    (l: (nat, Candidate), r: (nat, Candidate)) => Better(policy)(l.1, r.1)
  }

  ghost predicate Pointing(entries: seq<(nat, Candidate)>, cs: seq<Candidate>) {
    forall k :: 0 <= k < |entries| ==> entries[k].0 < |cs| && cs[entries[k].0] == entries[k].1
  }

  /** `_evaluate_native_transport_candidates`. */
  method EvaluateCandidates(providers: seq<Provider>, o: Options) returns (cs: seq<Candidate>)
    ensures cs == Evaluated(providers, o)
  {
    hide Evaluate;
    cs := [];
    for i := 0 to |providers|
      invariant cs == Map(providers[..i], Evaluating(o))
    {
      MapAppend(providers[..i], [providers[i]], Evaluating(o));
      assert providers[..i + 1] == providers[..i] + [providers[i]];
      cs := cs + [Evaluate(providers[i], o)];
    }
    assert providers[..|providers|] == providers;
  }

  /** The positions of the candidates that pass a test, each with the candidate it points to. */
  method Positions(cs: seq<Candidate>, keep: Candidate -> bool) returns (entries: seq<(nat, Candidate)>)
    ensures Pointing(entries, cs) && Map(entries, Second) == Filter(cs, keep)
    ensures forall i :: 0 <= i < |cs| ==> (keep(cs[i]) <==> (i, cs[i]) in entries)
  {
    hide Map, Filter;
    entries := [];
    MapNone(Second);
    FilterNone(cs[..0], keep);
    for i := 0 to |cs|
      invariant Pointing(entries, cs) && Map(entries, Second) == Filter(cs[..i], keep)
      invariant forall k :: 0 <= k < |entries| ==> entries[k].0 < i
      invariant forall k :: 0 <= k < i ==> (keep(cs[k]) <==> (k, cs[k]) in entries)
    {
      FilterAppend(cs[..i], [cs[i]], keep);
      assert cs[..i + 1] == cs[..i] + [cs[i]];
      FilterOne(cs[i], keep);
      assert cs[..i + 1][..i] == cs[..i];
      if keep(cs[i]) {
        var entry: (nat, Candidate) := (i, cs[i]);
        MapAppend(entries, [entry], Second);
        MapOne(entry);
        entries := entries + [entry];
      }
    }
    assert cs[..|cs|] == cs;
  }

  lemma MapNone<S, T>(f: S -> T)
    ensures Map([], f) == []
  {
  }

  lemma MapOne(e: (nat, Candidate))
    ensures Map([e], Second) == [e.1]
  {
  }

  lemma FilterOne(c: Candidate, keep: Candidate -> bool)
    ensures Filter([c], keep) == if keep(c) then [c] else []
  {
    assert [c][..0] == [];
  }

  /** Writes positions in a list of entries into the candidates as ranks. */
  method Rank(cs: seq<Candidate>, order: seq<(nat, Candidate)>) returns (ranked: seq<Candidate>)
    requires OwnTransports(cs) && Pointing(order, cs) && NoRepeats(Map(order, Second))
    ensures ranked == Map(cs, RankedBy(Map(order, Second)))
  {
    ghost var winners := Map(order, Second);
    SecondAt(order, cs);
    ranked := cs;
    for rank := 0 to |order|
      invariant |ranked| == |cs|
      invariant forall k :: 0 <= k < rank ==> ranked[order[k].0] == cs[order[k].0].(rank := Some(k))
      invariant forall i :: 0 <= i < |cs| && (forall k :: 0 <= k < rank ==> order[k].0 != i) ==> ranked[i] == cs[i]
    {
      var index := order[rank].0;
      ranked := ranked[index := ranked[index].(rank := Some(rank))];
    }
    RanksWritten(cs, order, ranked);
  }

  lemma SecondAt(order: seq<(nat, Candidate)>, cs: seq<Candidate>)
    requires Pointing(order, cs) && NoRepeats(Map(order, Second))
    ensures forall k :: 0 <= k < |order| ==> Map(order, Second)[k] == order[k].1
    ensures forall j, k :: 0 <= j < k < |order| ==> order[j].0 != order[k].0
  {
    hide Map;
    var winners := Map(order, Second);
    forall k | 0 <= k < |order|
      ensures winners[k] == order[k].1
    {
    }
    assert forall j, k :: 0 <= j < k < |order| ==> winners[j] != winners[k];
  }

  lemma RanksWritten(cs: seq<Candidate>, order: seq<(nat, Candidate)>, ranked: seq<Candidate>)
    requires OwnTransports(cs) && Pointing(order, cs) && NoRepeats(Map(order, Second)) && |ranked| == |cs|
    requires forall k :: 0 <= k < |order| ==> ranked[order[k].0] == cs[order[k].0].(rank := Some(k))
    requires forall i :: 0 <= i < |cs| && (forall k :: 0 <= k < |order| ==> order[k].0 != i) ==> ranked[i] == cs[i]
    ensures ranked == Map(cs, RankedBy(Map(order, Second)))
  {
    hide Map, IndexOf, OwnTransports;
    var winners := Map(order, Second);
    SecondAt(order, cs);
    forall i | 0 <= i < |cs|
      ensures ranked[i] == Map(cs, RankedBy(winners))[i]
    {
      if k :| 0 <= k < |order| && order[k].0 == i {
        IndexOfAt(winners, k);
        assert winners[k] == cs[i];
      } else {
        NotAWinner(cs, order, winners, i);
      }
    }
  }

  lemma NotAWinner(cs: seq<Candidate>, order: seq<(nat, Candidate)>, winners: seq<Candidate>, i: nat)
    requires OwnTransports(cs) && Pointing(order, cs) && |winners| == |order| && i < |cs|
    requires forall k :: 0 <= k < |order| ==> winners[k] == order[k].1 && order[k].0 != i
    ensures cs[i] !in winners
  {
    forall k | 0 <= k < |winners|
      ensures winners[k] != cs[i]
    {
      assert cs[order[k].0] == winners[k];
      assert cs[order[k].0].provider.transport != cs[i].provider.transport;
    }
  }

  /** `_select_native_transport_provider_from_providers`. */
  method SelectProvider(providers: seq<Provider>, o: Options) returns (r: Result<Selection, SelectionError>)
    ensures r == Select(providers, o)
  {
    hide Filter, Sort, Evaluate, Probe, Listed, Map, Better;
    var fault := Fault(providers, o);
    if fault.Some? {
      return Err(InvalidEvidence(fault.value));
    }
    ProbedShape(providers, o);
    var candidates := EvaluateCandidates(providers, o);
    var eligible := Positions(candidates, Eligible);
    assert |eligible| == |Map(eligible, Second)|;
    if |eligible| == 1 {
      MapOne(eligible[0]);
      assert eligible == [eligible[0]];
      var ranked := Rank(candidates, eligible);
      return Ok(Selection(candidates[eligible[0].0].provider, Ordered(ranked), true));
    }
    ghost var evaluated := candidates;
    for k := 0 to |eligible|
      invariant |candidates| == |evaluated|
      invariant forall j :: 0 <= j < k ==> candidates[eligible[j].0] == Probe(evaluated[eligible[j].0], o)
      invariant forall i :: 0 <= i < |evaluated| ==>
                  candidates[i] == evaluated[i] || candidates[i] == Probe(evaluated[i], o)
    {
      var index := eligible[k].0;
      candidates := candidates[index := Probe(eligible[k].1, o)];
    }
    assert candidates == Probed(providers, o) by {
      forall i | 0 <= i < |candidates|
        ensures candidates[i] == Probe(evaluated[i], o)
      {
        if Eligible(evaluated[i]) {
          var j :| 0 <= j < |eligible| && eligible[j] == (i, evaluated[i]);
        } else {
          ProbeSkips(evaluated[i], o);
        }
      }
    }
    var successful := Positions(candidates, Successful);
    var order := Sort(successful, BetterEntry(o.policy));
    OrderedEntries(candidates, successful, o.policy);
    candidates := Rank(candidates, order);
    if order == [] {
      return Err(Refusal(o.policy, Ordered(candidates)));
    }
    assert Probed(providers, o)[order[0].0] == order[0].1;
    r := Ok(Selection(order[0].1.provider, Ordered(candidates), false));
  }

  lemma ProbeSkips(c: Candidate, o: Options)
    requires !Eligible(c)
    ensures Probe(c, o) == c
  {
  }

  lemma OrderedEntries(cs: seq<Candidate>, entries: seq<(nat, Candidate)>, policy: Policy)
    requires OwnTransports(cs) && Pointing(entries, cs) && Map(entries, Second) == Filter(cs, Successful)
    ensures var order := Sort(entries, BetterEntry(policy));
            && Pointing(order, cs) && NoRepeats(Map(order, Second))
            && Map(order, Second) == Sort(Filter(cs, Successful), Better(policy))
  {
    hide Filter, Sort, Map, Better;
    var order := Sort(entries, BetterEntry(policy));
    SortPermutes(entries, BetterEntry(policy));
    SortMap(entries, Second, BetterEntry(policy), Better(policy));
    forall k | 0 <= k < |order|
      ensures order[k].0 < |cs| && cs[order[k].0] == order[k].1
    {
      assert order[k] in order;
      PermutedMember(order, entries, order[k]);
    }
    ContendersOwn(cs);
    SortPermutes(Filter(cs, Successful), Better(policy));
    NoRepeatsPermuted(Filter(cs, Successful), Sort(Filter(cs, Successful), Better(policy)));
  }

  /** `_native_transport_median`: the middle value, or the floor of the mean of the two middle values. */
  method Median(values: seq<int>) returns (m: int)
    requires values != []
    ensures var (low, high) := Middles(values); m == (low + high) / 2 && low <= m <= high
  {
    MiddlesSplit(values);
    var sorted := Sort(values, Below);
    SortPermutes(values, Below);
    PermutedMembers(sorted, values);
    var upper := |sorted| / 2;
    if |sorted| % 2 == 1 {
      return sorted[upper];
    }
    var lowerValue := sorted[upper - 1];
    m := lowerValue + (sorted[upper] - lowerValue) / 2;
  }

  /** Valid evidence has exactly one readiness record for every provider, and that one is used. */
  lemma ReadinessFound(providers: seq<Provider>, o: Options, i: nat, k: nat)
    requires Fault(providers, o).None? && i < |providers|
    ensures ReadinessOf(providers[i], o.readiness) in o.readiness
    ensures k < |o.readiness| ==>
              (ReadinessKey(o.readiness[k]) == ProviderKey(providers[i]) <==>
               ReadinessOf(providers[i], o.readiness) == o.readiness[k])
  {
    var keys, ready := Map(providers, ProviderKey), Map(o.readiness, ReadinessKey);
    assert keys[i] in keys;
    assert keys[i] in ready;
    var j :| 0 <= j < |ready| && ready[j] == keys[i];
    FirstReadiness(providers[i], o.readiness, j);
    var used := ReadinessOf(providers[i], o.readiness);
    var m :| 0 <= m < |ready| && o.readiness[m] == used;
    if k < |o.readiness| {
      assert NoRepeats(ready);
      assert k != m ==> ready[k] != ready[m];
    }
  }

  lemma {:induction false} FirstReadiness(p: Provider, records: seq<Readiness>, j: nat)
    requires j < |records| && ReadinessKey(records[j]) == ProviderKey(p)
    ensures ReadinessOf(p, records) in records && ReadinessKey(ReadinessOf(p, records)) == ProviderKey(p)
  {
    if ReadinessKey(records[0]) != ProviderKey(p) {
      assert records[1..][j - 1] == records[j];
      FirstReadiness(p, records[1..], j - 1);
    }
  }
}
