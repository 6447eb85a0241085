/** The OCPP 1.6 store of installed charging profiles: what every run of installs and clears keeps, and
    why it leaves the composite schedule no ties to break. */
module ProfileStore {
  import opened Wrappers
  import opened Timetables
  import opened Profiles
  import opened Sets
  import Composite = Composite16

  datatype SetStatus = SetAccepted | SetRejected

  datatype ClearStatus = ClearAccepted | ClearUnknown

  /** Connector id to the profiles installed against it; 0 is the whole charge point. */
  type Installed = map<int, seq<Profile>>

  /** The placement rules. */
  function SetProfileStatus(connector: int, known: bool, active: bool, purpose: Purpose): SetStatus {
    if connector != 0 && !known then SetRejected else
    match purpose
    case ChargePointMaxProfile => if connector != 0 then SetRejected else SetAccepted
    case TxProfile => if connector == 0 || !active then SetRejected else SetAccepted
    case TxDefaultProfile => SetAccepted
  }

  /** Which profiles a removal is about; an absent field matches anything. */
  datatype Filter = Filter(id: Option<int>, purpose: Option<Purpose>, stackLevel: Option<int>)
  {
    predicate Matches(p: Profile) {
      (id.Some? ==> p.id == id.value) &&
      (purpose.Some? ==> p.purpose == purpose.value) &&
      (stackLevel.Some? ==> p.stackLevel == stackLevel.value)
    }
  }

  function SameId(p: Profile): Filter { Filter(Some(p.id), None, None) }

  function SameSlot(p: Profile): Filter { Filter(None, Some(p.purpose), Some(p.stackLevel)) }

  /** The library's `retain`: what does not match stays, in order. */
  function Without(ps: seq<Profile>, f: Filter): seq<Profile> {
    if ps == [] then [] else
    var n := |ps| - 1;
    Without(ps[..n], f) + if f.Matches(ps[n]) then [] else [ps[n]]
  }

  lemma {:induction false} WithoutKeeps(ps: seq<Profile>, f: Filter)
    ensures forall p :: p in Without(ps, f) <==> p in ps && !f.Matches(p)
    ensures |Without(ps, f)| <= |ps|
    ensures |Without(ps, f)| == |ps| <==> Without(ps, f) == ps
  {
    if ps != [] {
      var n := |ps| - 1;
      WithoutKeeps(ps[..n], f);
      assert forall p :: p in ps <==> p in ps[..n] || p == ps[n];
      assert ps == ps[..n] + [ps[n]];
    }
  }

  function At(m: Installed, connector: int): seq<Profile> {
    if connector in m then m[connector] else []
  }

  function DropEmpty(m: Installed): Installed {
    map c | c in m && m[c] != [] :: m[c]
  }

  function WithoutId(m: Installed, profile: Profile): Installed {
    map c | c in m :: Without(m[c], SameId(profile))
  }

  /** The store after an install: its id leaves every connector, its slot leaves the target, it arrives last. */
  function SetIn(m: Installed, connector: int, profile: Profile): Installed {
    var cleared := WithoutId(m, profile);
    DropEmpty(cleared[connector := Without(At(cleared, connector), SameSlot(profile)) + [profile]])
  }

  /** A clear that names a connector leaves the others alone. */
  predicate Spared(connector: Option<int>, c: int) {
    connector.Some? && c != connector.value
  }

  function WithoutMatches(m: Installed, connector: Option<int>, f: Filter): Installed {
    map c | c in m :: if Spared(connector, c) then m[c] else Without(m[c], f)
  }

  /** The store after a clear. */
  function ClearIn(m: Installed, connector: Option<int>, f: Filter): Installed {
    DropEmpty(WithoutMatches(m, connector, f))
  }

  // ----- counting -----

  ghost function TotalOver(m: Installed, keys: set<int>): nat
    requires keys <= m.Keys
  {
    if keys == {} then 0 else
    HasElement(keys);
    var c :| c in keys;
    |m[c]| + TotalOver(m, keys - {c})
  }

  /** How many profiles are installed altogether. */
  ghost function Total(m: Installed): nat {
    TotalOver(m, m.Keys)
  }

  lemma {:induction false} TotalSplit(m: Installed, keys: set<int>, c: int)
    requires c in keys && keys <= m.Keys
    ensures TotalOver(m, keys) == |m[c]| + TotalOver(m, keys - {c})
    decreases keys
  {
    var d :| d in keys && TotalOver(m, keys) == |m[d]| + TotalOver(m, keys - {d});
    if d != c {
      TotalSplit(m, keys - {d}, c);
      TotalSplit(m, keys - {c}, d);
      assert keys - {d} - {c} == keys - {c} - {d};
    }
  }

  lemma {:induction false} TotalAgrees(a: Installed, b: Installed, keys: set<int>)
    requires keys <= a.Keys && keys <= b.Keys && forall c :: c in keys ==> |a[c]| == |b[c]|
    ensures TotalOver(a, keys) == TotalOver(b, keys)
    decreases keys
  {
    if keys != {} {
      HasElement(keys);
      var c :| c in keys;
      TotalSplit(a, keys, c);
      TotalSplit(b, keys, c);
      TotalAgrees(a, b, keys - {c});
    }
  }

  lemma TotalUpdate(m: Installed, c: int, ps: seq<Profile>)
    requires c in m
    ensures Total(m[c := ps]) + |m[c]| == Total(m) + |ps|
  {
    var updated := m[c := ps];
    assert updated.Keys == m.Keys;
    TotalSplit(m, m.Keys, c);
    TotalSplit(updated, m.Keys, c);
    TotalAgrees(m, updated, m.Keys - {c});
  }

  lemma {:induction false} TotalIgnoresEmpty(m: Installed, keys: set<int>, kept: set<int>)
    requires kept <= keys <= m.Keys && forall c :: c in keys - kept ==> m[c] == []
    ensures TotalOver(m, keys) == TotalOver(m, kept)
    decreases keys
  {
    if c :| c in keys && c !in kept {
      TotalSplit(m, keys, c);
      TotalIgnoresEmpty(m, keys - {c}, kept);
    } else {
      assert forall c :: c in keys <==> c in kept;
      assert keys == kept;
    }
  }

  lemma TotalDropEmpty(m: Installed)
    ensures Total(DropEmpty(m)) == Total(m)
  {
    var kept := DropEmpty(m).Keys;
    TotalIgnoresEmpty(m, m.Keys, kept);
    TotalAgrees(DropEmpty(m), m, kept);
  }

  // ----- the store -----

  class ChargingProfileStore {
    var byConnector: Installed

    constructor ()
      ensures byConnector == map[]
    {
      byConnector := map[];
    }

    method Set(connector: int, profile: Profile)
      modifies this
      ensures byConnector == SetIn(old(byConnector), connector, profile)
    {
      var before := byConnector;
      var todo := byConnector.Keys;
      while todo != {}
        invariant todo <= before.Keys == byConnector.Keys
        invariant forall c :: c in before ==>
          byConnector[c] == if c in todo then before[c] else Without(before[c], SameId(profile))
      {
        HasElement(todo);
        var c :| c in todo;
        byConnector := byConnector[c := Without(byConnector[c], SameId(profile))];
        todo := todo - {c};
      }
      assert forall c :: c !in todo;
      assert forall c :: c in before ==> byConnector[c] == WithoutId(before, profile)[c];
      assert byConnector == WithoutId(before, profile);
      var slot := Without(At(byConnector, connector), SameSlot(profile));
      byConnector := byConnector[connector := slot + [profile]];
      byConnector := DropEmpty(byConnector);
    }

    method Clear(id: Option<int>, connector: Option<int>, purpose: Option<Purpose>, stackLevel: Option<int>)
      returns (status: ClearStatus)
      modifies this
      ensures byConnector == ClearIn(old(byConnector), connector, Filter(id, purpose, stackLevel))
      ensures status == ClearAccepted <==> Total(byConnector) < Total(old(byConnector))
      ensures Total(byConnector) <= Total(old(byConnector))
    {
      hide Without, TotalOver, Total;
      var f := Filter(id, purpose, stackLevel);
      var before := byConnector;
      var removed, todo := 0, byConnector.Keys;
      while todo != {}
        invariant todo <= before.Keys == byConnector.Keys
        invariant forall c :: c in before ==>
          byConnector[c] == if c in todo || Spared(connector, c) then before[c] else Without(before[c], f)
        invariant removed + Total(byConnector) == Total(before) && 0 <= removed
      {
        HasElement(todo);
        var c :| c in todo;
        if !Spared(connector, c) {
          var kept := Without(byConnector[c], f);
          TotalUpdate(byConnector, c, kept);
          WithoutKeeps(byConnector[c], f);
          removed := removed + (|byConnector[c]| - |kept|);
          byConnector := byConnector[c := kept];
        }
        todo := todo - {c};
      }
      assert forall c :: c !in todo;
      assert forall c :: c in before ==> byConnector[c] == WithoutMatches(before, connector, f)[c];
      assert byConnector == WithoutMatches(before, connector, f);
      TotalDropEmpty(byConnector);
      byConnector := DropEmpty(byConnector);
      status := if removed > 0 then ClearAccepted else ClearUnknown;
    }

    method Len() returns (n: nat)
      ensures n == Total(byConnector)
    {
      var rest := byConnector.Keys;
      n := 0;
      while rest != {}
        invariant rest <= byConnector.Keys && n + TotalOver(byConnector, rest) == Total(byConnector)
      {
        HasElement(rest);
        var c :| c in rest;
        TotalSplit(byConnector, rest, c);
        n := n + |byConnector[c]|;
        rest := rest - {c};
      }
    }
  }

  // ----- what every run keeps -----

  predicate Clash(p: Profile, q: Profile) {
    p.id == q.id || (p.purpose == q.purpose && p.stackLevel == q.stackLevel)
  }

  ghost predicate Distinct(ps: seq<Profile>) {
    forall i, j :: 0 <= i < j < |ps| ==> !Clash(ps[i], ps[j])
  }

  /** Charge-point maxima sit at connector 0 only, transaction profiles at real connectors only. */
  predicate WellPlaced(connector: int, p: Profile) {
    (p.purpose == ChargePointMaxProfile ==> connector == 0) && (p.purpose == TxProfile ==> 0 < connector)
  }

  /** No empty list is kept; on a connector neither ids nor (purpose, stack level) slots repeat; ids do not
      repeat across connectors; every profile is where its purpose allows. */
  ghost predicate Consistent(m: Installed) {
    (forall c :: c in m ==> m[c] != [] && Distinct(m[c])) &&
    (forall c, p :: c in m && p in m[c] ==> WellPlaced(c, p)) &&
    (forall c, d, p, q :: c in m && d in m && c != d && p in m[c] && q in m[d] ==> p.id != q.id)
  }

  lemma {:induction false} WithoutIsDistinct(ps: seq<Profile>, f: Filter)
    requires Distinct(ps)
    ensures Distinct(Without(ps, f))
  {
    if ps != [] {
      var n := |ps| - 1;
      WithoutIsDistinct(ps[..n], f);
      WithoutKeeps(ps[..n], f);
      forall q | q in ps[..n] ensures !Clash(q, ps[n]) {
        var i :| 0 <= i < n && ps[i] == q;
      }
      DistinctSnoc(Without(ps[..n], f), ps[n]);
    }
    hide Distinct;
  }

  /** An install adds the newcomer and displaces only its id, anywhere, and its slot on the target connector. */
  lemma SetExactly(m: Installed, connector: int, profile: Profile, c: int, p: Profile)
    ensures p in At(SetIn(m, connector, profile), c) <==>
            (c == connector && p == profile) ||
            (p in At(m, c) && p.id != profile.id &&
             !(c == connector && p.purpose == profile.purpose && p.stackLevel == profile.stackLevel))
  {
    var cleared := WithoutId(m, profile);
    WithoutKeeps(At(m, c), SameId(profile));
    WithoutKeeps(At(cleared, connector), SameSlot(profile));
  }

  /** A clear removes exactly the matching profiles. */
  lemma ClearExactly(m: Installed, connector: Option<int>, f: Filter, c: int, p: Profile)
    ensures p in At(ClearIn(m, connector, f), c) <==>
            p in At(m, c) &&
            !((connector == None || connector == Some(c)) && (f.id == None || f.id == Some(p.id)) &&
              (f.purpose == None || f.purpose == Some(p.purpose)) &&
              (f.stackLevel == None || f.stackLevel == Some(p.stackLevel)))
  {
    WithoutKeeps(At(m, c), f);
  }

  lemma SoleWithout(p: Profile, f: Filter)
    ensures Without([], f) == []
    ensures Without([p], f) == if f.Matches(p) then [] else [p]
  {
    assert [p][..0] == [];
  }

  /** An install leaves every list in its order, with the newcomer last on its connector. */
  lemma ListAfterSet(m: Installed, connector: int, profile: Profile, c: int)
    ensures var kept := Without(At(m, c), SameId(profile));
            At(SetIn(m, connector, profile), c) ==
                if c == connector then Without(kept, SameSlot(profile)) + [profile] else kept
  {
    SoleWithout(profile, SameId(profile));
  }

  lemma DistinctSnoc(ps: seq<Profile>, p: Profile)
    requires Distinct(ps) && forall q :: q in ps ==> !Clash(q, p)
    ensures Distinct(ps + [p])
  {
    assert forall i :: 0 <= i < |ps| ==> ps[i] in ps;
    hide Clash;
  }

  lemma SetIsDistinct(m: Installed, connector: int, profile: Profile, c: int)
    requires Distinct(At(m, c))
    ensures Distinct(At(SetIn(m, connector, profile), c))
  {
    hide SetIn, Without, Distinct;
    var kept := Without(At(m, c), SameId(profile));
    WithoutIsDistinct(At(m, c), SameId(profile));
    WithoutKeeps(At(m, c), SameId(profile));
    ListAfterSet(m, connector, profile, c);
    if c == connector {
      WithoutIsDistinct(kept, SameSlot(profile));
      WithoutKeeps(kept, SameSlot(profile));
      DistinctSnoc(Without(kept, SameSlot(profile)), profile);
    }
  }

  lemma SetKeepsConsistent(m: Installed, connector: int, profile: Profile)
    requires Consistent(m) && WellPlaced(connector, profile)
    ensures Consistent(SetIn(m, connector, profile))
  {
    var after := SetIn(m, connector, profile);
    forall c | c in after ensures after[c] != [] && Distinct(after[c]) {
      assert Distinct(At(m, c));
      SetIsDistinct(m, connector, profile, c);
    }
    hide SetIn, Distinct;
    forall c, p | c in after && p in after[c] ensures WellPlaced(c, p) {
      SetExactly(m, connector, profile, c, p);
    }
    forall c, d, p: Profile, q: Profile | c in after && d in after && c != d && p in after[c] && q in after[d]
        ensures p.id != q.id {
      SetExactly(m, connector, profile, c, p);
      SetExactly(m, connector, profile, d, q);
    }
  }

  lemma ClearKeepsConsistent(m: Installed, connector: Option<int>, f: Filter)
    requires Consistent(m)
    ensures Consistent(ClearIn(m, connector, f))
  {
    var after := ClearIn(m, connector, f);
    forall c | c in after ensures after[c] != [] && Distinct(after[c]) {
      WithoutIsDistinct(m[c], f);
    }
    hide ClearIn, Distinct;
    forall c, p | c in after && p in after[c] ensures WellPlaced(c, p) {
      ClearExactly(m, connector, f, c, p);
    }
    forall c, d, p: Profile, q: Profile | c in after && d in after && c != d && p in after[c] && q in after[d]
        ensures p.id != q.id {
      ClearExactly(m, connector, f, c, p);
      ClearExactly(m, connector, f, d, q);
    }
  }

  /** The requests a central system can send; an install carries what the charge point knows of the connector. */
  datatype Request =
    | SetRequest(connector: int, known: bool, active: bool, profile: Profile)
    | ClearRequest(clearConnector: Option<int>, filter: Filter)

  /** An install goes ahead only when the placement rules accept it. */
  function Step(m: Installed, r: Request): Installed {
    match r
    case SetRequest(connector, known, active, profile) =>
      if SetProfileStatus(connector, known, active, profile.purpose) ==
          SetAccepted then SetIn(m, connector, profile) else m
    case ClearRequest(connector, filter) => ClearIn(m, connector, filter)
  }

  function Run(requests: seq<Request>): Installed {
    if requests == [] then map[] else
    var n := |requests| - 1;
    Step(Run(requests[..n]), requests[n])
  }

  /** Known connectors are numbered from 1. */
  predicate Sane(r: Request) {
    r.SetRequest? && r.known ==> 0 < r.connector
  }

  /** Every run of guarded installs and clears leaves a consistent store. */
  lemma {:induction false} RunIsConsistent(requests: seq<Request>)
    requires forall r :: r in requests ==> Sane(r)
    ensures Consistent(Run(requests))
  {
    if requests != [] {
      var n := |requests| - 1;
      RunIsConsistent(requests[..n]);
      assert Sane(requests[n]);
      match requests[n] {
        case SetRequest(connector, known, active, profile) =>
          if SetProfileStatus(connector, known, active, profile.purpose) == SetAccepted {
            SetKeepsConsistent(Run(requests[..n]), connector, profile);
          }
        case ClearRequest(connector, filter) => ClearKeepsConsistent(Run(requests[..n]), connector, filter);
      }
    }
  }

  /** The placement rules: a connector must be known unless it is the whole charge point, a charge-point maximum goes to
      connector 0 only, and a transaction profile to a real connector with a transaction under way. */
  predicate MayBePlaced(connector: int, known: bool, active: bool, purpose: Purpose) {
    (connector == 0 || known) &&
    (purpose == ChargePointMaxProfile ==> connector == 0) &&
    (purpose == TxProfile ==> connector != 0 && active)
  }

  /** A request installs its profile exactly when the placement rules allow it, and changes nothing otherwise. */
  lemma InstalledIfAllowed(m: Installed, connector: int, known: bool, active: bool, profile: Profile)
    ensures var after := Step(m, SetRequest(connector, known, active, profile));
            if MayBePlaced(connector, known, active, profile.purpose)
            then At(after, connector) != [] && At(after, connector)[|At(after, connector)| - 1] == profile
            else after == m
  {
    hide SetIn, Without;
    ListAfterSet(m, connector, profile, connector);
  }

  /** Whatever is installed after a run was asked for by a request that the rules allowed. */
  lemma {:induction false} InstalledWasAllowed(requests: seq<Request>, c: int, p: Profile) returns (i: nat)
    requires p in At(Run(requests), c)
    ensures i < |requests| && requests[i].SetRequest? && requests[i].connector == c && requests[i].profile == p
    ensures MayBePlaced(c, requests[i].known, requests[i].active, p.purpose)
  {
    hide SetIn, ClearIn;
    assert Run([]) == map[];
    var n := |requests| - 1;
    var before := Run(requests[..n]);
    assert Run(requests) == Step(before, requests[n]);
    match requests[n] {
      case SetRequest(connector, known, active, profile) => SetExactly(before, connector, profile, c, p);
      case ClearRequest(connector, filter) => ClearExactly(before, connector, filter, c, p);
    }
    if p in At(before, c) { i := InstalledWasAllowed(requests[..n], c, p); } else { i := n; }
  }

  // ----- the composite's winner is unique -----

  function Tag(ps: seq<Profile>, specific: bool): (tagged: seq<Composite.ScopedProfile>)
    ensures |tagged| == |ps|
    ensures forall i :: 0 <= i < |ps| ==> tagged[i] == Composite.ScopedProfile(specific, ps[i])
  {
    seq(|ps|, i requires 0 <= i < |ps| => Composite.ScopedProfile(specific, ps[i]))
  }

  /** The candidates for a connector: its own profiles, and those of connector 0 unless that is the one asked for. */
  function Candidates(m: Installed, connector: int): seq<Composite.ScopedProfile> {
    Tag(At(m, connector), true) + if connector == 0 then [] else Tag(At(m, 0), false)
  }

  /** Where a candidate of `connector` is installed. */
  function Home(connector: int, c: Composite.ScopedProfile): int {
    if c.specific then connector else 0
  }

  lemma CandidateIsInstalled(m: Installed, connector: int, c: Composite.ScopedProfile)
    requires c in Candidates(m, connector)
    ensures c.profile in At(m, Home(connector, c)) && (connector == 0 ==> c.specific)
  {
  }

  lemma SameSlotSameProfile(m: Installed, connector: int, p: Profile, q: Profile)
    requires Consistent(m) && p in At(m, connector) && q in At(m, connector)
    requires p.purpose == q.purpose && p.stackLevel == q.stackLevel
    ensures p == q
  {
    var ps := At(m, connector);
    var i :| 0 <= i < |ps| && ps[i] == p;
    var j :| 0 <= j < |ps| && ps[j] == q;
    assert Clash(ps[i], ps[j]) && Clash(ps[j], ps[i]);
  }

  /** A consistent store offers no two candidates of equal precedence, as override or as ceiling. */
  lemma CandidatesHaveNoTies(m: Installed, connector: int)
    requires Consistent(m)
    ensures Composite.NoTies(Candidates(m, connector))
  {
    var candidates := Candidates(m, connector);
    forall role, a, b | a in candidates && b in candidates && Composite.Tied(role, a, b) ensures a == b {
      CandidateIsInstalled(m, connector, a);
      CandidateIsInstalled(m, connector, b);
      assert a.profile.purpose == b.profile.purpose && a.profile.stackLevel == b.profile.stackLevel;
      if role == Composite.Ceiling {
        assert WellPlaced(Home(connector, a), a.profile) && WellPlaced(Home(connector, b), b.profile);
      }
      SameSlotSameProfile(m, Home(connector, a), a.profile, b.profile);
    }
  }

  /** For a store that any run produced, the composite in a requested unit does not depend on the order in
      which its candidates are gathered. */
  lemma StoredCompositeIgnoresOrder(requests: seq<Request>, connector: int, shuffled: seq<Composite.ScopedProfile>,
                                    start: int, duration: int, unit: RateUnit, eps: real)
    requires forall r :: r in requests ==> Sane(r)
    requires forall c :: c in shuffled <==> c in Candidates(Run(requests), connector)
    ensures Composite.Composite(shuffled, start, duration, Some(unit), eps) ==
            Composite.Composite(Candidates(Run(requests), connector), start, duration, Some(unit), eps)
  {
    RunIsConsistent(requests);
    CandidatesHaveNoTies(Run(requests), connector);
    Composite.OrderIsIrrelevant(Candidates(Run(requests), connector), shuffled, start, duration, unit, eps);
  }

  lemma TwoInstalled(connector: int, own: Profile, shared: Profile)
    requires connector != 0 && own.id != shared.id
    ensures var m := SetIn(SetIn(map[], connector, own), 0, shared);
            At(m, connector) == [own] && At(m, 0) == [shared]
  {
    SoleWithout(own, SameId(own));
    SoleWithout(own, SameSlot(own));
    SoleWithout(own, SameId(shared));
    SoleWithout(own, SameSlot(shared));
    ListAfterSet(map[], connector, own, connector);
    ListAfterSet(map[], connector, own, 0);
    var first := SetIn(map[], connector, own);
    hide SetIn;
    ListAfterSet(first, 0, shared, connector);
    ListAfterSet(first, 0, shared, 0);
  }

  /** The unit reported when none is requested can depend on candidate order in a store that two plain installs
      produce: a connector's own default and the shared default at one stack level, in different units. */
  lemma StoredUnitDependsOnOrder(connector: int, own: Profile, shared: Profile)
    requires 0 < connector && own.id != shared.id && own.stackLevel == shared.stackLevel
    requires own.purpose == TxDefaultProfile == shared.purpose
    ensures var requests := [SetRequest(connector, true, false, own), SetRequest(0, false, false, shared)];
            var a, b := Composite.ScopedProfile(true, own), Composite.ScopedProfile(false, shared);
            (forall r :: r in requests ==> Sane(r)) && Candidates(Run(requests), connector) == [a, b] &&
            Composite.OutputUnit([a, b], None) == shared.timetable.schedule.unit &&
            Composite.OutputUnit([b, a], None) == own.timetable.schedule.unit
  {
    hide Run, Candidates, Composite.OutputUnit;
    TwoRequests(connector, own, shared);
    OwnThenShared(Run([SetRequest(connector, true, false, own), SetRequest(0, false, false, shared)]), connector, own,
                  shared);
    LastOverrideDecides(Composite.ScopedProfile(true, own), Composite.ScopedProfile(false, shared));
    LastOverrideDecides(Composite.ScopedProfile(false, shared), Composite.ScopedProfile(true, own));
  }

  lemma OwnThenShared(m: Installed, connector: int, own: Profile, shared: Profile)
    requires connector != 0 && At(m, connector) == [own] && At(m, 0) == [shared]
    ensures Candidates(m, connector) == [Composite.ScopedProfile(true, own), Composite.ScopedProfile(false, shared)]
  {
  }

  lemma TwoRequests(connector: int, own: Profile, shared: Profile)
    requires 0 < connector && own.id != shared.id && own.purpose == TxDefaultProfile == shared.purpose
    ensures var m := Run([SetRequest(connector, true, false, own), SetRequest(0, false, false, shared)]);
            At(m, connector) == [own] && At(m, 0) == [shared]
  {
    hide SetIn, At;
    var r, q := SetRequest(connector, true, false, own), SetRequest(0, false, false, shared);
    TwoInstalled(connector, own, shared);
    assert [r, q][..1] == [r] && [r][..0] == [];
    assert Run([]) == map[];
    assert Run([r]) == SetIn(map[], connector, own);
  }

  lemma LastOverrideDecides(a: Composite.ScopedProfile, b: Composite.ScopedProfile)
    requires a.profile.purpose == TxDefaultProfile == b.profile.purpose && a.profile.stackLevel == b.profile.stackLevel
    ensures Composite.OutputUnit([a, b], None) == b.profile.timetable.schedule.unit
  {
    assert [a, b][..1] == [a];
    Composite.SoleUnit(a);
    assert Composite.OverrideUnit([a]).Some? by { Composite.OverrideUnitDecides([a]); assert a in [a]; }
    Composite.OverrideUnitDecides([a]);
  }
}
