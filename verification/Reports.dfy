/** The two OCPP 2.0.1 report pagers. */
module Reports {
  import opened Wrappers
  import opened Composite201

  // ----- fixed-size pages -----

  const ENTRIES_PER_PAGE: nat := 25
  const MAX_SEQ_NO: int := 0x7FFF_FFFF

  datatype Page<T> = Page(entries: Option<seq<T>>, tbc: Option<bool>, seqNo: int)

  function Contents<T>(page: Page<T>): seq<T> {
    match page.entries
    case None => []
    case Some(es) => es
  }

  /** The entries of the first `n` pages, in order. */
  function Flatten<T>(pages: seq<Page<T>>, n: nat): seq<T>
    requires n <= |pages|
  {
    if n == 0 then [] else Flatten(pages, n - 1) + Contents(pages[n - 1])
  }

  lemma {:induction false} FlattenPrefix<T>(pages: seq<Page<T>>, page: Page<T>, n: nat)
    requires n <= |pages|
    ensures Flatten(pages + [page], n) == Flatten(pages, n)
  {
    if n > 0 { FlattenPrefix(pages, page, n - 1); }
  }

  lemma FlattenPush<T>(pages: seq<Page<T>>, page: Page<T>, rest: seq<T>)
    ensures Flatten(pages + [page], |pages| + 1) + rest == Flatten(pages, |pages|) + (Contents(page) + rest)
  {
    FlattenPrefix(pages, page, |pages|);
  }

  lemma FlattenNone<T>(rest: seq<T>)
    ensures Flatten<T>([], 0) + rest == rest
  {
  }

  /** The `i`-th of the pages up to `last`: full unless it is the last, numbered up to the wire width, and
      announcing more unless it is the last. */
  predicate IsPage<T>(page: Page<T>, i: int, last: int) {
    page.entries.Some? &&
    1 <= |page.entries.value| <= 25 && (i < last ==> |page.entries.value| == 25) &&
    page.tbc == (if i < last then Some(true) else None) &&
    page.seqNo == (if i <= 0x7FFF_FFFF then i else 0x7FFF_FFFF)
  }

  lemma PageFits<T>(entries: seq<T>, i: nat, last: int)
    requires 1 <= |entries| <= ENTRIES_PER_PAGE && (i < last ==> |entries| == ENTRIES_PER_PAGE)
    ensures IsPage(Page(Some(entries), if i < last then Some(true) else None,
                        if i <= MAX_SEQ_NO then i else MAX_SEQ_NO), i, last)
  {
  }

  /** Nothing is lost, repeated or reordered. No entries at all make a single page without any. */
  method ReportPages<T>(entries: seq<T>) returns (pages: seq<Page<T>>)
    ensures pages != [] && Flatten(pages, |pages|) == entries
    ensures entries == [] ==> pages == [Page(None, None, 0)]
    ensures entries != [] ==> forall i :: 0 <= i < |pages| ==> IsPage(pages[i], i, |pages| - 1)
  {
    if entries == [] {
      pages := [Page(None, None, 0)];
      assert Flatten(pages, 0) == [];
      return;
    }
    hide Flatten;
    assert Flatten<T>([], 0) + entries == entries by { FlattenNone(entries); }
    hide IsPage;
    var count := (|entries| + ENTRIES_PER_PAGE - 1) / ENTRIES_PER_PAGE;
    var rest := entries;
    pages := [];
    for i := 0 to count
      invariant |pages| == i && Flatten(pages, i) + rest == entries
      invariant |rest| == if i < count then |entries| - i * ENTRIES_PER_PAGE else 0
      invariant forall j :: 0 <= j < i ==> IsPage(pages[j], j, count - 1)
    {
      var size := if |rest| < ENTRIES_PER_PAGE then |rest| else ENTRIES_PER_PAGE;
      var page := Page(Some(rest[..size]), if i < count - 1 then Some(true) else None,
                       if i <= MAX_SEQ_NO then i else MAX_SEQ_NO);
      FlattenPush(pages, page, rest[size..]);
      PageFits(rest[..size], i, count - 1);
      assert rest == rest[..size] + rest[size..];
      pages := pages + [page];
      rest := rest[size..];
    }
    assert rest == [];
  }

  // ----- pages by EVSE and limit source -----

  datatype Source = Ems | Other | So | Cso

  function LimitSource(purpose: Purpose): Source {
    match purpose
    case ChargingStationExternalConstraints => So
    case TxProfile | TxDefaultProfile | ChargingStationMaxProfile => Cso
  }

  datatype Key = Key(evseId: int, source: Source)

  function Rank(s: Source): int {
    match s
    case Ems => 0
    case Other => 1
    case So => 2
    case Cso => 3
  }

  predicate KeyLt(a: Key, b: Key) {
    a.evseId < b.evseId || (a.evseId == b.evseId && Rank(a.source) < Rank(b.source))
  }

  datatype Match = Match(evseId: int, profile: Profile)

  function KeyOf(m: Match): Key { Key(m.evseId, LimitSource(m.profile.purpose)) }

  /** One entry of the ordered grouping map. */
  datatype Group = Group(key: Key, profiles: seq<Profile>)

  ghost predicate Ordered(groups: seq<Group>) {
    forall i, j :: 0 <= i < j < |groups| ==> KeyLt(groups[i].key, groups[j].key)
  }

  /** The map's entry for a key, created empty if missing, with one profile pushed. */
  function AddTo(groups: seq<Group>, m: Match): seq<Group> {
    if groups == [] then [Group(KeyOf(m), [m.profile])]
    else if KeyOf(m) == groups[0].key then [Group(groups[0].key, groups[0].profiles + [m.profile])] + groups[1..]
    else if KeyLt(KeyOf(m), groups[0].key) then [Group(KeyOf(m), [m.profile])] + groups
    else [groups[0]] + AddTo(groups[1..], m)
  }

  /** What the map holds for a key. */
  function Lookup(groups: seq<Group>, key: Key): seq<Profile> {
    if groups == [] then [] else if groups[0].key == key then groups[0].profiles else Lookup(groups[1..], key)
  }

  predicate HasKey(groups: seq<Group>, key: Key) {
    exists i :: 0 <= i < |groups| && groups[i].key == key
  }

  lemma {:induction false} LookupIsMember(groups: seq<Group>, i: int)
    requires Ordered(groups) && 0 <= i < |groups|
    ensures Lookup(groups, groups[i].key) == groups[i].profiles
  {
    if i > 0 {
      LookupIsMember(groups[1..], i - 1);
      assert groups[1..][i - 1] == groups[i];
    }
  }

  lemma {:induction false} LookupIsAbsent(groups: seq<Group>, key: Key)
    requires !HasKey(groups, key)
    ensures Lookup(groups, key) == []
  {
    if groups != [] {
      assert groups[0].key != key;
      forall i | 0 <= i < |groups[1..]| ensures groups[1..][i].key != key { assert groups[1..][i] == groups[i + 1]; }
      LookupIsAbsent(groups[1..], key);
    }
  }

  lemma {:induction false} AddToKeys(groups: seq<Group>, m: Match)
    requires Ordered(groups)
    ensures Ordered(AddTo(groups, m))
    ensures forall key :: HasKey(AddTo(groups, m), key) <==> HasKey(groups, key) || key == KeyOf(m)
    decreases |groups|
  {
    var added := AddTo(groups, m);
    if groups == [] {
      assert added[0].key == KeyOf(m);
    } else if KeyOf(m) == groups[0].key {
      KeysOfCons(groups[0], groups[1..]);
      KeysOfCons(added[0], groups[1..]);
      assert groups == [groups[0]] + groups[1..];
    } else if KeyLt(KeyOf(m), groups[0].key) {
      KeysOfCons(added[0], groups);
    } else {
      AddToKeys(groups[1..], m);
      var rest := AddTo(groups[1..], m);
      KeysOfCons(groups[0], groups[1..]);
      KeysOfCons(groups[0], rest);
      assert groups == [groups[0]] + groups[1..];
      forall i | 0 <= i < |rest| ensures KeyLt(groups[0].key, rest[i].key) {
        assert HasKey(rest, rest[i].key);
      }
    }
  }

  lemma KeysOfCons(g: Group, rest: seq<Group>)
    ensures forall key :: HasKey([g] + rest, key) <==> key == g.key || HasKey(rest, key)
  {
    var all := [g] + rest;
    assert all[0] == g && forall i :: 0 <= i < |rest| ==> all[i + 1] == rest[i];
  }

  lemma {:induction false} AddToLookup(groups: seq<Group>, m: Match, key: Key)
    requires Ordered(groups)
    ensures Lookup(AddTo(groups, m), key) == Lookup(groups, key) + if key == KeyOf(m) then [m.profile] else []
    decreases |groups|
  {
    if groups == [] {
    } else if KeyOf(m) == groups[0].key {
      assert AddTo(groups, m)[1..] == groups[1..];
    } else if KeyLt(KeyOf(m), groups[0].key) {
      assert AddTo(groups, m)[1..] == groups;
      if key == KeyOf(m) { LookupIsAbsent(groups, key); }
    } else {
      AddToLookup(groups[1..], m, key);
      assert AddTo(groups, m)[1..] == AddTo(groups[1..], m);
    }
  }

  /** The grouping of the first `n` matches. */
  function GroupsOf(matched: seq<Match>, n: nat): seq<Group>
    requires n <= |matched|
  {
    if n == 0 then [] else AddTo(GroupsOf(matched, n - 1), matched[n - 1])
  }

  /** The profiles matched under a key, in order of arrival. */
  function Under(matched: seq<Match>, n: nat, key: Key): seq<Profile>
    requires n <= |matched|
  {
    if n == 0 then [] else
    Under(matched, n - 1, key) + if KeyOf(matched[n - 1]) == key then [matched[n - 1].profile] else []
  }

  lemma {:induction false} GroupsAre(matched: seq<Match>, n: nat)
    requires n <= |matched|
    ensures Ordered(GroupsOf(matched, n))
    ensures forall key :: Lookup(GroupsOf(matched, n), key) == Under(matched, n, key)
    ensures forall key :: HasKey(GroupsOf(matched, n), key) <==> Under(matched, n, key) != []
  {
    if n > 0 {
      GroupsAre(matched, n - 1);
      AddToKeys(GroupsOf(matched, n - 1), matched[n - 1]);
      forall key ensures Lookup(GroupsOf(matched, n), key) == Under(matched, n, key) {
        AddToLookup(GroupsOf(matched, n - 1), matched[n - 1], key);
      }
    }
  }

  // ----- sorting the profiles of a page -----

  /** The library's stable sort by id, as insertion of each profile after those it does not precede. */
  function InsertById(sorted: seq<Profile>, p: Profile): seq<Profile> {
    if sorted == [] || sorted[|sorted| - 1].id <= p.id then sorted + [p]
    else InsertById(sorted[..|sorted| - 1], p) + [sorted[|sorted| - 1]]
  }

  function SortById(ps: seq<Profile>): seq<Profile> {
    if ps == [] then [] else InsertById(SortById(ps[..|ps| - 1]), ps[|ps| - 1])
  }

  ghost predicate SortedById(ps: seq<Profile>) {
    forall i, j :: 0 <= i < j < |ps| ==> ps[i].id <= ps[j].id
  }

  lemma {:induction false} InsertKeeps(sorted: seq<Profile>, p: Profile)
    ensures multiset(InsertById(sorted, p)) == multiset(sorted) + multiset{p}
    decreases |sorted|
  {
    if sorted != [] && p.id < sorted[|sorted| - 1].id {
      InsertKeeps(sorted[..|sorted| - 1], p);
      assert sorted == sorted[..|sorted| - 1] + [sorted[|sorted| - 1]];
    }
  }

  lemma {:induction false} InsertIsSorted(sorted: seq<Profile>, p: Profile)
    requires SortedById(sorted)
    ensures SortedById(InsertById(sorted, p))
    ensures forall q :: q in InsertById(sorted, p) ==> q == p || q in sorted
    decreases |sorted|
  {
    if sorted != [] && p.id < sorted[|sorted| - 1].id {
      var head, last := sorted[..|sorted| - 1], sorted[|sorted| - 1];
      InsertIsSorted(head, p);
      var inserted := InsertById(head, p);
      forall i | 0 <= i < |inserted| ensures inserted[i].id <= last.id {
        assert inserted[i] in inserted;
      }
    }
  }

  lemma NoneIsSorted()
    ensures SortedById([])
  {
  }

  lemma {:induction false} SortIsSorted(ps: seq<Profile>)
    ensures SortedById(SortById(ps)) && multiset(SortById(ps)) == multiset(ps)
  {
    hide SortedById, InsertById;
    if ps == [] {
      NoneIsSorted();
    } else {
      var n := |ps| - 1;
      SortIsSorted(ps[..n]);
      InsertIsSorted(SortById(ps[..n]), ps[n]);
      InsertKeeps(SortById(ps[..n]), ps[n]);
      assert ps == ps[..n] + [ps[n]];
    }
  }

  /** Ids tell the members of a list apart. */
  ghost predicate IdsIdentify(ps: multiset<Profile>) {
    forall p, q :: p in ps && q in ps && p.id == q.id ==> p == q
  }

  lemma LastIsSame(a: seq<Profile>, b: seq<Profile>)
    requires SortedById(a) && SortedById(b) && multiset(a) == multiset(b) && IdsIdentify(multiset(a))
    requires a != [] && b != []
    ensures a[|a| - 1] == b[|b| - 1]
  {
    var p, q := a[|a| - 1], b[|b| - 1];
    assert p in multiset(b) && q in multiset(a);
    assert p in b && q in a;
  }

  lemma WithoutLast(ps: seq<Profile>)
    requires ps != [] && SortedById(ps) && IdsIdentify(multiset(ps))
    ensures multiset(ps[..|ps| - 1]) == multiset(ps) - multiset{ps[|ps| - 1]}
    ensures SortedById(ps[..|ps| - 1]) && IdsIdentify(multiset(ps[..|ps| - 1]))
  {
    hide *;
    assert ps == ps[..|ps| - 1] + [ps[|ps| - 1]];
    MultisetSnoc(ps[..|ps| - 1], ps[|ps| - 1]);
    SortedSnoc(ps[..|ps| - 1], ps[|ps| - 1]);
  }

  lemma MultisetSnoc(ps: seq<Profile>, p: Profile)
    requires IdsIdentify(multiset(ps + [p]))
    ensures multiset(ps) == multiset(ps + [p]) - multiset{p} && IdsIdentify(multiset(ps))
  {
    assert multiset(ps + [p]) == multiset(ps) + multiset{p};
  }

  lemma SortedSnoc(ps: seq<Profile>, p: Profile)
    requires SortedById(ps + [p])
    ensures SortedById(ps)
  {
    forall i, j | 0 <= i < j < |ps| ensures ps[i].id <= ps[j].id {
      assert (ps + [p])[i] == ps[i] && (ps + [p])[j] == ps[j];
    }
  }

  lemma SameEmptiness(a: seq<Profile>, b: seq<Profile>)
    requires multiset(a) == multiset(b)
    ensures a == [] <==> b == []
  {
    if a != [] { assert a[0] in multiset(a); }
    if b != [] { assert b[0] in multiset(b); }
  }

  lemma {:induction false} SortedIsUnique(a: seq<Profile>, b: seq<Profile>)
    requires SortedById(a) && SortedById(b) && multiset(a) == multiset(b) && IdsIdentify(multiset(a))
    ensures a == b
    decreases |a|
  {
    hide *;
    SameEmptiness(a, b);
    if a != [] {
      LastIsSame(a, b);
      WithoutLast(a);
      WithoutLast(b);
      SortedIsUnique(a[..|a| - 1], b[..|b| - 1]);
      assert a == a[..|a| - 1] + [a[|a| - 1]] && b == b[..|b| - 1] + [b[|b| - 1]];
    }
  }

  // ----- the pages -----

  datatype ReportRequest = ReportRequest(requestId: int, key: Key, profiles: seq<Profile>, tbc: Option<bool>)

  function PageOf(requestId: int, g: Group, i: int, last: int): ReportRequest {
    ReportRequest(requestId, g.key, SortById(g.profiles), if i < last then Some(true) else None)
  }

  function PagesOf(requestId: int, groups: seq<Group>): seq<ReportRequest> {
    seq(|groups|, i requires 0 <= i < |groups| => PageOf(requestId, groups[i], i, |groups| - 1))
  }

  /** A page holds exactly the profiles matched under its key, in id order, and announces more unless it is the last. */
  ghost predicate IsReport(page: ReportRequest, requestId: int, matched: seq<Match>, i: int, last: int) {
    page.requestId == requestId && page.profiles != [] && SortedById(page.profiles) &&
    multiset(page.profiles) == multiset(Under(matched, |matched|, page.key)) &&
    page.tbc == (if i < last then Some(true) else None)
  }

  /** Paging partitions the matches: keys strictly increase, and a key has a page exactly when something matched
      under it. */
  lemma PagesPartition(requestId: int, matched: seq<Match>)
    ensures var pages := PagesOf(requestId, GroupsOf(matched, |matched|));
            (forall i, j :: 0 <= i < j < |pages| ==> KeyLt(pages[i].key, pages[j].key)) &&
            (forall i :: 0 <= i < |pages| ==> IsReport(pages[i], requestId, matched, i, |pages| - 1)) &&
            (forall key :: Under(matched, |matched|, key) != [] ==> exists i :: 0 <= i < |pages| && pages[i].key == key)
  {
    hide GroupsOf, Under, IsReport;
    var n, groups := |matched|, GroupsOf(matched, |matched|);
    var pages := PagesOf(requestId, groups);
    GroupsAre(matched, n);
    forall i | 0 <= i < |groups| ensures IsReport(pages[i], requestId, matched, i, |pages| - 1) {
      PageIsReport(requestId, matched, i);
    }
    forall key | Under(matched, n, key) != [] ensures exists i :: 0 <= i < |pages| && pages[i].key == key {
      assert HasKey(groups, key);
      var i :| 0 <= i < |groups| && groups[i].key == key;
      assert pages[i].key == key;
    }
  }

  method ReportChargingProfilesPages(requestId: int, matched: seq<Match>) returns (pages: seq<ReportRequest>)
    ensures pages == PagesOf(requestId, GroupsOf(matched, |matched|))
    ensures forall i :: 0 <= i < |pages| ==> IsReport(pages[i], requestId, matched, i, |pages| - 1)
  {
    var groups: seq<Group> := [];
    for i := 0 to |matched|
      invariant groups == GroupsOf(matched, i)
    {
      groups := AddTo(groups, matched[i]);
    }
    pages := [];
    for i := 0 to |groups|
      invariant pages == PagesOf(requestId, groups)[..i]
    {
      pages := pages + [PageOf(requestId, groups[i], i, |groups| - 1)];
    }
    PagesPartition(requestId, matched);
  }

  lemma PageIsReport(requestId: int, matched: seq<Match>, i: nat)
    requires i < |GroupsOf(matched, |matched|)|
    ensures var groups := GroupsOf(matched, |matched|);
            IsReport(PageOf(requestId, groups[i], i, |groups| - 1), requestId, matched, i, |groups| - 1)
  {
    hide GroupsOf, Under, SortById, SortedById;
    var groups := GroupsOf(matched, |matched|);
    GroupsAre(matched, |matched|);
    LookupIsMember(groups, i);
    assert HasKey(groups, groups[i].key);
    SortIsSorted(groups[i].profiles);
    SameEmptiness(SortById(groups[i].profiles), groups[i].profiles);
  }

  // ----- what a page holds, told from the matches -----

  /** External constraints are reported under the source SO, everything an operator set under CSO. */
  predicate ReportedUnder(p: Profile, source: Source) {
    if p.purpose == ChargingStationExternalConstraints then source == So else source == Cso
  }

  /** The page of an EVSE and source holds each profile as often as it matched there, and the pages follow each other by
      EVSE, and on one EVSE the external constraints first. */
  lemma PageHolds(requestId: int, matched: seq<Match>, i: nat, j: nat, p: Profile)
    ensures var pages := PagesOf(requestId, GroupsOf(matched, |matched|));
            i < |pages| ==>
              var key := pages[i].key;
              multiset(pages[i].profiles)[p] ==
                (if ReportedUnder(p, key.source) then multiset(matched)[Match(key.evseId, p)] else 0) &&
              (i < j < |pages| ==>
                 key.evseId < pages[j].key.evseId ||
                 (key.evseId == pages[j].key.evseId && key.source == So && pages[j].key.source == Cso))
  {
    hide GroupsOf, Under, IsReport;
    var pages := PagesOf(requestId, GroupsOf(matched, |matched|));
    PagesPartition(requestId, matched);
    if i < |pages| {
      PageIsReport(requestId, matched, i);
      PageCounts(pages[i], requestId, matched, i, |pages| - 1, p);
      PageSource(pages[i], requestId, matched, i, |pages| - 1);
      if i < j < |pages| {
        PageIsReport(requestId, matched, j);
        PageSource(pages[j], requestId, matched, j, |pages| - 1);
      }
    }
  }

  lemma PageCounts(page: ReportRequest, requestId: int, matched: seq<Match>, i: int, last: int, p: Profile)
    requires IsReport(page, requestId, matched, i, last)
    ensures multiset(page.profiles)[p] ==
            if LimitSource(p.purpose) == page.key.source then multiset(matched)[Match(page.key.evseId, p)] else 0
  {
    hide Under, SortedById;
    UnderCounts(matched, |matched|, page.key, p);
    assert matched[..|matched|] == matched;
  }

  lemma PageSource(page: ReportRequest, requestId: int, matched: seq<Match>, i: int, last: int)
    requires IsReport(page, requestId, matched, i, last)
    ensures page.key.source == So || page.key.source == Cso
  {
    hide Under, SortedById;
    var p := page.profiles[0];
    assert p in multiset(page.profiles);
    PageCounts(page, requestId, matched, i, last, p);
  }

  /** The profiles of one id, in their order. */
  function WithId(ps: seq<Profile>, id: int): seq<Profile> {
    if ps == [] then [] else
    WithId(ps[..|ps| - 1], id) + if ps[|ps| - 1].id == id then [ps[|ps| - 1]] else []
  }

  lemma WithIdSnoc(ps: seq<Profile>, p: Profile, id: int)
    ensures WithId(ps + [p], id) == WithId(ps, id) + if p.id == id then [p] else []
  {
    assert (ps + [p])[..|ps|] == ps;
  }

  lemma {:induction false} InsertIsStable(sorted: seq<Profile>, p: Profile, id: int)
    ensures WithId(InsertById(sorted, p), id) == WithId(sorted, id) + if p.id == id then [p] else []
    decreases |sorted|
  {
    hide WithId;
    if sorted == [] || sorted[|sorted| - 1].id <= p.id {
      WithIdSnoc(sorted, p, id);
    } else {
      var rest, last := sorted[..|sorted| - 1], sorted[|sorted| - 1];
      InsertIsStable(rest, p, id);
      WithIdSnoc(InsertById(rest, p), last, id);
      WithIdSnoc(rest, last, id);
      assert rest + [last] == sorted;
    }
  }

  /** Profiles of equal id keep their order of arrival. */
  lemma {:induction false} SortIsStable(ps: seq<Profile>, id: int)
    ensures WithId(SortById(ps), id) == WithId(ps, id)
  {
    if ps != [] {
      var n := |ps| - 1;
      SortIsStable(ps[..n], id);
      InsertIsStable(SortById(ps[..n]), ps[n], id);
      hide InsertById;
    }
  }

  // ----- arrival order -----

  lemma {:induction false} UnderCounts(matched: seq<Match>, n: nat, key: Key, p: Profile)
    requires n <= |matched|
    ensures multiset(Under(matched, n, key))[p] ==
            if LimitSource(p.purpose) == key.source then multiset(matched[..n])[Match(key.evseId, p)] else 0
  {
    hide LimitSource, Under;
    if n > 0 {
      UnderCounts(matched, n - 1, key, p);
      PrefixCounts(matched, n, Match(key.evseId, p));
      UnderStepCounts(matched, n, key, p);
    } else {
      assert matched[..0] == [];
      UnderNone(matched, key);
    }
  }

  lemma UnderNone(matched: seq<Match>, key: Key)
    ensures Under(matched, 0, key) == []
  {
  }

  lemma UnderStepCounts(matched: seq<Match>, n: nat, key: Key, p: Profile)
    requires 0 < n <= |matched|
    ensures multiset(Under(matched, n, key))[p] ==
            multiset(Under(matched, n - 1, key))[p] +
            if matched[n - 1] == Match(key.evseId, p) && LimitSource(p.purpose) == key.source then 1 else 0
  {
    hide LimitSource;
    var before := Under(matched, n - 1, key);
    CountSnoc(before, matched[n - 1].profile, p);
    assert before + [] == before;
  }

  lemma PrefixCounts(matched: seq<Match>, n: nat, m: Match)
    requires 0 < n <= |matched|
    ensures multiset(matched[..n])[m] == multiset(matched[..n - 1])[m] + if matched[n - 1] == m then 1 else 0
  {
    assert matched[..n] == matched[..n - 1] + [matched[n - 1]];
    CountSnoc(matched[..n - 1], matched[n - 1], m);
  }

  lemma CountSnoc<T>(xs: seq<T>, x: T, y: T)
    ensures multiset(xs + [x])[y] == multiset(xs)[y] + if x == y then 1 else 0
  {
  }

  lemma {:induction false} OrderedIsUnique(a: seq<Group>, b: seq<Group>)
    requires Ordered(a) && Ordered(b) && forall key :: HasKey(a, key) <==> HasKey(b, key)
    ensures |a| == |b| && forall i :: 0 <= i < |a| ==> a[i].key == b[i].key
    decreases |a|
  {
    if a != [] { assert HasKey(a, a[0].key); }
    if b != [] { assert HasKey(b, b[0].key); }
    if a != [] && b != [] {
      assert a[0].key == b[0].key;
      KeysOfCons(a[0], a[1..]);
      KeysOfCons(b[0], b[1..]);
      assert a == [a[0]] + a[1..] && b == [b[0]] + b[1..];
      assert !HasKey(a[1..], a[0].key) && !HasKey(b[1..], b[0].key);
      OrderedIsUnique(a[1..], b[1..]);
      assert forall i :: 0 < i < |a| ==> a[i] == a[1..][i - 1] && b[i] == b[1..][i - 1];
    }
  }

  /** When ids identify the profiles under each key, the report does not depend on the order of the matches. */
  lemma MatchOrderIsIrrelevant(requestId: int, a: seq<Match>, b: seq<Match>)
    requires multiset(a) == multiset(b)
    requires forall key :: IdsIdentify(multiset(Under(a, |a|, key)))
    ensures PagesOf(requestId, GroupsOf(a, |a|)) == PagesOf(requestId, GroupsOf(b, |b|))
  {
    hide IdsIdentify, GroupsOf, Under, SortById;
    var x, y := GroupsOf(a, |a|), GroupsOf(b, |b|);
    SameKeys(a, b);
    forall i | 0 <= i < |x| ensures SortById(x[i].profiles) == SortById(y[i].profiles) {
      assert IdsIdentify(multiset(Under(a, |a|, x[i].key)));
      SamePage(a, b, i);
    }
  }

  lemma SameKeys(a: seq<Match>, b: seq<Match>)
    requires multiset(a) == multiset(b)
    ensures var x, y := GroupsOf(a, |a|), GroupsOf(b, |b|);
            |x| == |y| && forall i :: 0 <= i < |x| ==> x[i].key == y[i].key
  {
    GroupsAre(a, |a|);
    GroupsAre(b, |b|);
    forall key ensures HasKey(GroupsOf(a, |a|), key) <==> HasKey(GroupsOf(b, |b|), key) {
      SameUnder(a, b, key);
      SameEmptiness(Under(a, |a|, key), Under(b, |b|, key));
    }
    OrderedIsUnique(GroupsOf(a, |a|), GroupsOf(b, |b|));
  }

  lemma SamePage(a: seq<Match>, b: seq<Match>, i: nat)
    requires multiset(a) == multiset(b)
    requires i < |GroupsOf(a, |a|)| && i < |GroupsOf(b, |b|)| && GroupsOf(a, |a|)[i].key == GroupsOf(b, |b|)[i].key
    requires IdsIdentify(multiset(Under(a, |a|, GroupsOf(a, |a|)[i].key)))
    ensures SortById(GroupsOf(a, |a|)[i].profiles) == SortById(GroupsOf(b, |b|)[i].profiles)
  {
    var x, y := GroupsOf(a, |a|)[i], GroupsOf(b, |b|)[i];
    GroupsAre(a, |a|);
    GroupsAre(b, |b|);
    LookupIsMember(GroupsOf(a, |a|), i);
    LookupIsMember(GroupsOf(b, |b|), i);
    SameUnder(a, b, x.key);
    SortIsSorted(x.profiles);
    SortIsSorted(y.profiles);
    hide Ordered, SortedById, IdsIdentify, Under, SortById;
    SortedIsUnique(SortById(x.profiles), SortById(y.profiles));
  }

  lemma SameUnder(a: seq<Match>, b: seq<Match>, key: Key)
    requires multiset(a) == multiset(b)
    ensures multiset(Under(a, |a|, key)) == multiset(Under(b, |b|, key))
  {
    assert a[..|a|] == a && b[..|b|] == b;
    forall p ensures multiset(Under(a, |a|, key))[p] == multiset(Under(b, |b|, key))[p] {
      UnderCounts(a, |a|, key, p);
      UnderCounts(b, |b|, key, p);
    }
  }
}
