/** The versioned, capacity-bounded Local Authorization List ("Send Local List" in OCPP 1.6). */
module LocalList {
  import opened Wrappers

  datatype AuthorizationStatus = Accepted | Blocked | Expired | Invalid | ConcurrentTx

  datatype IdTagInfo = IdTagInfo(status: AuthorizationStatus, parentIdTag: Option<string>, expiryDate: Option<int>)

  /** An entry with information adds or replaces a tag, one without removes it. */
  datatype Entry = Entry(idTag: string, info: Option<IdTagInfo>)

  datatype UpdateType = Full | Differential

  datatype Update = Update(listVersion: int, updateType: UpdateType, entries: seq<Entry>)

  datatype UpdateStatus = UpdateAccepted | UpdateFailed | VersionMismatch

  type Tags = map<string, IdTagInfo>

  // ----- what an update means -----

  ghost predicate DistinctTags(es: seq<Entry>) {
    forall i, j :: 0 <= i < j < |es| ==> es[i].idTag != es[j].idTag
  }

  predicate AllCarryInfo(es: seq<Entry>) {
    forall e :: e in es ==> e.info.Some?
  }

  function ApplyEntry(tags: Tags, e: Entry): Tags {
    match e.info
    case Some(info) => tags[e.idTag := info]
    case None => tags - {e.idTag}
  }

  /** The map the first `n` entries produce. */
  function ApplyEntries(tags: Tags, es: seq<Entry>, n: nat): Tags
    requires n <= |es|
  {
    if n == 0 then tags else ApplyEntry(ApplyEntries(tags, es, n - 1), es[n - 1])
  }

  predicate Fits(max: Option<nat>, n: nat) {
    max.Some? ==> n <= max.value
  }

  /** What a request answers, as a decision on the list and the request alone. */
  ghost function Decide(version: int, tags: Tags, max: Option<nat>, u: Update): UpdateStatus {
    if !DistinctTags(u.entries) then UpdateFailed else
    match u.updateType
    case Full =>
      if !AllCarryInfo(u.entries) || !Fits(max, |u.entries|) then UpdateFailed else UpdateAccepted
    case Differential =>
      if u.listVersion <= version then VersionMismatch
      else if !Fits(max, |ApplyEntries(tags, u.entries, |u.entries|)|) then UpdateFailed
      else UpdateAccepted
  }

  /** The entries after an accepted request. */
  function Updated(tags: Tags, u: Update): Tags {
    ApplyEntries(if u.updateType == Full then map[] else tags, u.entries, |u.entries|)
  }

  // ----- the entries as one simultaneous change -----

  /** The entry a request has for a tag. */
  ghost predicate Mentions(es: seq<Entry>, n: nat, tag: string)
    requires n <= |es|
  {
    exists i :: 0 <= i < n && es[i].idTag == tag
  }

  /** `after` is `tags` minus the deletes plus the adds of the first `n` entries. */
  ghost predicate IsChanged(tags: Tags, es: seq<Entry>, n: nat, after: Tags)
    requires n <= |es|
  {
    (forall i :: 0 <= i < n ==>
      if es[i].info.Some? then es[i].idTag in after && after[es[i].idTag] == es[i].info.value
      else es[i].idTag !in after) &&
    (forall tag :: !Mentions(es, n, tag) ==>
      (tag in after <==> tag in tags) && (tag in tags ==> tag in after && after[tag] == tags[tag]))
  }

  lemma {:induction false} EntriesChange(tags: Tags, es: seq<Entry>, n: nat)
    requires n <= |es| && DistinctTags(es)
    ensures IsChanged(tags, es, n, ApplyEntries(tags, es, n))
  {
    if n > 0 {
      EntriesChange(tags, es, n - 1);
      forall tag ensures Mentions(es, n, tag) <==> Mentions(es, n - 1, tag) || tag == es[n - 1].idTag {
        assert tag == es[n - 1].idTag ==> es[n - 1].idTag == tag;
      }
    }
  }

  ghost predicate Includes(a: seq<Entry>, b: seq<Entry>) {
    forall e :: e in a ==> e in b
  }

  /** The outcome does not depend on the order in which a request lists its entries. */
  lemma EntryOrderIsIrrelevant(tags: Tags, a: seq<Entry>, b: seq<Entry>)
    requires DistinctTags(a) && DistinctTags(b) && Includes(a, b) && Includes(b, a)
    ensures ApplyEntries(tags, a, |a|) == ApplyEntries(tags, b, |b|)
  {
    hide *;
    EntriesChange(tags, a, |a|);
    EntriesChange(tags, b, |b|);
    SameMentions(a, b);
    SameMentions(b, a);
    var x, y := ApplyEntries(tags, a, |a|), ApplyEntries(tags, b, |b|);
    forall tag ensures (tag in x <==> tag in y) && (tag in x && tag in y ==> x[tag] == y[tag]) {
      ChangedAlike(tags, a, b, x, y, tag);
    }
  }

  lemma ChangedAlike(tags: Tags, a: seq<Entry>, b: seq<Entry>, x: Tags, y: Tags, tag: string)
    requires IsChanged(tags, a, |a|, x) && IsChanged(tags, b, |b|, y) && Includes(a, b)
    requires Mentions(a, |a|, tag) <==> Mentions(b, |b|, tag)
    ensures (tag in x <==> tag in y) && (tag in x && tag in y ==> x[tag] == y[tag])
  {
    if i :| 0 <= i < |a| && a[i].idTag == tag {
      assert a[i] in a;
      var j :| 0 <= j < |b| && b[j] == a[i];
    } else {
      assert !Mentions(a, |a|, tag);
    }
  }

  lemma SameMentions(a: seq<Entry>, b: seq<Entry>)
    requires Includes(a, b)
    ensures forall tag :: Mentions(a, |a|, tag) ==> Mentions(b, |b|, tag)
  {
    forall tag | Mentions(a, |a|, tag) ensures Mentions(b, |b|, tag) {
      var i :| 0 <= i < |a| && a[i].idTag == tag;
      assert a[i] in a;
      var j :| 0 <= j < |b| && b[j] == a[i];
    }
  }

  // ----- the counted projection -----

  /** What one entry adds to the count, judged against the list as it was. */
  function Delta(tags: Tags, e: Entry): int {
    if e.info.Some? && e.idTag !in tags then 1
    else if e.info.None? && e.idTag in tags then -1
    else 0
  }

  function Projected(tags: Tags, es: seq<Entry>, n: nat): int
    requires n <= |es|
  {
    if n == 0 then |tags| else Projected(tags, es, n - 1) + Delta(tags, es[n - 1])
  }

  /** At every prefix the running count is the size of the map that prefix produces, so it never underflows. */
  lemma {:induction false} ProjectionIsExact(tags: Tags, es: seq<Entry>, n: nat)
    requires n <= |es| && DistinctTags(es)
    ensures Projected(tags, es, n) == |ApplyEntries(tags, es, n)|
  {
    if n > 0 {
      ProjectionIsExact(tags, es, n - 1);
      EntriesChange(tags, es, n - 1);
      assert !Mentions(es, n - 1, es[n - 1].idTag);
      EntrySize(ApplyEntries(tags, es, n - 1), es[n - 1]);
      hide ApplyEntry;
    }
  }

  lemma EntrySize(tags: Tags, e: Entry)
    ensures |ApplyEntry(tags, e)| == |tags| + Delta(tags, e)
  {
    var after := ApplyEntry(tags, e);
    match e.info {
      case Some(info) =>
        assert after.Keys == tags.Keys + {e.idTag};
      case None =>
        assert after.Keys == tags.Keys - {e.idTag};
    }
  }

  /** Without the duplicate check the projection can be wrong: the same new tag twice counts two. */
  lemma DuplicatesMislead(tag: string, info: IdTagInfo)
    ensures var es := [Entry(tag, Some(info)), Entry(tag, Some(info))];
            Projected(map[], es, 2) == 2 && |ApplyEntries(map[], es, 2)| == 1
  {
    var es := [Entry(tag, Some(info)), Entry(tag, Some(info))];
    assert ApplyEntries(map[], es, 1) == map[tag := info];
    assert ApplyEntries(map[], es, 2) == map[tag := info];
    assert Projected(map[], es, 1) == 1;
  }

  lemma {:induction false} FullSize(es: seq<Entry>, n: nat)
    requires n <= |es| && DistinctTags(es) && AllCarryInfo(es)
    ensures |ApplyEntries(map[], es, n)| == n
  {
    if n > 0 {
      FullSize(es, n - 1);
      EntriesChange(map[], es, n - 1);
      assert !Mentions(es, n - 1, es[n - 1].idTag);
      assert es[n - 1] in es;
      EntrySize(ApplyEntries(map[], es, n - 1), es[n - 1]);
    }
  }

  // ----- the list -----

  method HasDuplicateIdTags(es: seq<Entry>) returns (duplicate: bool)
    ensures duplicate <==> !DistinctTags(es)
  {
    var seen: set<string> := {};
    for i := 0 to |es|
      invariant forall tag :: tag in seen <==> exists j :: 0 <= j < i && es[j].idTag == tag
      invariant DistinctTags(es[..i])
    {
      if es[i].idTag in seen {
        return true;
      }
      seen := seen + {es[i].idTag};
    }
    assert es[..|es|] == es;
    return false;
  }

  /** Projects the resulting count without touching the list. */
  method ProjectedCount(tags: Tags, es: seq<Entry>) returns (projected: nat)
    requires DistinctTags(es)
    ensures projected == |ApplyEntries(tags, es, |es|)|
  {
    hide ApplyEntries, DistinctTags;
    projected := |tags|;
    for i := 0 to |es|
      invariant projected == Projected(tags, es, i)
    {
      ProjectionIsExact(tags, es, i + 1);
      if es[i].info.Some? && es[i].idTag !in tags {
        projected := projected + 1;
      } else if es[i].info.None? && es[i].idTag in tags {
        projected := projected - 1;
      }
    }
    ProjectionIsExact(tags, es, |es|);
  }

  class LocalAuthList {
    var version: int
    var entries: Tags
    const maxLength: Option<nat>

    constructor (maxLength: Option<nat>)
      ensures this.maxLength == maxLength && version == 0 && entries == map[]
    {
      this.maxLength := maxLength;
      version, entries := 0, map[];
    }

    predicate ExceedsCapacity(len: nat) {
      maxLength.Some? && len > maxLength.value
    }

    method Apply(u: Update) returns (status: UpdateStatus)
      modifies this
      ensures status == Decide(old(version), old(entries), maxLength, u)
      ensures status == UpdateAccepted ==> version == u.listVersion && entries == Updated(old(entries), u)
      ensures status != UpdateAccepted ==> version == old(version) && entries == old(entries)
    {
      var duplicate := HasDuplicateIdTags(u.entries);
      if duplicate {
        return UpdateFailed;
      }
      match u.updateType {
        case Full => status := ApplyFull(u);
        case Differential => status := ApplyDifferential(u);
      }
    }

    method ApplyFull(u: Update) returns (status: UpdateStatus)
      requires u.updateType == Full && DistinctTags(u.entries)
      modifies this
      ensures status == Decide(old(version), old(entries), maxLength, u)
      ensures status == UpdateAccepted ==> version == u.listVersion && entries == Updated(old(entries), u)
      ensures status != UpdateAccepted ==> version == old(version) && entries == old(entries)
    {
      var replacement: Tags := map[];
      for i := 0 to |u.entries|
        invariant replacement == ApplyEntries(map[], u.entries, i)
        invariant forall j :: 0 <= j < i ==> u.entries[j].info.Some?
      {
        match u.entries[i].info {
          case Some(info) => replacement := replacement[u.entries[i].idTag := info];
          case None =>
            assert u.entries[i] in u.entries;
            return UpdateFailed;
        }
      }
      FullSize(u.entries, |u.entries|);
      if ExceedsCapacity(|replacement|) {
        return UpdateFailed;
      }
      entries := replacement;
      version := u.listVersion;
      return UpdateAccepted;
    }

    method ApplyDifferential(u: Update) returns (status: UpdateStatus)
      requires u.updateType == Differential && DistinctTags(u.entries)
      modifies this
      ensures status == Decide(old(version), old(entries), maxLength, u)
      ensures status == UpdateAccepted ==> version == u.listVersion && entries == Updated(old(entries), u)
      ensures status != UpdateAccepted ==> version == old(version) && entries == old(entries)
    {
      hide DistinctTags;
      if u.listVersion <= version {
        return VersionMismatch;
      }
      if maxLength.Some? {
        var projected := ProjectedCount(entries, u.entries);
        if projected > maxLength.value {
          return UpdateFailed;
        }
      }
      Commit(u.entries);
      version := u.listVersion;
      return UpdateAccepted;
    }

    method Commit(es: seq<Entry>)
      modifies this`entries
      ensures entries == ApplyEntries(old(entries), es, |es|)
    {
      for i := 0 to |es|
        invariant entries == ApplyEntries(old(entries), es, i)
      {
        match es[i].info {
          case Some(info) => entries := entries[es[i].idTag := info];
          case None => entries := entries - {es[i].idTag};
        }
      }
    }

    /** The 2.0.1 request steps the same list through its translation. */
    method ApplyV201(request: V201Update) returns (status: V201Status)
      modifies this
      ensures status == ToV201Status(Decide(old(version), old(entries), maxLength, FromV201(request)))
      ensures status == V201Accepted <==>
              Decide(old(version), old(entries), maxLength, FromV201(request)) == UpdateAccepted
      ensures status == V201VersionMismatch <==>
              Decide(old(version), old(entries), maxLength, FromV201(request)) == VersionMismatch
      ensures status == V201Accepted ==>
                version == request.versionNumber && entries == Updated(old(entries), FromV201(request))
      ensures status != V201Accepted ==> version == old(version) && entries == old(entries)
    {
      var s := Apply(FromV201(request));
      status := ToV201Status(s);
    }
  }

  // ----- the 2.0.1 dialect -----

  datatype V201AuthorizationStatus =
    V201AuthAccepted | V201AuthBlocked | V201AuthConcurrentTx | V201AuthExpired | V201AuthInvalid | NoCredit |
    NotAllowedTypeEvse | NotAtThisLocation | NotAtThisTime | Unknown

  datatype V201Info = V201Info(status: V201AuthorizationStatus, groupIdToken: Option<string>, cacheExpiry: Option<int>)

  datatype V201Entry = V201Entry(idToken: string, info: Option<V201Info>)

  datatype V201Update = V201Update(versionNumber: int, updateType: UpdateType, entries: Option<seq<V201Entry>>)

  datatype V201Status = V201Accepted | V201Failed | V201VersionMismatch

  function FromV201Status(s: V201AuthorizationStatus): AuthorizationStatus {
    match s
    case V201AuthAccepted => Accepted
    case V201AuthBlocked => Blocked
    case V201AuthExpired => Expired
    case V201AuthConcurrentTx => ConcurrentTx
    case V201AuthInvalid | NoCredit | NotAllowedTypeEvse | NotAtThisLocation | NotAtThisTime | Unknown => Invalid
  }

  function FromV201Entry(e: V201Entry): Entry {
    Entry(e.idToken, match e.info
                     case None => None
                     case Some(i) => Some(IdTagInfo(FromV201Status(i.status), i.groupIdToken, None)))
  }

  function FromV201(request: V201Update): Update {
    var es := if request.entries.Some? then request.entries.value else [];
    Update(request.versionNumber, request.updateType,
           seq(|es|, i requires 0 <= i < |es| => FromV201Entry(es[i])))
  }

  ghost predicate DistinctTokens(es: seq<V201Entry>) {
    forall i, j :: 0 <= i < j < |es| ==> es[i].idToken != es[j].idToken
  }

  /** The statuses both dialects have are kept, every other refusal reads as invalid, groups are kept and expiry is
      dropped. */
  predicate KeepsStatus(from: V201Info, to: IdTagInfo) {
    (to.status == Accepted <==> from.status == V201AuthAccepted) &&
    (to.status == Blocked <==> from.status == V201AuthBlocked) &&
    (to.status == Expired <==> from.status == V201AuthExpired) &&
    (to.status == ConcurrentTx <==> from.status == V201AuthConcurrentTx) &&
    to.parentIdTag == from.groupIdToken && to.expiryDate == None
  }

  /** The translation keeps which tags are named, which are deleted, and which stay usable; an absent list is an empty
      one. */
  lemma TranslationIsFaithful(request: V201Update)
    ensures var u := FromV201(request);
            u.listVersion == request.versionNumber && u.updateType == request.updateType &&
            (request.entries == None ==> u.entries == []) &&
            (request.entries.Some? ==>
               var es := request.entries.value;
               |u.entries| == |es| && (DistinctTags(u.entries) <==> DistinctTokens(es)) &&
               (AllCarryInfo(u.entries) <==> forall i :: 0 <= i < |es| ==> es[i].info.Some?) &&
               forall i :: 0 <= i < |es| ==>
                 u.entries[i].idTag == es[i].idToken && (u.entries[i].info == None <==> es[i].info == None) &&
                 (es[i].info.Some? ==> KeepsStatus(es[i].info.value, u.entries[i].info.value)))
  {
    var u := FromV201(request);
    if request.entries.Some? {
      var es := request.entries.value;
      assert forall i :: 0 <= i < |es| ==> u.entries[i] == FromV201Entry(es[i]) && u.entries[i] in u.entries;
    }
  }

  function ToV201Status(s: UpdateStatus): V201Status {
    match s
    case UpdateAccepted => V201Accepted
    case VersionMismatch => V201VersionMismatch
    case UpdateFailed => V201Failed
  }

  // ----- every run -----

  datatype ListState = ListState(version: int, tags: Tags)

  ghost function Step(s: ListState, max: Option<nat>, u: Update): ListState {
    if Decide(s.version, s.tags, max, u) == UpdateAccepted then ListState(u.listVersion, Updated(s.tags, u)) else s
  }

  ghost function Run(max: Option<nat>, us: seq<Update>): ListState {
    if us == [] then ListState(0, map[]) else
    var n := |us| - 1;
    Step(Run(max, us[..n]), max, us[n])
  }

  /** What is accepted: tags listed once and, in a full update, information with each and no more of them than fit; in a
      differential update a later version and a result that fits. A stale version is a mismatch, anything else a
      failure. */
  lemma AcceptedIff(s: ListState, max: Option<nat>, u: Update)
    ensures Decide(s.version, s.tags, max, u) == UpdateAccepted <==>
            DistinctTags(u.entries) &&
            if u.updateType == Full then
              (forall e :: e in u.entries ==> e.info != None) && (max == None || |u.entries| <= max.value)
            else
              s.version < u.listVersion && (max == None || |ApplyEntries(s.tags, u.entries, |u.entries|)| <= max.value)
    ensures Decide(s.version, s.tags, max, u) == VersionMismatch <==>
            DistinctTags(u.entries) && u.updateType == Differential && u.listVersion <= s.version
  {
  }

  /** An accepted full update leaves exactly its own entries, a differential one (old minus deletes) plus adds; both
      take the request's version, and a refused update changes nothing. */
  lemma StepExactly(s: ListState, max: Option<nat>, u: Update)
    ensures var after := Step(s, max, u);
            if Decide(s.version, s.tags, max, u) == UpdateAccepted
            then after.version == u.listVersion &&
                 IsChanged(if u.updateType == Full then map[] else s.tags, u.entries, |u.entries|, after.tags)
            else after == s
  {
    if Decide(s.version, s.tags, max, u) == UpdateAccepted {
      EntriesChange(if u.updateType == Full then map[] else s.tags, u.entries, |u.entries|);
    }
    hide IsChanged;
  }

  lemma AcceptedFits(s: ListState, max: Option<nat>, u: Update)
    requires Decide(s.version, s.tags, max, u) == UpdateAccepted
    ensures Fits(max, |Updated(s.tags, u)|)
  {
    if u.updateType == Full { FullSize(u.entries, |u.entries|); }
  }

  /** Over every run the list holds at most its maximum length. */
  lemma {:induction false} RunFits(max: Option<nat>, us: seq<Update>)
    ensures max == None || |Run(max, us).tags| <= max.value
    ensures us == [] ==> Run(max, us) == ListState(0, map[])
  {
    if us != [] {
      var n := |us| - 1;
      RunFits(max, us[..n]);
      if Decide(Run(max, us[..n]).version, Run(max, us[..n]).tags, max, us[n]) == UpdateAccepted {
        AcceptedFits(Run(max, us[..n]), max, us[n]);
      }
    }
  }

  /** How many of the updates from the `k`-th on were accepted. */
  ghost function AcceptedFrom(max: Option<nat>, us: seq<Update>, k: nat): nat
    requires k <= |us|
    decreases |us|
  {
    if k == |us| then 0 else
    var n := |us| - 1;
    var s := Run(max, us[..n]);
    AcceptedFrom(max, us[..n], k) + if Decide(s.version, s.tags, max, us[n]) == UpdateAccepted then 1 else 0
  }

  /** Between full updates the version rises with every accepted update and stands still otherwise. */
  lemma {:induction false} VersionRises(max: Option<nat>, us: seq<Update>, k: nat)
    requires k <= |us| && forall i :: k <= i < |us| ==> us[i].updateType == Differential
    ensures Run(max, us[..k]).version + AcceptedFrom(max, us, k) <= Run(max, us).version
    ensures AcceptedFrom(max, us, k) == 0 ==> Run(max, us) == Run(max, us[..k])
    decreases |us|
  {
    if k == |us| {
      assert us[..k] == us;
    } else {
      var n := |us| - 1;
      VersionRises(max, us[..n], k);
      assert us[..n][..k] == us[..k];
    }
  }
}
