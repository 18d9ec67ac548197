/**
  The records of the announcement service and the pure rules over them:
  the priority lookup that finds an identity's existing reaction or view,
  what adding a reaction or recording a view does to the tables, the
  group-by reaction counts, and the pin and expiry rules of an update.

  The store of `AnnouncementService` is specified by these functions.
 */
module AnnouncementModel {
  import opened Wrappers
  import opened Counting
  import opened Identity

  datatype Priority = Low | Medium | High | Urgent

  datatype ReactionType = Like | Love | Haha | Wow | Sad | Angry

  /** The reaction types in declaration order. */
  const AllReactionTypes: seq<ReactionType> := [Like, Love, Haha, Wow, Sad, Angry]

  /** An announcement row; times are milliseconds since the epoch. */
  datatype Announcement = Announcement(
    id: string,
    title: string,
    content: string,
    priority: Priority,
    isActive: bool,
    isPinned: bool,
    pinnedAt: Option<int>,
    enableViews: bool,
    enableReactions: bool,
    viewCount: nat,
    expiresAt: Option<int>)

  /** The columns a reaction row and a view row share: the item and who it belongs to. */
  datatype Owner = Owner(
    announcementId: string,
    userId: Option<int>,
    visitorId: Option<string>,
    fingerprintHash: Option<string>,
    ipAddress: Option<string>,
    userAgent: Option<string>)

  datatype Reaction = Reaction(owner: Owner, reactionType: ReactionType)

  /** A view row: only the columns every row shares. */
  type View = Owner

  // ---------------------------------------------------------------------
  // findExistingRecord

  /** The three lookups, in the order they are tried. */
  datatype Tier = ByUser | ByVisitor | ByFingerprint

  /** `owner` is a row for `item` found by the lookup `tier` for `identity`;
      a lookup whose key the identity does not have (falsy) finds nothing. */
  predicate MatchesBy(owner: Owner, item: string, identity: ResolvedIdentity, tier: Tier) {
    && owner.announcementId == item
    && match tier
       case ByUser => IsTruthyId(identity.userId) && owner.userId == identity.userId
       case ByVisitor => IsTruthy(identity.visitorId) && owner.visitorId == identity.visitorId
       case ByFingerprint =>
         identity.fingerprintHash != "" && owner.fingerprintHash == Some(identity.fingerprintHash)
  }

  predicate Matches(owner: Owner, item: string, identity: ResolvedIdentity) {
    || MatchesBy(owner, item, identity, ByUser)
    || MatchesBy(owner, item, identity, ByVisitor)
    || MatchesBy(owner, item, identity, ByFingerprint)
  }

  /** The identity has at least one truthy key, so some lookup can find its rows. */
  predicate HasLookupKey(identity: ResolvedIdentity) {
    IsTruthyId(identity.userId) || IsTruthy(identity.visitorId) || identity.fingerprintHash != ""
  }

  ghost predicate AnyBy(owners: seq<Owner>, item: string, identity: ResolvedIdentity, tier: Tier) {
    exists j :: 0 <= j < |owners| && MatchesBy(owners[j], item, identity, tier)
  }

  ghost predicate IsFirstBy(owners: seq<Owner>, item: string, identity: ResolvedIdentity, tier: Tier, i: nat) {
    && i < |owners|
    && MatchesBy(owners[i], item, identity, tier)
    && forall j :: 0 <= j < i ==> !MatchesBy(owners[j], item, identity, tier)
  }

  /** `i` is the row the lookup chain returns: the first row found by the first
      tier that finds anything. */
  ghost predicate IsPreferred(owners: seq<Owner>, item: string, identity: ResolvedIdentity, i: nat) {
    if AnyBy(owners, item, identity, ByUser) then IsFirstBy(owners, item, identity, ByUser, i)
    else if AnyBy(owners, item, identity, ByVisitor) then IsFirstBy(owners, item, identity, ByVisitor, i)
    else IsFirstBy(owners, item, identity, ByFingerprint, i)
  }

  /** One `repo.findOne` of the chain: the first row (in insertion order) found by `tier`. */
  function FirstBy(owners: seq<Owner>, item: string, identity: ResolvedIdentity, tier: Tier): (r: Option<nat>)
    ensures r.Some? ==> IsFirstBy(owners, item, identity, tier, r.value)
    ensures r.None? ==> forall j :: 0 <= j < |owners| ==> !MatchesBy(owners[j], item, identity, tier)
  {
    if owners == [] then None
    else if MatchesBy(owners[0], item, identity, tier) then Some(0)
    else
      var rest := FirstBy(owners[1..], item, identity, tier);
      assert forall j :: 1 <= j < |owners| ==> owners[j] == owners[1..][j - 1];
      match rest
      case None => None
      case Some(k) => Some(k + 1)
  }

  /** `findExistingRecord`: by user id, else by visitor id, else by fingerprint;
      `None` exactly when no row of the item matches any key of the identity. */
  function FindExisting(owners: seq<Owner>, item: string, identity: ResolvedIdentity): (r: Option<nat>)
    ensures r.None? <==> forall j :: 0 <= j < |owners| ==> !Matches(owners[j], item, identity)
    ensures r.Some? ==> r.value < |owners| && Matches(owners[r.value], item, identity)
    ensures r.Some? ==> IsPreferred(owners, item, identity, r.value)
  {
    match FirstBy(owners, item, identity, ByUser)
    case Some(i) => Some(i)
    case None =>
      match FirstBy(owners, item, identity, ByVisitor)
      case Some(i) => Some(i)
      case None => FirstBy(owners, item, identity, ByFingerprint)
  }

  // ---------------------------------------------------------------------
  // Reactions

  function ReactionOwners(rs: seq<Reaction>): (owners: seq<Owner>)
    ensures |owners| == |rs| && forall k :: 0 <= k < |rs| ==> owners[k] == rs[k].owner
  {
    seq(|rs|, k requires 0 <= k < |rs| => rs[k].owner)
  }

  /** A new row carries the identity's keys, address and user agent. */
  function NewOwner(item: string, identity: ResolvedIdentity): Owner {
    Owner(item, identity.userId, identity.visitorId, Some(identity.fingerprintHash),
          Some(identity.ipAddress), Some(identity.userAgent))
  }

  /** The row's user id is set from the identity only when the row has none. */
  function BackfillUser(owner: Owner, identity: ResolvedIdentity): Owner {
    if IsTruthyId(identity.userId) && !IsTruthyId(owner.userId)
    then owner.(userId := identity.userId) else owner
  }

  /** The row's visitor id is set from the identity only when the row has none. */
  function BackfillVisitor(owner: Owner, identity: ResolvedIdentity): Owner {
    if IsTruthy(identity.visitorId) && !IsTruthy(owner.visitorId)
    then owner.(visitorId := identity.visitorId) else owner
  }

  /** The row `addReaction` saves: the existing one with the new type and its keys
      backfilled, or a new one. */
  function SavedReaction(rs: seq<Reaction>, item: string, t: ReactionType, identity: ResolvedIdentity): Reaction {
    match FindExisting(ReactionOwners(rs), item, identity)
    case Some(i) => Reaction(BackfillVisitor(BackfillUser(rs[i].owner, identity), identity), t)
    case None => Reaction(NewOwner(item, identity), t)
  }

  /** The reactions table after `addReaction` on an announcement that accepts reactions. */
  function UpsertReaction(rs: seq<Reaction>, item: string, t: ReactionType, identity: ResolvedIdentity): seq<Reaction> {
    match FindExisting(ReactionOwners(rs), item, identity)
    case Some(i) => rs[i := SavedReaction(rs, item, t, identity)]
    case None => rs + [SavedReaction(rs, item, t, identity)]
  }

  /** `addReaction` replaces the found row in place: new type, keys only filled
      where empty, every other column and every other row unchanged; with no
      match it appends one row that carries the identity's keys. */
  lemma UpsertReactionEffect(rs: seq<Reaction>, item: string, t: ReactionType, identity: ResolvedIdentity)
    ensures var after := UpsertReaction(rs, item, t, identity);
            var saved := SavedReaction(rs, item, t, identity);
            saved.reactionType == t
            && match FindExisting(ReactionOwners(rs), item, identity)
               case Some(i) =>
                 var was := rs[i].owner;
                 && |after| == |rs| && after[i] == saved
                 && (forall j :: 0 <= j < |rs| && j != i ==> after[j] == rs[j])
                 && saved.owner.announcementId == was.announcementId == item
                 && saved.owner.fingerprintHash == was.fingerprintHash
                 && saved.owner.ipAddress == was.ipAddress
                 && saved.owner.userAgent == was.userAgent
                 && (IsTruthyId(was.userId) ==> saved.owner.userId == was.userId)
                 && (IsTruthy(was.visitorId) ==> saved.owner.visitorId == was.visitorId)
                 && (!IsTruthyId(was.userId) && IsTruthyId(identity.userId) ==> saved.owner.userId == identity.userId)
                 && (!IsTruthy(was.visitorId) && IsTruthy(identity.visitorId) ==> saved.owner.visitorId == identity.visitorId)
               case None =>
                 && after == rs + [saved]
                 && saved.owner.announcementId == item
                 && saved.owner.userId == identity.userId
                 && saved.owner.visitorId == identity.visitorId
                 && saved.owner.fingerprintHash == Some(identity.fingerprintHash)
  {
  }

  function MatchesFn(item: string, identity: ResolvedIdentity): Owner -> bool {
    (o: Owner) => Matches(o, item, identity)
  }

  /** How many rows of `owners` the identity's keys find for `item`. */
  function CountMatching(owners: seq<Owner>, item: string, identity: ResolvedIdentity): nat {
    CountWhere(owners, MatchesFn(item, identity))
  }

  /** Backfilling keys never loses a match. */
  lemma BackfillKeepsMatch(owner: Owner, item: string, identity: ResolvedIdentity)
    requires Matches(owner, item, identity)
    ensures Matches(BackfillUser(owner, identity), item, identity)
    ensures Matches(BackfillVisitor(BackfillUser(owner, identity), identity), item, identity)
  {
  }

  /** One `addReaction` by an identity with a key, starting from at most one row of
      that identity for the item, leaves exactly one, and it has the given type. */
  lemma UpsertLeavesOne(rs: seq<Reaction>, item: string, t: ReactionType, identity: ResolvedIdentity)
    requires HasLookupKey(identity)
    requires CountMatching(ReactionOwners(rs), item, identity) <= 1
    ensures var after := UpsertReaction(rs, item, t, identity);
            && CountMatching(ReactionOwners(after), item, identity) == 1
            && forall j :: 0 <= j < |after| && Matches(after[j].owner, item, identity) ==> after[j].reactionType == t
  {
    var owners := ReactionOwners(rs);
    var after := UpsertReaction(rs, item, t, identity);
    var saved := SavedReaction(rs, item, t, identity);
    var p := MatchesFn(item, identity);
    match FindExisting(owners, item, identity)
    case Some(i) =>
      BackfillKeepsMatch(rs[i].owner, item, identity);
      assert ReactionOwners(after) == owners[i := saved.owner];
      CountWhereUpdate(owners, i, saved.owner, p);
      CountWhereZero(owners, p);
      assert CountMatching(ReactionOwners(after), item, identity) == 1;
      CountWhereOne(ReactionOwners(after), p, i);
    case None =>
      assert ReactionOwners(after) == owners + [saved.owner];
      CountWhereAppend(owners, saved.owner, p);
      CountWhereZero(owners, p);
      assert CountMatching(ReactionOwners(after), item, identity) == 1;
      CountWhereOne(ReactionOwners(after), p, |rs|);
  }

  /** `types.length` successive `addReaction` calls by one identity on one item. */
  function ReactAll(rs: seq<Reaction>, item: string, types: seq<ReactionType>, identity: ResolvedIdentity): seq<Reaction>
    decreases |types|
  {
    if types == [] then rs
    else ReactAll(UpsertReaction(rs, item, types[0], identity), item, types[1..], identity)
  }

  /** Any non-empty sequence of reactions by one identity on one item leaves
      exactly one row for that identity, whose type is the last one given. */
  lemma {:induction false} RepeatedReactionsLeaveOne(rs: seq<Reaction>, item: string, types: seq<ReactionType>, identity: ResolvedIdentity)
    requires HasLookupKey(identity) && |types| >= 1
    requires CountMatching(ReactionOwners(rs), item, identity) <= 1
    ensures var after := ReactAll(rs, item, types, identity);
            && CountMatching(ReactionOwners(after), item, identity) == 1
            && forall j :: 0 <= j < |after| && Matches(after[j].owner, item, identity) ==>
                 after[j].reactionType == types[|types| - 1]
    decreases |types|
  {
    UpsertLeavesOne(rs, item, types[0], identity);
    if |types| > 1 {
      RepeatedReactionsLeaveOne(UpsertReaction(rs, item, types[0], identity), item, types[1..], identity);
    }
  }

  /** A visitor who reacts and then signs in and reacts again keeps one row: the
      visitor's row is found by its visitor id and gets the user id backfilled. */
  lemma VisitorUpgradeReusesReaction(rs: seq<Reaction>, item: string, t1: ReactionType, t2: ReactionType,
                                     visitor: ResolvedIdentity, user: ResolvedIdentity)
    requires forall j :: 0 <= j < |rs| ==> !Matches(rs[j].owner, item, visitor)
    requires IsTruthy(visitor.visitorId) && !IsTruthyId(visitor.userId)
    requires IsTruthyId(user.userId) && user.visitorId == visitor.visitorId
    requires forall j :: 0 <= j < |rs| ==> !MatchesBy(rs[j].owner, item, user, ByUser)
    ensures var after := UpsertReaction(UpsertReaction(rs, item, t1, visitor), item, t2, user);
            && |after| == |rs| + 1
            && after[..|rs|] == rs
            && after[|rs|].reactionType == t2
            && after[|rs|].owner.userId == user.userId
            && after[|rs|].owner.visitorId == visitor.visitorId
  {
    var mid := UpsertReaction(rs, item, t1, visitor);
    assert FindExisting(ReactionOwners(rs), item, visitor).None?;
    assert mid == rs + [Reaction(NewOwner(item, visitor), t1)];
    var owners := ReactionOwners(mid);
    assert MatchesBy(owners[|rs|], item, user, ByVisitor);
    assert !MatchesBy(owners[|rs|], item, user, ByUser);
    forall j | 0 <= j < |rs| ensures !MatchesBy(owners[j], item, user, ByVisitor) {
      assert !MatchesBy(rs[j].owner, item, visitor, ByVisitor);
    }
    assert !AnyBy(owners, item, user, ByUser);
    assert AnyBy(owners, item, user, ByVisitor);
    var r := FindExisting(owners, item, user);
    assert r == Some(|rs|);
  }

  // ---------------------------------------------------------------------
  // getReactionCounts, getUserReaction, removeReaction

  function OfItem(item: string): Reaction -> bool {
    (r: Reaction) => r.owner.announcementId == item
  }

  function OfItemAndType(item: string, t: ReactionType): Reaction -> bool {
    (r: Reaction) => r.owner.announcementId == item && r.reactionType == t
  }

  function OfItemIn(item: string, types: seq<ReactionType>): Reaction -> bool {
    (r: Reaction) => r.owner.announcementId == item && r.reactionType in types
  }

  /** The number of reaction rows of an item. */
  function ItemReactionCount(rs: seq<Reaction>, item: string): nat {
    CountWhere(rs, OfItem(item))
  }

  /** The number of reaction rows of an item with the given type. */
  function CountOfType(rs: seq<Reaction>, item: string, t: ReactionType): nat {
    CountWhere(rs, OfItemAndType(item, t))
  }

  /** One row of the `GROUP BY reactionType` result. */
  datatype ReactionCount = ReactionCount(reactionType: ReactionType, count: nat)

  predicate Distinct(types: seq<ReactionType>) {
    forall k, l :: 0 <= k < l < |types| ==> types[k] != types[l]
  }

  predicate Lists(counts: seq<ReactionCount>, t: ReactionType) {
    exists k :: 0 <= k < |counts| && counts[k].reactionType == t
  }

  /** The group-by over the types in `types`, in that order, leaving out
      the types with no row. */
  function CountsOver(rs: seq<Reaction>, item: string, types: seq<ReactionType>): (r: seq<ReactionCount>)
    ensures forall k :: 0 <= k < |r| ==>
              && r[k].reactionType in types
              && r[k].count == CountOfType(rs, item, r[k].reactionType)
              && r[k].count > 0
  {
    if types == [] then []
    else
      var c := CountOfType(rs, item, types[0]);
      (if c > 0 then [ReactionCount(types[0], c)] else []) + CountsOver(rs, item, types[1..])
  }

  /** Over distinct types, no type is listed twice. */
  lemma {:induction false} CountsOverDistinct(rs: seq<Reaction>, item: string, types: seq<ReactionType>)
    requires Distinct(types)
    ensures Distinct(TypesOf(CountsOver(rs, item, types)))
    decreases |types|
  {
    if types != [] {
      var t := types[0];
      var c := CountOfType(rs, item, t);
      var rest := CountsOver(rs, item, types[1..]);
      assert Distinct(types[1..]) && t !in types[1..] by {
        forall k, l | 0 <= k < l < |types[1..]| ensures types[1..][k] != types[1..][l] {
          assert types[1..][k] == types[k + 1] && types[1..][l] == types[l + 1];
        }
      }
      CountsOverDistinct(rs, item, types[1..]);
      if c > 0 {
        var r := [ReactionCount(t, c)] + rest;
        assert CountsOver(rs, item, types) == r;
        assert t !in TypesOf(rest);
        assert TypesOf(r) == [t] + TypesOf(rest);
        DistinctCons(t, TypesOf(rest));
      } else {
        assert CountsOver(rs, item, types) == rest;
      }
    }
  }

  lemma DistinctCons(t: ReactionType, types: seq<ReactionType>)
    requires Distinct(types) && t !in types
    ensures Distinct([t] + types)
  {
    var r := [t] + types;
    forall k, l | 0 <= k < l < |r| ensures r[k] != r[l] {
      assert r[l] == types[l - 1];
      if k > 0 {
        assert r[k] == types[k - 1];
      }
    }
  }

  lemma ListsConcat(head: seq<ReactionCount>, rest: seq<ReactionCount>)
    ensures forall u :: Lists(head, u) || Lists(rest, u) ==> Lists(head + rest, u)
  {
    forall u | Lists(head, u) || Lists(rest, u) ensures Lists(head + rest, u) {
      if Lists(head, u) {
        var k :| 0 <= k < |head| && head[k].reactionType == u;
        assert (head + rest)[k] == head[k];
      } else {
        var k :| 0 <= k < |rest| && rest[k].reactionType == u;
        assert (head + rest)[|head| + k] == rest[k];
      }
    }
  }

  /** Every type in `types` that the item has is listed. */
  lemma {:induction false} CountsOverListsPresent(rs: seq<Reaction>, item: string, types: seq<ReactionType>)
    ensures forall t :: t in types && CountOfType(rs, item, t) > 0 ==> Lists(CountsOver(rs, item, types), t)
    decreases |types|
  {
    if types != [] {
      var t := types[0];
      var c := CountOfType(rs, item, t);
      var rest := CountsOver(rs, item, types[1..]);
      var head := if c > 0 then [ReactionCount(t, c)] else [];
      assert CountsOver(rs, item, types) == head + rest;
      CountsOverListsPresent(rs, item, types[1..]);
      ListsConcat(head, rest);
      assert c > 0 ==> head[0].reactionType == t;
      forall u | u in types && CountOfType(rs, item, u) > 0 ensures Lists(head + rest, u) {
        if u == t {
          assert head[0].reactionType == u;
        } else {
          assert u in types[1..];
        }
      }
    }
  }

  function TypesOf(counts: seq<ReactionCount>): (types: seq<ReactionType>)
    ensures |types| == |counts| && forall k :: 0 <= k < |counts| ==> types[k] == counts[k].reactionType
  {
    seq(|counts|, k requires 0 <= k < |counts| => counts[k].reactionType)
  }

  /** `reactionCounts.reduce((sum, r) => sum + r.count, 0)`. */
  function TotalReactions(counts: seq<ReactionCount>): nat {
    if counts == [] then 0 else counts[0].count + TotalReactions(counts[1..])
  }

  lemma {:induction false} TotalOfCountsOver(rs: seq<Reaction>, item: string, types: seq<ReactionType>)
    requires Distinct(types)
    ensures TotalReactions(CountsOver(rs, item, types)) == CountWhere(rs, OfItemIn(item, types))
    decreases |types|
  {
    if types == [] {
      CountWhereZero(rs, OfItemIn(item, types));
    } else {
      var t := types[0];
      var ts := types[1..];
      assert Distinct(ts) && t !in ts;
      TotalOfCountsOver(rs, item, ts);
      assert forall x: Reaction :: OfItemIn(item, types)(x) == (OfItemAndType(item, t)(x) || OfItemIn(item, ts)(x)) by {
        forall x: Reaction ensures OfItemIn(item, types)(x) == (OfItemAndType(item, t)(x) || OfItemIn(item, ts)(x)) {
          assert x.reactionType in types <==> x.reactionType == t || x.reactionType in ts;
        }
      }
      CountWhereSplit(rs, OfItemIn(item, types), OfItemAndType(item, t), OfItemIn(item, ts));
      var rest := CountsOver(rs, item, ts);
      if CountOfType(rs, item, t) > 0 {
        assert ([ReactionCount(t, CountOfType(rs, item, t))] + rest)[1..] == rest;
      } else {
        assert [] + rest == rest;
      }
    }
  }

  lemma AllReactionTypesListed()
    ensures forall t: ReactionType :: t in AllReactionTypes
    ensures Distinct(AllReactionTypes)
  {
    forall t: ReactionType ensures t in AllReactionTypes {
      match t
      case Like => assert AllReactionTypes[0] == t;
      case Love => assert AllReactionTypes[1] == t;
      case Haha => assert AllReactionTypes[2] == t;
      case Wow => assert AllReactionTypes[3] == t;
      case Sad => assert AllReactionTypes[4] == t;
      case Angry => assert AllReactionTypes[5] == t;
    }
  }

  /** `getReactionCounts`: one entry per reaction type the item has, its count the
      number of the item's rows of that type; the counts add up to the number of
      the item's reaction rows. */
  function ReactionCounts(rs: seq<Reaction>, item: string): (r: seq<ReactionCount>)
    ensures forall k :: 0 <= k < |r| ==>
              r[k].count > 0 && r[k].count == CountOfType(rs, item, r[k].reactionType)
    ensures forall t: ReactionType :: CountOfType(rs, item, t) > 0 <==> Lists(r, t)
    ensures Distinct(TypesOf(r))
    ensures TotalReactions(r) == ItemReactionCount(rs, item)
  {
    TotalOfCountsOver(rs, item, AllReactionTypes);
    CountsOverListsPresent(rs, item, AllReactionTypes);
    CountsOverDistinct(rs, item, AllReactionTypes);
    AllReactionTypesListed();
    CountWhereSame(rs, OfItemIn(item, AllReactionTypes), OfItem(item));
    CountsOver(rs, item, AllReactionTypes)
  }

  /** The row `findOne({ where: { announcementId, userId } })` returns. */
  function FindUserReaction(rs: seq<Reaction>, item: string, userId: int): (r: Option<nat>)
    ensures r.Some? ==> r.value < |rs| && rs[r.value].owner.announcementId == item
                        && rs[r.value].owner.userId == Some(userId)
    ensures r.Some? ==> forall j :: 0 <= j < r.value ==>
                          !(rs[j].owner.announcementId == item && rs[j].owner.userId == Some(userId))
    ensures r.None? <==> forall j :: 0 <= j < |rs| ==>
                          !(rs[j].owner.announcementId == item && rs[j].owner.userId == Some(userId))
  {
    if rs == [] then None
    else if rs[0].owner.announcementId == item && rs[0].owner.userId == Some(userId) then Some(0)
    else
      assert forall j :: 1 <= j < |rs| ==> rs[j] == rs[1..][j - 1];
      match FindUserReaction(rs[1..], item, userId)
      case None => None
      case Some(k) => Some(k + 1)
  }

  /** `getUserReaction`. */
  function UserReaction(rs: seq<Reaction>, item: string, userId: int): (r: Option<ReactionType>)
    ensures r.Some? <==> exists j :: 0 <= j < |rs| && rs[j].owner.announcementId == item
                                     && rs[j].owner.userId == Some(userId)
    ensures r.Some? ==> r.value == rs[FindUserReaction(rs, item, userId).value].reactionType
  {
    match FindUserReaction(rs, item, userId)
    case Some(i) => Some(rs[i].reactionType)
    case None => None
  }

  /** The reactions table after `removeReaction`. */
  function RemoveUserReaction(rs: seq<Reaction>, item: string, userId: int): seq<Reaction> {
    match FindUserReaction(rs, item, userId)
    case Some(i) => rs[..i] + rs[i + 1..]
    case None => rs
  }

  /** `removeReaction` with no row of the user for the item changes nothing. */
  lemma RemoveUserReactionNoOp(rs: seq<Reaction>, item: string, userId: int)
    requires forall j :: 0 <= j < |rs| ==>
               !(rs[j].owner.announcementId == item && rs[j].owner.userId == Some(userId))
    ensures RemoveUserReaction(rs, item, userId) == rs
  {
  }

  /** `removeReaction` removes exactly one row, the user's first row for the item,
      and leaves every other row as it was. */
  lemma RemoveUserReactionEffect(rs: seq<Reaction>, item: string, userId: int)
    requires FindUserReaction(rs, item, userId).Some?
    ensures var i := FindUserReaction(rs, item, userId).value;
            && rs[i].owner.announcementId == item && rs[i].owner.userId == Some(userId)
            && multiset(RemoveUserReaction(rs, item, userId)) + multiset{rs[i]} == multiset(rs)
  {
    var i := FindUserReaction(rs, item, userId).value;
    assert RemoveUserReaction(rs, item, userId) == rs[..i] + rs[i + 1..];
    MultisetRemove(rs, i);
  }

  /** After `removeReaction` removed a row, the item has one reaction fewer, one
      fewer of that row's type, and every other item's count is unchanged. */
  lemma RemoveUserReactionCounts(rs: seq<Reaction>, item: string, userId: int, other: string)
    requires FindUserReaction(rs, item, userId).Some?
    ensures var i := FindUserReaction(rs, item, userId).value;
            var after := RemoveUserReaction(rs, item, userId);
            && ItemReactionCount(after, item) == ItemReactionCount(rs, item) - 1
            && (other != item ==> ItemReactionCount(after, other) == ItemReactionCount(rs, other))
            && CountOfType(after, item, rs[i].reactionType) == CountOfType(rs, item, rs[i].reactionType) - 1
  {
    var i := FindUserReaction(rs, item, userId).value;
    CountWhereRemove(rs, i, OfItem(item));
    CountWhereRemove(rs, i, OfItem(other));
    CountWhereRemove(rs, i, OfItemAndType(item, rs[i].reactionType));
  }

  // ---------------------------------------------------------------------
  // recordView

  /** No view of the identity exists for the item, so this view is new. */
  predicate IsNewView(vs: seq<View>, item: string, identity: ResolvedIdentity) {
    FindExisting(vs, item, identity).None?
  }

  /** The views table after `recordView` on an announcement that counts views:
      the found row gets only its user id backfilled, or one row is appended. */
  function ViewsAfter(vs: seq<View>, item: string, identity: ResolvedIdentity): seq<View> {
    match FindExisting(vs, item, identity)
    case Some(i) => vs[i := BackfillUser(vs[i], identity)]
    case None => vs + [NewOwner(item, identity)]
  }

  function ViewOfItem(item: string): View -> bool {
    (v: View) => v.announcementId == item
  }

  /** The number of view rows of an item. */
  function ViewsOf(vs: seq<View>, item: string): nat {
    CountWhere(vs, ViewOfItem(item))
  }

  /** A recorded view adds one row for its item exactly when it is new, and no
      row for any other item. */
  lemma ViewsAfterCount(vs: seq<View>, item: string, identity: ResolvedIdentity, other: string)
    ensures ViewsOf(ViewsAfter(vs, item, identity), other)
            == ViewsOf(vs, other) + if other == item && IsNewView(vs, item, identity) then 1 else 0
    ensures |ViewsAfter(vs, item, identity)| == |vs| + if IsNewView(vs, item, identity) then 1 else 0
  {
    match FindExisting(vs, item, identity)
    case Some(i) =>
      CountWhereUpdate(vs, i, BackfillUser(vs[i], identity), ViewOfItem(other));
    case None =>
      CountWhereAppend(vs, NewOwner(item, identity), ViewOfItem(other));
  }

  /** After a view is recorded, the identity has a view of the item. */
  lemma ViewsAfterHasMatch(vs: seq<View>, item: string, identity: ResolvedIdentity)
    requires HasLookupKey(identity)
    ensures !IsNewView(ViewsAfter(vs, item, identity), item, identity)
  {
    var after := ViewsAfter(vs, item, identity);
    match FindExisting(vs, item, identity)
    case Some(i) =>
      BackfillKeepsMatch(vs[i], item, identity);
      assert Matches(after[i], item, identity);
    case None =>
      assert Matches(after[|vs|], item, identity);
  }

  /** `n` successive `recordView` calls by one identity on one item. */
  function ViewAll(vs: seq<View>, item: string, identity: ResolvedIdentity, n: nat): seq<View>
    decreases n
  {
    if n == 0 then vs else ViewAll(ViewsAfter(vs, item, identity), item, identity, n - 1)
  }

  /** Repeated views by one identity add exactly one view row for the item in
      total if it had none, and none otherwise. */
  lemma {:induction false} RepeatedViewsCountOnce(vs: seq<View>, item: string, identity: ResolvedIdentity, n: nat)
    requires HasLookupKey(identity) && n >= 1
    ensures ViewsOf(ViewAll(vs, item, identity, n), item)
            == ViewsOf(vs, item) + if IsNewView(vs, item, identity) then 1 else 0
    decreases n
  {
    var next := ViewsAfter(vs, item, identity);
    ViewsAfterCount(vs, item, identity, item);
    if n > 1 {
      ViewsAfterHasMatch(vs, item, identity);
      RepeatedViewsCountOnce(next, item, identity, n - 1);
    }
  }

  // ---------------------------------------------------------------------
  // Invariants of the announcements table

  /** Every announcement is stored under its own id. */
  predicate StoredById(m: map<string, Announcement>) {
    forall k :: k in m ==> m[k].id == k
  }

  /** Each announcement's view counter equals the number of its view rows. */
  predicate CountersMatch(m: map<string, Announcement>, vs: seq<View>) {
    forall k :: k in m ==> m[k].viewCount == ViewsOf(vs, k)
  }

  /** Each announcement has `pinnedAt` set exactly when it is pinned. */
  predicate AllPinsConsistent(m: map<string, Announcement>) {
    forall k :: k in m ==> PinConsistent(m[k])
  }

  /** Replacing one announcement by a row with the same id keeps the table
      keyed by id, keeps the counters when the row's counter is unchanged, and
      keeps the pins consistent when the new row's pin is. */
  lemma ReplaceKeepsInvariants(m: map<string, Announcement>, vs: seq<View>, id: string, b: Announcement)
    requires id in m && b.id == id
    ensures StoredById(m) ==> StoredById(m[id := b])
    ensures CountersMatch(m, vs) && b.viewCount == m[id].viewCount ==> CountersMatch(m[id := b], vs)
    ensures AllPinsConsistent(m) && PinConsistent(b) ==> AllPinsConsistent(m[id := b])
  {
    forall k | k in m[id := b] ensures m[id := b][k] == if k == id then b else m[k] {
    }
  }

  /** Storing a row back under its own key changes nothing. */
  lemma StoreSame(m: map<string, Announcement>, id: string)
    requires id in m
    ensures m[id := m[id]] == m
  {
    assert m[id := m[id]].Keys == m.Keys;
  }

  /** Recording a view raises the item's counter by exactly the rows it adds,
      so the counters keep matching the views table. */
  lemma RecordViewKeepsCounters(m: map<string, Announcement>, vs: seq<View>, id: string, identity: ResolvedIdentity)
    requires id in m && CountersMatch(m, vs)
    ensures var a := m[id];
            var added := if IsNewView(vs, id, identity) then 1 else 0;
            CountersMatch(m[id := a.(viewCount := a.viewCount + added)], ViewsAfter(vs, id, identity))
  {
    var a := m[id];
    var added := if IsNewView(vs, id, identity) then 1 else 0;
    var m' := m[id := a.(viewCount := a.viewCount + added)];
    forall k | k in m' ensures m'[k].viewCount == ViewsOf(ViewsAfter(vs, id, identity), k) {
      ViewsAfterCount(vs, id, identity, k);
    }
  }

  // ---------------------------------------------------------------------
  // Pinning and updating

  /** `pinnedAt` is set exactly when the announcement is pinned. */
  predicate PinConsistent(a: Announcement) {
    a.isPinned <==> a.pinnedAt.Some?
  }

  /** `togglePin` at time `now`. */
  function Toggled(a: Announcement, now: int): (r: Announcement)
    ensures r.isPinned == !a.isPinned
    ensures PinConsistent(r)
    ensures r.isPinned ==> r.pinnedAt == Some(now)
    ensures r == a.(isPinned := r.isPinned, pinnedAt := r.pinnedAt)
  {
    var pinned := !a.isPinned;
    a.(isPinned := pinned, pinnedAt := if pinned then Some(now) else None)
  }

  /** The fields of `UpdateAnnouncementDto` after its transforms (absent ones are
      `None`); `expiresAt` is the parsed date. Every field may be sent as `null`,
      which the boolean transforms turn into `false` and the expiry logic
      ignores; `title`, `content` and `priority` are assigned as they are, so
      they keep that case. */
  datatype UpdateDto = UpdateDto(
    title: Field<string>,
    content: Field<string>,
    priority: Field<Priority>,
    enableViews: Option<bool>,
    enableReactions: Option<bool>,
    expiresAt: Option<int>,
    isActive: Option<bool>,
    isPinned: Option<bool>)

  /** The update assigns `null` to a NOT NULL column (`title`, `content`,
      `priority`), so the database refuses to save it. */
  predicate WritesNull(dto: UpdateDto) {
    dto.title.ExplicitNull? || dto.content.ExplicitNull? || dto.priority.ExplicitNull?
  }

  /** A supplied field's value, or the current one when it is left out. */
  function Assigned<T>(f: Field<T>, current: T): T
    requires !f.ExplicitNull?
  {
    if f.Given? then f.value else current
  }

  /** `update` at time `now`: `pinnedAt` is recomputed first, then the supplied
      fields are assigned over the row, keeping the old expiry when none is given.
      A row that would hold `null` in a NOT NULL column is never saved. */
  function ApplyUpdate(a: Announcement, dto: UpdateDto, now: int): Announcement
    requires !WritesNull(dto)
  {
    var pinnedAt :=
      if dto.isPinned.Some? && dto.isPinned.value != a.isPinned
      then (if dto.isPinned.value then Some(now) else None)
      else a.pinnedAt;
    a.(title := Assigned(dto.title, a.title),
       content := Assigned(dto.content, a.content),
       priority := Assigned(dto.priority, a.priority),
       enableViews := dto.enableViews.GetOr(a.enableViews),
       enableReactions := dto.enableReactions.GetOr(a.enableReactions),
       isActive := dto.isActive.GetOr(a.isActive),
       isPinned := dto.isPinned.GetOr(a.isPinned),
       pinnedAt := pinnedAt,
       expiresAt := if dto.expiresAt.Some? then dto.expiresAt else a.expiresAt)
  }

  /** `update` changes `pinnedAt` only when `isPinned` is supplied and differs,
      keeps `expiresAt` when none is supplied, never touches the id or the view
      count, and keeps a consistent pin consistent. */
  lemma UpdatePinAndExpiry(a: Announcement, dto: UpdateDto, now: int)
    requires !WritesNull(dto)
    ensures var r := ApplyUpdate(a, dto, now);
            && (r.pinnedAt != a.pinnedAt ==> dto.isPinned.Some? && dto.isPinned.value != a.isPinned)
            && (dto.isPinned.Some? && dto.isPinned.value != a.isPinned ==>
                  r.isPinned == dto.isPinned.value && PinConsistent(r)
                  && (r.isPinned ==> r.pinnedAt == Some(now)))
            && (dto.expiresAt.None? ==> r.expiresAt == a.expiresAt)
            && r.id == a.id && r.viewCount == a.viewCount
            && (PinConsistent(a) ==> PinConsistent(r))
  {
  }
}
