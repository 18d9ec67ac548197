/**
  `AnnouncementService` over an in-memory store: the announcements by id,
  the reactions table and the views table, each in insertion order. Each
  method does what the service does to the rows it fetches and saves, and
  its contract ties the new tables to the functions of `AnnouncementModel`.
 */
module AnnouncementService {
  import opened Wrappers
  import opened Exceptions
  import opened Identity
  import opened AnnouncementModel

  /** The fields of `AnnouncementWithStats` the service computes. */
  datatype AnnouncementWithStats = AnnouncementWithStats(
    announcement: Announcement,
    reactions: seq<ReactionCount>,
    totalReactions: nat,
    userReaction: Option<ReactionType>)

  /** `mapToAnnouncementWithStats`: the counts of the announcement's reactions,
      their total, and the caller's own reaction when a user id is given. */
  function MapToWithStats(rs: seq<Reaction>, a: Announcement, userId: Option<int>): (w: AnnouncementWithStats)
    ensures w.announcement == a && w.reactions == ReactionCounts(rs, a.id)
    ensures w.totalReactions == ItemReactionCount(rs, a.id)
    ensures w.userReaction.Some? <==>
              IsTruthyId(userId) && FindUserReaction(rs, a.id, userId.value).Some?
    ensures w.userReaction.Some? ==>
              w.userReaction.value == rs[FindUserReaction(rs, a.id, userId.value).value].reactionType
  {
    var counts := ReactionCounts(rs, a.id);
    AnnouncementWithStats(a, counts, TotalReactions(counts),
                          if IsTruthyId(userId) then UserReaction(rs, a.id, userId.value) else None)
  }

  /** What `addReaction` returns. */
  datatype ReactionOutcome = ReactionOutcome(reaction: Reaction, counts: seq<ReactionCount>)

  /** What `recordView` returns. */
  datatype ViewOutcome = ViewOutcome(isNewView: bool, viewCount: nat)

  class AnnouncementStore {
    var announcements: map<string, Announcement>
    var reactions: seq<Reaction>
    var views: seq<View>

    /** Every announcement is stored under its own id. */
    ghost predicate Valid()
      reads this
    {
      StoredById(announcements)
    }

    /** Each announcement's view counter equals the number of its view rows. */
    ghost predicate ViewCountsMatch()
      reads this
    {
      CountersMatch(announcements, views)
    }

    /** Each announcement has `pinnedAt` set exactly when it is pinned. */
    ghost predicate PinsConsistent()
      reads this
    {
      AllPinsConsistent(announcements)
    }

    /** A store holding the given announcements and no reactions or views. */
    constructor (initial: map<string, Announcement>)
      requires forall k :: k in initial ==> initial[k].id == k
      ensures Valid()
      ensures announcements == initial && reactions == [] && views == []
      ensures (forall k :: k in initial ==> initial[k].viewCount == 0) ==> ViewCountsMatch()
    {
      announcements := initial;
      reactions := [];
      views := [];
    }

    /** `findOne`. */
    function FindOne(id: string, userId: Option<int>): (r: Result<AnnouncementWithStats, Thrown>)
      requires Valid()
      reads this
      ensures r.Err? <==> id !in announcements
      ensures r.Err? ==> r.error == NotFound("Announcements not found")
      ensures r.Ok? ==> r.value.announcement == announcements[id]
                        && r.value.totalReactions == ItemReactionCount(reactions, id)
      ensures r.Ok? ==> r.value == MapToWithStats(reactions, announcements[id], userId)
    {
      if id !in announcements then Err(NotFound("Announcements not found"))
      else
        Ok(MapToWithStats(reactions, announcements[id], userId))
    }

    /** `addReaction`: fails without touching any table when the announcement is
        missing or does not accept reactions; otherwise upserts the identity's
        reaction and returns the saved row and the item's new counts. */
    method AddReaction(announcementId: string, reactionType: ReactionType, identity: ResolvedIdentity)
      returns (r: Result<ReactionOutcome, Thrown>)
      requires Valid()
      modifies this
      ensures Valid()
      ensures announcements == old(announcements) && views == old(views)
      ensures announcementId !in old(announcements) ==>
                r == Err(Forbidden("Announcement not found")) && reactions == old(reactions)
      ensures announcementId in old(announcements) && !old(announcements)[announcementId].enableReactions ==>
                r == Err(Conflict("Reactions are disabled for this announcement")) && reactions == old(reactions)
      ensures announcementId in old(announcements) && old(announcements)[announcementId].enableReactions ==>
                && reactions == UpsertReaction(old(reactions), announcementId, reactionType, identity)
                && r == Ok(ReactionOutcome(SavedReaction(old(reactions), announcementId, reactionType, identity),
                                           ReactionCounts(reactions, announcementId)))
    {
      if announcementId !in announcements {
        return Err(Forbidden("Announcement not found"));
      }
      var announcement := announcements[announcementId];
      if !announcement.enableReactions {
        return Err(Conflict("Reactions are disabled for this announcement"));
      }

      ghost var before := reactions;
      var existing := FindExisting(ReactionOwners(reactions), announcementId, identity);
      var reaction: Reaction;
      if existing.Some? {
        var i := existing.value;
        var owner := reactions[i].owner;
        if IsTruthyId(identity.userId) && !IsTruthyId(owner.userId) {
          owner := owner.(userId := identity.userId);
        }
        if IsTruthy(identity.visitorId) && !IsTruthy(owner.visitorId) {
          owner := owner.(visitorId := identity.visitorId);
        }
        reaction := Reaction(owner, reactionType);
        reactions := reactions[i := reaction];
      } else {
        reaction := Reaction(NewOwner(announcementId, identity), reactionType);
        reactions := reactions + [reaction];
      }
      assert reaction == SavedReaction(before, announcementId, reactionType, identity);
      assert reactions == UpsertReaction(before, announcementId, reactionType, identity);

      var counts := ReactionCounts(reactions, announcementId);
      r := Ok(ReactionOutcome(reaction, counts));
    }

    /** `removeReaction`: deletes the user's row for the item, if there is one,
        and returns the item's counts either way. */
    method RemoveReaction(announcementId: string, userId: int) returns (counts: seq<ReactionCount>)
      requires Valid()
      modifies this
      ensures Valid()
      ensures announcements == old(announcements) && views == old(views)
      ensures reactions == RemoveUserReaction(old(reactions), announcementId, userId)
      ensures counts == ReactionCounts(reactions, announcementId)
    {
      var found := FindUserReaction(reactions, announcementId, userId);
      if found.Some? {
        var i := found.value;
        reactions := reactions[..i] + reactions[i + 1..];
      }
      counts := ReactionCounts(reactions, announcementId);
    }

    /** `recordView`: fails when the announcement is missing; with views disabled
        reports the counter and records nothing; otherwise records at most one
        view per identity and raises the counter only for a new one. */
    method RecordView(announcementId: string, identity: ResolvedIdentity)
      returns (r: Result<ViewOutcome, Thrown>)
      requires Valid()
      modifies this
      ensures Valid()
      ensures reactions == old(reactions)
      ensures announcementId !in old(announcements) ==>
                && r == Err(Forbidden("Announcement not found"))
                && announcements == old(announcements) && views == old(views)
      ensures announcementId in old(announcements) && !old(announcements)[announcementId].enableViews ==>
                && r == Ok(ViewOutcome(false, old(announcements)[announcementId].viewCount))
                && announcements == old(announcements) && views == old(views)
      ensures announcementId in old(announcements) && old(announcements)[announcementId].enableViews ==>
                var a := old(announcements)[announcementId];
                var added := if IsNewView(old(views), announcementId, identity) then 1 else 0;
                && views == ViewsAfter(old(views), announcementId, identity)
                && announcements == old(announcements)[announcementId := a.(viewCount := a.viewCount + added)]
                && r == Ok(ViewOutcome(added == 1, a.viewCount + added))
      ensures old(ViewCountsMatch()) ==> ViewCountsMatch()
      ensures old(PinsConsistent()) ==> PinsConsistent()
    {
      ghost var before := views;
      if announcementId !in announcements {
        return Err(Forbidden("Announcement not found"));
      }
      var announcement := announcements[announcementId];
      if !announcement.enableViews {
        return Ok(ViewOutcome(false, announcement.viewCount));
      }

      if ViewCountsMatch() {
        RecordViewKeepsCounters(announcements, views, announcementId, identity);
      }
      ReplaceKeepsInvariants(announcements, views, announcementId,
                             announcement.(viewCount := announcement.viewCount + 1));
      StoreSame(announcements, announcementId);

      var existing := FindExisting(views, announcementId, identity);
      if existing.Some? {
        var i := existing.value;
        var owner := views[i];
        if IsTruthyId(identity.userId) && !IsTruthyId(owner.userId) {
          views := views[i := owner.(userId := identity.userId)];
        }
        r := Ok(ViewOutcome(false, announcement.viewCount));
      } else {
        views := views + [NewOwner(announcementId, identity)];
        announcements := announcements[announcementId := announcement.(viewCount := announcement.viewCount + 1)];
        r := Ok(ViewOutcome(true, announcement.viewCount + 1));
      }
      assert views == ViewsAfter(before, announcementId, identity);
    }

    /** `togglePin` at time `now`: flips the pin, sets `pinnedAt` exactly when
        pinned, and returns the announcement as `findOne` does. */
    method TogglePin(id: string, now: int) returns (r: Result<AnnouncementWithStats, Thrown>)
      requires Valid()
      modifies this
      ensures Valid()
      ensures reactions == old(reactions) && views == old(views)
      ensures id !in old(announcements) ==>
                r == Err(NotFound("Announcement not found")) && announcements == old(announcements)
      ensures id in old(announcements) ==>
                && announcements == old(announcements)[id := Toggled(old(announcements)[id], now)]
                && r == Ok(MapToWithStats(reactions, announcements[id], None))
      ensures old(ViewCountsMatch()) ==> ViewCountsMatch()
      ensures old(PinsConsistent()) ==> PinsConsistent()
    {
      if id !in announcements {
        return Err(NotFound("Announcement not found"));
      }
      var announcement := announcements[id];
      ghost var was := announcement;
      announcement := announcement.(isPinned := !announcement.isPinned);
      announcement := announcement.(pinnedAt := if announcement.isPinned then Some(now) else None);
      assert announcement == Toggled(was, now);
      ReplaceKeepsInvariants(announcements, views, id, announcement);
      announcements := announcements[id := announcement];
      r := FindOne(id, None);
    }

    /** `update` at time `now` (pin and expiry handling): recomputes `pinnedAt`
        only when the pin changes, assigns the supplied fields, keeps the expiry
        when none is supplied, and returns the announcement as `findOne` does.
        When the dto sets a NOT NULL column to `null`, the save fails with the
        database's message `refusal` and nothing is stored. */
    method Update(id: string, dto: UpdateDto, now: int, refusal: string)
      returns (r: Result<AnnouncementWithStats, Thrown>)
      requires Valid()
      modifies this
      ensures Valid()
      ensures reactions == old(reactions) && views == old(views)
      ensures id !in old(announcements) ==>
                r == Err(NotFound("Announcement not found")) && announcements == old(announcements)
      ensures id in old(announcements) && WritesNull(dto) ==>
                r == Err(PlainError(refusal)) && announcements == old(announcements)
      ensures id in old(announcements) && !WritesNull(dto) ==>
                && announcements == old(announcements)[id := ApplyUpdate(old(announcements)[id], dto, now)]
                && r == Ok(MapToWithStats(reactions, announcements[id], None))
      ensures old(ViewCountsMatch()) ==> ViewCountsMatch()
      ensures old(PinsConsistent()) ==> PinsConsistent()
    {
      if id !in announcements {
        return Err(NotFound("Announcement not found"));
      }
      if WritesNull(dto) {
        return Err(PlainError(refusal));
      }
      var announcement := announcements[id];
      ghost var was := announcement;
      UpdatePinAndExpiry(was, dto, now);
      if dto.isPinned.Some? && dto.isPinned.value != announcement.isPinned {
        announcement := announcement.(pinnedAt := if dto.isPinned.value then Some(now) else None);
      }
      announcement := announcement.(
        title := Assigned(dto.title, announcement.title),
        content := Assigned(dto.content, announcement.content),
        priority := Assigned(dto.priority, announcement.priority),
        enableViews := dto.enableViews.GetOr(announcement.enableViews),
        enableReactions := dto.enableReactions.GetOr(announcement.enableReactions),
        isActive := dto.isActive.GetOr(announcement.isActive),
        isPinned := dto.isPinned.GetOr(announcement.isPinned),
        expiresAt := if dto.expiresAt.Some? then dto.expiresAt else announcement.expiresAt);
      assert announcement == ApplyUpdate(was, dto, now);
      ReplaceKeepsInvariants(announcements, views, id, announcement);
      announcements := announcements[id := announcement];
      r := FindOne(id, None);
    }
  }
}
