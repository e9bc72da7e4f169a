/**
 * The pure part of the announcement handlers: the shape of a new notice,
 * the shallow merge an update performs, and the public listing.
 */
module Announcements {
  import opened Records
  import opened Listing

  /** A new announcement is active and has never been updated. */
  function NewAnnouncement(id: string, title: string, body: string, expiryDate: int, author: string, now: int): (a: Announcement)
    ensures a.active && a.updatedAt.None? && a.createdAt == now && a.createdBy == author
  {
    Announcement(id, title, body, expiryDate, true, now, author, None)
  }

  /** The field of an update if it carries one, otherwise the stored field. */
  function Pick<T>(update: Option<T>, stored: T): T {
    if update.Some? then update.value else stored
  }

  /**
   * A shallow merge: every field the update carries replaces the stored one,
   * including the id and the creation fields, and `updatedAt` becomes now.
   */
  function Merge(a: Announcement, u: AnnouncementPatch, now: int): (r: Announcement)
    ensures r.updatedAt == Some(now)
  {
    Announcement(Pick(u.id, a.id), Pick(u.title, a.title), Pick(u.body, a.body),
                 Pick(u.expiryDate, a.expiryDate), Pick(u.active, a.active),
                 Pick(u.createdAt, a.createdAt), Pick(u.createdBy, a.createdBy), Some(now))
  }

  const NoChanges := AnnouncementPatch(None, None, None, None, None, None, None)

  /** An update carrying no fields only stamps `updatedAt`. */
  lemma MergeNothing(a: Announcement, now: int)
    ensures Merge(a, NoChanges, now) == a.(updatedAt := Some(now))
  {
  }

  /** A field the update carries wins; a field it omits keeps its stored value. */
  lemma MergeFields(a: Announcement, u: AnnouncementPatch, now: int)
    ensures Merge(a, u, now).title == (if u.title.Some? then u.title.value else a.title)
    ensures Merge(a, u, now).body == (if u.body.Some? then u.body.value else a.body)
    ensures Merge(a, u, now).expiryDate == (if u.expiryDate.Some? then u.expiryDate.value else a.expiryDate)
    ensures Merge(a, u, now).active == (if u.active.Some? then u.active.value else a.active)
    ensures Merge(a, u, now).id == (if u.id.Some? then u.id.value else a.id)
    ensures Merge(a, u, now).createdAt == (if u.createdAt.Some? then u.createdAt.value else a.createdAt)
    ensures Merge(a, u, now).createdBy == (if u.createdBy.Some? then u.createdBy.value else a.createdBy)
  {
  }

  /** Applying the same update twice at the same time is applying it once. */
  lemma MergeIdempotent(a: Announcement, u: AnnouncementPatch, now: int)
    ensures Merge(Merge(a, u, now), u, now) == Merge(a, u, now)
  {
  }

  /** The public filter: active and expiring strictly after `now`. */
  predicate IsVisible(a: Announcement, now: int) {
    a.active && a.expiryDate > now
  }

  function VisibleAt(now: int): Announcement -> bool {
    a => IsVisible(a, now)
  }

  /** Each notice occurs in the sorted visible ones as often as it is stored, if it is visible. */
  lemma VisibleSortedMultiset(anns: seq<Announcement>, now: int, a: Announcement)
    ensures multiset(SortDesc(Filter(anns, VisibleAt(now)), AnnouncementCreatedAt))[a]
         == if IsVisible(a, now) then multiset(anns)[a] else 0
  {
    FilterMultiset(anns, VisibleAt(now), a);
  }

  /** A notice is among the sorted visible ones exactly when it is stored and visible. */
  lemma VisibleSortedMembers(anns: seq<Announcement>, now: int, a: Announcement)
    ensures a in SortDesc(Filter(anns, VisibleAt(now)), AnnouncementCreatedAt) <==> a in anns && IsVisible(a, now)
  {
    SortDescSameElements(Filter(anns, VisibleAt(now)), AnnouncementCreatedAt, a);
  }

  /** The sorted visible notices have every property the public listing promises. */
  lemma VisibleSorted(anns: seq<Announcement>, now: int)
    ensures var r := SortDesc(Filter(anns, VisibleAt(now)), AnnouncementCreatedAt);
      && (forall a :: a in r <==> a in anns && IsVisible(a, now))
      && (forall a :: multiset(r)[a] == if IsVisible(a, now) then multiset(anns)[a] else 0)
      && (forall i, j :: 0 <= i < j < |r| ==> r[i].createdAt >= r[j].createdAt)
      && |r| == |Filter(anns, VisibleAt(now))|
  {
    var r := SortDesc(Filter(anns, VisibleAt(now)), AnnouncementCreatedAt);
    forall a ensures multiset(r)[a] == if IsVisible(a, now) then multiset(anns)[a] else 0 {
      VisibleSortedMultiset(anns, now, a);
    }
    forall a ensures a in r <==> a in anns && IsVisible(a, now) {
      VisibleSortedMembers(anns, now, a);
    }
    assert forall i, j :: 0 <= i < j < |r| ==> AnnouncementCreatedAt(r[i]) >= AnnouncementCreatedAt(r[j]);
  }

  /**
   * The public listing: exactly the visible announcements, each as often as
   * it is stored, newest first.
   */
  function PublicList(anns: seq<Announcement>, now: int): (r: seq<Announcement>)
    ensures forall a :: a in r ==> a in anns && a.active && a.expiryDate > now
    ensures forall a :: a in anns && a.active && a.expiryDate > now ==> a in r
    ensures forall a :: multiset(r)[a] == if IsVisible(a, now) then multiset(anns)[a] else 0
    ensures forall i, j :: 0 <= i < j < |r| ==> r[i].createdAt >= r[j].createdAt
    ensures |r| == |Filter(anns, VisibleAt(now))|
  {
    VisibleSorted(anns, now);
    SortDesc(Filter(anns, VisibleAt(now)), AnnouncementCreatedAt)
  }
}
