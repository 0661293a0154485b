/** `RoutePointsModel`: the in-memory list of route points with the offer and destination
    catalogues. Every gateway call is given as its outcome (a resolved value or a rejection);
    the notifications sent to subscribers are kept as a log, and so are the gateway calls
    issued, so that "nothing was sent" can be stated. */
module PointsModel {
  import opened Domain
  import opened Sorting

  /** How an awaited gateway call settles. */
  datatype Reply<T> = Resolved(value: T) | Rejected

  datatype ModelError =
    | PointNotFound(message: string)   // thrown before any gateway call
    | GatewayRejected                  // the awaited gateway call rejected

  /** How a mutation ends: normally, or by throwing to the caller. */
  datatype Outcome = Completed | Thrown(error: ModelError)

  /** One `_notify(updateType, payload)`. */
  datatype Notification = Notification(updateType: UpdateType, payload: Option<Point>)

  /** One call on the gateway. */
  datatype Request =
    | FetchPoints | FetchOffers | FetchDestinations
    | AddRequest(point: Point) | UpdateRequest(point: Point) | DeleteRequest(point: Point)

  const UpdateMissingMessage := "Can't update unexisting Point"
  const DeleteMissingMessage := "Can't delete unexisting Point"

  /** `findIndex` by id: the first position holding the id, or -1. */
  function FindIndex(points: seq<Point>, id: string): (r: int)
    ensures -1 <= r < |points|
    ensures r == -1 <==> forall i :: 0 <= i < |points| ==> points[i].id != id
    ensures r >= 0 ==> points[r].id == id && forall i :: 0 <= i < r ==> points[i].id != id
  {
    if points == [] then -1
    else if points[0].id == id then 0
    else
      var r := FindIndex(points[1..], id);
      if r == -1 then -1 else r + 1
  }

  /** The list `addPoint` sorts: the new point in front of the old ones. */
  function Prepended(p: Point, points: seq<Point>): seq<Point>
  {
    [p] + points
  }

  /** The list `updatePoint` sorts: the point at `i` replaced. */
  function ReplacedAt(points: seq<Point>, i: nat, p: Point): seq<Point>
    requires i < |points|
  {
    points[..i] + [p] + points[i + 1..]
  }

  /** The list `deletePoint` sorts: the point at `i` left out. */
  function RemovedAt(points: seq<Point>, i: nat): seq<Point>
    requires i < |points|
  {
    points[..i] + points[i + 1..]
  }

  lemma SortKeepsLength(s: seq<Point>)
    ensures |StableSort(WireStart, s)| == |s|
    ensures multiset(StableSort(WireStart, s)) == multiset(s)
    ensures SortedBy(WireStart, StableSort(WireStart, s))
  {
    StableSortIsStable(WireStart, s);
    assert |multiset(StableSort(WireStart, s))| == |multiset(s)|;
  }

  /** After `addPoint`: one more point, the new one among them, the list in start order, and
      the new point ahead of every old point with the same start. */
  lemma AddedPointFacts(p: Point, points: seq<Point>)
    ensures var r := StableSort(WireStart, Prepended(p, points));
            && |r| == |points| + 1
            && multiset(r) == multiset(points) + multiset{p}
            && SortedBy(WireStart, r)
            && exists i :: 0 <= i < |r| && r[i] == p &&
                           forall j :: 0 <= j < i ==> r[j].wireDateFrom < p.wireDateFrom
  {
    SortKeepsLength(Prepended(p, points));
    PrependedComesFirst(WireStart, p, points);
  }

  /** After `updatePoint`: the same number of points, the one at the found index exchanged for
      the gateway's answer, and the list in start order. */
  lemma UpdatedPointFacts(points: seq<Point>, i: nat, p: Point)
    requires i < |points|
    ensures var r := StableSort(WireStart, ReplacedAt(points, i, p));
            && |r| == |points|
            && multiset(r) == multiset(points) - multiset{points[i]} + multiset{p}
            && p in r
            && SortedBy(WireStart, r)
  {
    var s := ReplacedAt(points, i, p);
    SortKeepsLength(s);
    assert points == points[..i] + [points[i]] + points[i + 1..];
    assert p in multiset(s);
  }

  /** After `deletePoint`: one point fewer, exactly the one at the found index gone, the list in
      start order; and when the list was already in start order the sort moves nothing. */
  lemma DeletedPointFacts(points: seq<Point>, i: nat)
    requires i < |points|
    ensures var r := StableSort(WireStart, RemovedAt(points, i));
            && |r| == |points| - 1
            && multiset(r) == multiset(points) - multiset{points[i]}
            && SortedBy(WireStart, r)
            && (SortedBy(WireStart, points) ==> r == RemovedAt(points, i))
  {
    var s := RemovedAt(points, i);
    SortKeepsLength(s);
    RemovedAtMultiset(points, i);
    if SortedBy(WireStart, points) {
      RemovedAtKeepsOrder(points, i);
      SortedIsFixpoint(WireStart, s);
    }
  }

  lemma RemovedAtMultiset(points: seq<Point>, i: nat)
    requires i < |points|
    ensures |RemovedAt(points, i)| == |points| - 1
    ensures multiset(RemovedAt(points, i)) == multiset(points) - multiset{points[i]}
  {
    assert points == points[..i] + [points[i]] + points[i + 1..];
  }

  /** Leaving one point out of a list in start order keeps it in start order. */
  lemma RemovedAtKeepsOrder(points: seq<Point>, i: nat)
    requires i < |points| && SortedBy(WireStart, points)
    ensures SortedBy(WireStart, RemovedAt(points, i))
  {
    var s := RemovedAt(points, i);
    forall a, b | 0 <= a < b < |s| ensures Key(WireStart, s[a]) <= Key(WireStart, s[b]) {
      var a', b' := if a < i then a else a + 1, if b < i then b else b + 1;
      assert s[a] == points[a'] && s[b] == points[b'];
    }
  }

  class RoutePointsModel {
    var points: seq<Point>
    var offers: seq<OfferGroup>
    var destinations: seq<Destination>
    /** Every `_notify` so far, oldest first. */
    var notifications: seq<Notification>
    /** Every gateway call issued so far, oldest first. */
    var requests: seq<Request>

    constructor ()
      ensures points == [] && offers == [] && destinations == []
      ensures notifications == [] && requests == []
    {
      points, offers, destinations := [], [], [];
      notifications, requests := [], [];
    }

    /** `#sortPointsByDate`: a stable in-place sort by `date_from`. */
    method SortPointsByDate()
      modifies this`points
      ensures points == StableSort(WireStart, old(points))
      ensures SortedBy(WireStart, points) && multiset(points) == multiset(old(points))
    {
      SortKeepsLength(points);
      points := StableSort(WireStart, points);
    }

    /** The `points` getter: sorts the stored list, then hands it out. */
    method Points() returns (r: seq<Point>)
      modifies this`points
      ensures points == StableSort(WireStart, old(points)) && r == points
      ensures SortedBy(WireStart, r) && multiset(r) == multiset(old(points))
    {
      SortPointsByDate();
      r := points;
    }

    /** `init`: the three fetches succeed together and replace all three collections, or one
        of them rejects and all three become empty. Exactly one notification either way. */
    method Init(pointsReply: Reply<seq<Point>>, offersReply: Reply<seq<OfferGroup>>,
                destinationsReply: Reply<seq<Destination>>)
      modifies this`points, this`offers, this`destinations, this`notifications, this`requests
      ensures requests == old(requests) + [FetchPoints, FetchOffers, FetchDestinations]
      ensures pointsReply.Resolved? && offersReply.Resolved? && destinationsReply.Resolved? ==>
                && points == pointsReply.value
                && offers == offersReply.value
                && destinations == destinationsReply.value
                && notifications == old(notifications) + [Notification(UpdateType.Init, None)]
      ensures !(pointsReply.Resolved? && offersReply.Resolved? && destinationsReply.Resolved?) ==>
                && points == [] && offers == [] && destinations == []
                && notifications == old(notifications) + [Notification(UpdateType.Error, None)]
    {
      requests := requests + [FetchPoints, FetchOffers, FetchDestinations];
      if pointsReply.Resolved? && offersReply.Resolved? && destinationsReply.Resolved? {
        points := pointsReply.value;
        offers := offersReply.value;
        destinations := destinationsReply.value;
        notifications := notifications + [Notification(UpdateType.Init, None)];
      } else {
        points := [];
        offers := [];
        destinations := [];
        notifications := notifications + [Notification(UpdateType.Error, None)];
      }
    }

    /** `addPoint`: the gateway's point goes in front, the list is re-sorted, one notification
        carries the caller's update type and the new point. A rejection propagates and
        changes nothing. */
    method AddPoint(updateType: UpdateType, update: Point, reply: Reply<Point>) returns (outcome: Outcome)
      modifies this`points, this`notifications, this`requests
      ensures requests == old(requests) + [AddRequest(update)]
      ensures reply.Rejected? ==>
                outcome == Thrown(GatewayRejected) && points == old(points) && notifications == old(notifications)
      ensures reply.Resolved? ==>
                && outcome == Completed
                && points == StableSort(WireStart, Prepended(reply.value, old(points)))
                && reply.value in points
                && notifications == old(notifications) + [Notification(updateType, Some(reply.value))]
    {
      requests := requests + [AddRequest(update)];
      if reply.Rejected? {
        return Thrown(GatewayRejected);
      }
      var newPoint := reply.value;
      points := [newPoint] + points;
      SortPointsByDate();
      assert newPoint in multiset(points);
      notifications := notifications + [Notification(updateType, Some(newPoint))];
      outcome := Completed;
    }

    /** `updatePoint`: a missing id throws before the gateway is called; otherwise the
        gateway's answer replaces the point at the found index, the list is re-sorted and one
        notification carries the caller's update type and that answer. */
    method UpdatePoint(updateType: UpdateType, update: Point, reply: Reply<Point>) returns (outcome: Outcome)
      modifies this`points, this`notifications, this`requests
      ensures var i := FindIndex(old(points), update.id);
              i == -1 ==> && outcome == Thrown(PointNotFound(UpdateMissingMessage))
                          && points == old(points) && notifications == old(notifications)
                          && requests == old(requests)
      ensures var i := FindIndex(old(points), update.id);
              i >= 0 && reply.Rejected? ==>
                          && outcome == Thrown(GatewayRejected)
                          && points == old(points) && notifications == old(notifications)
                          && requests == old(requests) + [UpdateRequest(update)]
      ensures var i := FindIndex(old(points), update.id);
              i >= 0 && reply.Resolved? ==>
                          && outcome == Completed
                          && points == StableSort(WireStart, ReplacedAt(old(points), i, reply.value))
                          && |points| == |old(points)|
                          && notifications == old(notifications) + [Notification(updateType, Some(reply.value))]
                          && requests == old(requests) + [UpdateRequest(update)]
    {
      var index := FindIndex(points, update.id);
      if index == -1 {
        return Thrown(PointNotFound(UpdateMissingMessage));
      }
      requests := requests + [UpdateRequest(update)];
      if reply.Rejected? {
        return Thrown(GatewayRejected);
      }
      var updatedEvent := reply.value;
      UpdatedPointFacts(points, index, updatedEvent);
      points := ReplacedAt(points, index, updatedEvent);
      SortPointsByDate();
      notifications := notifications + [Notification(updateType, Some(updatedEvent))];
      outcome := Completed;
    }

    /** `deletePoint`: a missing id throws before the gateway is called; otherwise, once the
        gateway confirms, the point at the found index is dropped, the list is re-sorted and one
        notification carries the caller's update type and the point the caller passed. */
    method DeletePoint(updateType: UpdateType, update: Point, reply: Reply<()>) returns (outcome: Outcome)
      modifies this`points, this`notifications, this`requests
      ensures var i := FindIndex(old(points), update.id);
              i == -1 ==> && outcome == Thrown(PointNotFound(DeleteMissingMessage))
                          && points == old(points) && notifications == old(notifications)
                          && requests == old(requests)
      ensures var i := FindIndex(old(points), update.id);
              i >= 0 && reply.Rejected? ==>
                          && outcome == Thrown(GatewayRejected)
                          && points == old(points) && notifications == old(notifications)
                          && requests == old(requests) + [DeleteRequest(update)]
      ensures var i := FindIndex(old(points), update.id);
              i >= 0 && reply.Resolved? ==>
                          && outcome == Completed
                          && points == StableSort(WireStart, RemovedAt(old(points), i))
                          && |points| == |old(points)| - 1
                          && notifications == old(notifications) + [Notification(updateType, Some(update))]
                          && requests == old(requests) + [DeleteRequest(update)]
    {
      var index := FindIndex(points, update.id);
      if index == -1 {
        return Thrown(PointNotFound(DeleteMissingMessage));
      }
      requests := requests + [DeleteRequest(update)];
      if reply.Rejected? {
        return Thrown(GatewayRejected);
      }
      DeletedPointFacts(points, index);
      points := RemovedAt(points, index);
      SortPointsByDate();
      notifications := notifications + [Notification(updateType, Some(update))];
      outcome := Completed;
    }
  }
}
