/**
 * The event list on the client (src/components/EventGridClient.tsx): the status each event shows,
 * computed on every render from the stored status or from its times against the clock, and the
 * list the grid shows for the chosen status filter and sort. The clock is the parameter `now`.
 */
module EventGridClient {
  import opened Wrappers
  import opened Seqs

  /** The fields of an event the grid reads; times are milliseconds. */
  datatype EventItem = EventItem(id: string, title: string, status: Option<string>, startAt: int, endAt: int)

  datatype Status = Upcoming | Running | Ended

  function StatusName(s: Status): string {
    match s
    case Upcoming => "upcoming"
    case Running => "running"
    case Ended => "ended"
  }

  /** A stored status the grid takes as it is. */
  predicate IsExplicit(status: Option<string>) {
    status == Some("upcoming") || status == Some("running") || status == Some("ended")
  }

  /**
   * `computeStatus`: a stored `upcoming`, `running` or `ended` wins; otherwise an event whose end
   * has passed has ended, one whose interval holds `now` is running, and any other is upcoming.
   */
  function ComputeStatus(item: EventItem, now: int): (s: Status)
    ensures IsExplicit(item.status) ==> item.status == Some(StatusName(s))
    ensures !IsExplicit(item.status) ==> (s == Ended <==> item.endAt < now)
    ensures !IsExplicit(item.status) ==> (s == Running <==> item.startAt <= now <= item.endAt)
    ensures !IsExplicit(item.status) ==> (s == Upcoming <==> now < item.startAt && now <= item.endAt)
  {
    if item.status == Some("running") then Running
    else if item.status == Some("ended") then Ended
    else if item.status == Some("upcoming") then Upcoming
    else if item.endAt < now then Ended
    else if item.startAt <= now && item.endAt >= now then Running
    else Upcoming
  }

  function Rank(s: Status): nat {
    match s
    case Upcoming => 0
    case Running => 1
    case Ended => 2
  }

  /**
   * A computed status only moves forward as time passes (upcoming, then running, then ended),
   * whatever the times are; a stored one never moves.
   */
  lemma StatusMovesForward(item: EventItem, t1: int, t2: int)
    requires t1 <= t2
    ensures Rank(ComputeStatus(item, t1)) <= Rank(ComputeStatus(item, t2))
    ensures IsExplicit(item.status) ==> ComputeStatus(item, t1) == ComputeStatus(item, t2)
  {
  }

  /** The status filter buttons: everything, or one status. */
  datatype StatusFilter = All | Only(status: Status)

  /** The sort select: `upcoming` (earliest start first) or `recent` (latest start first). */
  datatype EventSort = SoonestFirst | RecentFirst

  function StartAt(e: EventItem): int {
    e.startAt
  }

  /** Whether an event passes the filter at time `now`. */
  function Shown(f: StatusFilter, now: int): EventItem -> bool {
    e => f.All? || ComputeStatus(e, now) == f.status
  }

  /** The grid's state: the events it was given, the active status filter and the sort. */
  class EventGrid {
    const events: seq<EventItem>
    var activeStatus: StatusFilter
    var sort: EventSort

    /** The grid starts with every status shown, soonest first. */
    constructor (events: seq<EventItem>)
      ensures this.events == events && activeStatus == All && sort == SoonestFirst
    {
      this.events := events;
      activeStatus := All;
      sort := SoonestFirst;
    }

    /** A status button: the filter changes, the sort does not. */
    method SetActiveStatus(f: StatusFilter)
      modifies this
      ensures activeStatus == f && sort == old(sort)
    {
      activeStatus := f;
    }

    /** The sort select: the sort changes, the filter does not. */
    method SetSort(s: EventSort)
      modifies this
      ensures sort == s && activeStatus == old(activeStatus)
    {
      sort := s;
    }

    /**
     * `filtered`: the events that pass the active filter at `now`, every one of them, reordered
     * by start time in the chosen direction. The given list is left as it is.
     */
    method Filtered(now: int) returns (list: seq<EventItem>)
      ensures multiset(list) == multiset(Filter(events, Shown(activeStatus, now)))
      ensures forall e :: e in list <==>
        e in events && (activeStatus.All? || ComputeStatus(e, now) == activeStatus.status)
      ensures activeStatus.All? ==> multiset(list) == multiset(events)
      ensures SortedBy(list, StartAt, sort == RecentFirst)
    {
      var shown := Shown(activeStatus, now);
      list := events;
      if activeStatus != All {
        list := Filter(events, shown);
      } else {
        FilterAll(events, shown);
      }
      if sort == SoonestFirst {
        list := SortBy(list, StartAt, false);
      } else {
        list := SortBy(list, StartAt, true);
      }
      forall e ensures e in list <==> e in events && shown(e) {
        FilterMembership(events, shown, e);
        assert e in list <==> multiset(list)[e] > 0;
        assert e in Filter(events, shown) <==> multiset(Filter(events, shown))[e] > 0;
      }
    }
  }
}
