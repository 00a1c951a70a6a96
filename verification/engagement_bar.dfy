/**
 * The view and like counters on a detail page (src/components/EngagementBar.tsx). A like is
 * optimistic: the counter goes up at once, then takes the server's count, keeps the optimistic
 * one, or is rolled back when the request throws. The click and the settling of the request are
 * two steps, so that a click while a like is in flight can be expressed; the outcome of the
 * request is a parameter.
 */
module EngagementBar {
  import opened Wrappers
  import opened Json

  /** How the like request ended. */
  datatype LikeOutcome =
    /** A body was read; it may be a success envelope or anything else. */
    | Answered(body: Json)
    /** `fetch` or `res.json()` threw. */
    | Threw

  /** `data?.data?.likes`, when the body has it as a whole number. */
  function ServerLikes(body: Json): (r: Option<int>)
    ensures r.Some? ==> GetOpt(body.Get("data"), "likes") == Some(JNum(r.value as real))
    ensures forall k: int :: GetOpt(body.Get("data"), "likes") == Some(JNum(k as real)) ==> r == Some(k)
  {
    var likes := GetOpt(body.Get("data"), "likes");
    if likes.Some? && likes.value.JNum? && likes.value.n.Floor as real == likes.value.n then
      Some(likes.value.n.Floor)
    else
      None
  }

  /** The counter once the request settles, starting from the optimistic count. */
  function Settled(optimistic: int, outcome: LikeOutcome): (r: int)
    ensures outcome.Answered? && ServerLikes(outcome.body).Some? ==> r == ServerLikes(outcome.body).value
    ensures outcome.Answered? && ServerLikes(outcome.body).None? ==> r == optimistic
    ensures outcome.Threw? ==> r >= 0 && r >= optimistic - 1 && (optimistic >= 1 ==> r == optimistic - 1)
  {
    match outcome
    case Answered(body) => ServerLikes(body).GetOr(optimistic)
    case Threw => if optimistic - 1 > 0 then optimistic - 1 else 0
  }

  /** A failed like takes back exactly the like it added, from any non-negative count. */
  lemma RollbackRestores(likes: int)
    requires likes >= 0
    ensures Settled(likes + 1, Threw) == likes
  {
  }

  class EngagementBar {
    const views: int
    var likes: int
    var liking: bool

    constructor (initialViews: int, initialLikes: int)
      ensures views == initialViews && likes == initialLikes && !liking
    {
      views := initialViews;
      likes := initialLikes;
      liking := false;
    }

    /**
     * The click of `handleLike`: ignored while a like is in flight; otherwise the bar is marked
     * busy, the count goes up by one and the request goes out.
     */
    method HandleLike() returns (sent: bool)
      modifies this
      ensures sent <==> !old(liking)
      ensures !sent ==> likes == old(likes) && liking
      ensures sent ==> likes == old(likes) + 1 && liking
    {
      if liking {
        return false;
      }
      liking := true;
      likes := likes + 1;
      sent := true;
    }

    /** The request of the click in flight settles: the count is settled and the bar is free again. */
    method Settle(outcome: LikeOutcome)
      requires liking
      modifies this
      ensures likes == Settled(old(likes), outcome) && !liking
    {
      match outcome {
        case Answered(body) =>
          var server := ServerLikes(body);
          if server.Some? {
            likes := server.value;
          }
        case Threw =>
          likes := if likes - 1 > 0 then likes - 1 else 0;
      }
      liking := false;
    }
  }

  /** A full like that throws leaves a non-negative count where it was and the bar free. */
  method LikeThatThrows(bar: EngagementBar)
    requires !bar.liking && bar.likes >= 0
    modifies bar
    ensures bar.likes == old(bar.likes) && !bar.liking
  {
    var sent := bar.HandleLike();
    bar.Settle(Threw);
    RollbackRestores(old(bar.likes));
  }
}
