/** The community portal: every complaint in the store, arranged by votes or by
    recency, with a vote button per complaint and a "Trending" badge for the
    popular ones. */
module CommunityPortal {
  import opened Wrappers
  import opened Domain
  import opened Seqs
  import opened Sorting

  const MOST_VOTED := "Most Voted"
  const MOST_RECENT := "Most Recent"

  /** More votes than this earns the "Trending" badge. */
  const TRENDING_VOTES := 20

  // ---------------------------------------------------------------- sorting

  /** `sortComplaints(complaints, filter)`: a sorted copy for the two known
      filters, the list itself for any other value. */
  function SortComplaints(cs: seq<Complaint>, filter: string): (r: seq<Complaint>)
    ensures multiset(r) == multiset(cs)
    ensures filter == MOST_VOTED ==> NonIncreasing(r, Votes)
    ensures filter == MOST_RECENT ==> NonIncreasing(r, Recency)
    ensures filter != MOST_VOTED && filter != MOST_RECENT ==> r == cs
  {
    if filter == MOST_VOTED then
      SortDescPermutes(cs, Votes);
      SortDescSorted(cs, Votes);
      SortDesc(cs, Votes)
    else if filter == MOST_RECENT then
      SortDescPermutes(cs, Recency);
      SortDescSorted(cs, Recency);
      SortDesc(cs, Recency)
    else
      cs
  }

  function HasVotes(k: int): Complaint -> bool {
    (c: Complaint) => c.votes == k
  }

  /** Complaints with equal votes keep their store order under "Most Voted". */
  lemma MostVotedIsStable(cs: seq<Complaint>, k: int)
    ensures Filter(SortComplaints(cs, MOST_VOTED), HasVotes(k)) == Filter(cs, HasVotes(k))
  {
    SortDescStable(cs, Votes, k, HasVotes(k));
  }

  /** `c.votes > 20` */
  predicate IsTrending(c: Complaint) {
    c.votes > TRENDING_VOTES
  }

  /** Under "Most Voted" the trending complaints come first: any complaint
      listed before a trending one is trending too. */
  lemma TrendingComeFirst(cs: seq<Complaint>, i: int, j: int)
    requires 0 <= i < j < |cs|
    ensures IsTrending(SortComplaints(cs, MOST_VOTED)[j]) ==> IsTrending(SortComplaints(cs, MOST_VOTED)[i])
  {
    var r := SortComplaints(cs, MOST_VOTED);
    assert |r| == |multiset(r)| == |multiset(cs)| == |cs|;
    assert Votes(r[i]) >= Votes(r[j]);
  }

  /** `user && c.votedBy.includes(user.id)`: the vote button is disabled. */
  predicate VoteDisabled(user: Option<User>, c: Complaint) {
    user.Some? && user.value.id in c.votedBy
  }

  /** Nobody logged out sees a disabled button; a voter's id added to
      `votedBy` disables the button for that voter and no one else. */
  lemma VoteDisabledByOwnVote(user: Option<User>, c: Complaint, voter: UserId)
    ensures !VoteDisabled(None, c)
    ensures VoteDisabled(user, c.(votedBy := c.votedBy + [voter])) <==>
              VoteDisabled(user, c) || (user.Some? && user.value.id == voter)
  {
    if user.Some? {
      var added := c.votedBy + [voter];
      assert added[|c.votedBy|] == voter;
      assert user.value.id in added <==> user.value.id in c.votedBy || user.value.id == voter;
    }
  }

  // ----------------------------------------------------------------- voting

  /** What `voteComplaint` returns: nothing (a falsy value), or a result
      object whose `error` is the empty string when there is none. */
  datatype VoteReply = NoReply | Reply(error: string)

  /** What the user sees after pressing a vote button. `Crashed` is the
      `TypeError` of reading `error` on a missing result. */
  datatype VoteOutcome = PleaseLogin | Counted | Refused(message: string) | Crashed

  /** What `handleVote` tells the user, given who is logged in and what
      `voteComplaint` returned. */
  function VoteOutcomeOf(user: Option<User>, reply: VoteReply): (o: VoteOutcome)
    ensures o == PleaseLogin <==> user.None?
    ensures o == Counted <==> user.Some? && reply == Reply("")
    ensures o == Crashed <==> user.Some? && reply.NoReply?
    ensures o.Refused? <==> user.Some? && reply.Reply? && reply.error != ""
    ensures o.Refused? ==> reply == Reply(o.message)
  {
    if user.None? then PleaseLogin
    else match reply
      case NoReply => Crashed
      case Reply(error) => if error == "" then Counted else Refused(error)
  }

  /** The store calls `handleVote` makes: none without a user, otherwise the
      vote in the user's name, then a reload when the vote was counted. */
  function VoteCalls(user: Option<User>, id: ComplaintId, reply: VoteReply): (calls: seq<StoreCall>)
    ensures user.None? ==> calls == []
    ensures user.Some? ==> |calls| >= 1 && calls[0] == VoteComplaint(id, user.value.id)
    ensures GetComplaints in calls <==> VoteOutcomeOf(user, reply) == Counted
    ensures forall i :: 0 <= i < |calls| && calls[i].VoteComplaint? ==> user.Some? && calls[i].voter == user.value.id
  {
    if user.None? then []
    else [VoteComplaint(id, user.value.id)] + (if VoteOutcomeOf(user, reply) == Counted then [GetComplaints] else [])
  }

  /** Every vote in the log is cast in the name of `user`. */
  ghost predicate VotesBy(log: seq<StoreCall>, user: Option<User>) {
    forall i :: 0 <= i < |log| && log[i].VoteComplaint? ==> user.Some? && log[i].voter == user.value.id
  }

  /** Voting keeps every logged vote in the logged-in user's name, and a
      logged-out visitor casts none. */
  lemma VotesStayWithUser(log: seq<StoreCall>, user: Option<User>, id: ComplaintId, reply: VoteReply)
    requires VotesBy(log, user)
    ensures VotesBy(log + VoteCalls(user, id, reply), user)
    ensures user.None? ==> log + VoteCalls(user, id, reply) == log
  {
    var calls := VoteCalls(user, id, reply);
    forall i | 0 <= i < |log + calls| && (log + calls)[i].VoteComplaint?
      ensures user.Some? && (log + calls)[i].voter == user.value.id
    {
      if i >= |log| {
        assert (log + calls)[i] == calls[i - |log|];
      }
    }
  }

  /** The page state: the displayed list, the chosen arrangement, the
      logged-in user and the store calls made. `fetched` is the list the
      store last returned. */
  class Portal {
    var complaints: seq<Complaint>
    var filter: string
    const user: Option<User>
    var log: seq<StoreCall>
    ghost var fetched: seq<Complaint>

    /** The list shown is always the last fetch in the current arrangement,
        and every vote is cast in the logged-in user's name. */
    ghost predicate Valid()
      reads this
    {
      complaints == SortComplaints(fetched, filter) && VotesBy(log, user)
    }

    /** The mount effect: fetch and sort by votes. */
    constructor Mount(user: Option<User>, all: seq<Complaint>)
      ensures Valid()
      ensures this.user == user && filter == MOST_VOTED && fetched == all
      ensures complaints == SortComplaints(all, MOST_VOTED) && log == [GetComplaints]
    {
      this.user := user;
      filter := MOST_VOTED;
      complaints := SortComplaints(all, MOST_VOTED);
      log := [GetComplaints];
      fetched := all;
    }

    /** `setFilter(f)`; when the value changes, the effect fetches `all` and
        arranges it. Setting the same value changes nothing. */
    method ChangeFilter(f: string, all: seq<Complaint>)
      requires Valid()
      modifies this
      ensures Valid()
      ensures filter == f
      ensures f == old(filter) ==> complaints == old(complaints) && log == old(log)
      ensures f != old(filter) ==> complaints == SortComplaints(all, f) && log == old(log) + [GetComplaints]
    {
      if f != filter {
        filter := f;
        log := log + [GetComplaints];
        complaints := SortComplaints(all, f);
        fetched := all;
      }
    }

    /** `handleVote(id)`. `reply` is what `voteComplaint` returns and `all`
        what `getComplaints` returns after a counted vote. */
    method HandleVote(id: ComplaintId, reply: VoteReply, all: seq<Complaint>) returns (outcome: VoteOutcome)
      requires Valid()
      modifies this`complaints, this`log, this`fetched
      ensures Valid()
      ensures outcome == VoteOutcomeOf(user, reply)
      ensures log == old(log) + VoteCalls(user, id, reply)
      ensures complaints == if outcome == Counted then SortComplaints(all, filter) else old(complaints)
    {
      VotesStayWithUser(log, user, id, reply);
      if user.None? {
        assert log == log + VoteCalls(user, id, reply);
        return PleaseLogin;
      }
      log := log + [VoteComplaint(id, user.value.id)];
      if reply.Reply? && reply.error == "" {
        log := log + [GetComplaints];
        complaints := SortComplaints(all, filter);
        fetched := all;
        outcome := Counted;
      } else if reply.NoReply? {
        outcome := Crashed;
      } else {
        outcome := Refused(reply.error);
      }
    }
  }
}
