/** The citizen's dashboard: the logged-in user's own complaints and three
    figures about them. */
module CitizenDashboard {
  import opened Domain
  import opened Seqs

  function OwnedBy(userId: UserId): Complaint -> bool {
    (c: Complaint) => c.userId == userId
  }

  /** `complaints.filter(c => c.userId === user.id)` */
  function OwnComplaints(all: seq<Complaint>, userId: UserId): (own: seq<Complaint>)
    ensures |own| <= |all|
    ensures forall i :: 0 <= i < |own| ==> own[i].userId == userId
  {
    Filter(all, OwnedBy(userId))
  }

  /** The user's complaints are exactly the store's complaints they own. */
  lemma OwnComplaintsExactly(all: seq<Complaint>, userId: UserId, c: Complaint)
    ensures c in OwnComplaints(all, userId) <==> c in all && c.userId == userId
  {
    FilterMembers(all, OwnedBy(userId), c);
  }

  /** The three figures: total complaints, resolved ones, reward points. */
  datatype CitizenStats = CitizenStats(total: nat, resolved: nat, rewardPoints: int)

  function OwnedAndResolved(userId: UserId): Complaint -> bool {
    (c: Complaint) => c.userId == userId && c.status == RESOLVED
  }

  function Stats(all: seq<Complaint>, user: User): (r: CitizenStats)
    ensures r.resolved <= r.total <= |all|
    ensures r.total == Count(all, OwnedBy(user.id))
    ensures r.resolved == Count(all, OwnedAndResolved(user.id))
    ensures r.resolved == r.total <==>
              forall i :: 0 <= i < |all| && all[i].userId == user.id ==> all[i].status == RESOLVED
    ensures r.rewardPoints == if user.rewardPoints.Some? then user.rewardPoints.value else 0
  {
    var own := OwnComplaints(all, user.id);
    forall c ensures OwnedAndResolved(user.id)(c) <==> OwnedBy(user.id)(c) && StatusIs(RESOLVED)(c) {}
    FilterFilter(all, OwnedBy(user.id), StatusIs(RESOLVED), OwnedAndResolved(user.id));
    forall i | 0 <= i < |all| && all[i].userId == user.id && (forall k :: 0 <= k < |own| ==> own[k].status == RESOLVED)
      ensures all[i].status == RESOLVED
    {
      FilterMembers(all, OwnedBy(user.id), all[i]);
      var k :| 0 <= k < |own| && own[k] == all[i];
    }
    forall k | 0 <= k < |own| && (forall i :: 0 <= i < |all| && all[i].userId == user.id ==> all[i].status == RESOLVED)
      ensures own[k].status == RESOLVED
    {
      FilterMembers(all, OwnedBy(user.id), own[k]);
    }
    CitizenStats(|own|, Count(own, StatusIs(RESOLVED)), Points(user))
  }

  /** A complaint owned by someone else changes none of the three figures,
      wherever it sits in the store. */
  lemma OthersComplaintsIgnored(before: seq<Complaint>, c: Complaint, after: seq<Complaint>, user: User)
    requires c.userId != user.id
    ensures Stats(before + [c] + after, user) == Stats(before + after, user)
  {
    FilterAppend(before + [c], after, OwnedBy(user.id));
    FilterAppend(before, [c], OwnedBy(user.id));
    FilterAppend(before, after, OwnedBy(user.id));
    assert Filter([c], OwnedBy(user.id)) == [];
    assert OwnComplaints(before + [c] + after, user.id) == OwnComplaints(before + after, user.id);
  }

  /** The figures depend only on the user's own complaints. */
  lemma StatsFromOwnOnly(all: seq<Complaint>, user: User)
    ensures Stats(OwnComplaints(all, user.id), user) == Stats(all, user)
  {
    var own := OwnComplaints(all, user.id);
    FilterFull(own, OwnedBy(user.id));
  }
}
