/** The records the pages read from the store, and the calls they make on it.
    The store itself (`getComplaints`, `getUsers`, `updateComplaint`,
    `updateUserPoints`, `voteComplaint`) is not part of this model: what it
    returns is an input to the page models, and what the pages ask of it is
    recorded as a `StoreCall`. */
module Domain {
  import opened Wrappers

  type ComplaintId = string
  type UserId = string

  /** A complaint's `createdAt` as the pages see it. `Missing` is a falsy
      value (absent, `null`, empty); `Unparseable` is present but
      `new Date(createdAt)` is an invalid date; `At(ms)` is a valid date, in
      milliseconds since the Unix epoch. */
  datatype Timestamp = Missing | Unparseable | At(ms: int)

  datatype Complaint = Complaint(
    id: ComplaintId,
    userId: UserId,
    title: string,
    description: string,
    category: string,
    status: string,
    assignedDepartment: Option<string>,
    votes: int,
    votedBy: seq<UserId>,
    createdAt: Timestamp)

  datatype User = User(id: UserId, name: string, rewardPoints: Option<int>)

  const OPEN := "open"
  const ASSIGNED := "assigned"
  const RESOLVED := "resolved"

  /** The department names offered by the admin pages, in display order. */
  const DEPARTMENTS: seq<string> := ["Roads", "Water", "Waste", "Electricity", "Parks", "Traffic", "Other"]

  /** Points awarded to a complaint's owner when an administrator resolves it. */
  const RESOLUTION_AWARD := 10

  /** `user.rewardPoints || 0` */
  function Points(u: User): (p: int)
    ensures u.rewardPoints.None? ==> p == 0
    ensures u.rewardPoints.Some? ==> p == u.rewardPoints.value
  {
    u.rewardPoints.GetOr(0)
  }

  /** The sort key of `new Date(c.createdAt)`. An invalid date makes the
      JavaScript comparator return NaN; the model ranks it as the epoch. */
  function Recency(c: Complaint): int {
    if c.createdAt.At? then c.createdAt.ms else 0
  }

  function Votes(c: Complaint): int {
    c.votes
  }

  /** `c => c.status === status` */
  function StatusIs(status: string): Complaint -> bool {
    (c: Complaint) => c.status == status
  }

  /** `c => c.category === category` */
  function CategoryIs(category: string): Complaint -> bool {
    (c: Complaint) => c.category == category
  }

  /** The fields a page asks `updateComplaint` to merge into a complaint. */
  datatype Patch = Patch(status: Option<string>, assignedDepartment: Option<string>)

  /** One call a page makes on the store. */
  datatype StoreCall =
    | GetComplaints
    | GetUsers
    | UpdateComplaint(complaintId: ComplaintId, patch: Patch)
    | UpdateUserPoints(userId: UserId, delta: int)
    | VoteComplaint(complaintId: ComplaintId, voter: UserId)
}
