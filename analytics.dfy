/** The administrator's analytics page: it loads and sanitises the complaints,
    keeps the five users with the most points, and derives from the complaints
    of the selected department the status counts, a daily trend and the count
    per department. */
module AdminAnalytics {
  import opened Wrappers
  import opened Domain
  import opened Seqs
  import opened Sorting

  const ALL := "all"
  const TOP_USERS := 5
  const MS_PER_DAY := 86400000

  // ---------------------------------------------------------------- loading

  /** `c && c.category && c.status && c.createdAt`: the record exists and the
      three fields are truthy. */
  predicate Usable(c: Complaint) {
    c.category != "" && c.status != "" && !c.createdAt.Missing?
  }

  function Sanitize(loaded: seq<Option<Complaint>>): (r: seq<Complaint>)
    ensures |r| <= |loaded|
    ensures forall i :: 0 <= i < |r| ==> Usable(r[i])
  {
    if loaded == [] then []
    else
      (if loaded[0].Some? && Usable(loaded[0].value) then [loaded[0].value] else [])
      + Sanitize(loaded[1..])
  }

  /** Sanitising keeps exactly the usable records. */
  lemma {:induction false} SanitizeKeeps(loaded: seq<Option<Complaint>>, c: Complaint)
    ensures c in Sanitize(loaded) <==> Some(c) in loaded && Usable(c)
  {
    if loaded != [] {
      SanitizeKeeps(loaded[1..], c);
      assert loaded == [loaded[0]] + loaded[1..];
    }
  }

  /** Sanitising keeps the records in their original order. */
  lemma {:induction false} SanitizeAppend(a: seq<Option<Complaint>>, b: seq<Option<Complaint>>)
    ensures Sanitize(a + b) == Sanitize(a) + Sanitize(b)
  {
    if a == [] {
      assert a + b == b;
    } else {
      assert (a + b)[1..] == a[1..] + b;
      SanitizeAppend(a[1..], b);
    }
  }

  /** `loadedUsers.sort(byPointsDesc).slice(0, 5)` as a function of the
      loaded users. */
  function TopUsers(loaded: seq<User>): seq<User> {
    var ranked := SortDesc(loaded, Points);
    ranked[..if |ranked| < TOP_USERS then |ranked| else TOP_USERS]
  }

  /** The top list holds at most five users, all loaded, best first; every
      loaded user left out has no more points than the last one shown. */
  lemma TopUsersAreBest(loaded: seq<User>)
    ensures |TopUsers(loaded)| == if |loaded| < TOP_USERS then |loaded| else TOP_USERS
    ensures forall u :: u in TopUsers(loaded) ==> u in loaded
    ensures NonIncreasing(TopUsers(loaded), Points)
    ensures forall u :: u in loaded && u !in TopUsers(loaded) ==>
              |TopUsers(loaded)| == TOP_USERS && Points(u) <= Points(TopUsers(loaded)[TOP_USERS - 1])
  {
    var ranked := SortDesc(loaded, Points);
    var top := TopUsers(loaded);
    SortDescSorted(loaded, Points);
    forall u | u in top ensures u in loaded {
      SortDescMembers(loaded, Points, u);
    }
    forall u | u in loaded && u !in top
      ensures |top| == TOP_USERS && Points(u) <= Points(top[TOP_USERS - 1])
    {
      SortDescMembers(loaded, Points, u);
      var k :| 0 <= k < |ranked| && ranked[k] == u;
      assert k >= TOP_USERS;
    }
  }

  /** The page state after its mount effect. */
  class Page {
    var complaints: seq<Complaint>
    var users: seq<User>
    var departmentFilter: string
    var log: seq<StoreCall>

    /** `getComplaints() || []` and `getUsers() || []` arrive as
        `loadedComplaints` (`None` when falsy) and `loadedUsers` (`null` when
        falsy). The users array is sorted in place: the caller's array is
        reordered. */
    constructor Mount(loadedComplaints: Option<seq<Option<Complaint>>>, loadedUsers: array?<User>)
      modifies loadedUsers
      ensures complaints == Sanitize(loadedComplaints.GetOr([]))
      ensures loadedUsers != null ==> loadedUsers[..] == SortDesc(old(loadedUsers[..]), Points)
      ensures users == if loadedUsers == null then [] else TopUsers(old(loadedUsers[..]))
      ensures departmentFilter == ALL
      ensures log == [GetComplaints, GetUsers]
    {
      log := [GetComplaints, GetUsers];
      complaints := Sanitize(loadedComplaints.GetOr([]));
      departmentFilter := ALL;
      if loadedUsers == null {
        users := [];
      } else {
        SortByKeyDesc(loadedUsers, Points);
        var n := if loadedUsers.Length < TOP_USERS then loadedUsers.Length else TOP_USERS;
        users := loadedUsers[..n];
      }
    }

    method SetDepartmentFilter(department: string)
      modifies this`departmentFilter
      ensures departmentFilter == department
    {
      departmentFilter := department;
    }
  }

  // ------------------------------------------------------ derived values

  /** The complaints of the selected department, or all of them for `"all"`. */
  function FilteredComplaints(cs: seq<Complaint>, departmentFilter: string): seq<Complaint> {
    if departmentFilter == ALL then cs else Filter(cs, CategoryIs(departmentFilter))
  }

  /** `'all'` keeps the list as it is; a department keeps exactly its
      complaints, in order. */
  lemma FilteredComplaintsSelects(cs: seq<Complaint>, departmentFilter: string, c: Complaint)
    ensures departmentFilter == ALL ==> FilteredComplaints(cs, departmentFilter) == cs
    ensures departmentFilter != ALL ==>
              (c in FilteredComplaints(cs, departmentFilter) <==> c in cs && c.category == departmentFilter)
    ensures forall i :: 0 <= i < |FilteredComplaints(cs, departmentFilter)| ==>
              departmentFilter == ALL || FilteredComplaints(cs, departmentFilter)[i].category == departmentFilter
  {
    FilterMembers(cs, CategoryIs(departmentFilter), c);
  }

  datatype StatusCounts = StatusCounts(numOpen: nat, numAssigned: nat, numResolved: nat)

  predicate KnownStatus(c: Complaint) {
    c.status == OPEN || c.status == ASSIGNED || c.status == RESOLVED
  }

  /** The three status counts. A complaint with any other status is in none
      of them and no complaint is in two, so the counts add up to the number
      of complaints exactly when every status is one of the three. */
  function CountStatuses(cs: seq<Complaint>): (r: StatusCounts)
    ensures r.numOpen + r.numAssigned + r.numResolved <= |cs|
    ensures r.numOpen + r.numAssigned + r.numResolved == |cs| <==> forall i :: 0 <= i < |cs| ==> KnownStatus(cs[i])
  {
    var openOrAssigned := (c: Complaint) => c.status == OPEN || c.status == ASSIGNED;
    CountDisjoint(cs, StatusIs(OPEN), StatusIs(ASSIGNED), openOrAssigned);
    CountDisjoint(cs, openOrAssigned, StatusIs(RESOLVED), KnownStatus);
    StatusCounts(Count(cs, StatusIs(OPEN)), Count(cs, StatusIs(ASSIGNED)), Count(cs, StatusIs(RESOLVED)))
  }

  // ----------------------------------------------------------- daily trend

  /** One point of the trend: a UTC day, as days since the epoch (the
      `YYYY-MM-DD` key), and how many complaints were created on it. */
  datatype TrendPoint = TrendPoint(day: int, count: nat)

  /** `toISOString().split('T')[0]`: the UTC calendar day of a time. */
  function DayOf(ms: int): int {
    ms / MS_PER_DAY
  }

  predicate CreatedOnDay(c: Complaint, day: int) {
    c.createdAt.At? && DayOf(c.createdAt.ms) == day
  }

  function CreatedOn(day: int): Complaint -> bool {
    (c: Complaint) => CreatedOnDay(c, day)
  }

  function HasValidDate(c: Complaint): bool {
    c.createdAt.At?
  }

  function DayCount(cs: seq<Complaint>, day: int): nat {
    Count(cs, CreatedOn(day))
  }

  function DatedCount(cs: seq<Complaint>): nat {
    Count(cs, HasValidDate)
  }

  function Total(trend: seq<TrendPoint>): nat {
    if trend == [] then 0 else trend[0].count + Total(trend[1..])
  }

  /** The ascending sort by date is the descending sort by negated day. */
  function Earlier(p: TrendPoint): int {
    -p.day
  }

  /** One more complaint adds one to the count of its own day only. */
  lemma DayCountSnoc(cs: seq<Complaint>, c: Complaint)
    ensures forall day :: DayCount(cs + [c], day) == DayCount(cs, day) + if CreatedOnDay(c, day) then 1 else 0
  {
    forall day ensures DayCount(cs + [c], day) == DayCount(cs, day) + if CreatedOnDay(c, day) then 1 else 0 {
      CountAppend(cs, [c], CreatedOn(day));
    }
  }

  /** The count a dictionary of day counts holds for `day`, absent keys
      counting as zero. */
  function Lookup(counts: map<int, nat>, day: int): nat {
    if day in counts then counts[day] else 0
  }

  /** Tallying one more complaint into a dictionary that holds the day counts
      of `prefix` gives the day counts of `prefix + [c]`. */
  lemma TallyOne(prefix: seq<Complaint>, c: Complaint, counts: map<int, nat>)
    requires forall d :: DayCount(prefix, d) == Lookup(counts, d)
    ensures !c.createdAt.At? ==> forall d :: DayCount(prefix + [c], d) == Lookup(counts, d)
    ensures c.createdAt.At? ==>
      var day := DayOf(c.createdAt.ms);
      forall d :: DayCount(prefix + [c], d) == Lookup(counts[day := Lookup(counts, day) + 1], d)
  {
    DayCountSnoc(prefix, c);
  }

  /** The `forEach` over the complaints that fills the dictionary `map`:
      `counts` maps each day to its count and `days` lists the keys in
      insertion order, the order `Object.values` visits them in. */
  method TallyDays(cs: seq<Complaint>) returns (counts: map<int, nat>, days: seq<int>)
    ensures forall d :: d in counts <==> d in days
    ensures forall a, b :: 0 <= a < b < |days| ==> days[a] != days[b]
    ensures forall d :: d in counts ==> counts[d] == DayCount(cs, d) >= 1
    ensures forall d :: d !in counts ==> DayCount(cs, d) == 0
  {
    counts, days := map[], [];
    for i := 0 to |cs|
      invariant forall d :: d in counts <==> d in days
      invariant forall a, b :: 0 <= a < b < |days| ==> days[a] != days[b]
      invariant forall d :: d in counts ==> counts[d] >= 1
      invariant forall d :: DayCount(cs[..i], d) == Lookup(counts, d)
    {
      var c := cs[i];
      assert cs[..i + 1] == cs[..i] + [c];
      TallyOne(cs[..i], c, counts);
      if c.createdAt.At? {
        var day := DayOf(c.createdAt.ms);
        if day in counts {
          counts := counts[day := counts[day] + 1];
        } else {
          counts := counts[day := 1];
          days := days + [day];
        }
      }
    }
    assert cs[..|cs|] == cs;
    forall d ensures d !in counts ==> DayCount(cs, d) == 0 {
    }
  }

  /** The points `Object.values` yields from the tally, in key order. */
  function TallyPoints(counts: map<int, nat>, days: seq<int>): (values: seq<TrendPoint>)
    requires forall k :: 0 <= k < |days| ==> days[k] in counts
    ensures |values| == |days|
    ensures forall k :: 0 <= k < |days| ==> values[k] == TrendPoint(days[k], counts[days[k]])
  {
    seq(|days|, k requires 0 <= k < |days| => TrendPoint(days[k], counts[days[k]]))
  }

  /** The tallied points are one per day with a valid complaint, each with
      that day's count. */
  lemma TallyPointsCover(cs: seq<Complaint>, counts: map<int, nat>, days: seq<int>)
    requires forall d :: d in counts <==> d in days
    requires forall a, b :: 0 <= a < b < |days| ==> days[a] != days[b]
    requires forall d :: d in counts ==> counts[d] == DayCount(cs, d) >= 1
    requires forall d :: d !in counts ==> DayCount(cs, d) == 0
    requires forall k :: 0 <= k < |days| ==> days[k] in counts
    ensures forall i, j :: 0 <= i < j < |TallyPoints(counts, days)| ==>
              TallyPoints(counts, days)[i].day != TallyPoints(counts, days)[j].day
    ensures forall i :: 0 <= i < |TallyPoints(counts, days)| ==>
              1 <= TallyPoints(counts, days)[i].count == DayCount(cs, TallyPoints(counts, days)[i].day)
    ensures forall c :: c in cs && c.createdAt.At? ==>
              exists i :: 0 <= i < |TallyPoints(counts, days)| && TallyPoints(counts, days)[i].day == DayOf(c.createdAt.ms)
  {
    var values := TallyPoints(counts, days);
    forall c | c in cs && c.createdAt.At?
      ensures exists i :: 0 <= i < |values| && values[i].day == DayOf(c.createdAt.ms)
    {
      var day := DayOf(c.createdAt.ms);
      var k :| 0 <= k < |cs| && cs[k] == c;
      assert CreatedOn(day)(cs[k]);
      assert DayCount(cs, day) > 0;
      assert day in days;
      var m :| 0 <= m < |days| && days[m] == day;
      assert values[m].day == day;
    }
  }

  /** The trend of the given complaints: an entry per day on which some
      complaint was created, in strictly ascending order of day, each with
      that day's count. Complaints without a valid date are skipped, so the
      counts add up to the number of complaints with a valid date. */
  method BuildTrend(cs: seq<Complaint>) returns (trend: seq<TrendPoint>)
    ensures forall i, j :: 0 <= i < j < |trend| ==> trend[i].day < trend[j].day
    ensures forall i :: 0 <= i < |trend| ==> 1 <= trend[i].count == DayCount(cs, trend[i].day)
    ensures forall c :: c in cs && c.createdAt.At? ==>
              exists i :: 0 <= i < |trend| && trend[i].day == DayOf(c.createdAt.ms)
    ensures Total(trend) == DatedCount(cs)
  {
    var values := TallyValues(cs);
    trend := SortedCopy(values, Earlier);
    SortedTrend(cs, values, trend);
  }

  /** `Object.values(map)` after the `forEach`: one point per day on which a
      complaint was created, each with that day's count, in key order. */
  method TallyValues(cs: seq<Complaint>) returns (values: seq<TrendPoint>)
    ensures forall i, j :: 0 <= i < j < |values| ==> values[i].day != values[j].day
    ensures forall i :: 0 <= i < |values| ==> 1 <= values[i].count == DayCount(cs, values[i].day)
    ensures forall c :: c in cs && c.createdAt.At? ==>
              exists i :: 0 <= i < |values| && values[i].day == DayOf(c.createdAt.ms)
  {
    var counts, days := TallyDays(cs);
    DaysAreKeys(counts, days);
    values := TallyPoints(counts, days);
    TallyPointsCover(cs, counts, days);
  }

  /** Every listed day is a key of the tally. */
  lemma DaysAreKeys(counts: map<int, nat>, days: seq<int>)
    requires forall d :: d in counts <==> d in days
    ensures forall k :: 0 <= k < |days| ==> days[k] in counts
  {
    forall k | 0 <= k < |days| ensures days[k] in counts {
      var d := days[k];
      assert d in days;
      assert d in days <==> d in counts;
    }
  }

  /** Sorting the tallied points by date keeps their contents and makes the
      days strictly ascending. */
  lemma SortedTrend(cs: seq<Complaint>, values: seq<TrendPoint>, trend: seq<TrendPoint>)
    requires forall i, j :: 0 <= i < j < |values| ==> values[i].day != values[j].day
    requires forall i :: 0 <= i < |values| ==> 1 <= values[i].count == DayCount(cs, values[i].day)
    requires forall c :: c in cs && c.createdAt.At? ==>
               exists i :: 0 <= i < |values| && values[i].day == DayOf(c.createdAt.ms)
    requires trend == SortDesc(values, Earlier)
    ensures forall i, j :: 0 <= i < j < |trend| ==> trend[i].day < trend[j].day
    ensures forall i :: 0 <= i < |trend| ==> 1 <= trend[i].count == DayCount(cs, trend[i].day)
    ensures forall c :: c in cs && c.createdAt.At? ==>
              exists i :: 0 <= i < |trend| && trend[i].day == DayOf(c.createdAt.ms)
    ensures Total(trend) == DatedCount(cs)
  {
    SortDescStrict(values, Earlier);
    forall i | 0 <= i < |trend| ensures 1 <= trend[i].count == DayCount(cs, trend[i].day) {
      SortDescMembers(values, Earlier, trend[i]);
    }
    forall c | c in cs && c.createdAt.At?
      ensures exists i :: 0 <= i < |trend| && trend[i].day == DayOf(c.createdAt.ms)
    {
      var m :| 0 <= m < |values| && values[m].day == DayOf(c.createdAt.ms);
      SortDescMembers(values, Earlier, values[m]);
    }
    TrendTotal(cs, trend);
  }

  function NotCreatedOn(day: int): Complaint -> bool {
    (c: Complaint) => !CreatedOnDay(c, day)
  }

  /** The dated complaints are those of `day` and the dated ones of the rest. */
  lemma DatedSplit(cs: seq<Complaint>, day: int)
    ensures DatedCount(cs) == DayCount(cs, day) + DatedCount(Filter(cs, NotCreatedOn(day)))
  {
    var datedElsewhere := (c: Complaint) => HasValidDate(c) && !CreatedOnDay(c, day);
    forall c ensures HasValidDate(c) <==> CreatedOn(day)(c) || datedElsewhere(c) {}
    forall c ensures !(CreatedOn(day)(c) && datedElsewhere(c)) {}
    forall c ensures datedElsewhere(c) <==> NotCreatedOn(day)(c) && HasValidDate(c) {}
    CountDisjoint(cs, CreatedOn(day), datedElsewhere, HasValidDate);
    FilterFilter(cs, NotCreatedOn(day), HasValidDate, datedElsewhere);
  }

  /** Removing the complaints of `day` leaves every other day's count alone. */
  lemma OtherDayCount(cs: seq<Complaint>, day: int, other: int)
    requires other != day
    ensures DayCount(Filter(cs, NotCreatedOn(day)), other) == DayCount(cs, other)
  {
    forall c ensures CreatedOn(other)(c) <==> NotCreatedOn(day)(c) && CreatedOn(other)(c) {}
    FilterFilter(cs, NotCreatedOn(day), CreatedOn(other), CreatedOn(other));
  }

  /** Any list of distinct days that covers every validly dated complaint and
      carries each day's count adds up to the number of dated complaints. */
  lemma {:induction false} TrendTotal(cs: seq<Complaint>, trend: seq<TrendPoint>)
    requires forall i, j :: 0 <= i < j < |trend| ==> trend[i].day != trend[j].day
    requires forall i :: 0 <= i < |trend| ==> trend[i].count == DayCount(cs, trend[i].day)
    requires forall c :: c in cs && c.createdAt.At? ==>
               exists i :: 0 <= i < |trend| && trend[i].day == DayOf(c.createdAt.ms)
    ensures Total(trend) == DatedCount(cs)
    decreases |trend|
  {
    if trend == [] {
      forall i | 0 <= i < |cs| ensures !HasValidDate(cs[i]) {
        assert cs[i] in cs;
      }
    } else {
      var rest := Filter(cs, NotCreatedOn(trend[0].day));
      DatedSplit(cs, trend[0].day);
      TailCounts(cs, trend);
      TailCovers(cs, trend);
      TrendTotal(rest, trend[1..]);
    }
  }

  /** Without the complaints of the first day, the other days keep their counts. */
  lemma TailCounts(cs: seq<Complaint>, trend: seq<TrendPoint>)
    requires trend != []
    requires forall i, j :: 0 <= i < j < |trend| ==> trend[i].day != trend[j].day
    requires forall i :: 0 <= i < |trend| ==> trend[i].count == DayCount(cs, trend[i].day)
    ensures forall i :: 0 <= i < |trend| - 1 ==>
              trend[1..][i].count == DayCount(Filter(cs, NotCreatedOn(trend[0].day)), trend[1..][i].day)
  {
    forall i | 0 <= i < |trend| - 1
      ensures trend[1..][i].count == DayCount(Filter(cs, NotCreatedOn(trend[0].day)), trend[1..][i].day)
    {
      assert trend[1..][i] == trend[i + 1];
      OtherDayCount(cs, trend[0].day, trend[i + 1].day);
    }
  }

  /** Without the complaints of the first day, the other days cover the rest. */
  lemma TailCovers(cs: seq<Complaint>, trend: seq<TrendPoint>)
    requires trend != []
    requires forall c :: c in cs && c.createdAt.At? ==>
               exists i :: 0 <= i < |trend| && trend[i].day == DayOf(c.createdAt.ms)
    ensures forall c :: c in Filter(cs, NotCreatedOn(trend[0].day)) && c.createdAt.At? ==>
              exists i :: 0 <= i < |trend[1..]| && trend[1..][i].day == DayOf(c.createdAt.ms)
  {
    var day := trend[0].day;
    forall c | c in Filter(cs, NotCreatedOn(day)) && c.createdAt.At?
      ensures exists i :: 0 <= i < |trend[1..]| && trend[1..][i].day == DayOf(c.createdAt.ms)
    {
      FilterMembers(cs, NotCreatedOn(day), c);
      var i :| 0 <= i < |trend| && trend[i].day == DayOf(c.createdAt.ms);
      assert trend[1..][i - 1] == trend[i];
    }
  }

  // ------------------------------------------------------- per department

  datatype DepartmentCount = DepartmentCount(name: string, count: nat)

  /** `DEPARTMENTS.map(dep => ({ name: dep, count: ... }))` */
  function CountByDepartment(cs: seq<Complaint>): (r: seq<DepartmentCount>)
    ensures |r| == |DEPARTMENTS|
    ensures forall i :: 0 <= i < |r| ==> r[i].name == DEPARTMENTS[i] && r[i].count == Count(cs, CategoryIs(DEPARTMENTS[i]))
  {
    seq(|DEPARTMENTS|, i requires 0 <= i < |DEPARTMENTS| =>
      DepartmentCount(DEPARTMENTS[i], Count(cs, CategoryIs(DEPARTMENTS[i]))))
  }

  function CountSum(r: seq<DepartmentCount>): nat {
    if r == [] then 0 else r[0].count + CountSum(r[1..])
  }

  function InDepartments(names: seq<string>): Complaint -> bool {
    (c: Complaint) => c.category in names
  }

  /** Over distinct names, the per-name counts add up to the number of
      complaints whose category is one of the names. */
  lemma {:induction false} CountSumOverNames(cs: seq<Complaint>, names: seq<string>, r: seq<DepartmentCount>)
    requires forall i, j :: 0 <= i < j < |names| ==> names[i] != names[j]
    requires |r| == |names|
    requires forall i :: 0 <= i < |r| ==> r[i].count == Count(cs, CategoryIs(names[i]))
    ensures CountSum(r) == Count(cs, InDepartments(names))
  {
    if names == [] {
      assert forall i :: 0 <= i < |cs| ==> !InDepartments(names)(cs[i]);
    } else {
      CountSumOverNames(cs, names[1..], r[1..]);
      CountDisjoint(cs, CategoryIs(names[0]), InDepartments(names[1..]), InDepartments(names));
    }
  }

  /** The department counts add up to the number of complaints whose
      category is one of the seven departments. */
  lemma CountByDepartmentTotal(cs: seq<Complaint>)
    ensures CountSum(CountByDepartment(cs)) == Count(cs, InDepartments(DEPARTMENTS))
  {
    CountSumOverNames(cs, DEPARTMENTS, CountByDepartment(cs));
  }

  /** With a department selected, every other department counts zero and the
      selected one counts every filtered complaint. */
  lemma CountByDepartmentUnderFilter(cs: seq<Complaint>, department: string, i: int)
    requires department != ALL && 0 <= i < |DEPARTMENTS|
    ensures CountByDepartment(FilteredComplaints(cs, department))[i].count ==
              if DEPARTMENTS[i] == department then |FilteredComplaints(cs, department)| else 0
  {
    var f := FilteredComplaints(cs, department);
    assert forall k :: 0 <= k < |f| ==> f[k].category == department;
  }
}
