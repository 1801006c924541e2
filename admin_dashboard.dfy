/** The administrator's triage page: a list of complaints narrowed by a status
    filter, a department filter and a text search, newest first, and the two
    actions on a selected complaint, changing its status (resolving awards its
    owner points) and assigning it to a department. */
module AdminDashboard {
  import opened Wrappers
  import opened Domain
  import opened Seqs
  import opened Sorting

  const ALL := "all"
  const STATUS_FIELD := "status"
  const DEPARTMENT_FIELD := "department"
  const SEARCH_FIELD := "search"

  // ---------------------------------------------------------------- filters

  datatype Filters = Filters(status: string, department: string, search: string)

  const INITIAL_FILTERS := Filters(ALL, ALL, "")

  /** `setFilters(prev => ({ ...prev, [name]: value }))`. A name other than
      the three filter fields adds a key the list never reads. */
  function WithFilter(f: Filters, name: string, value: string): Filters {
    if name == STATUS_FIELD then f.(status := value)
    else if name == DEPARTMENT_FIELD then f.(department := value)
    else if name == SEARCH_FIELD then f.(search := value)
    else f
  }

  /** A filter change replaces the named field only. */
  lemma WithFilterReplacesOnly(f: Filters, name: string, value: string)
    ensures WithFilter(f, name, value).status == if name == STATUS_FIELD then value else f.status
    ensures WithFilter(f, name, value).department == if name == DEPARTMENT_FIELD then value else f.department
    ensures WithFilter(f, name, value).search == if name == SEARCH_FIELD then value else f.search
  {
  }

  /** Changing the same field twice keeps the last value; changing two
      different fields gives the same filters in either order. */
  lemma WithFilterLastWins(f: Filters, name: string, other: string, v: string, w: string)
    ensures WithFilter(WithFilter(f, name, v), name, w) == WithFilter(f, name, w)
    ensures name != other ==>
              WithFilter(WithFilter(f, name, v), other, w) == WithFilter(WithFilter(f, other, w), name, v)
  {
  }

  /** No filter is active: the list is the whole of `complaints`. */
  predicate NoFilter(f: Filters) {
    f.status == ALL && f.department == ALL && f.search == ""
  }

  // ----------------------------------------------------------------- search

  /** `toLowerCase` on the ASCII letters. */
  function LowerChar(ch: char): char {
    if 'A' <= ch <= 'Z' then (ch as int - 'A' as int + 'a' as int) as char else ch
  }

  function Lower(s: string): (r: string)
    ensures |r| == |s|
    ensures forall i :: 0 <= i < |s| ==> r[i] == LowerChar(s[i])
  {
    seq(|s|, i requires 0 <= i < |s| => LowerChar(s[i]))
  }

  /** Lowering twice is lowering once. */
  lemma LowerIdempotent(s: string)
    ensures Lower(Lower(s)) == Lower(s)
  {
    assert forall i :: 0 <= i < |s| ==> LowerChar(LowerChar(s[i])) == LowerChar(s[i]);
  }

  /** `needle` occurs in `hay` starting at index `i`. */
  predicate OccursAt(hay: string, needle: string, i: int) {
    0 <= i && i + |needle| <= |hay| && hay[i..i + |needle|] == needle
  }

  /** `hay.includes(needle)` */
  predicate Contains(hay: string, needle: string) {
    exists i :: 0 <= i <= |hay| - |needle| && OccursAt(hay, needle, i)
  }

  /** Every string includes the empty string, and a string includes a piece
      of itself. */
  lemma ContainsSlice(hay: string, i: int, j: int)
    ensures Contains(hay, "")
    ensures 0 <= i <= j <= |hay| ==> Contains(hay, hay[i..j])
  {
    assert OccursAt(hay, "", 0);
    if 0 <= i <= j <= |hay| {
      assert OccursAt(hay, hay[i..j], i);
    }
  }

  /** The lowercased title or the lowercased description includes the
      lowercased search. */
  predicate Matches(c: Complaint, search: string) {
    Contains(Lower(c.title), Lower(search)) || Contains(Lower(c.description), Lower(search))
  }

  /** The search ignores the case of the search text, and every complaint
      matches a piece of its own title. */
  lemma MatchesIgnoresCase(c: Complaint, search: string, i: int, j: int)
    ensures Matches(c, Lower(search)) == Matches(c, search)
    ensures 0 <= i <= j <= |c.title| ==> Matches(c, c.title[i..j])
  {
    LowerIdempotent(search);
    if 0 <= i <= j <= |c.title| {
      ContainsSlice(Lower(c.title), i, j);
      assert Lower(c.title[i..j]) == Lower(c.title)[i..j];
    }
  }

  function MatchesSearch(search: string): Complaint -> bool {
    (c: Complaint) => Matches(c, search)
  }

  // ------------------------------------------------------ the list pipeline

  /** The three steps of the filter effect, each a no-op when its filter is
      off. */
  function StatusStep(cs: seq<Complaint>, f: Filters): seq<Complaint> {
    if f.status != ALL then Filter(cs, StatusIs(f.status)) else cs
  }

  function DepartmentStep(cs: seq<Complaint>, f: Filters): seq<Complaint> {
    if f.department != ALL then Filter(cs, CategoryIs(f.department)) else cs
  }

  function SearchStep(cs: seq<Complaint>, f: Filters): seq<Complaint> {
    if f.search != "" then Filter(cs, MatchesSearch(f.search)) else cs
  }

  /** The complaints the filter effect keeps, before it sorts them. */
  function Selected(cs: seq<Complaint>, f: Filters): seq<Complaint> {
    SearchStep(DepartmentStep(StatusStep(cs, f), f), f)
  }

  /** What a complaint must satisfy to be listed. */
  predicate Keeps(f: Filters, c: Complaint) {
    && (f.status == ALL || c.status == f.status)
    && (f.department == ALL || c.category == f.department)
    && (f.search == "" || Matches(c, f.search))
  }

  function KeepsStatus(f: Filters): Complaint -> bool {
    (c: Complaint) => f.status == ALL || c.status == f.status
  }

  function KeepsDepartment(f: Filters): Complaint -> bool {
    (c: Complaint) => f.department == ALL || c.category == f.department
  }

  function KeepsSearch(f: Filters): Complaint -> bool {
    (c: Complaint) => f.search == "" || Matches(c, f.search)
  }

  function KeepsAll(f: Filters): Complaint -> bool {
    (c: Complaint) => Keeps(f, c)
  }

  /** A step that is off filters by a predicate every complaint passes. */
  lemma StepsAreFilters(cs: seq<Complaint>, f: Filters)
    ensures StatusStep(cs, f) == Filter(cs, KeepsStatus(f))
    ensures DepartmentStep(cs, f) == Filter(cs, KeepsDepartment(f))
    ensures SearchStep(cs, f) == Filter(cs, KeepsSearch(f))
  {
    if f.status == ALL {
      FilterFull(cs, KeepsStatus(f));
    } else {
      forall c ensures StatusIs(f.status)(c) == KeepsStatus(f)(c) {}
      FilterSame(cs, StatusIs(f.status), KeepsStatus(f));
    }
    if f.department == ALL {
      FilterFull(cs, KeepsDepartment(f));
    } else {
      forall c ensures CategoryIs(f.department)(c) == KeepsDepartment(f)(c) {}
      FilterSame(cs, CategoryIs(f.department), KeepsDepartment(f));
    }
    if f.search == "" {
      FilterFull(cs, KeepsSearch(f));
    } else {
      forall c ensures MatchesSearch(f.search)(c) == KeepsSearch(f)(c) {}
      FilterSame(cs, MatchesSearch(f.search), KeepsSearch(f));
    }
  }

  /** Filtering by two predicates that agree everywhere gives the same list. */
  lemma {:induction false} FilterSame(cs: seq<Complaint>, p: Complaint -> bool, q: Complaint -> bool)
    requires forall c :: p(c) == q(c)
    ensures Filter(cs, p) == Filter(cs, q)
  {
    if cs != [] {
      FilterSame(cs[1..], p, q);
    }
  }

  /** The three steps together keep exactly the complaints that pass all
      three filters, in their original order. */
  lemma SelectedKeeps(cs: seq<Complaint>, f: Filters)
    ensures Selected(cs, f) == Filter(cs, KeepsAll(f))
  {
    var statusAndDepartment := (c: Complaint) => KeepsStatus(f)(c) && KeepsDepartment(f)(c);
    StepsAreFilters(cs, f);
    StepsAreFilters(StatusStep(cs, f), f);
    StepsAreFilters(DepartmentStep(StatusStep(cs, f), f), f);
    FilterFilter(cs, KeepsStatus(f), KeepsDepartment(f), statusAndDepartment);
    forall c ensures KeepsAll(f)(c) <==> statusAndDepartment(c) && KeepsSearch(f)(c) {}
    FilterFilter(cs, statusAndDepartment, KeepsSearch(f), KeepsAll(f));
  }

  /** A complaint is listed exactly when it is in the store and passes the
      filters; with no filter on, the list is the whole store. */
  lemma SelectedMembers(cs: seq<Complaint>, f: Filters, c: Complaint)
    ensures c in Selected(cs, f) <==> c in cs && Keeps(f, c)
    ensures NoFilter(f) ==> Selected(cs, f) == cs
  {
    SelectedKeeps(cs, f);
    FilterMembers(cs, KeepsAll(f), c);
    if NoFilter(f) {
      FilterFull(cs, KeepsAll(f));
    }
  }

  /** The department filter compares the category; the department a complaint
      is assigned to plays no part in whether it is listed. */
  lemma DepartmentFilterIgnoresAssignment(f: Filters, c: Complaint, dept: Option<string>)
    ensures Keeps(f, c.(assignedDepartment := dept)) == Keeps(f, c)
    ensures f.department != ALL && Keeps(f, c) ==> c.category == f.department
  {
  }

  /** The listed complaints: the selected ones, newest first. */
  function Listed(cs: seq<Complaint>, f: Filters): seq<Complaint> {
    SortDesc(Selected(cs, f), Recency)
  }

  /** The list holds the selected complaints, each as often as in the
      store, newest first. */
  lemma ListedIsSortedSelection(cs: seq<Complaint>, f: Filters)
    ensures multiset(Listed(cs, f)) == multiset(Filter(cs, KeepsAll(f)))
    ensures NonIncreasing(Listed(cs, f), Recency)
  {
    SelectedKeeps(cs, f);
    SortDescPermutes(Selected(cs, f), Recency);
    SortDescSorted(Selected(cs, f), Recency);
  }

  // ---------------------------------------------------- status and department

  /** The store calls `handleStatusChange` makes, given whether
      `updateComplaint` reported success. */
  function StatusChangeCalls(id: ComplaintId, status: string, userId: UserId, updated: bool): (calls: seq<StoreCall>)
    ensures |calls| >= 1 && calls[0] == UpdateComplaint(id, Patch(Some(status), None))
    ensures UpdateUserPoints(userId, RESOLUTION_AWARD) in calls <==> updated && status == RESOLVED
    ensures forall i :: 0 <= i < |calls| && calls[i].UpdateUserPoints? ==>
              calls[i] == UpdateUserPoints(userId, RESOLUTION_AWARD)
    ensures GetComplaints in calls <==> updated
    ensures |calls| == 1 <==> !updated
  {
    [UpdateComplaint(id, Patch(Some(status), None))]
    + (if updated && status == RESOLVED then [UpdateUserPoints(userId, RESOLUTION_AWARD)] else [])
    + (if updated then [GetComplaints] else [])
  }

  /** The store calls `handleAssignDepartment` makes: one patch that sets both
      the department and the `assigned` status, then a reload on success. */
  function AssignCalls(id: ComplaintId, department: string, updated: bool): (calls: seq<StoreCall>)
    ensures |calls| >= 1 && calls[0] == UpdateComplaint(id, Patch(Some(ASSIGNED), Some(department)))
    ensures forall i :: 0 <= i < |calls| ==> !calls[i].UpdateUserPoints?
    ensures forall i :: 1 <= i < |calls| ==> !calls[i].UpdateComplaint?
    ensures GetComplaints in calls <==> updated
  {
    [UpdateComplaint(id, Patch(Some(ASSIGNED), Some(department)))]
    + (if updated then [GetComplaints] else [])
  }

  /** Every award in the log is of ten points and follows the resolving
      status change that earned it. */
  ghost predicate AwardsFollowResolutions(log: seq<StoreCall>) {
    forall i :: 0 <= i < |log| && log[i].UpdateUserPoints? ==>
      && 0 < i
      && log[i].delta == RESOLUTION_AWARD
      && log[i - 1].UpdateComplaint?
      && log[i - 1].patch.status == Some(RESOLVED)
  }

  /** Both handlers keep every award tied to a resolution. */
  lemma HandlersKeepAwardsTied(log: seq<StoreCall>, id: ComplaintId, status: string, userId: UserId,
                               department: string, updated: bool)
    requires AwardsFollowResolutions(log)
    ensures AwardsFollowResolutions(log + StatusChangeCalls(id, status, userId, updated))
    ensures AwardsFollowResolutions(log + AssignCalls(id, department, updated))
  {
    var s := log + StatusChangeCalls(id, status, userId, updated);
    forall i | 0 <= i < |s| && s[i].UpdateUserPoints?
      ensures 0 < i && s[i].delta == RESOLUTION_AWARD && s[i - 1].UpdateComplaint? && s[i - 1].patch.status == Some(RESOLVED)
    {
      if i >= |log| {
        assert i == |log| + 1;
      }
    }
    var t := log + AssignCalls(id, department, updated);
    forall i | 0 <= i < |t| && t[i].UpdateUserPoints?
      ensures 0 < i && t[i].delta == RESOLUTION_AWARD && t[i - 1].UpdateComplaint? && t[i - 1].patch.status == Some(RESOLVED)
    {
      assert i < |log|;
    }
  }

  /** The dialog offers "Mark as Resolved" only for a complaint that is not
      resolved yet. */
  predicate OffersResolve(c: Complaint) {
    c.status != RESOLVED
  }

  // -------------------------------------------------------------- the page

  /** A fresh array holding `s`, as `Array.prototype.filter` returns. */
  method ArrayOf(s: seq<Complaint>) returns (a: array<Complaint>)
    ensures fresh(a) && a[..] == s
  {
    a := new Complaint[|s|](i requires 0 <= i < |s| => s[i]);
  }

  /** The page state. `complaints` and `filtered` are arrays because with no
      filter on, the list is the store's array itself and sorting it reorders
      `complaints` too. Store calls are recorded in `log`. */
  class Dashboard {
    var complaints: array<Complaint>
    var filtered: array<Complaint>
    var filters: Filters
    var selected: Option<Complaint>
    var log: seq<StoreCall>

    /** Every award follows its resolution, and with no filter on the list
        is the store's array itself. */
    ghost predicate Valid()
      reads this
    {
      AwardsFollowResolutions(log) && (NoFilter(filters) ==> filtered == complaints)
    }

    /** The mount effect stores `getComplaints()` (`all`) as both lists; the
        filter effect then runs with no filter on and sorts that array. */
    constructor Mount(all: array<Complaint>)
      modifies all
      ensures Valid()
      ensures complaints == all && filtered == all
      ensures all[..] == Listed(old(all[..]), INITIAL_FILTERS)
      ensures filters == INITIAL_FILTERS && selected == None && log == [GetComplaints]
    {
      complaints := all;
      filtered := all;
      filters := INITIAL_FILTERS;
      selected := None;
      log := [GetComplaints];
      new;
      Refilter();
    }

    /** The filter effect: each active filter makes a new array; the result
        is then sorted newest first in place. */
    method Refilter()
      modifies complaints, this`filtered
      ensures filtered[..] == Listed(old(complaints[..]), filters)
      ensures NoFilter(filters) ==> filtered == complaints
      ensures !NoFilter(filters) ==> fresh(filtered) && complaints[..] == old(complaints[..])
    {
      ghost var all := complaints[..];
      var result := complaints;
      if filters.status != ALL {
        result := ArrayOf(Filter(result[..], StatusIs(filters.status)));
      }
      assert result[..] == StatusStep(all, filters);
      if filters.department != ALL {
        result := ArrayOf(Filter(result[..], CategoryIs(filters.department)));
      }
      assert result[..] == DepartmentStep(StatusStep(all, filters), filters);
      if filters.search != "" {
        result := ArrayOf(Filter(result[..], MatchesSearch(filters.search)));
      }
      assert result[..] == Selected(all, filters);
      assert result == complaints || fresh(result);
      SortByKeyDesc(result, Recency);
      filtered := result;
    }

    /** `handleFilterChange`, followed by the filter effect it triggers. */
    method HandleFilterChange(name: string, value: string)
      requires Valid()
      modifies this, complaints
      ensures Valid()
      ensures filters == WithFilter(old(filters), name, value)
      ensures filtered[..] == Listed(old(complaints[..]), filters)
      ensures NoFilter(filters) ==> filtered == complaints
      ensures !NoFilter(filters) ==> complaints[..] == old(complaints[..])
      ensures complaints == old(complaints) && selected == old(selected) && log == old(log)
    {
      filters := WithFilter(filters, name, value);
      Refilter();
    }

    /** Opening a complaint's dialog, and closing it. */
    method Choose(c: Option<Complaint>)
      requires Valid()
      modifies this`selected
      ensures Valid()
      ensures selected == c
    {
      selected := c;
    }

    /** `handleStatusChange(id, status, userId)`. `updated` is what
        `updateComplaint` returns; on success `reloaded` is what
        `getComplaints()` returns, and the filter effect runs on it. */
    method HandleStatusChange(id: ComplaintId, status: string, userId: UserId, updated: bool,
                              reloaded: array<Complaint>)
      requires Valid()
      modifies this, reloaded
      ensures Valid()
      ensures log == old(log) + StatusChangeCalls(id, status, userId, updated)
      ensures filters == old(filters)
      ensures updated ==> complaints == reloaded && selected == None
                          && filtered[..] == Listed(old(reloaded[..]), filters)
      ensures updated && NoFilter(filters) ==> filtered == complaints
      ensures updated && !NoFilter(filters) ==> complaints[..] == old(reloaded[..])
      ensures !updated ==> complaints == old(complaints) && filtered == old(filtered)
                           && selected == old(selected) && reloaded[..] == old(reloaded[..])
    {
      HandlersKeepAwardsTied(log, id, status, userId, "", updated);
      ghost var calls := StatusChangeCalls(id, status, userId, updated);
      log := log + [UpdateComplaint(id, Patch(Some(status), None))];
      if updated {
        if status == RESOLVED {
          log := log + [UpdateUserPoints(userId, RESOLUTION_AWARD)];
        }
        log := log + [GetComplaints];
        assert log == old(log) + calls;
        complaints := reloaded;
        selected := None;
        Refilter();
      }
    }

    /** `handleAssignDepartment(id, department)`, with the same inputs as
        `HandleStatusChange`. */
    method HandleAssignDepartment(id: ComplaintId, department: string, updated: bool,
                                  reloaded: array<Complaint>)
      requires Valid()
      modifies this, reloaded
      ensures Valid()
      ensures log == old(log) + AssignCalls(id, department, updated)
      ensures filters == old(filters)
      ensures updated ==> complaints == reloaded && selected == None
                          && filtered[..] == Listed(old(reloaded[..]), filters)
      ensures updated && NoFilter(filters) ==> filtered == complaints
      ensures updated && !NoFilter(filters) ==> complaints[..] == old(reloaded[..])
      ensures !updated ==> complaints == old(complaints) && filtered == old(filtered)
                           && selected == old(selected) && reloaded[..] == old(reloaded[..])
    {
      HandlersKeepAwardsTied(log, id, "", "", department, updated);
      ghost var calls := AssignCalls(id, department, updated);
      log := log + [UpdateComplaint(id, Patch(Some(ASSIGNED), Some(department)))];
      if updated {
        log := log + [GetComplaints];
        assert log == old(log) + calls;
        complaints := reloaded;
        selected := None;
        Refilter();
      }
    }

    /** The "Mark as Resolved" button, present only when the dialog offers
        it: the selected complaint is resolved and its owner awarded on
        success. */
    method ResolveSelected(updated: bool, reloaded: array<Complaint>)
      requires Valid() && selected.Some? && OffersResolve(selected.value)
      modifies this, reloaded
      ensures Valid()
      ensures log == old(log) + StatusChangeCalls(old(selected.value.id), RESOLVED, old(selected.value.userId), updated)
      ensures filters == old(filters)
      ensures updated ==> complaints == reloaded && selected == None
                          && filtered[..] == Listed(old(reloaded[..]), filters)
      ensures updated && NoFilter(filters) ==> filtered == complaints
      ensures updated && !NoFilter(filters) ==> complaints[..] == old(reloaded[..])
      ensures !updated ==> complaints == old(complaints) && filtered == old(filtered)
                           && selected == old(selected) && reloaded[..] == old(reloaded[..])
    {
      HandleStatusChange(selected.value.id, RESOLVED, selected.value.userId, updated, reloaded);
    }
  }
}
