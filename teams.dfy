/**
 * The employee directory: each user with the number and the rounded mean
 * progress of the OKRs they own, the directory's search and filters, and the
 * designations its filter offers.
 */
module Teams {
  import opened Common
  import opened OkrSchema
  import opened Progress
  import opened ClientUsers

  const ALL: string := "all"

  /** `{ ...user, progress, okrsCount }`. */
  datatype Employee = Employee(user: Member, progress: int, okrsCount: nat)

  /** The OKRs whose owners include the user; being the creator does not count. */
  function OwnedOkrs(okrs: seq<Okr>, userId: string): seq<Okr> {
    Filter((okr: Okr) => userId in okr.owners, okrs)
  }

  function StatsOf(user: Member, okrs: seq<Okr>): Employee {
    var owned := OwnedOkrs(okrs, user.id);
    Employee(user, MeanProgress(owned), |owned|)
  }

  /** `response.users.map(...)`: one employee record per user, in order. */
  function EmployeeStats(users: seq<Member>, okrs: seq<Okr>): seq<Employee> {
    seq(|users|, i requires 0 <= i < |users| => StatsOf(users[i], okrs))
  }

  /**
   * One record per user, in the same order and with the user's fields as
   * they were; its count is the number of OKRs the user owns, its progress
   * 0 when there are none and otherwise within the range of their progress.
   */
  lemma EmployeeStatsSpec(users: seq<Member>, okrs: seq<Okr>, lo: int, hi: int)
    requires lo <= 0 <= hi && ProgressWithin(okrs, lo, hi)
    ensures var es := EmployeeStats(users, okrs);
      && |es| == |users|
      && forall i :: 0 <= i < |es| ==>
        var owned := OwnedOkrs(okrs, users[i].id);
        && es[i].user == users[i]
        && es[i].okrsCount == |owned|
        && (forall okr :: okr in owned <==> okr in okrs && users[i].id in okr.owners)
        && es[i].progress == MeanProgress(owned)
        && (owned == [] ==> es[i].progress == 0)
        && lo <= es[i].progress <= hi
  {
    forall i | 0 <= i < |users|
      ensures var owned := OwnedOkrs(okrs, users[i].id);
        && (forall okr :: okr in owned <==> okr in okrs && users[i].id in okr.owners)
        && lo <= MeanProgress(owned) <= hi
    {
      var p := (okr: Okr) => users[i].id in okr.owners;
      var owned := OwnedOkrs(okrs, users[i].id);
      forall okr ensures okr in owned <==> okr in okrs && users[i].id in okr.owners {
        FilterMembership(p, okrs, okr);
      }
      forall j | 0 <= j < |owned| ensures lo <= owned[j].progress <= hi {
        FilterMembership(p, okrs, owned[j]);
      }
      MeanProgressBounds(owned, lo, hi);
    }
  }

  /**
   * An OKR the user created but does not own adds nothing to the user's
   * record: the record is the same as without that OKR.
   */
  lemma CreatorIsNotCounted(user: Member, okrs: seq<Okr>, created: Okr)
    requires created.createdBy == user.id && user.id !in created.owners
    ensures StatsOf(user, okrs + [created]) == StatsOf(user, okrs)
  {
    var p := (okr: Okr) => user.id in okr.owners;
    FilterAppend(p, okrs, [created]);
    assert [created][1..] == [];
    assert Filter(p, [created]) == [];
    assert okrs + [created] + [] == okrs + [created];
    assert OwnedOkrs(okrs + [created], user.id) == OwnedOkrs(okrs, user.id);
  }

  /** The directory's search: empty, or a case-insensitive substring of one of five fields. */
  predicate MatchesSearch(e: Employee, term: string) {
    || term == ""
    || ContainsIgnoringCase(e.user.name, term)
    || ContainsIgnoringCase(e.user.email, term)
    || ContainsIgnoringCase(e.user.department, term)
    || ContainsIgnoringCase(e.user.designation, term)
    || ContainsIgnoringCase(e.user.role, term)
  }

  predicate Matches(e: Employee, term: string, department: string, designation: string) {
    && MatchesSearch(e, term)
    && (department == ALL || e.user.department == department)
    && (designation == ALL || e.user.designation == designation)
  }

  function FilteredEmployees(es: seq<Employee>, term: string, department: string, designation: string): seq<Employee> {
    Filter((e: Employee) => Matches(e, term, department, designation), es)
  }

  /**
   * The directory shows exactly the employees that pass all three tests, in
   * their order; with no term and both filters at "all" it shows everyone.
   */
  lemma FilteredEmployeesSpec(es: seq<Employee>, term: string, department: string, designation: string)
    ensures forall e :: e in FilteredEmployees(es, term, department, designation) <==>
      e in es && Matches(e, term, department, designation)
    ensures |FilteredEmployees(es, term, department, designation)| <= |es|
    ensures FilteredEmployees(es, "", ALL, ALL) == es
  {
    var p := (e: Employee) => Matches(e, term, department, designation);
    forall e ensures e in FilteredEmployees(es, term, department, designation) <==> e in es && p(e) {
      FilterMembership(p, es, e);
    }
    FilterLength(p, es);
    FilterAll((e: Employee) => Matches(e, "", ALL, ALL), es);
  }

  /** A search term matches regardless of the case it is typed in. */
  lemma SearchIgnoresCase(e: Employee, term: string, other: string)
    requires Lower(term) == Lower(other) && (term == "" <==> other == "")
    ensures MatchesSearch(e, term) <==> MatchesSearch(e, other)
  {
  }

  /** `[...new Set(employees.map((emp) => emp.designation))]`. */
  function Designations(es: seq<Employee>): seq<string> {
    Dedup(seq(|es|, i requires 0 <= i < |es| => es[i].user.designation))
  }

  /**
   * The designation filter offers each employee's designation exactly once
   * and nothing else, starting with the first employee's.
   */
  lemma DesignationsSpec(es: seq<Employee>)
    ensures NoDup(Designations(es))
    ensures es != [] ==> Designations(es) != [] && Designations(es)[0] == es[0].user.designation
    ensures forall d :: d in Designations(es) <==> exists i :: 0 <= i < |es| && es[i].user.designation == d
  {
    var ds := seq(|es|, i requires 0 <= i < |es| => es[i].user.designation);
    DedupSpec(ds);
    forall d ensures d in ds <==> exists i :: 0 <= i < |es| && es[i].user.designation == d {
      if d in ds {
        var i :| 0 <= i < |ds| && ds[i] == d;
        assert es[i].user.designation == d;
      }
      if exists i :: 0 <= i < |es| && es[i].user.designation == d {
        var i :| 0 <= i < |es| && es[i].user.designation == d;
        assert ds[i] == d;
      }
    }
  }
}
