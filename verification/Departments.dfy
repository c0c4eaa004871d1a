/** The comparison of departments: one pass with GROUP BY against the helpers that are
    scoped to one department, for any way of judging risk. */
module Departments {
  import opened Base
  import opened Users
  import opened Sorting

  datatype Status = Pending | InProgress | Done | Dropped

  datatype Risk = NoRisk | OnTrack | AtRisk | Overdue | Blocked

  /** What risk is judged by. */
  datatype Input = Input(status: Status, due: int)

  datatype Milestone = Milestone(id: Id, project: Id, status: Status, due: int, completedOn: Option<int>)

  datatype Project = Project(id: Id, department: Option<Id>, deleted: bool, active: bool)

  datatype Person = Person(id: Id, role: Role, isActive: bool, department: Option<Id>)

  datatype Tables = Tables(
    people: seq<Person>,
    profiles: seq<(Id, bool)>,
    projects: seq<Project>,
    publications: seq<Id>,
    authors: seq<(Id, Id)>,
    milestones: seq<Milestone>,
    dependencies: seq<(Id, Id)>)

  /** The judgement, with today and the threshold already supplied. */
  type Assess = (Input, seq<Input>) -> Risk

  predicate Settled(s: Status) { s == Done || s == Dropped }

  // ----- counting -----

  function CountIf<T>(xs: seq<T>, p: T -> bool): nat {
    if xs == [] then 0
    else CountIf(xs[..|xs| - 1], p) + if p(xs[|xs| - 1]) then 1 else 0
  }

  function Where<T>(xs: seq<T>, p: T -> bool): seq<T> {
    if xs == [] then []
    else Where(xs[..|xs| - 1], p) + if p(xs[|xs| - 1]) then [xs[|xs| - 1]] else []
  }

  lemma CountIfOne<T>(xs: seq<T>, x: T, p: T -> bool)
    ensures CountIf(xs + [x], p) == CountIf(xs, p) + if p(x) then 1 else 0
  {
    assert (xs + [x])[..|xs|] == xs;
  }

  lemma {:induction false} CountIfWhere<T>(xs: seq<T>, p: T -> bool, q: T -> bool, both: T -> bool)
    requires forall x | x in xs :: both(x) == (p(x) && q(x))
    ensures CountIf(Where(xs, p), q) == CountIf(xs, both)
    decreases |xs|
  {
    if xs != [] {
      var n := |xs| - 1;
      CountIfWhere(xs[..n], p, q, both);
      CountIfOne(Where(xs[..n], p), xs[n], q);
      assert Where(xs[..n], p) + [] == Where(xs[..n], p);
    }
  }

  lemma {:induction false} CountIfSame<T>(xs: seq<T>, p: T -> bool, q: T -> bool)
    requires forall x | x in xs :: p(x) == q(x)
    ensures CountIf(xs, p) == CountIf(xs, q)
    decreases |xs|
  {
    if xs != [] { CountIfSame(xs[..|xs| - 1], p, q); }
  }

  lemma {:induction false} CountIfGrows<T>(xs: seq<T>, p: T -> bool, q: T -> bool)
    requires forall x | x in xs && p(x) :: q(x)
    ensures CountIf(xs, p) <= CountIf(xs, q)
    ensures (exists x :: x in xs && q(x) && !p(x)) ==> CountIf(xs, p) < CountIf(xs, q)
    decreases |xs|
  {
    if xs != [] {
      var n := |xs| - 1;
      assert xs == xs[..n] + [xs[n]];
      CountIfGrows(xs[..n], p, q);
    }
  }

  lemma {:induction false} CountIfZero<T>(xs: seq<T>, p: T -> bool)
    requires forall x | x in xs :: !p(x)
    ensures CountIf(xs, p) == 0
    decreases |xs|
  {
    if xs != [] { CountIfZero(xs[..|xs| - 1], p); }
  }

  // ----- milestones -----

  function FindProject(projects: seq<Project>, id: Id): Option<Project> {
    if projects == [] then None
    else if projects[0].id == id then Some(projects[0])
    else FindProject(projects[1..], id)
  }

  /** The department of a milestone's project, if the project is live. */
  function DepartmentOf(t: Tables, m: Milestone): Option<Id> {
    var p := FindProject(t.projects, m.project);
    if p.Some? && !p.value.deleted then p.value.department else None
  }

  /** `by_id.get(id)` over the rows a query kept. */
  function Find(rows: seq<Milestone>, id: Id): Option<Milestone> {
    if rows == [] then None
    else if rows[0].id == id then Some(rows[0])
    else Find(rows[1..], id)
  }

  /** What a milestone waits on, as far as the kept rows show it. */
  function Upstream(t: Tables, rows: seq<Milestone>, id: Id): seq<Input> {
    Collect((e: (Id, Id)) =>
      if e.0 == id && Find(rows, e.1).Some? then Some(Input(Find(rows, e.1).value.status, Find(rows, e.1).value.due)) else None,
      t.dependencies)
  }

  function Judge(t: Tables, assess: Assess, rows: seq<Milestone>, m: Milestone): Risk {
    assess(Input(m.status, m.due), Upstream(t, rows, m.id))
  }

  /** Rows of live projects that have a department. */
  function WholeRows(t: Tables): seq<Milestone> {
    Where(t.milestones, m => DepartmentOf(t, m).Some?)
  }

  /** Rows of live projects of one department. */
  function ScopedRows(t: Tables, d: Id): seq<Milestone> {
    Where(t.milestones, m => DepartmentOf(t, m) == Some(d))
  }

  predicate Outstanding(t: Tables, assess: Assess, rows: seq<Milestone>, risk: Risk, m: Milestone) {
    !Settled(m.status) && Judge(t, assess, rows, m) == risk
  }

  predicate Judged(t: Tables, assess: Assess, rows: seq<Milestone>, d: Id, risk: Risk, m: Milestone) {
    DepartmentOf(t, m) == Some(d) && Outstanding(t, assess, rows, risk, m)
  }

  /** Milestones of one department that are outstanding and judged so, the judgement
      seeing only `rows`. */
  function CountRisk(t: Tables, assess: Assess, rows: seq<Milestone>, d: Id, risk: Risk): nat {
    CountIf(t.milestones, m => Judged(t, assess, rows, d, risk, m))
  }

  function Pair<T>(found: map<Id, (T, T)>, d: Id, zero: T): (T, T) {
    if d in found then found[d] else (zero, zero)
  }

  /** Overdue and at-risk milestones of every department at once. */
  method MilestoneRiskPerDepartment(t: Tables, assess: Assess) returns (found: map<Id, (nat, nat)>)
    ensures forall d: Id ::
              Pair(found, d, 0) == (CountRisk(t, assess, WholeRows(t), d, Overdue), CountRisk(t, assess, WholeRows(t), d, AtRisk))
  {
    var rows := WholeRows(t);
    found := map[];
    for i := 0 to |rows|
      invariant forall d: Id ::
                  Pair(found, d, 0) == (Tally(t, assess, rows[..i], d, Overdue), Tally(t, assess, rows[..i], d, AtRisk))
    {
      var row := rows[i];
      TallyOne(t, assess, rows[..i], row);
      assert rows[..i + 1] == rows[..i] + [row];
      RowHasDepartment(t, i);
      if Settled(row.status) { continue; }
      var risk := Judge(t, assess, rows, row);
      var department := DepartmentOf(t, row).value;
      var (overdue, atRisk) := Pair(found, department, 0);
      hide Tally, Judge, Settled, DepartmentOf;
      if risk == Overdue {
        found := found[department := (overdue + 1, atRisk)];
      } else if risk == AtRisk {
        found := found[department := (overdue, atRisk + 1)];
      }
    }
    assert rows[..|rows|] == rows;
    forall d: Id, risk: Risk ensures Tally(t, assess, rows, d, risk) == CountRisk(t, assess, rows, d, risk) {
      CountOverWhole(t, assess, d, risk);
    }
  }

  /** How many of the rows seen so far count for a department. */
  function Tally(t: Tables, assess: Assess, seen: seq<Milestone>, d: Id, risk: Risk): nat {
    CountIf(seen, m => Judged(t, assess, WholeRows(t), d, risk, m))
  }

  lemma TallyOne(t: Tables, assess: Assess, seen: seq<Milestone>, m: Milestone)
    ensures forall d: Id, risk: Risk :: Tally(t, assess, seen + [m], d, risk) == Tally(t, assess, seen, d, risk)
              + if DepartmentOf(t, m) == Some(d) && !Settled(m.status) && Judge(t, assess, WholeRows(t), m) == risk then 1 else 0
  {
    forall d: Id, risk: Risk
      ensures Tally(t, assess, seen + [m], d, risk) == Tally(t, assess, seen, d, risk)
                + if Judged(t, assess, WholeRows(t), d, risk, m) then 1 else 0
    {
      CountIfOne(seen, m, x => Judged(t, assess, WholeRows(t), d, risk, x));
    }
  }

  lemma {:induction false} WhereIff<T>(xs: seq<T>, p: T -> bool, x: T)
    ensures x in Where(xs, p) <==> x in xs && p(x)
    decreases |xs|
  {
    if xs != [] {
      var n := |xs| - 1;
      assert xs == xs[..n] + [xs[n]];
      WhereIff(xs[..n], p, x);
    }
  }

  lemma RowHasDepartment(t: Tables, i: nat)
    requires i < |WholeRows(t)|
    ensures DepartmentOf(t, WholeRows(t)[i]).Some?
  {
    WhereIff(t.milestones, m => DepartmentOf(t, m).Some?, WholeRows(t)[i]);
  }

  lemma CountOverWhole(t: Tables, assess: Assess, d: Id, risk: Risk)
    ensures CountIf(WholeRows(t), m => Judged(t, assess, WholeRows(t), d, risk, m))
         == CountRisk(t, assess, WholeRows(t), d, risk)
  {
    var rows := WholeRows(t);
    CountIfWhere(t.milestones, m => DepartmentOf(t, m).Some?, m => Judged(t, assess, rows, d, risk, m),
                 m => Judged(t, assess, rows, d, risk, m));
  }

  datatype Adherence = Adherence(onTrack: nat, atRisk: nat, overdue: nat, blocked: nat, completed: nat, onTime: nat)

  predicate Completed(m: Milestone) { Settled(m.status) && m.completedOn.Some? }

  /** The counts for one department, judged over its own rows. */
  method MilestoneAdherence(t: Tables, assess: Assess, d: Id) returns (counts: Adherence)
    ensures counts.onTrack == CountRisk(t, assess, ScopedRows(t, d), d, OnTrack)
    ensures counts.atRisk == CountRisk(t, assess, ScopedRows(t, d), d, AtRisk)
    ensures counts.overdue == CountRisk(t, assess, ScopedRows(t, d), d, Overdue)
    ensures counts.blocked == CountRisk(t, assess, ScopedRows(t, d), d, Blocked)
    ensures counts.completed == CountIf(t.milestones, m => DepartmentOf(t, m) == Some(d) && Completed(m))
    ensures counts.onTime == CountIf(t.milestones,
              m => DepartmentOf(t, m) == Some(d) && Completed(m) && m.completedOn.value <= m.due)
  {
    var rows := ScopedRows(t, d);
    counts := Adherence(0, 0, 0, 0, 0, 0);
    for i := 0 to |rows|
      invariant counts == CountsOf(t, assess, rows, rows[..i])
    {
      CountsGrow(t, assess, rows, rows[..i], rows[i]);
      assert rows[..i + 1] == rows[..i] + [rows[i]];
      var row := rows[i];
      if Settled(row.status) {
        if row.completedOn.Some? {
          counts := counts.(completed := counts.completed + 1);
          if row.completedOn.value <= row.due {
            counts := counts.(onTime := counts.onTime + 1);
          }
        }
        continue;
      }
      match Judge(t, assess, rows, row)
      case OnTrack => counts := counts.(onTrack := counts.onTrack + 1);
      case AtRisk => counts := counts.(atRisk := counts.atRisk + 1);
      case Overdue => counts := counts.(overdue := counts.overdue + 1);
      case Blocked => counts := counts.(blocked := counts.blocked + 1);
      case NoRisk =>
    }
    assert rows[..|rows|] == rows;
    CountsAreScoped(t, assess, d);
  }

  function CountsOf(t: Tables, assess: Assess, rows: seq<Milestone>, seen: seq<Milestone>): Adherence {
    Adherence(
      CountIf(seen, m => Outstanding(t, assess, rows, OnTrack, m)),
      CountIf(seen, m => Outstanding(t, assess, rows, AtRisk, m)),
      CountIf(seen, m => Outstanding(t, assess, rows, Overdue, m)),
      CountIf(seen, m => Outstanding(t, assess, rows, Blocked, m)),
      CountIf(seen, Completed),
      CountIf(seen, (m: Milestone) => Completed(m) && m.completedOn.value <= m.due))
  }

  lemma CountsGrow(t: Tables, assess: Assess, rows: seq<Milestone>, seen: seq<Milestone>, m: Milestone)
    ensures var c, n := CountsOf(t, assess, rows, seen), CountsOf(t, assess, rows, seen + [m]);
            var risk := Judge(t, assess, rows, m);
            if Settled(m.status) then
              n == c.(completed := c.completed + (if m.completedOn.Some? then 1 else 0),
                      onTime := c.onTime + if m.completedOn.Some? && m.completedOn.value <= m.due then 1 else 0)
            else
              n == c.(onTrack := c.onTrack + (if risk == OnTrack then 1 else 0),
                      atRisk := c.atRisk + (if risk == AtRisk then 1 else 0),
                      overdue := c.overdue + (if risk == Overdue then 1 else 0),
                      blocked := c.blocked + if risk == Blocked then 1 else 0)
  {
    assert (seen + [m])[..|seen|] == seen;
  }

  lemma CountsAreScoped(t: Tables, assess: Assess, d: Id)
    ensures var c := CountsOf(t, assess, ScopedRows(t, d), ScopedRows(t, d));
            && c.onTrack == CountRisk(t, assess, ScopedRows(t, d), d, OnTrack)
            && c.atRisk == CountRisk(t, assess, ScopedRows(t, d), d, AtRisk)
            && c.overdue == CountRisk(t, assess, ScopedRows(t, d), d, Overdue)
            && c.blocked == CountRisk(t, assess, ScopedRows(t, d), d, Blocked)
            && c.completed == CountIf(t.milestones, m => DepartmentOf(t, m) == Some(d) && Completed(m))
            && c.onTime == CountIf(t.milestones,
                 m => DepartmentOf(t, m) == Some(d) && Completed(m) && m.completedOn.value <= m.due)
  {
    CountOverScope(t, assess, d, OnTrack);
    CountOverScope(t, assess, d, AtRisk);
    CountOverScope(t, assess, d, Overdue);
    CountOverScope(t, assess, d, Blocked);
    CountIfWhere(t.milestones, m => DepartmentOf(t, m) == Some(d), Completed,
                 m => DepartmentOf(t, m) == Some(d) && Completed(m));
    CountIfWhere(t.milestones, m => DepartmentOf(t, m) == Some(d), m => Completed(m) && m.completedOn.value <= m.due,
                 m => DepartmentOf(t, m) == Some(d) && Completed(m) && m.completedOn.value <= m.due);
  }

  lemma CountOverScope(t: Tables, assess: Assess, d: Id, risk: Risk)
    ensures CountIf(ScopedRows(t, d), m => Outstanding(t, assess, ScopedRows(t, d), risk, m))
         == CountRisk(t, assess, ScopedRows(t, d), d, risk)
  {
    var rows := ScopedRows(t, d);
    CountIfWhere(t.milestones, m => DepartmentOf(t, m) == Some(d),
                 m => Outstanding(t, assess, rows, risk, m),
                 m => Judged(t, assess, rows, d, risk, m));
  }

  // ----- when the two judge alike -----

  ghost predicate UniqueMilestones(t: Tables) {
    forall i, j | 0 <= i < j < |t.milestones| :: t.milestones[i].id != t.milestones[j].id
  }

  ghost predicate SameIdSame(rows: seq<Milestone>) {
    forall x, y | x in rows && y in rows && x.id == y.id :: x == y
  }

  lemma UniqueIdsSame(t: Tables)
    requires UniqueMilestones(t)
    ensures SameIdSame(t.milestones)
  {
    forall x, y | x in t.milestones && y in t.milestones && x.id == y.id ensures x == y {
      var i :| 0 <= i < |t.milestones| && t.milestones[i] == x;
      var j :| 0 <= j < |t.milestones| && t.milestones[j] == y;
      assert i == j;
    }
  }

  lemma {:induction false} FindIff(rows: seq<Milestone>, id: Id)
    ensures Find(rows, id).Some? <==> exists x :: x in rows && x.id == id
    ensures Find(rows, id).Some? ==> Find(rows, id).value in rows && Find(rows, id).value.id == id
  {
    if rows != [] {
      FindIff(rows[1..], id);
      assert rows == [rows[0]] + rows[1..];
    }
  }

  /** The scoped rows show the whole rows of their department, and nothing else. */
  lemma FindInScope(t: Tables, d: Id, id: Id)
    requires UniqueMilestones(t)
    ensures var whole, scoped := Find(WholeRows(t), id), Find(ScopedRows(t, d), id);
            && (scoped.Some? <==> whole.Some? && DepartmentOf(t, whole.value) == Some(d))
            && (scoped.Some? ==> scoped == whole)
  {
    UniqueIdsSame(t);
    FindIff(WholeRows(t), id);
    FindIff(ScopedRows(t, d), id);
    forall x ensures x in WholeRows(t) <==> x in t.milestones && DepartmentOf(t, x).Some? {
      WhereIff(t.milestones, m => DepartmentOf(t, m).Some?, x);
    }
    forall x ensures x in ScopedRows(t, d) <==> x in t.milestones && DepartmentOf(t, x) == Some(d) {
      WhereIff(t.milestones, m => DepartmentOf(t, m) == Some(d), x);
    }
  }

  /** An outstanding milestone of one department waits on a live milestone of another. */
  ghost predicate Crosses(t: Tables, m: Milestone, e: (Id, Id)) {
    && m in t.milestones && !Settled(m.status) && DepartmentOf(t, m).Some?
    && e in t.dependencies && e.0 == m.id
    && Find(WholeRows(t), e.1).Some? && DepartmentOf(t, Find(WholeRows(t), e.1).value) != DepartmentOf(t, m)
  }

  ghost predicate Agree(t: Tables, assess: Assess, d: Id) {
    && CountRisk(t, assess, WholeRows(t), d, Overdue) == CountRisk(t, assess, ScopedRows(t, d), d, Overdue)
    && CountRisk(t, assess, WholeRows(t), d, AtRisk) == CountRisk(t, assess, ScopedRows(t, d), d, AtRisk)
  }

  lemma {:induction false} CollectCompares<T, U>(f: T -> Option<U>, g: T -> Option<U>, xs: seq<T>)
    requires forall x | x in xs && f(x).Some? :: g(x).Some?
    ensures |Collect(f, xs)| <= |Collect(g, xs)|
    ensures (exists x :: x in xs && f(x).None? && g(x).Some?) ==> |Collect(f, xs)| < |Collect(g, xs)|
    ensures (forall x | x in xs :: f(x) == g(x)) ==> Collect(f, xs) == Collect(g, xs)
  {
    if xs != [] {
      assert xs == [xs[0]] + xs[1..];
      CollectCompares(f, g, xs[1..]);
    }
  }

  lemma UpstreamCompares(t: Tables, m: Milestone, d: Id)
    requires UniqueMilestones(t) && m in t.milestones && DepartmentOf(t, m) == Some(d) && !Settled(m.status)
    ensures var whole, scoped := Upstream(t, WholeRows(t), m.id), Upstream(t, ScopedRows(t, d), m.id);
            && |scoped| <= |whole|
            && ((forall e :: !Crosses(t, m, e)) ==> scoped == whole)
            && ((exists e :: Crosses(t, m, e)) ==> |scoped| < |whole|)
  {
    var rows, all := ScopedRows(t, d), WholeRows(t);
    var f := (e: (Id, Id)) =>
      if e.0 == m.id && Find(rows, e.1).Some? then Some(Input(Find(rows, e.1).value.status, Find(rows, e.1).value.due)) else None;
    var g := (e: (Id, Id)) =>
      if e.0 == m.id && Find(all, e.1).Some? then Some(Input(Find(all, e.1).value.status, Find(all, e.1).value.due)) else None;
    forall e: (Id, Id)
      ensures Find(rows, e.1).Some? <==> Find(all, e.1).Some? && DepartmentOf(t, Find(all, e.1).value) == Some(d)
      ensures Find(rows, e.1).Some? ==> Find(rows, e.1) == Find(all, e.1)
    {
      FindInScope(t, d, e.1);
    }
    CollectCompares(f, g, t.dependencies);
    assert Upstream(t, rows, m.id) == Collect(f, t.dependencies) by { CollectSame(t, rows, m.id, f); }
    assert Upstream(t, all, m.id) == Collect(g, t.dependencies) by { CollectSame(t, all, m.id, g); }
    if e :| Crosses(t, m, e) {
      assert f(e).None? && g(e).Some?;
    } else {
      forall e | e in t.dependencies ensures f(e) == g(e) {
        assert !Crosses(t, m, e);
      }
    }
  }

  lemma CollectSame(t: Tables, rows: seq<Milestone>, id: Id, f: ((Id, Id)) -> Option<Input>)
    requires forall e: (Id, Id) :: f(e) ==
               if e.0 == id && Find(rows, e.1).Some? then Some(Input(Find(rows, e.1).value.status, Find(rows, e.1).value.due)) else None
    ensures Upstream(t, rows, id) == Collect(f, t.dependencies)
  {
    CollectCompares(f, (e: (Id, Id)) =>
      if e.0 == id && Find(rows, e.1).Some? then Some(Input(Find(rows, e.1).value.status, Find(rows, e.1).value.due)) else None,
      t.dependencies);
  }

  /** The one pass and the scoped helper agree for every department and every way of
      judging risk, if and only if no outstanding milestone waits on a live milestone
      of another department. */
  lemma JudgedAlikeExactly(t: Tables)
    requires UniqueMilestones(t)
    ensures (forall assess: Assess, d: Id :: Agree(t, assess, d)) <==> forall m, e :: !Crosses(t, m, e)
  {
    if m, e :| Crosses(t, m, e) {
      CrossingDisagrees(t, m, e);
    } else {
      forall assess: Assess, d: Id ensures Agree(t, assess, d) {
        forall risk: Risk
          ensures CountRisk(t, assess, WholeRows(t), d, risk) == CountRisk(t, assess, ScopedRows(t, d), d, risk)
        {
          forall m | m in t.milestones
            ensures Judged(t, assess, WholeRows(t), d, risk, m) == Judged(t, assess, ScopedRows(t, d), d, risk, m)
          {
            if DepartmentOf(t, m) == Some(d) && !Settled(m.status) { UpstreamCompares(t, m, d); }
          }
          CountIfSame(t.milestones, m => Judged(t, assess, WholeRows(t), d, risk, m),
                      m => Judged(t, assess, ScopedRows(t, d), d, risk, m));
        }
      }
    }
  }

  /** Call a milestone overdue when it shows at least as many upstream milestones as m. */
  lemma CrossingDisagrees(t: Tables, m: Milestone, e: (Id, Id))
    requires UniqueMilestones(t) && Crosses(t, m, e)
    ensures !forall assess: Assess, d: Id :: Agree(t, assess, d)
  {
    var d, n := DepartmentOf(t, m).value, |Upstream(t, WholeRows(t), m.id)|;
    var assess: Assess := (input: Input, upstream: seq<Input>) => if |upstream| >= n then Overdue else OnTrack;
    UpstreamCompares(t, m, d);
    forall x | x in t.milestones && Judged(t, assess, ScopedRows(t, d), d, Overdue, x)
      ensures Judged(t, assess, WholeRows(t), d, Overdue, x)
    {
      UpstreamCompares(t, x, d);
    }
    assert Judged(t, assess, WholeRows(t), d, Overdue, m) && !Judged(t, assess, ScopedRows(t, d), d, Overdue, m);
    CountIfGrows(t.milestones, x => Judged(t, assess, ScopedRows(t, d), d, Overdue, x),
                 x => Judged(t, assess, WholeRows(t), d, Overdue, x));
    assert !Agree(t, assess, d);
  }

  /** What the milestones module enforces: a milestone waits only on its own project's. */
  ghost predicate WithinProjects(t: Tables) {
    forall e, m, x | e in t.dependencies && m in t.milestones && x in t.milestones && e.0 == m.id && e.1 == x.id ::
      m.project == x.project
  }

  lemma WithinProjectsNeverCrosses(t: Tables)
    requires WithinProjects(t)
    ensures forall m, e :: !Crosses(t, m, e)
  {
    forall m, e ensures !Crosses(t, m, e) {
      if Find(WholeRows(t), e.1).Some? {
        FindIff(WholeRows(t), e.1);
        WhereIff(t.milestones, x => DepartmentOf(t, x).Some?, Find(WholeRows(t), e.1).value);
      }
    }
  }

  // ----- people, publications, verification -----

  predicate Counts(p: Person, d: Id, role: Role) {
    p.isActive && p.department == Some(d) && p.role == role
  }

  function Members(t: Tables, d: Id, role: Role): nat {
    CountIf(t.people, p => Counts(p, d, role))
  }

  datatype Group = Group(department: Id, role: Role, count: nat)

  /** Any answer GROUP BY department, role may give: one row for each pair that occurs. */
  ghost predicate Groups(rows: seq<Group>, t: Tables) {
    && (forall i, j | 0 <= i < j < |rows| :: (rows[i].department, rows[i].role) != (rows[j].department, rows[j].role))
    && (forall g | g in rows :: g.count == Members(t, g.department, g.role))
    && forall d: Id, role: Role | Members(t, d, role) > 0 :: exists g :: g in rows && g.department == d && g.role == role
  }

  function SumOf(rows: seq<Group>, d: Id, role: Role): nat {
    if rows == [] then 0
    else
      var g := rows[|rows| - 1];
      SumOf(rows[..|rows| - 1], d, role) + if g.department == d && g.role == role then g.count else 0
  }

  lemma {:induction false} SumOfOne(rows: seq<Group>, d: Id, role: Role)
    requires forall i, j | 0 <= i < j < |rows| :: (rows[i].department, rows[i].role) != (rows[j].department, rows[j].role)
    ensures forall g | g in rows && g.department == d && g.role == role :: SumOf(rows, d, role) == g.count
    ensures (forall g | g in rows :: g.department != d || g.role != role) ==> SumOf(rows, d, role) == 0
    decreases |rows|
  {
    if rows != [] {
      var n := |rows| - 1;
      assert rows == rows[..n] + [rows[n]];
      SumOfOne(rows[..n], d, role);
    }
  }

  /** (researchers, students) among the rows seen so far. */
  function Sums(rows: seq<Group>, d: Id): (nat, nat) {
    (SumOf(rows, d, Faculty) + SumOf(rows, d, Coordinator), SumOf(rows, d, Student))
  }

  lemma SumsStep(rows: seq<Group>, i: nat, d: Id)
    requires i < |rows|
    ensures var before, g := Sums(rows[..i], d), rows[i];
            Sums(rows[..i + 1], d) ==
              if g.department != d then before
              else if g.role == Faculty || g.role == Coordinator then (before.0 + g.count, before.1)
              else if g.role == Student then (before.0, before.1 + g.count)
              else before
  {
    assert rows[..i + 1][..i] == rows[..i];
  }

  lemma SumsAreMembers(rows: seq<Group>, t: Tables)
    requires Groups(rows, t)
    ensures forall d: Id, role: Role :: SumOf(rows, d, role) == Members(t, d, role)
  {
    forall d: Id, role: Role ensures SumOf(rows, d, role) == Members(t, d, role) {
      SumOfOne(rows, d, role);
    }
  }

  /** (researchers, students) per department. */
  method PeoplePerDepartment(t: Tables, rows: seq<Group>) returns (found: map<Id, (nat, nat)>)
    requires Groups(rows, t)
    ensures forall d: Id ::
              Pair(found, d, 0) == (Members(t, d, Faculty) + Members(t, d, Coordinator), Members(t, d, Student))
  {
    found := map[];
    for i := 0 to |rows|
      invariant forall d: Id :: Pair(found, d, 0) == Sums(rows[..i], d)
    {
      hide Sums, SumOf, Members, Groups;
      var Group(department, role, count) := rows[i];
      var (researchers, students) := Pair(found, department, 0);
      ghost var before := found;
      if role == Faculty || role == Coordinator {
        found := found[department := (researchers + count, students)];
      } else if role == Student {
        found := found[department := (researchers, students + count)];
      }
      forall d: Id ensures Pair(found, d, 0) == Sums(rows[..i + 1], d) {
        SumsStep(rows, i, d);
        assert Pair(before, d, 0) == Sums(rows[..i], d);
        if d == department {
          assert Pair(found, d, 0) == Sums(rows[..i + 1], d);
        } else {
          assert Pair(found, d, 0) == Pair(before, d, 0);
        }
      }
    }
    assert rows[..|rows|] == rows;
    SumsAreMembers(rows, t);
  }

  function Authored(t: Tables, p: Id, d: Id): bool {
    exists a | a in t.authors :: a.0 == p && exists u | u in t.people :: u.id == a.1 && u.department == Some(d)
  }

  /** COUNT(DISTINCT publication) over the join with authors and their departments. */
  function DistinctPublications(t: Tables, d: Id): nat {
    |set a | a in t.authors && a.0 in t.publications
       && (exists u | u in t.people :: u.id == a.1 && u.department == Some(d)) :: a.0|
  }

  /** Publications whose identifier is among those the department's authors signed. */
  function ScopedPublications(t: Tables, d: Id): nat {
    CountIf(t.publications, (p: Id) => Authored(t, p, d))
  }

  lemma {:induction false} CountIsCardinality(xs: seq<Id>, p: Id -> bool)
    requires Distinct(xs)
    ensures CountIf(xs, p) == |set x | x in xs && p(x)|
    decreases |xs|
  {
    if xs != [] {
      var n := |xs| - 1;
      CountIsCardinality(xs[..n], p);
      assert xs == xs[..n] + [xs[n]];
      var before, after := set x | x in xs[..n] && p(x), set x | x in xs && p(x);
      if p(xs[n]) {
        assert after == before + {xs[n]} && xs[n] !in before;
      } else {
        assert after == before;
      }
    }
  }

  /** A paper counts once in each department it has an author in, either way. */
  lemma PublicationsAgree(t: Tables, d: Id)
    requires Distinct(t.publications)
    ensures DistinctPublications(t, d) == ScopedPublications(t, d)
  {
    var f := (p: Id) => Authored(t, p, d);
    CountIsCardinality(t.publications, f);
    CountIfSame(t.publications, f, (p: Id) => Authored(t, p, d));
    var joined := set a | a in t.authors && a.0 in t.publications
                    && (exists u | u in t.people :: u.id == a.1 && u.department == Some(d)) :: a.0;
    var scoped := set p | p in t.publications && f(p);
    forall p: Id ensures p in joined <==> p in scoped {
      if p in scoped {
        var a :| a in t.authors && a.0 == p && exists u | u in t.people :: u.id == a.1 && u.department == Some(d);
        assert a.0 in joined;
      }
    }
    assert joined == scoped;
  }

  function FindPerson(people: seq<Person>, id: Id): Option<Person> {
    if people == [] then None
    else if people[0].id == id then Some(people[0])
    else FindPerson(people[1..], id)
  }

  /** COUNT over the join of pending profiles with their active owners. */
  function JoinedPending(t: Tables, d: Id): nat {
    CountIf(t.profiles, (p: (Id, bool)) =>
      p.1 && var u := FindPerson(t.people, p.0); u.Some? && u.value.isActive && u.value.department == Some(d))
  }

  /** Pending profiles whose owner is among the active people of the department. */
  function ScopedPending(t: Tables, d: Id): nat {
    CountIf(t.profiles, (p: (Id, bool)) => p.1 && exists u | u in t.people :: u.id == p.0 && u.isActive && u.department == Some(d))
  }

  lemma {:induction false} FindPersonIff(people: seq<Person>, id: Id)
    requires forall i, j | 0 <= i < j < |people| :: people[i].id != people[j].id
    ensures FindPerson(people, id).None? ==> forall u | u in people :: u.id != id
    ensures FindPerson(people, id).Some? ==>
              FindPerson(people, id).value in people && FindPerson(people, id).value.id == id
              && forall u | u in people && u.id == id :: u == FindPerson(people, id).value
  {
    if people != [] {
      FindPersonIff(people[1..], id);
      assert people == [people[0]] + people[1..];
    }
  }

  lemma PendingAgrees(t: Tables, d: Id)
    requires forall i, j | 0 <= i < j < |t.people| :: t.people[i].id != t.people[j].id
    ensures JoinedPending(t, d) == ScopedPending(t, d)
  {
    forall id ensures FindPerson(t.people, id).None? ==> forall u | u in t.people :: u.id != id {
      FindPersonIff(t.people, id);
    }
    forall p: (Id, bool) | p in t.profiles
      ensures (p.1 && var u := FindPerson(t.people, p.0); u.Some? && u.value.isActive && u.value.department == Some(d))
          <==> (p.1 && exists u | u in t.people :: u.id == p.0 && u.isActive && u.department == Some(d))
    {
      FindPersonIff(t.people, p.0);
    }
    CountIfSame(t.profiles,
      (p: (Id, bool)) => p.1 && var u := FindPerson(t.people, p.0); u.Some? && u.value.isActive && u.value.department == Some(d),
      (p: (Id, bool)) => p.1 && exists u | u in t.people :: u.id == p.0 && u.isActive && u.department == Some(d));
  }

  /** Active projects as GROUP BY counts them: rows without a department fall out. */
  function GroupedProjects(t: Tables): map<Id, nat> {
    map d | d in (set p | p in t.projects && Listed(p) :: p.department.value) ::
      CountIf(t.projects, (p: Project) => Listed(p) && p.department == Some(d))
  }

  predicate Listed(p: Project) { !p.deleted && p.department.Some? && p.active }

  /** What `projects_by_status(...)["active"]` reports for one department. */
  function ScopedProjects(t: Tables, d: Id): nat {
    CountIf(t.projects, (p: Project) => !p.deleted && p.department == Some(d) && p.active)
  }

  lemma ProjectsAgree(t: Tables, d: Id)
    ensures (if d in GroupedProjects(t) then GroupedProjects(t)[d] else 0) == ScopedProjects(t, d)
  {
    if d in GroupedProjects(t) {
      CountIfSame(t.projects, (p: Project) => Listed(p) && p.department == Some(d),
                  (p: Project) => !p.deleted && p.department == Some(d) && p.active);
    } else {
      forall p | p in t.projects ensures !(!p.deleted && p.department == Some(d) && p.active) {
        assert Listed(p) ==> p.department.value in (set q | q in t.projects && Listed(q) :: q.department.value);
      }
      CountIfZero(t.projects, (p: Project) => !p.deleted && p.department == Some(d) && p.active);
    }
  }

  // ----- the comparison -----

  datatype Row = Row(
    department: Id, researchers: nat, students: nat, projectsActive: nat, publications: nat,
    overdue: nat, atRisk: nat, pending: nat)

  /** What the helpers scoped to one department say. */
  function ScopedRow(t: Tables, assess: Assess, d: Id): Row {
    Row(d, Members(t, d, Faculty) + Members(t, d, Coordinator), Members(t, d, Student),
        ScopedProjects(t, d), ScopedPublications(t, d),
        CountRisk(t, assess, ScopedRows(t, d), d, Overdue), CountRisk(t, assess, ScopedRows(t, d), d, AtRisk),
        ScopedPending(t, d))
  }

  /** Every department side by side, in one pass, as the scoped helpers would answer. */
  method ByDepartment(t: Tables, assess: Assess, departments: seq<Id>, grouped: seq<Group>) returns (rows: seq<Row>)
    requires Groups(grouped, t)
    requires UniqueMilestones(t) && WithinProjects(t) && Distinct(t.publications)
    requires forall i, j | 0 <= i < j < |t.people| :: t.people[i].id != t.people[j].id
    ensures |rows| == |departments|
    ensures forall i | 0 <= i < |rows| :: rows[i] == ScopedRow(t, assess, departments[i])
  {
    if departments == [] { return []; }
    var people := PeoplePerDepartment(t, grouped);
    var projects := GroupedProjects(t);
    var risk := MilestoneRiskPerDepartment(t, assess);
    WithinProjectsNeverCrosses(t);
    JudgedAlikeExactly(t);
    rows := [];
    for i := 0 to |departments|
      invariant |rows| == i
      invariant forall k | 0 <= k < i :: rows[k] == ScopedRow(t, assess, departments[k])
    {
      var d := departments[i];
      var (overdue, atRisk) := Pair(risk, d, 0);
      var (researchers, students) := Pair(people, d, 0);
      var active := if d in projects then projects[d] else 0;
      assert Agree(t, assess, d);
      ProjectsAgree(t, d);
      PublicationsAgree(t, d);
      PendingAgrees(t, d);
      rows := rows + [Row(d, researchers, students, active, DistinctPublications(t, d), overdue, atRisk, JoinedPending(t, d))];
    }
  }

  // ----- the figures over the tables -----

  /** Counting is the size of the set of places that count. */
  lemma {:induction false} CountIfIsASet<T>(xs: seq<T>, p: T -> bool, places: set<nat>)
    requires forall i: nat :: i in places <==> i < |xs| && p(xs[i])
    ensures CountIf(xs, p) == |places|
    decreases |xs|
  {
    if xs == [] {
      assert places == {};
    } else {
      var n := |xs| - 1;
      assert forall i: nat | i < n :: xs[..n][i] == xs[i];
      CountIfIsASet(xs[..n], p, places - {n});
      if n in places { assert places == (places - {n}) + {n}; } else { assert places == places - {n}; }
    }
  }

  ghost predicate UniqueProjects(t: Tables) {
    forall p, q | p in t.projects && q in t.projects && p.id == q.id :: p == q
  }

  /** The milestone belongs to a project of the department that is not deleted. */
  ghost predicate LivesIn(t: Tables, m: Milestone, d: Id) {
    exists p :: p in t.projects && p.id == m.project && !p.deleted && p.department == Some(d)
  }

  lemma {:induction false} FindProjectIff(projects: seq<Project>, id: Id)
    ensures FindProject(projects, id).Some? <==> exists p :: p in projects && p.id == id
    ensures FindProject(projects, id).Some? ==>
              FindProject(projects, id).value in projects && FindProject(projects, id).value.id == id
  {
    if projects != [] {
      FindProjectIff(projects[1..], id);
      assert projects == [projects[0]] + projects[1..];
    }
  }

  lemma DepartmentsAreOfLiveProjects(t: Tables, m: Milestone, d: Id)
    requires UniqueProjects(t)
    ensures DepartmentOf(t, m) == Some(d) <==> LivesIn(t, m, d)
  {
    FindProjectIff(t.projects, m.project);
  }

  /** What a milestone is judged by, besides itself: the status and date of those milestones of
      the same department, in live projects, that it waits on. */
  lemma UpstreamIsOfTheDepartment(t: Tables, d: Id, id: Id, x: Input)
    requires UniqueProjects(t) && UniqueMilestones(t)
    ensures x in Upstream(t, ScopedRows(t, d), id)
       <==> exists m :: m in t.milestones && LivesIn(t, m, d) && (id, m.id) in t.dependencies && x == Input(m.status, m.due)
  {
    hide LivesIn, DepartmentOf;
    var rows := ScopedRows(t, d);
    UniqueIdsSame(t);
    forall m ensures m in rows <==> m in t.milestones && LivesIn(t, m, d) {
      WhereIff(t.milestones, m => DepartmentOf(t, m) == Some(d), m);
      DepartmentsAreOfLiveProjects(t, m, d);
    }
    UpstreamIff(t, rows, id, x);
    if e :| e in t.dependencies && e.0 == id && Find(rows, e.1).Some?
            && x == Input(Find(rows, e.1).value.status, Find(rows, e.1).value.due) {
      FindIff(rows, e.1);
      var m := Find(rows, e.1).value;
      assert (id, m.id) == e;
      assert m in t.milestones && LivesIn(t, m, d) && (id, m.id) in t.dependencies;
    }
    if m :| m in t.milestones && LivesIn(t, m, d) && (id, m.id) in t.dependencies && x == Input(m.status, m.due) {
      FindIff(rows, m.id);
      assert Find(rows, m.id).value == m;
      assert (id, m.id).0 == id && (id, m.id).1 == m.id;
    }
  }

  lemma UpstreamIff(t: Tables, rows: seq<Milestone>, id: Id, x: Input)
    ensures x in Upstream(t, rows, id)
       <==> exists e :: e in t.dependencies && e.0 == id && Find(rows, e.1).Some?
                          && x == Input(Find(rows, e.1).value.status, Find(rows, e.1).value.due)
  {
    hide Find;
    CollectIff((e: (Id, Id)) =>
      if e.0 == id && Find(rows, e.1).Some? then Some(Input(Find(rows, e.1).value.status, Find(rows, e.1).value.due)) else None,
      t.dependencies, x);
    if e :| e in t.dependencies && e.0 == id && Find(rows, e.1).Some?
            && x == Input(Find(rows, e.1).value.status, Find(rows, e.1).value.due) {
      assert (if e.0 == id && Find(rows, e.1).Some? then Some(Input(Find(rows, e.1).value.status, Find(rows, e.1).value.due)) else None)
          == Some(x);
    }
  }

  /** Milestones of the department that are neither done nor dropped and judged so. */
  ghost function AtThisRisk(t: Tables, assess: Assess, d: Id, risk: Risk): set<nat> {
    set i: nat | i < |t.milestones| && LivesIn(t, t.milestones[i], d)
                 && t.milestones[i].status in {Pending, InProgress}
                 && assess(Input(t.milestones[i].status, t.milestones[i].due),
                           Upstream(t, ScopedRows(t, d), t.milestones[i].id)) == risk
  }

  lemma RiskIsCounted(t: Tables, assess: Assess, d: Id, risk: Risk)
    requires UniqueProjects(t)
    ensures CountRisk(t, assess, ScopedRows(t, d), d, risk) == |AtThisRisk(t, assess, d, risk)|
  {
    hide LivesIn, DepartmentOf, Upstream, ScopedRows;
    var rows := ScopedRows(t, d);
    forall i: nat | i < |t.milestones|
      ensures Judged(t, assess, rows, d, risk, t.milestones[i]) <==> i in AtThisRisk(t, assess, d, risk)
    {
      DepartmentsAreOfLiveProjects(t, t.milestones[i], d);
    }
    CountIfIsASet(t.milestones, m => Judged(t, assess, rows, d, risk, m), AtThisRisk(t, assess, d, risk));
  }

  /** Milestones of the department that were done or dropped on a known day. */
  ghost function Finished(t: Tables, d: Id, inTime: bool): set<nat> {
    set i: nat | i < |t.milestones| && LivesIn(t, t.milestones[i], d) && t.milestones[i].status in {Done, Dropped}
                 && t.milestones[i].completedOn.Some? && (inTime ==> t.milestones[i].completedOn.value <= t.milestones[i].due)
  }

  lemma CompletionIsCounted(t: Tables, d: Id)
    requires UniqueProjects(t)
    ensures CountIf(t.milestones, m => DepartmentOf(t, m) == Some(d) && Completed(m)) == |Finished(t, d, false)|
    ensures CountIf(t.milestones, m => DepartmentOf(t, m) == Some(d) && Completed(m) && m.completedOn.value <= m.due)
         == |Finished(t, d, true)|
  {
    hide LivesIn, DepartmentOf;
    forall m: Milestone ensures DepartmentOf(t, m) == Some(d) <==> LivesIn(t, m, d) { DepartmentsAreOfLiveProjects(t, m, d); }
    CountIfIsASet(t.milestones, m => DepartmentOf(t, m) == Some(d) && Completed(m), Finished(t, d, false));
    CountIfIsASet(t.milestones, m => DepartmentOf(t, m) == Some(d) && Completed(m) && m.completedOn.value <= m.due,
                  Finished(t, d, true));
  }

  /** Active people of the department in one of these roles. */
  function Working(t: Tables, d: Id, roles: set<Role>): set<nat> {
    set i: nat | i < |t.people| && t.people[i].isActive && t.people[i].department == Some(d) && t.people[i].role in roles
  }

  lemma MembersAreWorking(t: Tables, d: Id, role: Role)
    ensures Members(t, d, role) == |Working(t, d, {role})|
  {
    CountIfIsASet(t.people, p => Counts(p, d, role), Working(t, d, {role}));
  }

  /** Publications with an author in the department. */
  ghost function Signed(t: Tables, d: Id): set<Id> {
    set p | p in t.publications
      && exists a :: a in t.authors && a.0 == p && exists u :: u in t.people && u.id == a.1 && u.department == Some(d)
  }

  /** Profiles that wait for verification and belong to active people of the department. */
  ghost function Waiting(t: Tables, d: Id): set<nat> {
    set i: nat | i < |t.profiles| && t.profiles[i].1
      && exists u :: u in t.people && u.id == t.profiles[i].0 && u.isActive && u.department == Some(d)
  }

  /** Active projects of the department that are not deleted. */
  function Running(t: Tables, d: Id): set<nat> {
    set i: nat | i < |t.projects| && !t.projects[i].deleted && t.projects[i].active && t.projects[i].department == Some(d)
  }

  lemma PublicationsAreSigned(t: Tables, d: Id)
    requires Distinct(t.publications)
    ensures ScopedPublications(t, d) == |Signed(t, d)|
  {
    var f := (p: Id) => Authored(t, p, d);
    CountIsCardinality(t.publications, f);
    CountIfSame(t.publications, f, (p: Id) => Authored(t, p, d));
    assert Signed(t, d) == set p | p in t.publications && f(p);
  }

  lemma PendingAreWaiting(t: Tables, d: Id)
    ensures ScopedPending(t, d) == |Waiting(t, d)|
  {
    var f := (p: (Id, bool)) => p.1 && exists u | u in t.people :: u.id == p.0 && u.isActive && u.department == Some(d);
    CountIfIsASet(t.profiles, f, Waiting(t, d));
    CountIfSame(t.profiles, f, (p: (Id, bool)) => p.1 && exists u | u in t.people :: u.id == p.0 && u.isActive && u.department == Some(d));
  }

  lemma ActiveAreRunning(t: Tables, d: Id)
    ensures ScopedProjects(t, d) == |Running(t, d)|
  {
    var f := (p: Project) => !p.deleted && p.department == Some(d) && p.active;
    CountIfIsASet(t.projects, f, Running(t, d));
    CountIfSame(t.projects, f, (p: Project) => !p.deleted && p.department == Some(d) && p.active);
  }

  /** What a row of the comparison says, figure by figure, over the tables. */
  lemma RowsSayWhatIs(t: Tables, assess: Assess, d: Id)
    requires UniqueProjects(t) && Distinct(t.publications)
    ensures var row := ScopedRow(t, assess, d);
            && row.department == d
            && row.researchers == |Working(t, d, {Faculty, Coordinator})| && row.students == |Working(t, d, {Student})|
            && row.projectsActive == |Running(t, d)| && row.publications == |Signed(t, d)| && row.pending == |Waiting(t, d)|
            && row.overdue == |AtThisRisk(t, assess, d, Overdue)| && row.atRisk == |AtThisRisk(t, assess, d, AtRisk)|
  {
    hide CountRisk, AtThisRisk, Members, ScopedPending, ScopedProjects, ScopedPublications, UniqueProjects;
    MembersAreWorking(t, d, Faculty);
    MembersAreWorking(t, d, Coordinator);
    MembersAreWorking(t, d, Student);
    assert Working(t, d, {Faculty, Coordinator}) == Working(t, d, {Faculty}) + Working(t, d, {Coordinator});
    ActiveAreRunning(t, d);
    PublicationsAreSigned(t, d);
    PendingAreWaiting(t, d);
    RiskIsCounted(t, assess, d, Overdue);
    RiskIsCounted(t, assess, d, AtRisk);
  }
}
