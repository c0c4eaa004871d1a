/** The collaboration network: an undirected weighted graph built in a dictionary from
    publications, project teams and accepted requests. */
module Network {
  import opened Base
  import opened Sorting

  datatype Kind = CoAuthorship | ProjectTeam | Collaboration

  /** An unordered pair of people, written with the smaller identifier first. */
  type Key = (Id, Id)

  datatype Edge = Edge(kinds: set<Kind>, weight: nat)

  type Edges = map<Key, Edge>

  /** The rows the queries read. `people` are the visible ones, each once. */
  datatype Tables = Tables(
    people: seq<Id>,
    authors: seq<(Id, Option<Id>)>,
    projects: seq<(Id, Id, bool)>,
    members: seq<(Id, Id)>,
    requests: seq<(Id, Id, bool)>)

  // ----- what the queries return -----

  function VisibleAuthors(t: Tables): seq<(Id, Id)> {
    Collect((r: (Id, Option<Id>)) => if r.1.Some? && r.1.value in t.people then Some((r.0, r.1.value)) else None, t.authors)
  }

  /** Owners of projects that are not deleted, then members of any project. */
  function VisibleTeams(t: Tables): seq<(Id, Id)> {
    Collect((r: (Id, Id, bool)) => if !r.2 && r.1 in t.people then Some((r.0, r.1)) else None, t.projects)
    + Collect((r: (Id, Id)) => if r.1 in t.people then Some(r) else None, t.members)
  }

  function VisibleAccepted(t: Tables): seq<Key> {
    Collect((r: (Id, Id, bool)) => if r.2 && r.0 in t.people && r.1 in t.people then Some((r.0, r.1)) else None, t.requests)
  }

  // ----- grouping rows, `setdefault(id, []).append(user)` -----

  datatype Group = Group(id: Id, members: seq<Id>)

  function Put(groups: seq<Group>, id: Id, user: Id): seq<Group> {
    if groups == [] then [Group(id, [user])]
    else if groups[0].id == id then [Group(id, groups[0].members + [user])] + groups[1..]
    else [groups[0]] + Put(groups[1..], id, user)
  }

  ghost predicate InGroup(groups: seq<Group>, id: Id, user: Id) {
    exists i :: 0 <= i < |groups| && groups[i].id == id && user in groups[i].members
  }

  ghost predicate OneGroupEach(groups: seq<Group>) {
    forall i, j | 0 <= i < j < |groups| :: groups[i].id != groups[j].id
  }

  lemma {:induction false} PutAddsOne(groups: seq<Group>, id: Id, user: Id)
    requires OneGroupEach(groups)
    ensures OneGroupEach(Put(groups, id, user))
    ensures forall x: Id, u: Id :: InGroup(Put(groups, id, user), x, u) <==> InGroup(groups, x, u) || (x == id && u == user)
    ensures forall g | g in Put(groups, id, user) :: g.id == id || exists h :: h in groups && h.id == g.id
  {
    if groups != [] && groups[0].id != id {
      var rest := groups[1..];
      PutAddsOne(rest, id, user);
      var r := Put(groups, id, user);
      assert r == [groups[0]] + Put(rest, id, user);
      forall j | 0 < j < |r| ensures r[0].id != r[j].id {
        assert r[j] in Put(rest, id, user);
      }
      forall x: Id, u: Id ensures InGroup(r, x, u) <==> InGroup(groups, x, u) || (x == id && u == user) {
        InGroupSplits(r, x, u);
        InGroupSplits(groups, x, u);
      }
    } else {
      var r := Put(groups, id, user);
      forall x: Id, u: Id ensures InGroup(r, x, u) <==> InGroup(groups, x, u) || (x == id && u == user) {
        InGroupSplits(r, x, u);
        if groups != [] {
          InGroupSplits(groups, x, u);
          assert r[1..] == groups[1..];
        }
      }
    }
  }

  lemma InGroupSplits(groups: seq<Group>, id: Id, user: Id)
    requires groups != []
    ensures InGroup(groups, id, user)
       <==> (groups[0].id == id && user in groups[0].members) || InGroup(groups[1..], id, user)
  {
    var rest := groups[1..];
    if i :| 0 <= i < |groups| && groups[i].id == id && user in groups[i].members {
      if i > 0 { assert rest[i - 1] == groups[i]; }
    }
    if i :| 0 <= i < |rest| && rest[i].id == id && user in rest[i].members {
      assert groups[i + 1] == rest[i];
    }
  }

  /** Groups of a list of rows: one per identifier, holding exactly its users. */
  method GroupRows(rows: seq<(Id, Id)>) returns (groups: seq<Group>)
    ensures OneGroupEach(groups)
    ensures forall x: Id, u: Id :: InGroup(groups, x, u) <==> (x, u) in rows
    ensures forall g | g in groups :: g.members != []
  {
    groups := [];
    for i := 0 to |rows|
      invariant OneGroupEach(groups)
      invariant forall x: Id, u: Id :: InGroup(groups, x, u) <==> (x, u) in rows[..i]
      invariant forall g | g in groups :: g.members != []
    {
      PutAddsOne(groups, rows[i].0, rows[i].1);
      PutIsNonEmpty(groups, rows[i].0, rows[i].1);
      assert rows[..i + 1] == rows[..i] + [rows[i]];
      groups := Put(groups, rows[i].0, rows[i].1);
    }
    assert rows[..|rows|] == rows;
  }

  lemma {:induction false} PutIsNonEmpty(groups: seq<Group>, id: Id, user: Id)
    requires forall g | g in groups :: g.members != []
    ensures forall g | g in Put(groups, id, user) :: g.members != []
  {
    if groups != [] && groups[0].id != id {
      PutIsNonEmpty(groups[1..], id, user);
    }
  }

  ghost predicate Increasing(s: seq<Id>) {
    forall i, j | 0 <= i < j < |s| :: s[i] < s[j]
  }

  function InsertId(x: Id, s: seq<Id>): (r: seq<Id>)
    ensures forall y :: y in r <==> y == x || y in s
  {
    if s == [] || x < s[0] then [x] + s
    else if x == s[0] then s
    else
      assert s == [s[0]] + s[1..];
      [s[0]] + InsertId(x, s[1..])
  }

  /** `sorted(set(members))`. */
  function SortedSet(members: seq<Id>): (s: seq<Id>)
    ensures forall x :: x in s <==> x in members
  {
    if members == [] then []
    else
      assert members == [members[0]] + members[1..];
      InsertId(members[0], SortedSet(members[1..]))
  }

  lemma {:induction false} InsertIdIncreases(x: Id, s: seq<Id>)
    requires Increasing(s)
    ensures Increasing(InsertId(x, s))
  {
    if s != [] && x > s[0] {
      InsertIdIncreases(x, s[1..]);
      var rest := InsertId(x, s[1..]);
      forall i | 0 <= i < |rest| ensures s[0] < rest[i] {
        assert rest[i] in rest;
      }
    }
  }

  lemma {:induction false} SortedSetIncreases(members: seq<Id>)
    ensures Increasing(SortedSet(members))
  {
    if members != [] {
      SortedSetIncreases(members[1..]);
      InsertIdIncreases(members[0], SortedSet(members[1..]));
    }
  }

  // ----- weights -----

  function WeightOf(e: Edges, k: Key): nat { if k in e then e[k].weight else 0 }

  function KindsOf(e: Edges, k: Key): set<Kind> { if k in e then e[k].kinds else {} }

  /** Keys are ordered, so there are no self-edges and one edge per pair; every edge
      weighs something and says why. */
  ghost predicate Proper(e: Edges) {
    forall k | k in e :: k.0 < k.1 && e[k].weight > 0 && e[k].kinds != {}
  }

  ghost function Total(e: Edges): nat {
    if e == map[] then 0
    else
      var k :| k in e;
      e[k].weight + Total(e - {k})
  }

  lemma {:induction false} TotalWithout(e: Edges, k: Key)
    requires k in e
    ensures Total(e) == e[k].weight + Total(e - {k})
    decreases |e|
  {
    var c :| c in e && Total(e) == e[c].weight + Total(e - {c});
    if c != k {
      TotalWithout(e - {c}, k);
      TotalWithout(e - {k}, c);
      assert e - {c} - {k} == e - {k} - {c};
    }
  }

  lemma TotalUpdate(e: Edges, k: Key, x: Edge)
    ensures Total(e[k := x]) == Total(e) - WeightOf(e, k) + x.weight
  {
    TotalWithout(e[k := x], k);
    assert e[k := x] - {k} == e - {k};
    if k in e {
      TotalWithout(e, k);
    } else {
      assert e - {k} == e;
    }
  }

  /** Pairs among n people. */
  function Choose2(n: nat): nat {
    if n == 0 then 0 else Choose2(n - 1) + n - 1
  }

  function PairsIn(groups: seq<Group>): nat {
    if groups == [] then 0
    else PairsIn(groups[..|groups| - 1]) + Choose2(|SortedSet(groups[|groups| - 1].members)|)
  }

  function Together(g: Group, k: Key): nat {
    if k.0 in g.members && k.1 in g.members then 1 else 0
  }

  /** How many groups hold both people. */
  function SharedBy(groups: seq<Group>, k: Key): nat {
    if groups == [] then 0
    else SharedBy(groups[..|groups| - 1], k) + Together(groups[|groups| - 1], k)
  }

  /** How many links are between the two people, in either direction. */
  function LinksBetween(links: seq<Key>, k: Key): nat {
    if links == [] then 0
    else
      var l := links[|links| - 1];
      LinksBetween(links[..|links| - 1], k) + if l == k || l == (k.1, k.0) then 1 else 0
  }

  function TrueLinks(links: seq<Key>): nat {
    if links == [] then 0
    else TrueLinks(links[..|links| - 1]) + if links[|links| - 1].0 != links[|links| - 1].1 then 1 else 0
  }

  function Why(n: nat, kind: Kind): set<Kind> { if n > 0 then {kind} else {} }

  /** 1 when the pair k is the pair of a and b. */
  function One(a: Id, b: Id, k: Key): nat {
    if k == (a, b) || k == (b, a) then 1 else 0
  }

  /** From e to f, each pair gained n(k) in weight, and the kind if that is anything. */
  ghost predicate Gains(e: Edges, f: Edges, n: Key -> nat, kind: Kind) {
    forall k: Key | k.0 < k.1 ::
      WeightOf(f, k) == WeightOf(e, k) + n(k) && KindsOf(f, k) == KindsOf(e, k) + Why(n(k), kind)
  }

  lemma GainsAdd(e: Edges, f: Edges, g: Edges, m: Key -> nat, n: Key -> nat, sum: Key -> nat, kind: Kind)
    requires Gains(e, f, m, kind) && Gains(f, g, n, kind)
    requires forall k: Key | k.0 < k.1 :: sum(k) == m(k) + n(k)
    ensures Gains(e, g, sum, kind)
  {
    forall k: Key | k.0 < k.1
      ensures WeightOf(g, k) == WeightOf(e, k) + sum(k) && KindsOf(g, k) == KindsOf(e, k) + Why(sum(k), kind)
    {
      assert WeightOf(f, k) == WeightOf(e, k) + m(k) && WeightOf(g, k) == WeightOf(f, k) + n(k);
    }
  }

  function Star(x: Id, ys: seq<Id>): seq<Key> {
    if ys == [] then [] else [(x, ys[0])] + Star(x, ys[1..])
  }

  /** `combinations(s, 2)`. */
  function Combinations(s: seq<Id>): seq<Key> {
    if s == [] then [] else Star(s[0], s[1..]) + Combinations(s[1..])
  }

  function Pairs(members: seq<Id>): seq<Key> {
    Combinations(SortedSet(members))
  }

  lemma {:induction false} LinksAppend(a: seq<Key>, b: seq<Key>, k: Key)
    ensures LinksBetween(a + b, k) == LinksBetween(a, k) + LinksBetween(b, k)
    ensures TrueLinks(a + b) == TrueLinks(a) + TrueLinks(b)
    decreases |b|
  {
    if b == [] {
      assert a + b == a;
    } else {
      assert (a + b)[..|a + b| - 1] == a + b[..|b| - 1];
      LinksAppend(a, b[..|b| - 1], k);
    }
  }

  lemma LinksStep(links: seq<Key>, i: nat)
    requires i < |links|
    ensures forall k: Key :: LinksBetween(links[..i + 1], k) == LinksBetween(links[..i], k) + One(links[i].0, links[i].1, k)
    ensures TrueLinks(links[..i + 1]) == TrueLinks(links[..i]) + if links[i].0 != links[i].1 then 1 else 0
  {
    assert links[..i + 1][..i] == links[..i];
  }

  lemma OneLink(l: Key, k: Key)
    ensures LinksBetween([l], k) == if l == k || l == (k.1, k.0) then 1 else 0
    ensures TrueLinks([l]) == if l.0 != l.1 then 1 else 0
  {
    assert [l][..0] == [];
  }

  lemma NoLinks(k: Key)
    ensures LinksBetween([], k) == 0 && TrueLinks([]) == 0
  {
  }

  lemma {:induction false} StarLinks(x: Id, ys: seq<Id>, k: Key)
    requires (forall y | y in ys :: x < y) && Increasing(ys) && k.0 < k.1
    ensures LinksBetween(Star(x, ys), k) == if k.0 == x && k.1 in ys then 1 else 0
    ensures TrueLinks(Star(x, ys)) == |ys|
  {
    hide LinksBetween, TrueLinks;
    if ys == [] {
      NoLinks(k);
    } else {
      assert ys == [ys[0]] + ys[1..];
      assert ys[0] in ys && forall y | y in ys[1..] :: y in ys;
      StarLinks(x, ys[1..], k);
      LinksAppend([(x, ys[0])], Star(x, ys[1..]), k);
      OneLink((x, ys[0]), k);
      assert forall y | y in ys[1..] :: ys[0] < y;
    }
  }

  /** Each pair of members is produced once, whichever way the members were listed. */
  lemma {:induction false} CombinationsLinks(s: seq<Id>, k: Key)
    requires Increasing(s) && k.0 < k.1
    ensures LinksBetween(Combinations(s), k) == if k.0 in s && k.1 in s then 1 else 0
    ensures TrueLinks(Combinations(s)) == Choose2(|s|)
  {
    hide LinksBetween, TrueLinks, Star;
    if s == [] {
      NoLinks(k);
    } else {
      assert s == [s[0]] + s[1..];
      assert forall y | y in s[1..] :: s[0] < y;
      CombinationsLinks(s[1..], k);
      StarLinks(s[0], s[1..], k);
      LinksAppend(Star(s[0], s[1..]), Combinations(s[1..]), k);
    }
  }

  function Ordered(a: Id, b: Id): Key { if a < b then (a, b) else (b, a) }

  function Added(e: Edges, a: Id, b: Id, kind: Kind): Edges {
    var key := Ordered(a, b);
    e[key := Edge(KindsOf(e, key) + {kind}, WeightOf(e, key) + 1)]
  }

  lemma AddedGains(e: Edges, a: Id, b: Id, kind: Kind)
    requires a != b
    ensures Gains(e, Added(e, a, b, kind), k => One(a, b, k), kind)
  {
    forall k: Key | k.0 < k.1
      ensures WeightOf(Added(e, a, b, kind), k) == WeightOf(e, k) + One(a, b, k)
      ensures KindsOf(Added(e, a, b, kind), k) == KindsOf(e, k) + Why(One(a, b, k), kind)
    {
      assert One(a, b, k) == if k == Ordered(a, b) then 1 else 0;
    }
  }

  lemma NothingGained(e: Edges, n: Key -> nat, kind: Kind)
    requires forall k: Key | k.0 < k.1 :: n(k) == 0
    ensures Gains(e, e, n, kind)
  {
  }

  lemma AddedIsProper(e: Edges, a: Id, b: Id, kind: Kind)
    requires Proper(e) && a != b
    ensures Proper(Added(e, a, b, kind)) && Total(Added(e, a, b, kind)) == Total(e) + 1
  {
    var key := Ordered(a, b);
    TotalUpdate(e, key, Edge(KindsOf(e, key) + {kind}, WeightOf(e, key) + 1));
  }

  class Graph {
    var edges: Edges

    constructor ()
      ensures edges == map[]
    {
      edges := map[];
    }

    method Add(a: Id, b: Id, kind: Kind)
      requires Proper(edges)
      modifies this
      ensures Proper(edges)
      ensures Total(edges) == old(Total(edges)) + if a != b then 1 else 0
      ensures Gains(old(edges), edges, k => One(a, b, k), kind)
    {
      hide Gains, Proper, Total;
      if a == b {
        NothingGained(edges, k => One(a, b, k), kind);
        return;
      }
      var key := if a < b then (a, b) else (b, a);
      var edge := Edge({}, 0);
      if key in edges {
        edge := edges[key];
      }
      edge := edge.(kinds := edge.kinds + {kind});
      edge := edge.(weight := edge.weight + 1);
      AddedGains(edges, a, b, kind);
      AddedIsProper(edges, a, b, kind);
      edges := edges[key := edge];
      assert edges == Added(old(edges), a, b, kind);
    }

    method AddLinks(links: seq<Key>, kind: Kind)
      requires Proper(edges)
      modifies this
      ensures Proper(edges)
      ensures Total(edges) == old(Total(edges)) + TrueLinks(links)
      ensures Gains(old(edges), edges, k => LinksBetween(links, k), kind)
    {
      ghost var before := edges;
      for i := 0 to |links|
        invariant Proper(edges)
        invariant Total(edges) == Total(before) + TrueLinks(links[..i])
        invariant Gains(before, edges, k => LinksBetween(links[..i], k), kind)
      {
        ghost var middle := edges;
        LinksStep(links, i);
        hide Gains, Proper, Total, LinksBetween, TrueLinks;
        Add(links[i].0, links[i].1, kind);
        GainsAdd(before, middle, edges, k => LinksBetween(links[..i], k), k => One(links[i].0, links[i].1, k),
                 k => LinksBetween(links[..i + 1], k), kind);
      }
      assert links[..|links|] == links;
    }

    method AddGroups(groups: seq<Group>, kind: Kind)
      requires Proper(edges)
      modifies this
      ensures Proper(edges)
      ensures Total(edges) == old(Total(edges)) + PairsIn(groups)
      ensures Gains(old(edges), edges, k => SharedBy(groups, k), kind)
    {
      ghost var before := edges;
      for i := 0 to |groups|
        invariant Proper(edges)
        invariant Total(edges) == Total(before) + PairsIn(groups[..i])
        invariant Gains(before, edges, k => SharedBy(groups[..i], k), kind)
      {
        ghost var middle := edges;
        assert groups[..i + 1][..i] == groups[..i];
        AddLinks(Pairs(groups[i].members), kind);
        SortedSetIncreases(groups[i].members);
        forall k: Key | k.0 < k.1
          ensures LinksBetween(Pairs(groups[i].members), k) == Together(groups[i], k)
        {
          CombinationsLinks(SortedSet(groups[i].members), k);
        }
        CombinationsLinks(SortedSet(groups[i].members), (0, 1));
        GainsAdd(before, middle, edges, k => SharedBy(groups[..i], k), k => LinksBetween(Pairs(groups[i].members), k),
                 k => SharedBy(groups[..i + 1], k), kind);
      }
      assert groups[..|groups|] == groups;
    }

    /** Builds the graph. Its weights are those of the rows themselves: a pair weighs one
        for each publication that names both, one for each project team that holds both,
        and one for each accepted request between them. */
    method Build(t: Tables) returns (publications: seq<Group>, teams: seq<Group>)
      requires edges == map[]
      modifies this
      ensures Proper(edges)
      ensures forall k: Key | k.0 < k.1 :: WeightOf(edges, k) == Weight(t, k) && KindsOf(edges, k) == Kinds(t, k)
      ensures Holds(publications, VisibleAuthors(t)) && Holds(teams, VisibleTeams(t))
      ensures Total(edges) == PairsIn(publications) + PairsIn(teams) + TrueLinks(VisibleAccepted(t))
    {
      publications := GroupRows(VisibleAuthors(t));
      AddGroups(publications, CoAuthorship);
      ghost var first := edges;
      teams := GroupRows(VisibleTeams(t));
      AddGroups(teams, ProjectTeam);
      ghost var second := edges;
      hide Total, Proper, Gains, PairsIn, TrueLinks;
      AddLinks(VisibleAccepted(t), Collaboration);
      WeightsAddUp(t, publications, teams, first, second, edges);
    }
  }

  // ----- the reference -----

  /** The identifiers under which both people have a row. */
  ghost function Common(rows: seq<(Id, Id)>, k: Key): set<Id> {
    set r | r in rows && r.1 == k.0 && (r.0, k.1) in rows :: r.0
  }

  ghost function Weight(t: Tables, k: Key): nat {
    |Common(VisibleAuthors(t), k)| + |Common(VisibleTeams(t), k)| + LinksBetween(VisibleAccepted(t), k)
  }

  ghost function Kinds(t: Tables, k: Key): set<Kind> {
    Why(|Common(VisibleAuthors(t), k)|, CoAuthorship)
    + Why(|Common(VisibleTeams(t), k)|, ProjectTeam)
    + Why(LinksBetween(VisibleAccepted(t), k), Collaboration)
  }

  /** One group per identifier, holding exactly the users of its rows. */
  ghost predicate Holds(groups: seq<Group>, rows: seq<(Id, Id)>) {
    OneGroupEach(groups) && forall x: Id, u: Id :: InGroup(groups, x, u) <==> (x, u) in rows
  }

  predicate Holding(groups: seq<Group>, k: Key, i: nat)
    requires i < |groups|
  {
    k.0 in groups[i].members && k.1 in groups[i].members
  }

  ghost function SharedIds(groups: seq<Group>, k: Key): set<Id> {
    set i | 0 <= i < |groups| && Holding(groups, k, i) :: groups[i].id
  }

  lemma SharedIdsStep(groups: seq<Group>, k: Key)
    requires OneGroupEach(groups) && groups != []
    ensures var n := |groups| - 1;
            |SharedIds(groups, k)| == |SharedIds(groups[..n], k)| + Together(groups[n], k)
  {
    var n := |groups| - 1;
    var before, after, last := SharedIds(groups[..n], k), SharedIds(groups, k), groups[n].id;
    assert forall i | 0 <= i < n :: groups[..n][i] == groups[i] && groups[i].id != last;
    assert last !in before;
    forall x | x in after ensures x in before || (x == last && Together(groups[n], k) == 1) {
      var i :| 0 <= i < |groups| && Holding(groups, k, i) && groups[i].id == x;
      if i < n { assert Holding(groups[..n], k, i); }
    }
    forall x | x in before ensures x in after {
      var i :| 0 <= i < n && Holding(groups[..n], k, i) && groups[..n][i].id == x;
      assert Holding(groups, k, i);
    }
    if Together(groups[n], k) == 1 {
      assert Holding(groups, k, n);
      assert after == before + {last};
    } else {
      assert after == before;
    }
  }

  lemma {:induction false} SharedIdsCount(groups: seq<Group>, k: Key)
    requires OneGroupEach(groups)
    ensures |SharedIds(groups, k)| == SharedBy(groups, k)
    decreases |groups|
  {
    if groups == [] {
      assert SharedIds(groups, k) == {};
    } else {
      SharedIdsStep(groups, k);
      hide SharedIds;
      SharedIdsCount(groups[..|groups| - 1], k);
    }
  }

  lemma SharedIsCounted(groups: seq<Group>, rows: seq<(Id, Id)>, k: Key)
    requires Holds(groups, rows)
    ensures SharedBy(groups, k) == |Common(rows, k)|
  {
    SharedIdsCount(groups, k);
    forall x ensures x in SharedIds(groups, k) <==> x in Common(rows, k) {
      if x in SharedIds(groups, k) {
        var i :| 0 <= i < |groups| && Holding(groups, k, i) && groups[i].id == x;
        assert InGroup(groups, x, k.0) && InGroup(groups, x, k.1);
        assert (x, k.0) in rows && (x, k.1) in rows;
      }
      if x in Common(rows, k) {
        assert (x, k.0) in rows && (x, k.1) in rows;
        assert InGroup(groups, x, k.0) && InGroup(groups, x, k.1);
        var i :| 0 <= i < |groups| && groups[i].id == x && k.0 in groups[i].members;
        var j :| 0 <= j < |groups| && groups[j].id == x && k.1 in groups[j].members;
        assert i == j && Holding(groups, k, i);
      }
    }
    assert SharedIds(groups, k) == Common(rows, k);
  }

  lemma WeightsAddUp(t: Tables, publications: seq<Group>, teams: seq<Group>, first: Edges, second: Edges, third: Edges)
    requires Holds(publications, VisibleAuthors(t)) && Holds(teams, VisibleTeams(t))
    requires Gains(map[], first, k => SharedBy(publications, k), CoAuthorship)
    requires Gains(first, second, k => SharedBy(teams, k), ProjectTeam)
    requires Gains(second, third, k => LinksBetween(VisibleAccepted(t), k), Collaboration)
    ensures forall k: Key | k.0 < k.1 :: WeightOf(third, k) == Weight(t, k) && KindsOf(third, k) == Kinds(t, k)
  {
    hide VisibleAuthors, VisibleTeams, VisibleAccepted, Common, SharedBy, LinksBetween, Holds;
    forall k: Key | k.0 < k.1 ensures WeightOf(third, k) == Weight(t, k) && KindsOf(third, k) == Kinds(t, k) {
      SharedIsCounted(publications, VisibleAuthors(t), k);
      SharedIsCounted(teams, VisibleTeams(t), k);
      assert WeightOf(first, k) == SharedBy(publications, k)
          && KindsOf(first, k) == Why(SharedBy(publications, k), CoAuthorship);
      assert WeightOf(second, k) == WeightOf(first, k) + SharedBy(teams, k)
          && KindsOf(second, k) == KindsOf(first, k) + Why(SharedBy(teams, k), ProjectTeam);
    }
  }

  // ----- the weights over the tables -----

  /** Publications that name both people, as rows of the table. */
  ghost function Papers(t: Tables, k: Key): set<Id> {
    set r | r in t.authors && r.1 == Some(k.0) && (r.0, Some(k.1)) in t.authors :: r.0
  }

  /** The person is on the team: a member, or the owner of a project that is not deleted. */
  predicate OnTeam(t: Tables, project: Id, u: Id) {
    (project, u) in t.members || (project, u, false) in t.projects
  }

  ghost function Teams(t: Tables, k: Key): set<Id> {
    var ids := (set m | m in t.members :: m.0) + (set p | p in t.projects :: p.0);
    set x | x in ids && OnTeam(t, x, k.0) && OnTeam(t, x, k.1)
  }

  /** Accepted requests between the two, whoever sent them, by row. */
  ghost function Agreements(t: Tables, k: Key): set<nat> {
    set i: nat | i < |t.requests| && t.requests[i].2
                 && ((t.requests[i].0, t.requests[i].1) == k || (t.requests[i].1, t.requests[i].0) == k)
  }

  lemma VisibleRows(t: Tables, x: Id, u: Id)
    ensures (x, u) in VisibleAuthors(t) <==> (x, Some(u)) in t.authors && u in t.people
    ensures (x, u) in VisibleTeams(t) <==> OnTeam(t, x, u) && u in t.people
  {
    CollectIff((r: (Id, Option<Id>)) => if r.1.Some? && r.1.value in t.people then Some((r.0, r.1.value)) else None, t.authors, (x, u));
    CollectIff((r: (Id, Id, bool)) => if !r.2 && r.1 in t.people then Some((r.0, r.1)) else None, t.projects, (x, u));
    CollectIff((r: (Id, Id)) => if r.1 in t.people then Some(r) else None, t.members, (x, u));
    AuthorRow(t, x, u);
    OwnerRow(t, x, u);
    MemberRow(t, x, u);
  }

  lemma AuthorRow(t: Tables, x: Id, u: Id)
    ensures (exists r :: r in t.authors && (if r.1.Some? && r.1.value in t.people then Some((r.0, r.1.value)) else None) == Some((x, u)))
       <==> (x, Some(u)) in t.authors && u in t.people
  {
    if (x, Some(u)) in t.authors && u in t.people {
      var r := (x, Some(u));
      assert r in t.authors;
    }
  }

  lemma OwnerRow(t: Tables, x: Id, u: Id)
    ensures (exists r :: r in t.projects && (if !r.2 && r.1 in t.people then Some((r.0, r.1)) else None) == Some((x, u)))
       <==> (x, u, false) in t.projects && u in t.people
  {
    if (x, u, false) in t.projects && u in t.people {
      var r := (x, u, false);
      assert r in t.projects;
    }
  }

  lemma MemberRow(t: Tables, x: Id, u: Id)
    ensures (exists r :: r in t.members && (if r.1 in t.people then Some(r) else None) == Some((x, u)))
       <==> (x, u) in t.members && u in t.people
  {
  }

  lemma OneMoreLink(links: seq<Key>, link: Option<Key>, k: Key)
    ensures LinksBetween(links + (if link.Some? then [link.value] else []), k) ==
              LinksBetween(links, k) + if link == Some(k) || link == Some((k.1, k.0)) then 1 else 0
  {
    if link.Some? {
      LinksAppend(links, [link.value], k);
      OneLink(link.value, k);
    } else {
      assert links + [] == links;
    }
  }

  lemma CollectOneMore(f: ((Id, Id, bool)) -> Option<Key>, rows: seq<(Id, Id, bool)>, r: (Id, Id, bool))
    ensures Collect(f, rows + [r]) == Collect(f, rows) + if f(r).Some? then [f(r).value] else []
  {
    CollectAppends(f, rows, [r]);
    assert Collect(f, [r]) == (if f(r).Some? then [f(r).value] else []) + Collect(f, [r][1..]);
    assert [r][1..] == [];
  }

  ghost function AgreementsBefore(t: Tables, k: Key, n: nat): set<nat> { set i | i in Agreements(t, k) && i < n }

  lemma OneMoreAgreement(t: Tables, k: Key, n: nat)
    requires k.0 in t.people && k.1 in t.people && n < |t.requests|
    ensures var r := t.requests[n];
            var link := if r.2 && r.0 in t.people && r.1 in t.people then Some((r.0, r.1)) else None;
            |AgreementsBefore(t, k, n + 1)| ==
              |AgreementsBefore(t, k, n)| + if link == Some(k) || link == Some((k.1, k.0)) then 1 else 0
  {
    assert AgreementsBefore(t, k, n + 1) == AgreementsBefore(t, k, n) + if n in Agreements(t, k) then {n} else {};
  }

  lemma {:induction false} AgreementsAreLinks(t: Tables, f: ((Id, Id, bool)) -> Option<Key>, k: Key, n: nat)
    requires k.0 in t.people && k.1 in t.people && n <= |t.requests|
    requires forall r | r in t.requests ::
               f(r) == if r.2 && r.0 in t.people && r.1 in t.people then Some((r.0, r.1)) else None
    ensures LinksBetween(Collect(f, t.requests[..n]), k) == |AgreementsBefore(t, k, n)|
  {
    hide LinksBetween, Collect, Agreements;
    if n == 0 {
      assert AgreementsBefore(t, k, n) == {};
      NothingCollected(f, k);
    } else {
      hide AgreementsBefore;
      var r := t.requests[n - 1];
      AgreementsAreLinks(t, f, k, n - 1);
      assert t.requests[..n] == t.requests[..n - 1] + [r];
      CollectOneMore(f, t.requests[..n - 1], r);
      OneMoreLink(Collect(f, t.requests[..n - 1]), f(r), k);
      OneMoreAgreement(t, k, n - 1);
    }
  }

  lemma NothingCollected(f: ((Id, Id, bool)) -> Option<Key>, k: Key)
    ensures LinksBetween(Collect(f, []), k) == 0
  {
  }

  /** What an edge weighs and why, over the tables: nothing unless both people are visible, and
      then the publications that name both, the teams both are on, and the accepted requests
      between them. */
  lemma WeightsOverTheTables(t: Tables, k: Key)
    requires k.0 < k.1
    ensures var seen := k.0 in t.people && k.1 in t.people;
            && Weight(t, k) == (if seen then |Papers(t, k)| + |Teams(t, k)| + |Agreements(t, k)| else 0)
            && (CoAuthorship in Kinds(t, k) <==> seen && Papers(t, k) != {})
            && (ProjectTeam in Kinds(t, k) <==> seen && Teams(t, k) != {})
            && (Collaboration in Kinds(t, k) <==> seen && Agreements(t, k) != {})
  {
    hide VisibleAuthors, VisibleTeams, LinksBetween, Agreements, VisibleAccepted;
    var seen := k.0 in t.people && k.1 in t.people;
    forall x: Id, u: Id
      ensures (x, u) in VisibleAuthors(t) <==> (x, Some(u)) in t.authors && u in t.people
      ensures (x, u) in VisibleTeams(t) <==> OnTeam(t, x, u) && u in t.people
    {
      VisibleRows(t, x, u);
    }
    PapersAreCommon(t, k);
    TeamsAreCommon(t, k);
    LinksAreAgreements(t, k);
  }

  lemma PapersAreCommon(t: Tables, k: Key)
    requires forall x: Id, u: Id :: (x, u) in VisibleAuthors(t) <==> (x, Some(u)) in t.authors && u in t.people
    ensures Common(VisibleAuthors(t), k) == if k.0 in t.people && k.1 in t.people then Papers(t, k) else {}
  {
    hide VisibleAuthors;
    var c, papers := Common(VisibleAuthors(t), k), Papers(t, k);
    forall x ensures x in c <==> x in papers && k.0 in t.people && k.1 in t.people {
      if x in c { assert (x, k.0) in VisibleAuthors(t) && (x, Some(k.0)) in t.authors; }
      if x in papers && k.0 in t.people && k.1 in t.people {
        assert (x, Some(k.0)) in t.authors && (x, Some(k.1)) in t.authors;
        assert (x, k.0) in VisibleAuthors(t) && (x, k.1) in VisibleAuthors(t);
      }
    }
  }

  lemma TeamsAreCommon(t: Tables, k: Key)
    requires forall x: Id, u: Id :: (x, u) in VisibleTeams(t) <==> OnTeam(t, x, u) && u in t.people
    ensures Common(VisibleTeams(t), k) == if k.0 in t.people && k.1 in t.people then Teams(t, k) else {}
  {
    hide VisibleTeams;
    var c, teams := Common(VisibleTeams(t), k), Teams(t, k);
    forall x ensures x in c <==> x in teams && k.0 in t.people && k.1 in t.people {
      if x in c {
        assert (x, k.0) in VisibleTeams(t) && (x, k.1) in VisibleTeams(t);
        TeamsHaveIds(t, x, k.0);
      }
      if x in teams && k.0 in t.people && k.1 in t.people {
        assert (x, k.0) in VisibleTeams(t) && (x, k.1) in VisibleTeams(t);
      }
    }
  }

  lemma TeamsHaveIds(t: Tables, x: Id, u: Id)
    requires OnTeam(t, x, u)
    ensures x in (set m | m in t.members :: m.0) + (set p | p in t.projects :: p.0)
  {
    if (x, u) in t.members { assert (x, u).0 in (set m | m in t.members :: m.0); }
    if (x, u, false) in t.projects { assert (x, u, false).0 in (set p | p in t.projects :: p.0); }
  }

  lemma LinksAreAgreements(t: Tables, k: Key)
    requires k.0 < k.1
    ensures LinksBetween(VisibleAccepted(t), k) == if k.0 in t.people && k.1 in t.people then |Agreements(t, k)| else 0
  {
    hide LinksBetween;
    if k.0 in t.people && k.1 in t.people {
      AgreementsAreLinks(t, (r: (Id, Id, bool)) => if r.2 && r.0 in t.people && r.1 in t.people then Some((r.0, r.1)) else None,
                         k, |t.requests|);
      assert t.requests[..|t.requests|] == t.requests;
      assert AgreementsBefore(t, k, |t.requests|) == Agreements(t, k);
    } else if LinksBetween(VisibleAccepted(t), k) > 0 {
      LinkedPeople(VisibleAccepted(t), k);
      RowsAreVisible(t);
    }
  }

  // ----- degrees -----

  /** `sum(1 for edge in edges.values() if id in (edge.source, edge.target))`. */
  function Degree(e: Edges, id: Id): nat {
    |set k | k in e && (k.0 == id || k.1 == id)|
  }

  function SumOfDegrees(e: Edges, people: seq<Id>): nat {
    if people == [] then 0 else Degree(e, people[0]) + SumOfDegrees(e, people[1..])
  }

  function Connected(e: Edges, id: Id): bool {
    exists k | k in e :: k.0 == id || k.1 == id
  }

  /** A person is connected exactly when their degree is positive. */
  lemma ConnectedIffDegree(e: Edges, id: Id)
    ensures Connected(e, id) <==> Degree(e, id) > 0
  {
    var touching := set k | k in e && (k.0 == id || k.1 == id);
    if Connected(e, id) {
      var k :| k in e && (k.0 == id || k.1 == id);
      assert k in touching;
    } else {
      assert touching == {};
    }
  }

  function Ends(k: Key, people: seq<Id>): nat {
    multiset(people)[k.0] + multiset(people)[k.1]
  }

  lemma {:induction false} DegreesWithout(e: Edges, k: Key, people: seq<Id>)
    requires k in e && k.0 != k.1
    ensures SumOfDegrees(e, people) == SumOfDegrees(e - {k}, people) + Ends(k, people)
  {
    if people != [] {
      DegreesWithout(e, k, people[1..]);
      assert people == [people[0]] + people[1..];
      var id := people[0];
      var here := set c | c in e && (c.0 == id || c.1 == id);
      var there := set c | c in e - {k} && (c.0 == id || c.1 == id);
      if k.0 == id || k.1 == id {
        assert here == there + {k};
      } else {
        assert here == there;
      }
    }
  }

  /** The degrees sum to twice the number of edges, whenever every end of every edge is
      listed once. */
  lemma {:induction false} Handshake(e: Edges, people: seq<Id>)
    requires Proper(e) && Distinct(people)
    requires forall k | k in e :: k.0 in people && k.1 in people
    ensures SumOfDegrees(e, people) == 2 * |e|
    decreases |e|
  {
    if e == map[] {
      NoEdgesNoDegrees(people);
    } else {
      var k :| k in e;
      DegreesWithout(e, k, people);
      DistinctCounts(people, k.0);
      DistinctCounts(people, k.1);
      assert k.0 in multiset(people) && k.1 in multiset(people);
      assert |e - {k}| == |e| - 1 by { assert (e - {k}).Keys == e.Keys - {k}; }
      Handshake(e - {k}, people);
    }
  }

  lemma {:induction false} NoEdgesNoDegrees(people: seq<Id>)
    ensures SumOfDegrees(map[], people) == 0
  {
    if people != [] { NoEdgesNoDegrees(people[1..]); }
  }

  /** In a graph with the weights of the tables, only visible people are joined, and the
      degrees shown for them sum to twice the number of edges. */
  lemma GraphIsAmongThePeople(t: Tables, e: Edges)
    requires Proper(e) && Distinct(t.people)
    requires forall k: Key | k.0 < k.1 :: WeightOf(e, k) == Weight(t, k)
    ensures forall k | k in e :: k.0 in t.people && k.1 in t.people
    ensures SumOfDegrees(e, t.people) == 2 * |e|
  {
    forall k | k in e ensures k.0 in t.people && k.1 in t.people {
      assert Weight(t, k) > 0;
      RowsAreVisible(t);
      if Common(VisibleAuthors(t), k) != {} {
        var x :| x in Common(VisibleAuthors(t), k);
        assert (x, k.0) in VisibleAuthors(t) && (x, k.1) in VisibleAuthors(t);
      } else if Common(VisibleTeams(t), k) != {} {
        var x :| x in Common(VisibleTeams(t), k);
        assert (x, k.0) in VisibleTeams(t) && (x, k.1) in VisibleTeams(t);
      } else {
        LinkedPeople(VisibleAccepted(t), k);
      }
    }
    Handshake(e, t.people);
  }

  lemma {:induction false} LinkedPeople(links: seq<Key>, k: Key)
    requires LinksBetween(links, k) > 0
    ensures k in links || (k.1, k.0) in links
    decreases |links|
  {
    var n := |links| - 1;
    if LinksBetween(links[..n], k) > 0 { LinkedPeople(links[..n], k); }
  }

  lemma RowsAreVisible(t: Tables)
    ensures forall r | r in VisibleAuthors(t) :: r.1 in t.people
    ensures forall r | r in VisibleTeams(t) :: r.1 in t.people
    ensures forall r | r in VisibleAccepted(t) :: r.0 in t.people && r.1 in t.people
  {
    forall r | r in VisibleAuthors(t) ensures r.1 in t.people {
      CollectIff((r: (Id, Option<Id>)) => if r.1.Some? && r.1.value in t.people then Some((r.0, r.1.value)) else None, t.authors, r);
    }
    forall r | r in VisibleTeams(t) ensures r.1 in t.people {
      CollectIff((r: (Id, Id, bool)) => if !r.2 && r.1 in t.people then Some((r.0, r.1)) else None, t.projects, r);
      CollectIff((r: (Id, Id)) => if r.1 in t.people then Some(r) else None, t.members, r);
    }
    forall r | r in VisibleAccepted(t) ensures r.0 in t.people && r.1 in t.people {
      CollectIff((r: (Id, Id, bool)) => if r.2 && r.0 in t.people && r.1 in t.people then Some((r.0, r.1)) else None, t.requests, r);
    }
  }
}
