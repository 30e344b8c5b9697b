/** Path grouping, sorting and selection: libmultipath/pgpolicies.c and switchgroup.c. */
module PathGroups {

  import opened Paths
  import opened Wrappers
  import opened Words

  datatype State =
    Wild | Unchecked | Down | Up | Shaky | Ghost | Pending | Timeout | Removed | Delayed

  datatype Path = Path(dev: string, dev_t: string, tgt_node_name: string, serial: string,
                       priority: int, state: State, marginal: bool)

  datatype Group = Group(paths: seq<Path>, priority: int, enabled_paths: nat, marginal: bool)

  const NODE_NAME_SIZE: nat := 224
  const SERIAL_SIZE: nat := 128

  // ------------------------------------------------------------------ group priorities

  predicate Enabled(p: Path) { p.state == Up || p.state == Ghost }

  function EnabledOf(ps: seq<Path>): seq<Path> {
    if ps == [] then []
    else EnabledOf(ps[..|ps| - 1]) + (if Enabled(ps[|ps| - 1]) then [ps[|ps| - 1]] else [])
  }

  function PrioSum(ps: seq<Path>): int {
    if ps == [] then 0 else PrioSum(ps[..|ps| - 1]) + ps[|ps| - 1].priority
  }

  /** The average priority of the enabled paths, 0 without any. */
  function GroupPriority(ps: seq<Path>): int {
    var e := EnabledOf(ps);
    if e == [] then 0 else Truncated(PrioSum(e), |e|)
  }

  predicate AllMarginal(ps: seq<Path>) {
    ps != [] && forall p :: p in ps ==> p.marginal
  }

  /** A group with its counters brought up to date; the marginal flag is never taken back. */
  function Updated(g: Group): Group {
    Group(g.paths, GroupPriority(g.paths), |EnabledOf(g.paths)|, g.marginal || AllMarginal(g.paths))
  }

  lemma EnabledSnoc(ps: seq<Path>, p: Path)
    ensures EnabledOf(ps + [p]) == EnabledOf(ps) + (if Enabled(p) then [p] else [])
    ensures PrioSum(ps + [p]) == PrioSum(ps) + p.priority
  {
    assert (ps + [p])[..|ps|] == ps;
  }

  function MarginalCount(ps: seq<Path>): (n: nat)
    ensures n <= |ps|
  {
    if ps == [] then 0 else MarginalCount(ps[..|ps| - 1]) + (if ps[|ps| - 1].marginal then 1 else 0)
  }

  lemma {:induction false} CountIsAll(ps: seq<Path>)
    ensures MarginalCount(ps) == |ps| <==> forall p :: p in ps ==> p.marginal
  {
    if ps != [] {
      CountIsAll(ps[..|ps| - 1]);
      assert ps == ps[..|ps| - 1] + [ps[|ps| - 1]];
    }
  }

  lemma MarginalSnoc(ps: seq<Path>, p: Path)
    ensures MarginalCount(ps + [p]) == MarginalCount(ps) + (if p.marginal then 1 else 0)
  {
    assert (ps + [p])[..|ps|] == ps;
  }

  /** path_group_prio_update. */
  method PathGroupPrioUpdate(pgp: Group) returns (r: Group)
    ensures r == Updated(pgp)
  {
    var priority, marginal, enabled := 0, 0, 0;
    var i := 0;
    ghost var e: seq<Path> := [];
    while i < |pgp.paths|
      invariant 0 <= i <= |pgp.paths| && marginal == MarginalCount(pgp.paths[..i])
      invariant e == EnabledOf(pgp.paths[..i]) && enabled == |e| && priority == PrioSum(e)
    {
      var pp := pgp.paths[i];
      assert pgp.paths[..i + 1] == pgp.paths[..i] + [pp];
      EnabledSnoc(pgp.paths[..i], pp);
      EnabledSnoc(e, pp);
      MarginalSnoc(pgp.paths[..i], pp);
      if pp.marginal {
        marginal := marginal + 1;
      }
      if pp.state == Up || pp.state == Ghost {
        priority := priority + pp.priority;
        enabled := enabled + 1;
        e := e + [pp];
      }
      i := i + 1;
    }
    assert pgp.paths[..i] == pgp.paths;
    CountIsAll(pgp.paths);
    r := pgp.(enabled_paths := enabled, priority := if enabled != 0 then Truncated(priority, enabled) else 0);
    if marginal != 0 && marginal == i {
      r := r.(marginal := true);
    }
  }

  // ------------------------------------------------------------------ sorting

  /** `h` may stand before `g`: normal before marginal, then the higher priority, then the
      larger number of enabled paths. */
  predicate MayPrecede(h: Group, g: Group) {
    (!h.marginal && g.marginal) ||
    (h.marginal == g.marginal &&
     (h.priority > g.priority || (h.priority == g.priority && h.enabled_paths >= g.enabled_paths)))
  }

  predicate Sorted(gs: seq<Group>) {
    forall i, j :: 0 <= i < j < |gs| ==> MayPrecede(gs[i], gs[j])
  }

  /** Groups that sorting cannot tell apart. */
  predicate SameRank(g: Group, h: Group) { MayPrecede(g, h) && MayPrecede(h, g) }

  function OfRank(gs: seq<Group>, r: Group): seq<Group> {
    if gs == [] then []
    else OfRank(gs[..|gs| - 1], r) + (if SameRank(gs[|gs| - 1], r) then [gs[|gs| - 1]] else [])
  }

  /** `g` placed behind the last group that may precede it. */
  function Insert(gs: seq<Group>, g: Group): (r: seq<Group>)
    ensures |r| == |gs| + 1
  {
    if gs == [] || MayPrecede(gs[|gs| - 1], g) then gs + [g]
    else Insert(gs[..|gs| - 1], g) + [gs[|gs| - 1]]
  }

  function Sort(gs: seq<Group>): (r: seq<Group>)
    ensures |r| == |gs|
  {
    if gs == [] then [] else Insert(Sort(gs[..|gs| - 1]), gs[|gs| - 1])
  }

  lemma {:induction false} OfRankConcat(a: seq<Group>, b: seq<Group>, r: Group)
    ensures OfRank(a + b, r) == OfRank(a, r) + OfRank(b, r)
  {
    if b == [] {
      assert a + b == a;
    } else {
      assert (a + b)[..|a + b| - 1] == a + b[..|b| - 1];
      OfRankConcat(a, b[..|b| - 1], r);
    }
  }

  lemma {:induction false} InsertElements(gs: seq<Group>, g: Group)
    ensures multiset(Insert(gs, g)) == multiset(gs) + multiset{g}
  {
    if gs != [] && !MayPrecede(gs[|gs| - 1], g) {
      InsertElements(gs[..|gs| - 1], g);
      assert gs == gs[..|gs| - 1] + [gs[|gs| - 1]];
    }
  }

  lemma InsertMember(gs: seq<Group>, g: Group, h: Group)
    ensures h in Insert(gs, g) <==> h in gs || h == g
  {
    InsertElements(gs, g);
    assert h in Insert(gs, g) <==> h in multiset(Insert(gs, g));
  }

  lemma SortedSnoc(gs: seq<Group>, g: Group)
    requires Sorted(gs) && forall h :: h in gs ==> MayPrecede(h, g)
    ensures Sorted(gs + [g])
  {
    hide MayPrecede;
  }

  lemma {:induction false} InsertSorts(gs: seq<Group>, g: Group)
    requires Sorted(gs)
    ensures Sorted(Insert(gs, g))
  {
    if gs != [] && !MayPrecede(gs[|gs| - 1], g) {
      var front, last := gs[..|gs| - 1], gs[|gs| - 1];
      InsertSorts(front, g);
      forall h | h in Insert(front, g) ensures MayPrecede(h, last) {
        InsertMember(front, g, h);
      }
      SortedSnoc(Insert(front, g), last);
    } else if gs != [] {
      forall h | h in gs ensures MayPrecede(h, g) {
        var i :| 0 <= i < |gs| && gs[i] == h;
        assert i == |gs| - 1 || MayPrecede(gs[i], gs[|gs| - 1]);
      }
      SortedSnoc(gs, g);
    }
  }

  lemma OneIsEmpty<T>(f: seq<T>, l: seq<T>, g: seq<T>)
    requires l == [] || g == []
    ensures (f + g) + l == (f + l) + g
  {
  }

  lemma DifferentRanks(last: Group, g: Group, r: Group)
    requires !MayPrecede(last, g)
    ensures OfRank([last], r) == [] || OfRank([g], r) == []
  {
    OneOfRank(last, r);
    OneOfRank(g, r);
  }

  lemma {:induction false} InsertIsStable(gs: seq<Group>, g: Group, r: Group)
    ensures OfRank(Insert(gs, g), r) == OfRank(gs, r) + OfRank([g], r)
  {
    hide OfRank, MayPrecede;
    OfRankConcat(gs, [g], r);
    if gs != [] && !MayPrecede(gs[|gs| - 1], g) {
      var front, last := gs[..|gs| - 1], gs[|gs| - 1];
      InsertIsStable(front, g, r);
      assert gs == front + [last];
      OfRankConcat(front, [last], r);
      OfRankConcat(Insert(front, g), [last], r);
      DifferentRanks(last, g, r);
      OneIsEmpty(OfRank(front, r), OfRank([last], r), OfRank([g], r));
    }
  }

  lemma OneOfRank(g: Group, r: Group)
    ensures OfRank([g], r) == if SameRank(g, r) then [g] else []
  {
    assert [g][..0] == [];
  }

  lemma {:induction false} SortSorts(gs: seq<Group>)
    ensures Sorted(Sort(gs))
  {
    if gs != [] {
      hide Sorted;
      SortSorts(gs[..|gs| - 1]);
      InsertSorts(Sort(gs[..|gs| - 1]), gs[|gs| - 1]);
    }
  }

  lemma {:induction false} SortElements(gs: seq<Group>)
    ensures multiset(Sort(gs)) == multiset(gs)
  {
    if gs != [] {
      hide Insert;
      SortElements(gs[..|gs| - 1]);
      InsertElements(Sort(gs[..|gs| - 1]), gs[|gs| - 1]);
      assert gs == gs[..|gs| - 1] + [gs[|gs| - 1]];
    }
  }

  lemma {:induction false} SortRanks(gs: seq<Group>, r: Group)
    ensures OfRank(Sort(gs), r) == OfRank(gs, r)
  {
    if gs != [] {
      hide OfRank, Insert;
      var front, last := gs[..|gs| - 1], gs[|gs| - 1];
      SortRanks(front, r);
      InsertIsStable(Sort(front), last, r);
      OfRankConcat(front, [last], r);
      assert gs == front + [last];
    }
  }

  /** Sorting is a permutation in rank order, and keeps the order of groups of one rank. */
  lemma SortIsStable(gs: seq<Group>, r: Group)
    ensures Sorted(Sort(gs)) && multiset(Sort(gs)) == multiset(gs)
    ensures OfRank(Sort(gs), r) == OfRank(gs, r)
  {
    SortSorts(gs);
    SortElements(gs);
    SortRanks(gs, r);
    hide Sorted, Sort, OfRank;
  }

  /** vector_move_up: the slot at `src` moves down to `dest`, those between move up by one. */
  method VectorMoveUp(v: seq<Group>, src: nat, dest: nat) returns (w: seq<Group>)
    requires dest <= src < |v|
    ensures w == v[..dest] + [v[src]] + v[dest..src] + v[src + 1..]
  {
    if dest == src {
      return v;
    }
    var value := v[src];
    w := v;
    var i: int := src - 1;
    while i >= dest
      invariant dest - 1 <= i < src && |w| == |v|
      invariant forall k :: 0 <= k <= i || src < k < |v| ==> w[k] == v[k]
      invariant forall k :: i + 2 <= k <= src ==> w[k] == v[k - 1]
    {
      w := w[i + 1 := w[i]];
      i := i - 1;
    }
    w := w[dest := value];
  }

  /** Each group brought up to date, in place. */
  function UpdatedAll(gs: seq<Group>): (r: seq<Group>)
    ensures |r| == |gs|
    ensures forall i :: 0 <= i < |gs| ==> r[i] == Updated(gs[i])
  {
    seq(|gs|, i requires 0 <= i < |gs| => Updated(gs[i]))
  }

  lemma {:induction false} InsertThere(s: seq<Group>, g: Group, j: nat)
    requires j <= |s| && (j == 0 || MayPrecede(s[j - 1], g))
    requires forall k :: j <= k < |s| ==> !MayPrecede(s[k], g)
    ensures Insert(s, g) == s[..j] + [g] + s[j..]
  {
    hide MayPrecede;
    if j < |s| {
      var front := s[..|s| - 1];
      InsertThere(front, g, j);
      assert front[..j] == s[..j] && front[j..] + [s[|s| - 1]] == s[j..];
    } else {
      assert s[..j] == s && s[j..] == [];
    }
  }

  lemma InsertedAt(r: seq<Group>, i: nat, g: Group, j: nat, w: seq<Group>)
    requires i < |r| && r[i] == g && j <= i && (j == 0 || MayPrecede(r[j - 1], g))
    requires forall k :: j <= k < i ==> !MayPrecede(r[k], g)
    requires w == r[..j] + [g] + r[j..i] + r[i + 1..]
    ensures |w| == |r| && w[..i + 1] == Insert(r[..i], g) && w[i + 1..] == r[i + 1..]
  {
    InsertThere(r[..i], g, j);
    assert r[..i][..j] == r[..j] && r[..i][j..] == r[j..i];
    hide Insert, MayPrecede;
  }

  lemma SortSnoc(u: seq<Group>, i: nat)
    requires i < |u|
    ensures Sort(u[..i + 1]) == Insert(Sort(u[..i]), u[i])
  {
    assert u[..i + 1][..i] == u[..i];
  }

  /** The inner loop: the last group below slot `i` that may precede `g`, or -1. */
  method LastBefore(pg: seq<Group>, i: nat, g: Group) returns (j: int)
    requires i < |pg|
    ensures -1 <= j < i && (j >= 0 ==> MayPrecede(pg[j], g))
    ensures forall k :: j < k < i ==> !MayPrecede(pg[k], g)
  {
    j := i - 1;
    while j >= 0 && !MayPrecede(pg[j], g)
      invariant -1 <= j < i
      invariant forall k :: j < k < i ==> !MayPrecede(pg[k], g)
    {
      j := j - 1;
    }
  }

  /** One turn of sort_pathgroups: update the group in slot `i`, then move it to its place. */
  method SortSlot(pg: seq<Group>, i: nat) returns (r: seq<Group>)
    requires i < |pg|
    ensures |r| == |pg| && r[..i + 1] == Insert(pg[..i], Updated(pg[i])) && r[i + 1..] == pg[i + 1..]
  {
    var pgp1 := PathGroupPrioUpdate(pg[i]);
    hide Insert, MayPrecede, Updated;
    r := pg[i := pgp1];
    assert r[..i] == pg[..i] && r[i + 1..] == pg[i + 1..];
    ghost var before := r;
    var j := LastBefore(r, i, pgp1);
    if j >= 0 || i != 0 {
      r := VectorMoveUp(r, i, j + 1);
    }
    InsertedAt(before, i, pgp1, j + 1, r);
  }

  /** sort_pathgroups: an insertion sort that updates each group when its turn comes. */
  method SortPathgroups(pg: seq<Group>) returns (r: seq<Group>)
    ensures r == Sort(UpdatedAll(pg))
  {
    r := pg;
    ghost var u := UpdatedAll(pg);
    var i: nat := 0;
    assert Sort([]) == [] && u[..0] == [];
    hide Sort, Insert, Updated;
    while i < |r|
      invariant i <= |r| == |pg|
      invariant r[..i] == Sort(u[..i]) && r[i..] == pg[i..]
    {
      assert r[i] == r[i..][0] == pg[i] && r[i + 1..] == r[i..][1..] == pg[i + 1..];
      SortSnoc(u, i);
      r := SortSlot(r, i);
      i := i + 1;
    }
    assert r[..i] == r && u[..i] == u;
  }

  // ------------------------------------------------------------------ who belongs together

  type Match = (Path, Path) -> bool

  /** strncmp(a, b, n) == 0. */
  predicate SameUpTo(a: string, b: string, n: nat) {
    (if |a| < n then a else a[..n]) == (if |b| < n then b else b[..n])
  }

  predicate NodeNamesMatch(p: Path, q: Path) { SameUpTo(p.tgt_node_name, q.tgt_node_name, NODE_NAME_SIZE) }

  predicate SerialsMatch(p: Path, q: Path) { SameUpTo(p.serial, q.serial, SERIAL_SIZE) }

  predicate PriosMatch(p: Path, q: Path) { p.priority == q.priority }

  ghost predicate IsEquivalence(m: Match) {
    (forall p :: m(p, p)) && (forall p, q :: m(p, q) ==> m(q, p)) &&
    (forall p, q, r :: m(p, q) && m(q, r) ==> m(p, r))
  }

  lemma MatchesAreEquivalences()
    ensures IsEquivalence(NodeNamesMatch) && IsEquivalence(SerialsMatch) && IsEquivalence(PriosMatch)
  {
  }

  function Matching(p: Path, ps: seq<Path>, m: Match): seq<Path> {
    if ps == [] then []
    else if m(p, ps[0]) then [ps[0]] + Matching(p, ps[1..], m)
    else Matching(p, ps[1..], m)
  }

  function Others(p: Path, ps: seq<Path>, m: Match): (r: seq<Path>)
    ensures |r| <= |ps|
  {
    if ps == [] then []
    else if m(p, ps[0]) then Others(p, ps[1..], m)
    else [ps[0]] + Others(p, ps[1..], m)
  }

  /** The first path with all that match it, then the same with the others. */
  function Classes(ps: seq<Path>, m: Match): seq<seq<Path>>
    decreases |ps|
  {
    if ps == [] then [] else [[ps[0]] + Matching(ps[0], ps[1..], m)] + Classes(Others(ps[0], ps[1..], m), m)
  }

  function Singles(ps: seq<Path>): seq<seq<Path>> {
    if ps == [] then [] else [[ps[0]]] + Singles(ps[1..])
  }

  function Flat(c: seq<seq<Path>>): seq<Path> {
    if c == [] then [] else c[0] + Flat(c[1..])
  }

  lemma {:induction false} MatchingIs(p: Path, ps: seq<Path>, m: Match, x: Path)
    ensures x in Matching(p, ps, m) <==> x in ps && m(p, x)
    ensures x in Others(p, ps, m) <==> x in ps && !m(p, x)
  {
    if ps != [] {
      MatchingIs(p, ps[1..], m, x);
      assert ps == [ps[0]] + ps[1..];
    }
  }

  lemma {:induction false} MatchingSplits(p: Path, ps: seq<Path>, m: Match)
    ensures multiset(Matching(p, ps, m)) + multiset(Others(p, ps, m)) == multiset(ps)
  {
    if ps != [] {
      MatchingSplits(p, ps[1..], m);
      assert ps == [ps[0]] + ps[1..];
      ghost var x := multiset{ps[0]};
      assert multiset(ps) == x + multiset(ps[1..]);
      assert if m(p, ps[0]) then multiset(Matching(p, ps, m)) == x + multiset(Matching(p, ps[1..], m))
             else multiset(Others(p, ps, m)) == x + multiset(Others(p, ps[1..], m));
    }
  }

  /** What matches `h` is not affected by taking out what matches an unrelated `p`. */
  lemma {:induction false} MatchingOthers(h: Path, p: Path, ps: seq<Path>, m: Match)
    requires IsEquivalence(m) && !m(p, h)
    ensures Matching(h, Others(p, ps, m), m) == Matching(h, ps, m)
  {
    if ps != [] {
      MatchingOthers(h, p, ps[1..], m);
      var o := Others(p, ps, m);
      if m(p, ps[0]) {
        assert !m(h, ps[0]);
      } else {
        assert o[0] == ps[0] && o[1..] == Others(p, ps[1..], m);
      }
    }
  }

  /** Group `k` is exactly what matches its head, in order; heads of different groups do not
      match. */
  lemma {:induction false} ClassIs(ps: seq<Path>, m: Match, k: nat)
    requires IsEquivalence(m) && k < |Classes(ps, m)|
    ensures Classes(ps, m)[k] != [] && Classes(ps, m)[k][0] in ps
    ensures Classes(ps, m)[k] == Matching(Classes(ps, m)[k][0], ps, m)
    decreases |ps|
  {
    var p, rest := ps[0], ps[1..];
    if k == 0 {
      assert m(p, p);
    } else {
      var o := Others(p, rest, m);
      ClassIs(o, m, k - 1);
      var h := Classes(o, m)[k - 1][0];
      MatchingIs(p, rest, m, h);
      MatchingOthers(h, p, rest, m);
      assert !m(h, p);
    }
  }

  /** Two paths share a group if and only if the policy matches them. */
  lemma TogetherIffMatching(ps: seq<Path>, m: Match, k: nat, x: Path, y: Path)
    requires IsEquivalence(m) && k < |Classes(ps, m)| && x in Classes(ps, m)[k] && y in ps
    ensures y in Classes(ps, m)[k] <==> m(x, y)
  {
    ClassIs(ps, m, k);
    var h := Classes(ps, m)[k][0];
    MatchingIs(h, ps, m, x);
    MatchingIs(h, ps, m, y);
  }

  /** No path is in two groups. */
  lemma ClassesAreApart(ps: seq<Path>, m: Match, j: nat, k: nat, x: Path)
    requires IsEquivalence(m) && j < k < |Classes(ps, m)| && x in Classes(ps, m)[j]
    ensures x !in Classes(ps, m)[k]
    decreases |ps|
  {
    var p, rest := ps[0], ps[1..];
    var o := Others(p, rest, m);
    if j == 0 {
      ClassIs(ps, m, 0);
      MatchingIs(p, ps, m, x);
      ClassIs(o, m, k - 1);
      MatchingIs(Classes(o, m)[k - 1][0], o, m, x);
      MatchingIs(p, rest, m, x);
    } else {
      ClassesAreApart(o, m, j - 1, k - 1, x);
    }
  }

  /** Grouping loses and invents no path. */
  lemma {:induction false} ClassesKeepPaths(ps: seq<Path>, m: Match)
    ensures multiset(Flat(Classes(ps, m))) == multiset(ps)
    decreases |ps|
  {
    if ps != [] {
      var p, rest := ps[0], ps[1..];
      ClassesKeepPaths(Others(p, rest, m), m);
      MatchingSplits(p, rest, m);
      assert ps == [p] + rest;
    }
  }

  lemma {:induction false} SinglesKeepPaths(ps: seq<Path>)
    ensures Flat(Singles(ps)) == ps
  {
    if ps != [] {
      SinglesKeepPaths(ps[1..]);
    }
  }

  // ------------------------------------------------------------------ the grouping loops

  predicate AllStorable(ps: seq<Path>) { forall p :: p in ps ==> Storable(p.dev, p.dev_t) }

  function Groups(c: seq<seq<Path>>): seq<Group> {
    if c == [] then [] else [Group(c[0], 0, 0, false)] + Groups(c[1..])
  }

  lemma {:induction false} GroupsConcat(a: seq<seq<Path>>, b: seq<seq<Path>>)
    ensures Groups(a + b) == Groups(a) + Groups(b)
  {
    if a == [] {
      assert a + b == b;
    } else {
      assert (a + b)[1..] == a[1..] + b;
      GroupsConcat(a[1..], b);
    }
  }

  /** The paths from position `i` on whose bit is not set. */
  function Unset(ps: seq<Path>, bits: seq<bool>, i: nat): seq<Path>
    requires i <= |ps| == |bits|
    decreases |ps| - i
  {
    if i == |ps| then []
    else if bits[i] then Unset(ps, bits, i + 1)
    else [ps[i]] + Unset(ps, bits, i + 1)
  }

  lemma {:induction false} UnsetAfter(ps: seq<Path>, was: seq<bool>, bits: seq<bool>, i: nat, p: Path, m: Match)
    requires i <= |ps| == |was| == |bits|
    requires forall k :: i <= k < |ps| ==> (bits[k] <==> was[k] || m(p, ps[k]))
    ensures Unset(ps, bits, i) == Others(p, Unset(ps, was, i), m)
    decreases |ps| - i
  {
    if i < |ps| {
      UnsetAfter(ps, was, bits, i + 1, p, m);
      var u := Unset(ps, was, i);
      if !was[i] {
        assert u[0] == ps[i] && u[1..] == Unset(ps, was, i + 1);
      }
    }
  }

  lemma {:induction false} UnsetSame(ps: seq<Path>, a: seq<bool>, b: seq<bool>, i: nat)
    requires i <= |ps| == |a| == |b| && forall k :: i <= k < |ps| ==> a[k] == b[k]
    ensures Unset(ps, a, i) == Unset(ps, b, i)
    decreases |ps| - i
  {
    if i < |ps| {
      UnsetSame(ps, a, b, i + 1);
    }
  }

  lemma {:induction false} UnsetIn(ps: seq<Path>, bits: seq<bool>, i: nat, x: Path)
    requires i <= |ps| == |bits| && x in Unset(ps, bits, i)
    ensures x in ps
    decreases |ps| - i
  {
    if x != ps[i] || bits[i] {
      UnsetIn(ps, bits, i + 1, x);
    }
  }

  /** The inner loop of group_by_match: collect what matches `pp` and set its bit. */
  method CollectMatching(paths: seq<Path>, i: nat, bits: seq<bool>, m: Match)
    returns (ok: bool, members: seq<Path>, after: seq<bool>)
    requires i < |paths| == |bits|
    ensures |after| == |bits|
    ensures !ok ==> !AllStorable(paths)
    ensures ok ==> AllStorable(members)
    ensures ok ==> members == [paths[i]] + Matching(paths[i], Unset(paths, bits, i + 1), m)
    ensures ok ==> Unset(paths, after, i + 1) == Others(paths[i], Unset(paths, bits, i + 1), m)
  {
    var pp := paths[i];
    ok, members, after := Storable(pp.dev, pp.dev_t), [], bits;
    if !ok {
      return;
    }
    members, after := [pp], after[i := true];
    var j := i + 1;
    while j < |paths|
      invariant i + 1 <= j <= |paths| == |after| && AllStorable(members)
      invariant members + Matching(pp, Unset(paths, bits, j), m) == [pp] + Matching(pp, Unset(paths, bits, i + 1), m)
      invariant forall k :: i + 1 <= k < j ==> (after[k] <==> bits[k] || m(pp, paths[k]))
      invariant forall k :: j <= k < |paths| ==> after[k] == bits[k]
    {
      if !after[j] {
        var pp2 := paths[j];
        MatchingUnset(paths, bits, j, pp, m);
        if m(pp, pp2) {
          if !Storable(pp2.dev, pp2.dev_t) {
            ok := false;
            return;
          }
          assert (members + [pp2]) + Matching(pp, Unset(paths, bits, j + 1), m) ==
                 members + ([pp2] + Matching(pp, Unset(paths, bits, j + 1), m));
          members := members + [pp2];
          after := after[j := true];
        }
      }
      j := j + 1;
    }
    UnsetAfter(paths, bits, after, i + 1, pp, m);
  }

  lemma MatchingUnset(ps: seq<Path>, bits: seq<bool>, j: nat, p: Path, m: Match)
    requires j < |ps| == |bits| && !bits[j]
    ensures Matching(p, Unset(ps, bits, j), m) ==
            if m(p, ps[j]) then [ps[j]] + Matching(p, Unset(ps, bits, j + 1), m)
            else Matching(p, Unset(ps, bits, j + 1), m)
  {
    assert Unset(ps, bits, j)[1..] == Unset(ps, bits, j + 1);
  }

  lemma {:induction false} AllUnset(ps: seq<Path>, bits: seq<bool>, i: nat)
    requires i <= |ps| == |bits| && forall k :: i <= k < |bits| ==> !bits[k]
    ensures Unset(ps, bits, i) == ps[i..]
    decreases |ps| - i
  {
    if i < |ps| {
      AllUnset(ps, bits, i + 1);
    }
  }

  lemma ClassesUnset(ps: seq<Path>, bits: seq<bool>, i: nat, m: Match)
    requires i < |ps| == |bits| && !bits[i]
    ensures Classes(Unset(ps, bits, i), m) ==
            [[ps[i]] + Matching(ps[i], Unset(ps, bits, i + 1), m)] + Classes(Others(ps[i], Unset(ps, bits, i + 1), m), m)
  {
    assert Unset(ps, bits, i)[1..] == Unset(ps, bits, i + 1);
  }

  lemma {:induction false} FlatConcat(a: seq<seq<Path>>, b: seq<seq<Path>>)
    ensures Flat(a + b) == Flat(a) + Flat(b)
  {
    if a == [] {
      assert a + b == b;
    } else {
      assert (a + b)[1..] == a[1..] + b;
      FlatConcat(a[1..], b);
    }
  }

  /** group_by_match, the list of groups as the list of their members. */
  method GroupByMatch(paths: seq<Path>, m: Match) returns (ok: bool, c: seq<seq<Path>>)
    ensures ok <==> AllStorable(paths)
    ensures ok ==> c == Classes(paths, m)
  {
    var bitmap := seq(|paths|, k => false);
    ok, c := true, [];
    AllUnset(paths, bitmap, 0);
    assert paths[0..] == paths;
    var i := 0;
    while i < |paths|
      invariant 0 <= i <= |paths| == |bitmap|
      invariant c + Classes(Unset(paths, bitmap, i), m) == Classes(paths, m)
      invariant AllStorable(Flat(c))
    {
      if !bitmap[i] {
        var members, after;
        ok, members, after := CollectMatching(paths, i, bitmap, m);
        if !ok {
          return;
        }
        ClassesUnset(paths, bitmap, i, m);
        assert (c + [members]) + Classes(Unset(paths, after, i + 1), m) ==
               c + ([members] + Classes(Unset(paths, after, i + 1), m));
        FlatConcat(c, [members]);
        assert Flat([members]) == members;
        c := c + [members];
        bitmap := after;
      }
      i := i + 1;
    }
    ClassesKeepPaths(paths, m);
    assert c == Classes(paths, m);
    forall p | p in paths ensures Storable(p.dev, p.dev_t) {
      assert p in multiset(Flat(c));
    }
  }

  // ------------------------------------------------------------------ policies

  datatype Policy = Failover | Multibus | GroupBySerial | GroupByPrio | GroupByNodeName

  /** The match a group_by policy uses. */
  function MatchOf(policy: Policy): Match
    requires policy.GroupBySerial? || policy.GroupByPrio? || policy.GroupByNodeName?
  {
    match policy
    case GroupBySerial => SerialsMatch
    case GroupByPrio => PriosMatch
    case _ => NodeNamesMatch
  }

  function PolicyClasses(policy: Policy, ps: seq<Path>): seq<seq<Path>> {
    match policy
    case Failover => Singles(ps)
    case Multibus => [ps]
    case _ => Classes(ps, MatchOf(policy))
  }

  /** Whether a policy puts two paths into one group, where both are there once. */
  predicate Together(policy: Policy, x: Path, y: Path) {
    match policy
    case Failover => x == y
    case Multibus => true
    case _ => MatchOf(policy)(x, y)
  }

  lemma {:induction false} SinglesSnoc(ps: seq<Path>, p: Path)
    ensures Singles(ps + [p]) == Singles(ps) + [[p]]
  {
    if ps == [] {
      assert [] + [p] == [p] && [p][1..] == [];
    } else {
      assert (ps + [p])[1..] == ps[1..] + [p];
      SinglesSnoc(ps[1..], p);
    }
  }

  method OnePathPerGroup(paths: seq<Path>) returns (ok: bool, c: seq<seq<Path>>)
    ensures ok <==> AllStorable(paths)
    ensures ok ==> c == Singles(paths)
  {
    ok, c := true, [];
    for i := 0 to |paths|
      invariant c == Singles(paths[..i]) && AllStorable(paths[..i])
    {
      if !Storable(paths[i].dev, paths[i].dev_t) {
        assert paths[i] in paths;
        return false, c;
      }
      SinglesSnoc(paths[..i], paths[i]);
      assert paths[..i + 1] == paths[..i] + [paths[i]];
      c := c + [[paths[i]]];
    }
    assert paths[..|paths|] == paths;
  }

  method OneGroup(paths: seq<Path>) returns (ok: bool, c: seq<seq<Path>>)
    ensures ok <==> AllStorable(paths)
    ensures ok ==> c == [paths]
  {
    var members: seq<Path> := [];
    ok, c := true, [];
    for i := 0 to |paths|
      invariant members == paths[..i] && AllStorable(members)
    {
      if !Storable(paths[i].dev, paths[i].dev_t) {
        assert paths[i] in paths;
        return false, c;
      }
      members := members + [paths[i]];
    }
    assert members == paths;
    c := [members];
  }

  method RunPolicy(policy: Policy, paths: seq<Path>) returns (ok: bool, c: seq<seq<Path>>)
    ensures ok <==> AllStorable(paths)
    ensures ok ==> c == PolicyClasses(policy, paths)
  {
    match policy
    case Failover => ok, c := OnePathPerGroup(paths);
    case Multibus => ok, c := OneGroup(paths);
    case _ => ok, c := GroupByMatch(paths, MatchOf(policy));
  }

  // ------------------------------------------------------------------ marginal paths apart

  function OfKind(ps: seq<Path>, marginal: bool): seq<Path> {
    if ps == [] then []
    else OfKind(ps[..|ps| - 1], marginal) + (if ps[|ps| - 1].marginal == marginal then [ps[|ps| - 1]] else [])
  }

  predicate HasKind(ps: seq<Path>, marginal: bool) {
    exists p :: p in ps && p.marginal == marginal
  }

  predicate Mixed(ps: seq<Path>) { HasKind(ps, true) && HasKind(ps, false) }

  lemma KindSnoc(ps: seq<Path>, p: Path, marginal: bool)
    ensures OfKind(ps + [p], marginal) == OfKind(ps, marginal) + (if p.marginal == marginal then [p] else [])
    ensures HasKind(ps + [p], marginal) <==> HasKind(ps, marginal) || p.marginal == marginal
  {
    assert (ps + [p])[..|ps|] == ps;
    assert p in ps + [p];
    assert forall q :: q in ps + [p] <==> q in ps || q == p;
  }

  /** split_marginal_paths: both kinds in their order, or nothing when one kind is missing. */
  method SplitMarginalPaths(paths: seq<Path>) returns (split: Option<(seq<Path>, seq<Path>)>)
    ensures split.Some? <==> Mixed(paths) && AllStorable(paths)
    ensures split.Some? ==> split.value == (OfKind(paths, false), OfKind(paths, true))
  {
    var hasMarginal, hasNormal := false, false;
    for i := 0 to |paths|
      invariant hasMarginal == HasKind(paths[..i], true) && hasNormal == HasKind(paths[..i], false)
    {
      assert paths[..i + 1] == paths[..i] + [paths[i]];
      KindSnoc(paths[..i], paths[i], true);
      KindSnoc(paths[..i], paths[i], false);
      if paths[i].marginal {
        hasMarginal := true;
      } else {
        hasNormal := true;
      }
    }
    assert paths[..|paths|] == paths;
    if !hasMarginal || !hasNormal {
      return None;
    }
    var normal: seq<Path>, marginal: seq<Path> := [], [];
    for i := 0 to |paths|
      invariant normal == OfKind(paths[..i], false) && marginal == OfKind(paths[..i], true)
      invariant AllStorable(paths[..i])
    {
      assert paths[..i + 1] == paths[..i] + [paths[i]];
      KindSnoc(paths[..i], paths[i], true);
      KindSnoc(paths[..i], paths[i], false);
      if !Storable(paths[i].dev, paths[i].dev_t) {
        assert paths[i] in paths;
        return None;
      }
      if paths[i].marginal {
        marginal := marginal + [paths[i]];
      } else {
        normal := normal + [paths[i]];
      }
    }
    split := Some((normal, marginal));
  }

  /** The groups before sorting. */
  function Grouped(policy: Policy, ps: seq<Path>, split: bool): seq<seq<Path>> {
    if split && Mixed(ps) then PolicyClasses(policy, OfKind(ps, false)) + PolicyClasses(policy, OfKind(ps, true))
    else PolicyClasses(policy, ps)
  }

  lemma {:induction false} KindIn(ps: seq<Path>, marginal: bool, p: Path)
    ensures p in OfKind(ps, marginal) <==> p in ps && p.marginal == marginal
  {
    if ps != [] {
      KindIn(ps[..|ps| - 1], marginal, p);
      assert ps == ps[..|ps| - 1] + [ps[|ps| - 1]];
    }
  }

  lemma OfKindNothing()
    ensures OfKind([], false) == [] == OfKind([], true)
  {
  }

  lemma OfKindLast(ps: seq<Path>)
    requires ps != []
    ensures var f, p := ps[..|ps| - 1], ps[|ps| - 1];
            OfKind(ps, p.marginal) == OfKind(f, p.marginal) + [p] && OfKind(ps, !p.marginal) == OfKind(f, !p.marginal)
  {
  }

  /** The elements of `f` are those of `a` and those of `b`. */
  predicate SplitsInto(f: seq<Path>, a: seq<Path>, b: seq<Path>) {
    multiset(a) + multiset(b) == multiset(f)
  }

  lemma OneMore(a: seq<Path>, b: seq<Path>, f: seq<Path>, p: Path)
    requires SplitsInto(f, a, b)
    ensures SplitsInto(f + [p], a + [p], b) && SplitsInto(f + [p], a, b + [p])
  {
  }

  lemma {:induction false} KindsSplit(ps: seq<Path>)
    ensures SplitsInto(ps, OfKind(ps, false), OfKind(ps, true))
  {
    hide OfKind, SplitsInto;
    if ps == [] {
      OfKindNothing();
      NothingSplits();
    } else {
      var f, p := ps[..|ps| - 1], ps[|ps| - 1];
      KindsSplit(f);
      OfKindLast(ps);
      OneMore(OfKind(f, false), OfKind(f, true), f, p);
      assert ps == f + [p];
    }
  }

  lemma NothingSplits()
    ensures SplitsInto([], [], [])
  {
  }

  class Multipath {
    var paths: Option<seq<Path>>
    var pg: Option<seq<Group>>
    var pgpolicy: Option<Policy>

    constructor (ps: seq<Path>, policy: Option<Policy>)
      ensures paths == Some(ps) && pg == None && pgpolicy == policy
    {
      paths, pg, pgpolicy := Some(ps), None, policy;
    }

    /** group_paths. */
    method GroupPaths(marginalPathgroups: bool) returns (ret: int)
      modifies this
      ensures pgpolicy == old(pgpolicy)
      ensures var ps, had := old(Held(paths)), old(Held(pg));
              if ps == [] then ret == 0 && pg == Some(had) && paths == None
              else if pgpolicy == None || !AllStorable(ps) then ret == 1 && pg == None && paths == old(paths)
              else ret == 0 && paths == None &&
                   pg == Some(Sort(UpdatedAll(had + Groups(Grouped(pgpolicy.value, ps, marginalPathgroups)))))
    {
      if pg == None {
        pg := Some([]);
      }
      var ps := Held(paths);
      if |ps| == 0 {
        paths := None;
        return 0;
      }
      if pgpolicy == None {
        pg := None;
        return 1;
      }
      var split := None;
      if marginalPathgroups {
        split := SplitMarginalPaths(ps);
      }
      var ok, c;
      if split == None {
        ok, c := RunPolicy(pgpolicy.value, ps);
      } else {
        ok, c := RunPolicy(pgpolicy.value, split.value.0);
        assert AllStorable(split.value.0) && AllStorable(split.value.1) by {
          forall p ensures p in split.value.0 + split.value.1 ==> p in ps {
            KindIn(ps, false, p);
            KindIn(ps, true, p);
          }
        }
        var more;
        ok, more := RunPolicy(pgpolicy.value, split.value.1);
        c := c + more;
      }
      if !ok {
        pg := None;
        return 1;
      }
      var sorted := SortPathgroups(pg.value + Groups(c));
      pg := Some(sorted);
      paths := None;
      ret := 0;
    }

    /** select_path_group. */
    method SelectPathGroup() returns (bestpg: nat)
      modifies this`pg
      ensures pg.Some? <==> old(pg.Some?)
      ensures pg.Some? ==> pg.value == UpdatedAll(old(pg.value))
      ensures IsChoice(Held(pg), bestpg)
    {
      bestpg := 1;
      if pg == None {
        NoGroups();
        return;
      }
      var groups;
      groups, bestpg := Select(pg.value);
      pg := Some(groups);
    }
  }

  /** A NULL vector holds nothing. */
  function Held<T>(v: Option<seq<T>>): seq<T> {
    if v == None then [] else v.value
  }

  // ------------------------------------------------------------------ selection

  /** The groups among which one is chosen: normal ones with an enabled path, or, when there is
      none, groups whose priority is positive, or zero with more than one enabled path. */
  predicate Eligible(g: Group, normal: bool) {
    g.enabled_paths > 0 &&
    if normal then !g.marginal else g.priority > 0 || (g.priority == 0 && g.enabled_paths > 1)
  }

  predicate HasEligible(gs: seq<Group>, normal: bool) {
    exists k :: 0 <= k < |gs| && Eligible(gs[k], normal)
  }

  /** The higher priority, or the same with more enabled paths. */
  predicate Beats(g: Group, h: Group) {
    g.priority > h.priority || (g.priority == h.priority && g.enabled_paths > h.enabled_paths)
  }

  /** The earliest of the best eligible groups. */
  predicate IsBest(gs: seq<Group>, b: nat, normal: bool) {
    b < |gs| && Eligible(gs[b], normal) &&
    (forall k :: 0 <= k < b && Eligible(gs[k], normal) ==> Beats(gs[b], gs[k])) &&
    (forall k :: b < k < |gs| && Eligible(gs[k], normal) ==> !Beats(gs[k], gs[b]))
  }

  /** The number that select_path_group returns for groups that are up to date. */
  ghost predicate IsChoice(gs: seq<Group>, bestpg: nat) {
    1 <= bestpg &&
    if HasEligible(gs, true) then IsBest(gs, bestpg - 1, true)
    else if HasEligible(gs, false) then IsBest(gs, bestpg - 1, false)
    else bestpg == 1
  }

  /** What the loop knows about the groups it has passed. */
  ghost predicate Selected(gs: seq<Group>, normalPgp: bool, maxPriority: int, maxEnabled: nat, bestpg: nat) {
    && IsChoice(gs, bestpg)
    && normalPgp == HasEligible(gs, true)
    && (if HasEligible(gs, normalPgp)
        then bestpg <= |gs| && maxPriority == gs[bestpg - 1].priority && maxEnabled == gs[bestpg - 1].enabled_paths
        else maxPriority == 0 && maxEnabled == 1)
  }

  /** The body of the loop: group `g` against the best so far. */
  method Consider(ghost gs: seq<Group>, i: nat, g: Group, normalPgp: bool, maxPriority: int, maxEnabled: nat, bestpg: nat)
    returns (normal: bool, priority: int, enabled: nat, best: nat)
    requires i == |gs| && Selected(gs, normalPgp, maxPriority, maxEnabled, bestpg)
    ensures Selected(gs + [g], normal, priority, enabled, best)
  {
    normal, priority, enabled, best := normalPgp, maxPriority, maxEnabled, bestpg;
    BestSnoc(gs, g, bestpg - 1, true);
    BestSnoc(gs, g, bestpg - 1, false);
    hide HasEligible, IsBest;
    if g.marginal && normal {
      return;
    }
    if g.enabled_paths != 0 {
      if !g.marginal && !normal {
        normal := true;
        priority, enabled, best := g.priority, g.enabled_paths, i + 1;
      } else if g.priority > priority {
        priority, enabled, best := g.priority, g.enabled_paths, i + 1;
      } else if g.priority == priority {
        if g.enabled_paths > enabled {
          enabled, best := g.enabled_paths, i + 1;
        }
      }
    }
  }

  method Select(pg: seq<Group>) returns (groups: seq<Group>, bestpg: nat)
    ensures groups == UpdatedAll(pg)
    ensures IsChoice(groups, bestpg)
  {
    groups := pg;
    var normalPgp, maxPriority, maxEnabled: nat := false, 0, 1;
    bestpg := 1;
    var i := 0;
    ghost var u := UpdatedAll(pg);
    hide Updated, UpdatedAll, Selected, IsChoice;
    NothingSelected();
    while i < |groups|
      invariant 0 <= i <= |groups| == |pg|
      invariant groups[..i] == u[..i] && groups[i..] == pg[i..]
      invariant Selected(u[..i], normalPgp, maxPriority, maxEnabled, bestpg)
    {
      assert groups[i] == groups[i..][0] == pg[i];
      var pgp := PathGroupPrioUpdate(groups[i]);
      assert groups[i := pgp][..i] == groups[..i] && groups[i := pgp][i + 1..] == groups[i..][1..] == pg[i + 1..];
      groups := groups[i := pgp];
      normalPgp, maxPriority, maxEnabled, bestpg :=
        Consider(u[..i], i, pgp, normalPgp, maxPriority, maxEnabled, bestpg);
      assert groups[..i + 1] == u[..i + 1] == u[..i] + [pgp];
      i := i + 1;
    }
    assert groups == groups[..i] == u[..i] == u;
    SelectedIsChoice(u, normalPgp, maxPriority, maxEnabled, bestpg);
  }

  lemma NoGroups()
    ensures !HasEligible([], true) && !HasEligible([], false)
  {
  }

  lemma NothingSelected()
    ensures Selected([], false, 0, 1, 1)
  {
    NoGroups();
  }

  lemma SelectedIsChoice(gs: seq<Group>, normalPgp: bool, maxPriority: int, maxEnabled: nat, bestpg: nat)
    requires Selected(gs, normalPgp, maxPriority, maxEnabled, bestpg)
    ensures IsChoice(gs, bestpg)
  {
  }

  /** One more group: it becomes the best, or the best stays. */
  lemma BestSnoc(gs: seq<Group>, g: Group, b: nat, normal: bool)
    ensures HasEligible(gs + [g], normal) <==> HasEligible(gs, normal) || Eligible(g, normal)
    ensures Eligible(g, normal) && !HasEligible(gs, normal) ==> IsBest(gs + [g], |gs|, normal)
    ensures IsBest(gs, b, normal) ==>
              b < |gs| && Eligible(gs[b], normal) &&
              IsBest(gs + [g], if Eligible(g, normal) && Beats(g, gs[b]) then |gs| else b, normal)
  {
    var s := gs + [g];
    assert s[|gs|] == g && forall k :: 0 <= k < |gs| ==> s[k] == gs[k];
    hide Eligible;
    if IsBest(gs, b, normal) && Eligible(g, normal) && Beats(g, gs[b]) {
      forall k | 0 <= k < |gs| && Eligible(s[k], normal) ensures Beats(g, s[k]) {
        assert k < b ==> Beats(gs[b], gs[k]);
        assert k > b ==> !Beats(gs[k], gs[b]);
      }
    }
  }

  lemma UpdateTwice(g: Group)
    ensures Updated(Updated(g)) == Updated(g)
  {
  }

  /** On sorted groups the choice is the first eligible group. */
  lemma BestOfSorted(gs: seq<Group>, b: nat, normal: bool)
    requires Sorted(gs) && IsBest(gs, b, normal) && (normal || !HasEligible(gs, true))
    ensures forall k :: 0 <= k < b ==> !Eligible(gs[k], normal)
  {
    assert !normal ==> !Eligible(gs[b], true);
    forall k | 0 <= k < b ensures !Eligible(gs[k], normal) {
      assert !normal ==> !Eligible(gs[k], true);
      assert MayPrecede(gs[k], gs[b]);
    }
  }

  /** Selecting from what sort_pathgroups left, with unchanged paths, updates nothing more and
      picks the first normal group with an enabled path; without one, the first that is eligible
      instead; and the first group when there is none of either kind. */
  lemma SelectAfterSort(pg: seq<Group>, bestpg: nat)
    requires IsChoice(UpdatedAll(Sort(UpdatedAll(pg))), bestpg)
    ensures var gs := Sort(UpdatedAll(pg));
            && UpdatedAll(gs) == gs
            && 1 <= bestpg && (bestpg == 1 || bestpg <= |gs|)
            && var normal := HasEligible(gs, true);
               if HasEligible(gs, normal)
               then Eligible(gs[bestpg - 1], normal) && forall k :: 0 <= k < bestpg - 1 ==> !Eligible(gs[k], normal)
               else bestpg == 1
  {
    hide Sort, UpdatedAll, Sorted, OfRank, IsChoice, HasEligible;
    SortedIsUpdated(pg);
    SortIsStable(UpdatedAll(pg), Group([], 0, 0, false));
    ChoiceIsFirst(Sort(UpdatedAll(pg)), bestpg);
  }

  lemma ChoiceIsFirst(gs: seq<Group>, bestpg: nat)
    requires Sorted(gs) && IsChoice(gs, bestpg)
    ensures 1 <= bestpg && (bestpg == 1 || bestpg <= |gs|)
    ensures var normal := HasEligible(gs, true);
            if HasEligible(gs, normal)
            then bestpg <= |gs| && Eligible(gs[bestpg - 1], normal) && forall k :: 0 <= k < bestpg - 1 ==> !Eligible(gs[k], normal)
            else bestpg == 1
  {
    hide Sorted, HasEligible, MayPrecede;
    if HasEligible(gs, HasEligible(gs, true)) {
      BestOfSorted(gs, bestpg - 1, HasEligible(gs, true));
    }
  }

  lemma SortedIsUpdated(pg: seq<Group>)
    ensures UpdatedAll(Sort(UpdatedAll(pg))) == Sort(UpdatedAll(pg))
  {
    hide Sort, Updated, MayPrecede, Sorted, OfRank;
    var u := UpdatedAll(pg);
    var gs := Sort(u);
    SortIsStable(u, Group([], 0, 0, false));
    hide UpdatedAll;
    forall k | 0 <= k < |gs| ensures Updated(gs[k]) == gs[k] {
      assert gs[k] in multiset(gs);
      assert gs[k] in u;
      var i :| 0 <= i < |u| && u[i] == gs[k];
      UpdateTwice(pg[i]);
    }
    assert UpdatedAll(gs) == gs;
  }

  // ------------------------------------------------------------------ what group_paths promises

  function Bag(gs: seq<Group>): multiset<Path> {
    if gs == [] then multiset{} else Bag(gs[..|gs| - 1]) + multiset(gs[|gs| - 1].paths)
  }

  lemma BagSnoc(gs: seq<Group>, g: Group)
    ensures Bag(gs + [g]) == Bag(gs) + multiset(g.paths)
  {
    assert (gs + [g])[..|gs|] == gs;
  }

  lemma {:induction false} BagOfInsert(gs: seq<Group>, g: Group)
    ensures Bag(Insert(gs, g)) == Bag(gs) + multiset(g.paths)
  {
    BagSnoc(gs, g);
    if gs != [] && !MayPrecede(gs[|gs| - 1], g) {
      BagOfInsert(gs[..|gs| - 1], g);
      BagSnoc(Insert(gs[..|gs| - 1], g), gs[|gs| - 1]);
    }
  }

  lemma {:induction false} BagOfSort(gs: seq<Group>)
    ensures Bag(Sort(gs)) == Bag(gs)
  {
    if gs != [] {
      BagOfSort(gs[..|gs| - 1]);
      BagOfInsert(Sort(gs[..|gs| - 1]), gs[|gs| - 1]);
    }
  }

  lemma {:induction false} BagOfUpdated(gs: seq<Group>)
    ensures Bag(UpdatedAll(gs)) == Bag(gs)
  {
    if gs != [] {
      BagOfUpdated(gs[..|gs| - 1]);
      assert UpdatedAll(gs)[..|gs| - 1] == UpdatedAll(gs[..|gs| - 1]);
    }
  }

  lemma {:induction false} BagOfGroups(c: seq<seq<Path>>)
    ensures Bag(Groups(c)) == multiset(Flat(c))
  {
    if c != [] {
      BagOfGroups(c[1..]);
      BagCons(Group(c[0], 0, 0, false), Groups(c[1..]));
    }
  }

  lemma {:induction false} BagCons(g: Group, gs: seq<Group>)
    ensures Bag([g] + gs) == multiset(g.paths) + Bag(gs)
  {
    if gs == [] {
      assert [g] + gs == [] + [g];
      BagSnoc([], g);
    } else {
      BagCons(g, gs[..|gs| - 1]);
      assert [g] + gs == ([g] + gs[..|gs| - 1]) + [gs[|gs| - 1]];
      BagSnoc([g] + gs[..|gs| - 1], gs[|gs| - 1]);
    }
  }

  lemma PolicyKeepsPaths(policy: Policy, ps: seq<Path>)
    ensures multiset(Flat(PolicyClasses(policy, ps))) == multiset(ps)
  {
    match policy
    case Failover => SinglesKeepPaths(ps);
    case Multibus =>
      assert Flat([ps]) == ps + Flat([ps][1..]) == ps;
    case _ => ClassesKeepPaths(ps, MatchOf(policy));
  }

  lemma GroupedKeepsPaths(policy: Policy, ps: seq<Path>, split: bool)
    ensures multiset(Flat(Grouped(policy, ps, split))) == multiset(ps)
  {
    PolicyKeepsPaths(policy, ps);
    PolicyKeepsPaths(policy, OfKind(ps, false));
    PolicyKeepsPaths(policy, OfKind(ps, true));
    FlatConcat(PolicyClasses(policy, OfKind(ps, false)), PolicyClasses(policy, OfKind(ps, true)));
    KindsSplit(ps);
    hide PolicyClasses, Flat, OfKind;
  }

  function Outcome(policy: Policy, ps: seq<Path>, split: bool): seq<Group> {
    Sort(UpdatedAll(Groups(Grouped(policy, ps, split))))
  }

  /** No path is lost or invented, whatever the policy. */
  lemma OutcomeKeepsPaths(policy: Policy, ps: seq<Path>, split: bool)
    ensures Bag(Outcome(policy, ps, split)) == multiset(ps)
  {
    var c := Grouped(policy, ps, split);
    GroupedKeepsPaths(policy, ps, split);
    BagOfGroups(c);
    BagOfUpdated(Groups(c));
    BagOfSort(UpdatedAll(Groups(c)));
    hide Grouped, Sort, UpdatedAll, Groups, Flat, Bag;
  }

  lemma {:induction false} GroupsAt(c: seq<seq<Path>>, k: nat)
    requires k < |c|
    ensures |Groups(c)| == |c| && Groups(c)[k] == Group(c[k], 0, 0, false)
  {
    if k > 0 {
      GroupsAt(c[1..], k - 1);
    } else if |c| > 1 {
      GroupsAt(c[1..], 0);
    }
  }

  lemma {:induction false} GroupsLength(c: seq<seq<Path>>)
    ensures |Groups(c)| == |c|
  {
    if c != [] {
      GroupsLength(c[1..]);
    }
  }

  lemma SortMember(u: seq<Group>, g: Group)
    ensures g in Sort(u) <==> g in u
  {
    SortIsStable(u, g);
    assert g in Sort(u) <==> g in multiset(Sort(u));
  }

  /** The groups of the outcome are the policy's classes, each brought up to date. */
  lemma OutcomeMember(policy: Policy, ps: seq<Path>, split: bool, g: Group) returns (k: nat)
    requires g in Outcome(policy, ps, split)
    ensures k < |Grouped(policy, ps, split)| && g == Updated(Group(Grouped(policy, ps, split)[k], 0, 0, false))
  {
    hide Updated, Grouped, Sort;
    var c := Grouped(policy, ps, split);
    var u := UpdatedAll(Groups(c));
    SortMember(u, g);
    GroupsLength(c);
    k :| 0 <= k < |u| && u[k] == g;
    GroupsAt(c, k);
  }

  lemma OutcomeHas(policy: Policy, ps: seq<Path>, split: bool, k: nat)
    requires k < |Grouped(policy, ps, split)|
    ensures Updated(Group(Grouped(policy, ps, split)[k], 0, 0, false)) in Outcome(policy, ps, split)
  {
    hide Updated, Grouped, Sort;
    var c := Grouped(policy, ps, split);
    var u := UpdatedAll(Groups(c));
    GroupsAt(c, k);
    assert u[k] == Updated(Groups(c)[k]);
    SortMember(u, u[k]);
  }

  lemma {:induction false} FlatHas(c: seq<seq<Path>>, k: nat, x: Path)
    requires k < |c| && x in c[k]
    ensures x in Flat(c)
  {
    if k > 0 {
      FlatHas(c[1..], k - 1, x);
    }
  }

  lemma {:induction false} FlatFind(c: seq<seq<Path>>, x: Path) returns (k: nat)
    requires x in Flat(c)
    ensures k < |c| && x in c[k]
  {
    if x in c[0] {
      k := 0;
    } else {
      k := FlatFind(c[1..], x);
      k := k + 1;
    }
  }

  /** Which paths a group of a policy run may hold. */
  lemma PolicyClassWithin(policy: Policy, ps: seq<Path>, k: nat, x: Path)
    requires k < |PolicyClasses(policy, ps)| && x in PolicyClasses(policy, ps)[k]
    ensures x in ps
  {
    PolicyKeepsPaths(policy, ps);
    FlatHas(PolicyClasses(policy, ps), k, x);
    hide PolicyClasses, Flat;
    assert x in multiset(ps);
  }

  /** With marginal grouping every group is pure: all its paths marginal, or none. */
  lemma GroupsArePure(policy: Policy, ps: seq<Path>, k: nat, x: Path, y: Path)
    requires k < |Grouped(policy, ps, true)|
    requires x in Grouped(policy, ps, true)[k] && y in Grouped(policy, ps, true)[k]
    ensures x.marginal == y.marginal
  {
    if Mixed(ps) {
      var n, m := PolicyClasses(policy, OfKind(ps, false)), PolicyClasses(policy, OfKind(ps, true));
      if k < |n| {
        PolicyClassWithin(policy, OfKind(ps, false), k, x);
        PolicyClassWithin(policy, OfKind(ps, false), k, y);
      } else {
        PolicyClassWithin(policy, OfKind(ps, true), k - |n|, x);
        PolicyClassWithin(policy, OfKind(ps, true), k - |n|, y);
      }
      KindIn(ps, false, x);
      KindIn(ps, false, y);
      KindIn(ps, true, x);
      KindIn(ps, true, y);
    } else {
      PolicyClassWithin(policy, ps, k, x);
      PolicyClassWithin(policy, ps, k, y);
    }
  }

  /** With marginal grouping all normal groups come before all marginal ones, and a group is
      flagged marginal exactly when its paths are. */
  lemma NormalBeforeMarginal(policy: Policy, ps: seq<Path>, i: nat, j: nat, x: Path, y: Path)
    requires var gs := Outcome(policy, ps, true); i < j < |gs| && x in gs[i].paths && y in gs[j].paths
    ensures var gs := Outcome(policy, ps, true);
            gs[i].marginal == x.marginal && gs[j].marginal == y.marginal && (x.marginal ==> y.marginal)
  {
    var c := Grouped(policy, ps, true);
    var gs := Outcome(policy, ps, true);
    FlagIsKind(policy, ps, gs[i], x);
    FlagIsKind(policy, ps, gs[j], y);
    SortIsStable(UpdatedAll(Groups(c)), gs[i]);
    hide Grouped, Sort, Groups, UpdatedAll;
    assert MayPrecede(gs[i], gs[j]);
  }

  lemma FlagIsKind(policy: Policy, ps: seq<Path>, g: Group, x: Path)
    requires g in Outcome(policy, ps, true) && x in g.paths
    ensures g.marginal == x.marginal
  {
    hide Grouped, Outcome, GroupPriority, EnabledOf;
    var k := OutcomeMember(policy, ps, true, g);
    forall y | y in g.paths ensures y.marginal == x.marginal {
      GroupsArePure(policy, ps, k, x, y);
    }
  }

  ghost predicate ShareGroup(gs: seq<Group>, x: Path, y: Path) {
    exists g :: g in gs && x in g.paths && y in g.paths
  }

  /** Same split: both paths normal, both marginal, or no split at all. */
  predicate SameSplit(ps: seq<Path>, split: bool, x: Path, y: Path) {
    !split || x.marginal == y.marginal
  }

  lemma {:induction false} SinglesAt(ps: seq<Path>, k: nat)
    requires k < |Singles(ps)|
    ensures |Singles(ps)| == |ps| && Singles(ps)[k] == [ps[k]]
  {
    if k > 0 {
      SinglesAt(ps[1..], k - 1);
    } else if |ps| > 1 {
      assert |Singles(ps[1..])| > 0;
      SinglesAt(ps[1..], 0);
    }
  }

  /** One policy run: two paths share a group if and only if the policy matches them. */
  lemma PolicyTogether(policy: Policy, ps: seq<Path>, k: nat, x: Path, y: Path)
    requires k < |PolicyClasses(policy, ps)| && x in PolicyClasses(policy, ps)[k] && y in ps
    ensures y in PolicyClasses(policy, ps)[k] <==> Together(policy, x, y)
  {
    match policy
    case Failover => SinglesAt(ps, k);
    case Multibus =>
    case _ =>
      MatchesAreEquivalences();
      TogetherIffMatching(ps, MatchOf(policy), k, x, y);
  }

  lemma GroupedTogether(policy: Policy, ps: seq<Path>, split: bool, k: nat, x: Path, y: Path)
    requires k < |Grouped(policy, ps, split)| && x in Grouped(policy, ps, split)[k] && y in ps
    ensures y in Grouped(policy, ps, split)[k] <==> Together(policy, x, y) && SameSplit(ps, split, x, y)
  {
    if split && Mixed(ps) {
      var n := PolicyClasses(policy, OfKind(ps, false));
      var marginal := k >= |n|;
      var l := if marginal then k - |n| else k;
      var side := OfKind(ps, marginal);
      assert Grouped(policy, ps, split)[k] == PolicyClasses(policy, side)[l];
      PolicyClassWithin(policy, side, l, x);
      KindIn(ps, marginal, x);
      KindIn(ps, marginal, y);
      if y in side {
        PolicyTogether(policy, side, l, x, y);
      } else if y in PolicyClasses(policy, side)[l] {
        PolicyClassWithin(policy, side, l, y);
      }
    } else {
      PolicyClassWithin(policy, ps, k, x);
      PolicyTogether(policy, ps, k, x, y);
    }
  }

  /** The outcome of group_paths: two paths end up in one group if and only if the policy
      matches them and, with marginal grouping, they are of one kind. */
  lemma ShareGroupIff(policy: Policy, ps: seq<Path>, split: bool, x: Path, y: Path)
    requires x in ps && y in ps
    ensures ShareGroup(Outcome(policy, ps, split), x, y) <==> Together(policy, x, y) && SameSplit(ps, split, x, y)
  {
    var gs, c := Outcome(policy, ps, split), Grouped(policy, ps, split);
    GroupedKeepsPaths(policy, ps, split);
    assert x in multiset(Flat(c));
    hide Outcome, Grouped, Together, SameSplit, GroupPriority, EnabledOf, Flat;
    if ShareGroup(gs, x, y) {
      var g :| g in gs && x in g.paths && y in g.paths;
      var k := OutcomeMember(policy, ps, split, g);
      GroupedTogether(policy, ps, split, k, x, y);
    } else {
      var k := FlatFind(c, x);
      OutcomeHas(policy, ps, split, k);
      var g := Updated(Group(c[k], 0, 0, false));
      assert g in gs && x in g.paths;
      GroupedTogether(policy, ps, split, k, x, y);
      assert y !in g.paths;
    }
  }
}
