/** Round-robin path ordering of libmultipath/configure.c: the paths of a path group are
    split into adapter groups and host groups, then merged back by two nested cursors. */
module HostOrder {

  import opened Paths
  import opened Wrappers

  datatype Protocol = FCP | SAS | ISCSI | SRP | OtherProtocol

  datatype Path = Path(dev: string, dev_t: string, host_no: int, proto: Protocol)

  /** The sysfs lookup of a path's adapter name, which may fail. */
  type Lookup = Path -> Option<string>

  predicate Usable(name: Lookup, p: Path) { name(p).Some? && Storable(p.dev, p.dev_t) }

  // ------------------------------------------------ values of the two levels of groups

  datatype Host = Host(host_no: int, paths: seq<Path>)
  datatype Adapter = Adapter(name: string, next: nat, hosts: seq<Host>)

  function HostPaths(hosts: seq<Host>): (r: seq<Path>) {
    if hosts == [] then [] else HostPaths(hosts[..|hosts| - 1]) + hosts[|hosts| - 1].paths
  }

  /** All paths of all groups, adapter by adapter and host by host. */
  function AllPaths(v: seq<Adapter>): (r: seq<Path>) {
    if v == [] then [] else AllPaths(v[..|v| - 1]) + HostPaths(v[|v| - 1].hosts)
  }

  /** The paths of `ps` on one adapter and host, in their order. */
  function Select(ps: seq<Path>, name: Lookup, n: string, h: int): (r: seq<Path>) {
    if ps == [] then [] else
      var p := ps[|ps| - 1];
      Select(ps[..|ps| - 1], name, n, h) + if name(p) == Some(n) && p.host_no == h then [p] else []
  }

  lemma {:induction false} SelectConcat(ps: seq<Path>, qs: seq<Path>, name: Lookup, n: string, h: int)
    ensures Select(ps + qs, name, n, h) == Select(ps, name, n, h) + Select(qs, name, n, h)
  {
    if qs == [] {
      assert ps + qs == ps;
    } else {
      assert (ps + qs)[..|ps + qs| - 1] == ps + qs[..|qs| - 1];
      SelectConcat(ps, qs[..|qs| - 1], name, n, h);
    }
  }

  lemma {:induction false} SelectNone(ps: seq<Path>, name: Lookup, n: string, h: int)
    requires forall p :: p in ps ==> name(p) != Some(n)
    ensures Select(ps, name, n, h) == []
  {
    if ps != [] {
      assert ps[|ps| - 1] in ps;
      SelectNone(ps[..|ps| - 1], name, n, h);
    }
  }

  function Append(v: seq<Adapter>, a: nat, j: nat, p: Path): (r: seq<Adapter>)
    requires a < |v| && j < |v[a].hosts|
    ensures |r| == |v|
  {
    v[a := AppendTo(v[a], j, p)]
  }

  function AppendTo(x: Adapter, j: nat, p: Path): (r: Adapter)
    requires j < |x.hosts|
  {
    x.(hosts := AppendHost(x.hosts, j, p))
  }

  function AppendHost(hosts: seq<Host>, j: nat, p: Path): (r: seq<Host>)
    requires j < |hosts|
    ensures |r| == |hosts|
  {
    hosts[j := hosts[j].(paths := hosts[j].paths + [p])]
  }

  lemma {:induction false} AppendHostAddsOne(hosts: seq<Host>, j: nat, p: Path)
    requires j < |hosts|
    ensures multiset(HostPaths(AppendHost(hosts, j, p))) == multiset(HostPaths(hosts)) + multiset{p}
  {
    var n := |hosts| - 1;
    var front, front' := hosts[..n], AppendHost(hosts, j, p)[..n];
    if j < n {
      assert front' == AppendHost(front, j, p);
      AppendHostAddsOne(front, j, p);
    } else {
      assert front' == front;
      assert HostPaths(AppendHost(hosts, j, p)) == HostPaths(front) + (hosts[n].paths + [p]) == HostPaths(hosts) + [p];
    }
  }

  lemma {:induction false} AppendAddsOne(v: seq<Adapter>, a: nat, j: nat, p: Path)
    requires a < |v| && j < |v[a].hosts|
    ensures multiset(AllPaths(Append(v, a, j, p))) == multiset(AllPaths(v)) + multiset{p}
  {
    var n := |v| - 1;
    var front, front' := v[..n], Append(v, a, j, p)[..n];
    if a < n {
      assert front' == Append(front, a, j, p);
      AppendAddsOne(front, a, j, p);
    } else {
      assert front' == front;
      AppendHostAddsOne(v[n].hosts, j, p);
    }
  }

  /** The host groups sort the paths `done` by adapter name and host number: every group
      holds exactly the paths with its key, no two groups share a key, no path is missing. */
  ghost predicate Sorted(v: seq<Adapter>, done: seq<Path>, name: Lookup) {
    && (forall a, b :: 0 <= a < b < |v| ==> v[a].name != v[b].name)
    && (forall a, i, j :: 0 <= a < |v| && 0 <= i < j < |v[a].hosts| ==> v[a].hosts[i].host_no != v[a].hosts[j].host_no)
    && (forall a, j :: 0 <= a < |v| && 0 <= j < |v[a].hosts| ==>
          v[a].hosts[j].paths == Select(done, name, v[a].name, v[a].hosts[j].host_no))
    && (forall p :: p in done ==> HasGroup(v, name, p))
    && (forall a :: 0 <= a < |v| ==> v[a].next == 0 && v[a].hosts != [])
  }

  ghost predicate HasGroup(v: seq<Adapter>, name: Lookup, p: Path) {
    exists a, j :: 0 <= a < |v| && 0 <= j < |v[a].hosts| && InGroup(v, a, j, name, p)
  }

  predicate InGroup(v: seq<Adapter>, a: nat, j: nat, name: Lookup, p: Path)
    requires a < |v| && j < |v[a].hosts|
  {
    name(p) == Some(v[a].name) && p.host_no == v[a].hosts[j].host_no
  }

  function NewAdapter(v: seq<Adapter>, n: string, h: int): seq<Adapter> {
    v + [Adapter(n, 0, [Host(h, [])])]
  }

  function NewHost(v: seq<Adapter>, a: nat, h: int): (r: seq<Adapter>)
    requires a < |v|
    ensures |r| == |v|
  {
    v[a := NewHostIn(v[a], h)]
  }

  function NewHostIn(x: Adapter, h: int): (r: Adapter) {
    x.(hosts := x.hosts + [Host(h, [])])
  }

  lemma GroupPersists(v: seq<Adapter>, v': seq<Adapter>, name: Lookup, p: Path)
    requires HasGroup(v, name, p) && |v| <= |v'|
    requires forall a :: 0 <= a < |v| ==> v'[a].name == v[a].name && |v[a].hosts| <= |v'[a].hosts|
    requires forall a, j :: 0 <= a < |v| && 0 <= j < |v[a].hosts| ==> v'[a].hosts[j].host_no == v[a].hosts[j].host_no
    ensures HasGroup(v', name, p)
  {
    var a, j :| 0 <= a < |v| && 0 <= j < |v[a].hosts| && InGroup(v, a, j, name, p);
    assert InGroup(v', a, j, name, p);
  }

  lemma NewAdapterKeepsGroup(v: seq<Adapter>, name: Lookup, n: string, h: int, p: Path)
    requires HasGroup(v, name, p) && forall a :: 0 <= a < |v| ==> v[a].name != n
    ensures HasGroup(NewAdapter(v, n, h), name, p) && name(p) != Some(n)
  {
    var a, j :| 0 <= a < |v| && 0 <= j < |v[a].hosts| && InGroup(v, a, j, name, p);
    assert InGroup(NewAdapter(v, n, h), a, j, name, p);
  }

  lemma NewAdapterKeepsSorted(v: seq<Adapter>, done: seq<Path>, name: Lookup, n: string, h: int)
    requires Sorted(v, done, name) && forall a :: 0 <= a < |v| ==> v[a].name != n
    ensures Sorted(NewAdapter(v, n, h), done, name)
  {
    hide HasGroup;
    forall p | p in done ensures HasGroup(NewAdapter(v, n, h), name, p) && name(p) != Some(n) {
      NewAdapterKeepsGroup(v, name, n, h, p);
    }
    SelectNone(done, name, n, h);
  }

  lemma AllPathsNewAdapter(v: seq<Adapter>, n: string, h: int)
    ensures AllPaths(NewAdapter(v, n, h)) == AllPaths(v)
  {
    assert NewAdapter(v, n, h)[..|v|] == v;
    assert HostPaths([Host(h, [])]) == [];
  }

  lemma {:induction false} AllPathsNewHost(v: seq<Adapter>, a: nat, h: int)
    requires a < |v|
    ensures AllPaths(NewHost(v, a, h)) == AllPaths(v)
  {
    var n := |v| - 1;
    if a < n {
      assert NewHost(v, a, h)[..n] == NewHost(v[..n], a, h);
      AllPathsNewHost(v[..n], a, h);
    } else {
      assert NewHost(v, a, h)[..n] == v[..n];
      assert NewHost(v, a, h)[n].hosts[..|v[n].hosts|] == v[n].hosts;
    }
  }

  lemma {:induction false} SelectNoHost(ps: seq<Path>, name: Lookup, n: string, h: int)
    requires forall p :: p in ps ==> name(p) != Some(n) || p.host_no != h
    ensures Select(ps, name, n, h) == []
  {
    if ps != [] {
      assert ps[|ps| - 1] in ps;
      SelectNoHost(ps[..|ps| - 1], name, n, h);
    }
  }

  lemma NewHostKeepsSorted(v: seq<Adapter>, done: seq<Path>, name: Lookup, a: nat, h: int)
    requires Sorted(v, done, name) && a < |v|
    requires forall j :: 0 <= j < |v[a].hosts| ==> v[a].hosts[j].host_no != h
    ensures Sorted(NewHost(v, a, h), done, name)
  {
    var v' := NewHost(v, a, h);
    hide Select;
    forall p | p in done ensures HasGroup(v', name, p) && (name(p) != Some(v[a].name) || p.host_no != h) {
      GroupPersists(v, v', name, p);
    }
    SelectNoHost(done, name, v[a].name, h);
  }

  lemma AppendKeepsSorted(v: seq<Adapter>, done: seq<Path>, name: Lookup, a: nat, j: nat, p: Path)
    requires Sorted(v, done, name) && a < |v| && j < |v[a].hosts| && InGroup(v, a, j, name, p)
    ensures Sorted(Append(v, a, j, p), done + [p], name)
  {
    var v' := Append(v, a, j, p);
    assert (done + [p])[..|done|] == done;
    forall q | q in done + [p] ensures HasGroup(v', name, q) {
      if q in done {
        GroupPersists(v, v', name, q);
      } else {
        assert InGroup(v', a, j, name, p);
      }
    }
    forall b, i | 0 <= b < |v'| && 0 <= i < |v'[b].hosts|
      ensures v'[b].hosts[i].paths == Select(done + [p], name, v'[b].name, v'[b].hosts[i].host_no)
    {
      assert v[b].hosts[i].paths == Select(done, name, v[b].name, v[b].hosts[i].host_no);
      if b == a && i == j {
      } else if b == a {
        assert v[a].hosts[i].host_no != v[a].hosts[j].host_no;
      } else {
        assert v[a].name != v[b].name;
      }
    }
  }

  /** The first host group with this host number, or the number of host groups. */
  function HostIndex(hosts: seq<Host>, host_no: int): (j: nat)
    ensures j <= |hosts|
    ensures j < |hosts| ==> hosts[j].host_no == host_no
    ensures forall i :: 0 <= i < j ==> hosts[i].host_no != host_no
  {
    if hosts == [] || hosts[0].host_no == host_no then 0 else
      assert forall i :: 0 < i < |hosts| ==> hosts[i] == hosts[1..][i - 1];
      1 + HostIndex(hosts[1..], host_no)
  }

  /** The adapter group with a host group for this host number. */
  function Opened(x: Adapter, host_no: int): (r: Adapter)
    ensures HostIndex(x.hosts, host_no) < |r.hosts|
  {
    if HostIndex(x.hosts, host_no) == |x.hosts| then NewHostIn(x, host_no) else x
  }

  function AddedTo(x: Adapter, p: Path): (r: Adapter) {
    AppendTo(Opened(x, p.host_no), HostIndex(x.hosts, p.host_no), p)
  }

  function WithHost(v: seq<Adapter>, a: nat, host_no: int): (r: seq<Adapter>)
    requires a < |v|
    ensures |r| == |v| && HostIndex(v[a].hosts, host_no) < |r[a].hosts|
  {
    v[a := Opened(v[a], host_no)]
  }

  function Added(v: seq<Adapter>, a: nat, p: Path): (r: seq<Adapter>)
    requires a < |v|
    ensures |r| == |v|
  {
    v[a := AddedTo(v[a], p)]
  }

  lemma AddedIsAppended(v: seq<Adapter>, a: nat, p: Path)
    requires a < |v|
    ensures Added(v, a, p) == Append(WithHost(v, a, p.host_no), a, HostIndex(v[a].hosts, p.host_no), p)
    ensures WithHost(v, a, p.host_no) == if HostIndex(v[a].hosts, p.host_no) == |v[a].hosts| then NewHost(v, a, p.host_no) else v
  {
    assert v[a := v[a]] == v;
  }

  lemma AddedKeepsSorted(v: seq<Adapter>, done: seq<Path>, name: Lookup, a: nat, p: Path)
    requires Sorted(v, done, name) && a < |v| && name(p) == Some(v[a].name)
    ensures Sorted(Added(v, a, p), done + [p], name)
    ensures forall b :: 0 <= b < |v| ==> Added(v, a, p)[b].name == v[b].name
  {
    AddedIsAppended(v, a, p);
    if HostIndex(v[a].hosts, p.host_no) == |v[a].hosts| {
      NewHostKeepsSorted(v, done, name, a, p.host_no);
    }
    AppendKeepsSorted(WithHost(v, a, p.host_no), done, name, a, HostIndex(v[a].hosts, p.host_no), p);
  }

  lemma AddedAddsOne(v: seq<Adapter>, a: nat, p: Path)
    requires a < |v|
    ensures multiset(AllPaths(Added(v, a, p))) == multiset(AllPaths(v)) + multiset{p}
    ensures AllPaths(WithHost(v, a, p.host_no)) == AllPaths(v)
  {
    AddedIsAppended(v, a, p);
    AllPathsNewHost(v, a, p.host_no);
    AppendAddsOne(WithHost(v, a, p.host_no), a, HostIndex(v[a].hosts, p.host_no), p);
  }

  /** Part of the original paths `orig` is in the groups `v`, in the order `done` they were
      taken; the others are still in `rest`. */
  ghost predicate Split(v: seq<Adapter>, done: seq<Path>, rest: seq<Path>, orig: seq<Path>) {
    && multiset(orig) == multiset(done) + multiset(rest)
    && multiset(AllPaths(v)) == multiset(done)
    && forall p :: p in done ==> Storable(p.dev, p.dev_t)
  }

  ghost predicate KeepsOrder(done: seq<Path>, rest: seq<Path>, orig: seq<Path>, name: Lookup) {
    forall n, h :: Select(orig, name, n, h) == Select(done, name, n, h) + Select(rest, name, n, h)
  }

  ghost predicate Progress(v: seq<Adapter>, done: seq<Path>, rest: seq<Path>, orig: seq<Path>, name: Lookup) {
    && Split(v, done, rest, orig)
    && Sorted(v, done, name)
    && KeepsOrder(done, rest, orig, name)
    && forall p :: p in done ==> Usable(name, p)
  }

  lemma RestIsOriginal(v: seq<Adapter>, done: seq<Path>, rest: seq<Path>, orig: seq<Path>, p: Path)
    requires Split(v, done, rest, orig) && p in rest
    ensures p in orig
  {
    assert p in multiset(rest) && p in multiset(orig);
  }

  function Without(rest: seq<Path>, i: nat): (r: seq<Path>)
    requires i < |rest|
    ensures multiset(rest) == multiset(r) + multiset{rest[i]}
    ensures |r| == |rest| - 1 && forall k :: 0 <= k < i ==> r[k] == rest[k]
    ensures forall p :: p in r ==> p in rest
  {
    assert rest == rest[..i] + [rest[i]] + rest[i + 1..];
    rest[..i] + rest[i + 1..]
  }

  lemma TakeKeepsOrder(done: seq<Path>, rest: seq<Path>, orig: seq<Path>, name: Lookup, i: nat)
    requires KeepsOrder(done, rest, orig, name) && i < |rest|
    requires forall k :: 0 <= k < i ==> name(rest[k]) != name(rest[i])
    ensures KeepsOrder(done + [rest[i]], Without(rest, i), orig, name)
  {
    forall n, h ensures Select(orig, name, n, h) ==
                        Select(done + [rest[i]], name, n, h) + Select(Without(rest, i), name, n, h)
    {
      TakeKeepsOrderAt(done, rest, orig, name, i, n, h);
    }
  }

  lemma TakeKeepsOrderAt(done: seq<Path>, rest: seq<Path>, orig: seq<Path>, name: Lookup, i: nat, n: string, h: int)
    requires Select(orig, name, n, h) == Select(done, name, n, h) + Select(rest, name, n, h) && i < |rest|
    requires forall k :: 0 <= k < i ==> name(rest[k]) != name(rest[i])
    ensures Select(orig, name, n, h) == Select(done + [rest[i]], name, n, h) + Select(Without(rest, i), name, n, h)
  {
    hide Without, Select;
    SelectConcat(done, [rest[i]], name, n, h);
    SelectWithout(rest, name, i, n, h);
    Associative(Select(done, name, n, h), Select([rest[i]], name, n, h), Select(Without(rest, i), name, n, h));
  }

  lemma Associative(a: seq<Path>, b: seq<Path>, c: seq<Path>)
    ensures a + (b + c) == (a + b) + c
  {
  }

  lemma SelectWithout(rest: seq<Path>, name: Lookup, i: nat, n: string, h: int)
    requires i < |rest| && forall k :: 0 <= k < i ==> name(rest[k]) != name(rest[i])
    ensures Select(rest, name, n, h) == Select([rest[i]], name, n, h) + Select(Without(rest, i), name, n, h)
  {
    hide Select;
    var front, p, back := rest[..i], [rest[i]], rest[i + 1..];
    assert rest == front + (p + back);
    SelectConcat(front, p + back, name, n, h);
    SelectConcat(p, back, name, n, h);
    SelectConcat(front, back, name, n, h);
    if name(rest[i]) == Some(n) {
      SelectNone(front, name, n, h);
    } else {
      SelectNone(p, name, n, h);
    }
  }

  /** No path of `ps` is on adapter `n`. */
  predicate NoneOn(ps: seq<Path>, name: Lookup, n: string) {
    forall k :: 0 <= k < |ps| ==> name(ps[k]) != Some(n)
  }

  /** Only the newest adapter group has changed, and not its name. */
  predicate SameFront(v: seq<Adapter>, v': seq<Adapter>) {
    |v'| == |v| > 0 && v'[..|v| - 1] == v[..|v| - 1] && v'[|v| - 1].name == v[|v| - 1].name
  }

  /** Moving path `i` of the rest, the first one on its adapter, keeps the invariant. */
  lemma TakeKeepsProgress(v: seq<Adapter>, done: seq<Path>, rest: seq<Path>, orig: seq<Path>, name: Lookup, a: nat, i: nat)
    requires Progress(v, done, rest, orig, name) && i < |rest| && a < |v|
    requires name(rest[i]) == Some(v[a].name) && Storable(rest[i].dev, rest[i].dev_t)
    requires forall k :: 0 <= k < i ==> name(rest[k]) != name(rest[i])
    ensures Progress(Added(v, a, rest[i]), done + [rest[i]], Without(rest, i), orig, name)
  {
    hide Sorted, Added, AllPaths, Without;
    AddedKeepsSorted(v, done, name, a, rest[i]);
    AddedAddsOne(v, a, rest[i]);
    TakeKeepsOrder(done, rest, orig, name, i);
  }

  /** When nothing is left, the groups sort the original paths, in their original order. */
  lemma AllTakenSortsOriginal(v: seq<Adapter>, done: seq<Path>, orig: seq<Path>, name: Lookup)
    requires Progress(v, done, [], orig, name)
    ensures Sorted(v, orig, name) && multiset(AllPaths(v)) == multiset(orig)
    ensures forall p :: p in orig ==> Usable(name, p)
  {
    assert multiset(orig) == multiset(done);
    forall p | p in orig ensures p in done {
      assert p in multiset(orig);
    }
    forall a, j | 0 <= a < |v| && 0 <= j < |v[a].hosts|
      ensures v[a].hosts[j].paths == Select(orig, name, v[a].name, v[a].hosts[j].host_no)
    {
      assert Select([], name, v[a].name, v[a].hosts[j].host_no) == [];
    }
  }

  lemma MoveFacts(v: seq<Adapter>, done: seq<Path>, rest: seq<Path>, orig: seq<Path>, name: Lookup, a: nat, i: nat)
    requires Progress(v, done, rest, orig, name) && i < |rest| && a < |v|
    requires NoneOn(rest[..i], name, v[a].name) && name(rest[i]) == Some(v[a].name)
    ensures Split(WithHost(v, a, rest[i].host_no), done, rest, orig)
    ensures Storable(rest[i].dev, rest[i].dev_t) ==> Progress(Added(v, a, rest[i]), done + [rest[i]], Without(rest, i), orig, name)
    ensures Storable(rest[i].dev, rest[i].dev_t) ==> Split(Added(v, a, rest[i]), done + [rest[i]], Without(rest, i), orig)
    ensures a == |v| - 1 ==> SameFront(v, Added(v, a, rest[i])) && SameFront(v, WithHost(v, a, rest[i].host_no))
  {
    assert forall k :: 0 <= k < i ==> rest[k] == rest[..i][k];
    AddedAddsOne(v, a, rest[i]);
    AddedKeepsSorted(v, done, name, a, rest[i]);
    hide AllPaths, Added, WithHost, Sorted, KeepsOrder, Without;
    if Storable(rest[i].dev, rest[i].dev_t) {
      TakeKeepsProgress(v, done, rest, orig, name, a, i);
    }
  }

  lemma ProgressSplits(v: seq<Adapter>, done: seq<Path>, rest: seq<Path>, orig: seq<Path>, name: Lookup)
    requires Progress(v, done, rest, orig, name)
    ensures Split(v, done, rest, orig)
  {
  }

  lemma NoneOnExtend(ps: seq<Path>, i: nat, name: Lookup, n: string)
    requires i < |ps| && NoneOn(ps[..i], name, n) && name(ps[i]) != Some(n)
    ensures NoneOn(ps[..i + 1], name, n)
  {
    assert ps[..i + 1] == ps[..i] + [ps[i]];
  }

  lemma NoneOnWithout(ps: seq<Path>, i: nat, name: Lookup, n: string)
    requires i < |ps| && NoneOn(ps[..i], name, n)
    ensures NoneOn(Without(ps, i)[..i], name, n)
  {
    assert Without(ps, i)[..i] == ps[..i];
  }

  predicate NoneOnAny(ps: seq<Path>, name: Lookup, v: seq<Adapter>) {
    forall a :: 0 <= a < |v| ==> NoneOn(ps, name, v[a].name)
  }

  lemma {:induction false} AllPathsPrefix(v: seq<Adapter>, a: nat)
    requires a < |v|
    ensures forall p :: p in HostPaths(v[a].hosts) ==> p in AllPaths(v)
    ensures AllPaths(v[..a + 1]) == AllPaths(v[..a]) + HostPaths(v[a].hosts)
    decreases |v|
  {
    assert v[..a + 1][..a] == v[..a];
    if a < |v| - 1 {
      AllPathsPrefix(v[..|v| - 1], a);
    }
  }

  lemma {:induction false} HostPathsPrefix(hosts: seq<Host>, j: nat)
    requires j < |hosts|
    ensures forall p :: p in hosts[j].paths ==> p in HostPaths(hosts)
    decreases |hosts|
  {
    if j < |hosts| - 1 {
      HostPathsPrefix(hosts[..|hosts| - 1], j);
    }
  }

  lemma SplitStorable(v: seq<Adapter>, done: seq<Path>, rest: seq<Path>, orig: seq<Path>)
    requires Split(v, done, rest, orig)
    ensures forall p :: p in AllPaths(v) ==> Storable(p.dev, p.dev_t)
    ensures multiset(rest + AllPaths(v)) == multiset(orig)
  {
    forall p | p in AllPaths(v) ensures p in done {
      assert p in multiset(AllPaths(v)) && p in multiset(done);
    }
  }

  lemma NoneOnMeansNew(v: seq<Adapter>, rest: seq<Path>, name: Lookup, n: string)
    requires NoneOnAny(rest, name, v) && exists p :: p in rest && name(p) == Some(n)
    ensures forall a :: 0 <= a < |v| ==> v[a].name != n
  {
    var p :| p in rest && name(p) == Some(n);
    forall a | 0 <= a < |v| ensures v[a].name != n {
      assert NoneOn(rest, name, v[a].name);
    }
  }

  lemma NewAdapterKeepsProgress(v: seq<Adapter>, done: seq<Path>, rest: seq<Path>, orig: seq<Path>, name: Lookup, n: string, h: int)
    requires Progress(v, done, rest, orig, name) && NoneOnAny(rest, name, v)
    requires exists p :: p in rest && name(p) == Some(n)
    ensures Progress(NewAdapter(v, n, h), done, rest, orig, name)
  {
    NoneOnMeansNew(v, rest, name, n);
    hide KeepsOrder, Sorted, AllPaths, NewAdapter, NoneOnAny, Usable, Storable;
    NewAdapterKeepsSorted(v, done, name, n, h);
    AllPathsNewAdapter(v, n, h);
  }

  lemma StillNoneOnAny(v: seq<Adapter>, w: seq<Adapter>, v': seq<Adapter>, rest: seq<Path>, rest': seq<Path>, name: Lookup, n: string, h: int)
    requires NoneOnAny(rest, name, v) && forall p :: p in rest' ==> p in rest
    requires SameFront(NewAdapter(v, n, h), w) && SameFront(w, v') && NoneOn(rest', name, n)
    ensures NoneOnAny(rest', name, v')
  {
    assert NewAdapter(v, n, h)[..|v|] == v;
    forall a, k | 0 <= a < |v| && 0 <= k < |rest'| ensures name(rest'[k]) != Some(v'[a].name) {
      assert v'[a] == v'[..|v|][a] == v[a] && NoneOn(rest, name, v[a].name) && rest'[k] in rest;
    }
  }

  // ------------------------------------------------------------------ the split

  class PathGroup {
    var paths: seq<Path>

    /** store_path */
    method StorePath(p: Path) returns (rc: int)
      modifies this
      ensures rc == if Storable(p.dev, p.dev_t) then 0 else 1
      ensures paths == if Storable(p.dev, p.dev_t) then old(paths) + [p] else old(paths)
    {
      if !Storable(p.dev, p.dev_t) {
        return 1;
      }
      paths := paths + [p];
      rc := 0;
    }
  }

  /** The index of the host group with this host number, or the number of host groups. */
  method FindHost(hosts: seq<Host>, host_no: int) returns (j: nat)
    ensures j == HostIndex(hosts, host_no)
  {
    j := 0;
    while j < |hosts|
      invariant j <= |hosts|
      invariant HostIndex(hosts, host_no) == j + HostIndex(hosts[j..], host_no)
    {
      if hosts[j].host_no == host_no {
        return;
      }
      j := j + 1;
    }
  }

  /** Adding one path to an adapter group: to its host group if there is one, else to a new one. */
  method AddToAdapter(x: Adapter, p: Path) returns (rc: int, x': Adapter)
    ensures rc == if Storable(p.dev, p.dev_t) then 0 else 1
    ensures x' == if Storable(p.dev, p.dev_t) then AddedTo(x, p) else Opened(x, p.host_no)
  {
    x' := x;
    var j := FindHost(x.hosts, p.host_no);
    if j == |x.hosts| {
      x' := x'.(hosts := x'.hosts + [Host(p.host_no, [])]);
    }
    if !Storable(p.dev, p.dev_t) {
      return 1, x';
    }
    var h := x'.hosts[j];
    x' := x'.(hosts := x'.hosts[j := h.(paths := h.paths + [p])]);
    rc := 0;
  }

  /** One turn of the inner loop of group_by_host_adapter: leave path `i` alone or move it to
      the newest adapter group. */
  method TakeOne(pgp: PathGroup, name: Lookup, i: nat, v: seq<Adapter>, ghost done: seq<Path>, ghost orig: seq<Path>)
      returns (rc: int, i': nat, v': seq<Adapter>, ghost done': seq<Path>)
    requires v != [] && Progress(v, done, pgp.paths, orig, name) && i < |pgp.paths|
    requires NoneOn(pgp.paths[..i], name, v[|v| - 1].name)
    modifies pgp
    ensures Split(v', done', pgp.paths, orig) && SameFront(v, v')
    ensures rc == 0 ==> Progress(v', done', pgp.paths, orig, name)
    ensures rc == 0 ==> i' <= |pgp.paths| && NoneOn(pgp.paths[..i'], name, v[|v| - 1].name)
    ensures (pgp.paths == old(pgp.paths) && i' == i + 1) || (pgp.paths == Without(old(pgp.paths), i) && i' == i)
    ensures rc != 0 ==> exists p :: p in orig && !Usable(name, p)
  {
    var a := |v| - 1;
    var pp1 := pgp.paths[i];
    v', done', i' := v, done, i + 1;
    RestIsOriginal(v, done, pgp.paths, orig, pp1);
    ProgressSplits(v, done, pgp.paths, orig, name);
    var adapter_name2 := name(pp1);
    assert adapter_name2 == None || !Storable(pp1.dev, pp1.dev_t) ==> !Usable(name, pp1);
    if adapter_name2 == None {
      return 1, i', v', done';
    }
    if adapter_name2.value != v[a].name {
      NoneOnExtend(pgp.paths, i, name, v[a].name);
      return 0, i', v', done';
    }
    MoveFacts(v, done, pgp.paths, orig, name, a, i);
    NoneOnWithout(pgp.paths, i, name, v[a].name);
    hide Split, Progress, Storable, Usable, AddedTo, Opened, Without, NoneOn;
    var x;
    rc, x := AddToAdapter(v[a], pp1);
    v' := v[a := x];
    if rc == 0 {
      done', i' := done + [pp1], i;
      pgp.paths := Without(pgp.paths, i);
    }
  }

  /** The inner loop of group_by_host_adapter: move every path of the newest adapter. */
  method TakeAdapter(pgp: PathGroup, name: Lookup, v: seq<Adapter>, ghost done: seq<Path>, ghost orig: seq<Path>)
      returns (rc: int, v': seq<Adapter>, ghost done': seq<Path>)
    requires v != [] && Progress(v, done, pgp.paths, orig, name)
    modifies pgp
    ensures Split(v', done', pgp.paths, orig) && SameFront(v, v')
    ensures |pgp.paths| <= old(|pgp.paths|) && forall p :: p in pgp.paths ==> p in old(pgp.paths)
    ensures rc == 0 ==> Progress(v', done', pgp.paths, orig, name) && NoneOn(pgp.paths, name, v[|v| - 1].name)
    ensures rc != 0 ==> exists p :: p in orig && !Usable(name, p)
  {
    hide Split, Progress, Usable;
    var i: nat := 0;
    v', done', rc := v, done, 0;
    while i < |pgp.paths|
      invariant i <= |pgp.paths| <= old(|pgp.paths|)
      invariant SameFront(v, v') && Progress(v', done', pgp.paths, orig, name)
      invariant forall p :: p in pgp.paths ==> p in old(pgp.paths)
      invariant NoneOn(pgp.paths[..i], name, v[|v| - 1].name)
      decreases |pgp.paths| - i
    {
      rc, i, v', done' := TakeOne(pgp, name, i, v', done', orig);
      if rc != 0 {
        return;
      }
    }
    assert pgp.paths[..i] == pgp.paths;
    ProgressSplits(v', done', pgp.paths, orig, name);
    rc := 0;
  }

  /** The outer loop of group_by_host_adapter for the path at slot 0: a new adapter group
      that takes every path of its adapter. */
  method GroupOne(pgp: PathGroup, name: Lookup, v: seq<Adapter>, ghost done: seq<Path>, ghost orig: seq<Path>)
      returns (rc: int, v': seq<Adapter>, ghost done': seq<Path>)
    requires Progress(v, done, pgp.paths, orig, name) && NoneOnAny(pgp.paths, name, v) && |pgp.paths| > 0
    modifies pgp
    ensures Split(v', done', pgp.paths, orig)
    ensures rc == 0 ==> Progress(v', done', pgp.paths, orig, name) && NoneOnAny(pgp.paths, name, v')
    ensures rc == 0 ==> |pgp.paths| < old(|pgp.paths|)
    ensures rc != 0 ==> exists p :: p in orig && !Usable(name, p)
  {
    var pp := pgp.paths[0];
    ghost var rest := pgp.paths;
    v', done' := v, done;
    RestIsOriginal(v, done, rest, orig, pp);
    ProgressSplits(v, done, rest, orig, name);
    var adapter_name1 := name(pp);
    assert adapter_name1 == None || !Storable(pp.dev, pp.dev_t) ==> !Usable(name, pp);
    if adapter_name1 == None {
      return 1, v', done';
    }
    ghost var n, a, h := adapter_name1.value, |v|, pp.host_no;
    NewAdapterKeepsProgress(v, done, rest, orig, name, n, h);
    NewAdapterFront(v, n, h, pp);
    assert NoneOn(rest[..0], name, n);
    MoveFacts(NewAdapter(v, n, h), done, rest, orig, name, a, 0);
    hide Split, Progress, Storable, Usable, Without, NoneOn, NoneOnAny, SameFront;
    // alloc_adaptergroup and alloc_hostgroup
    v' := v + [Adapter(adapter_name1.value, 0, [Host(pp.host_no, [])])];
    if !Storable(pp.dev, pp.dev_t) {
      return 1, v', done';
    }
    v' := v + [Adapter(adapter_name1.value, 0, [Host(pp.host_no, [pp])])];
    done' := done + [pp];
    pgp.paths := Without(pgp.paths, 0);
    ghost var w := v';
    rc, v', done' := TakeAdapter(pgp, name, v', done', orig);
    if rc == 0 {
      StillNoneOnAny(v, w, v', rest, pgp.paths, name, n, h);
    }
  }

  lemma NewAdapterFront(v: seq<Adapter>, n: string, h: int, p: Path)
    requires p.host_no == h
    ensures WithHost(NewAdapter(v, n, h), |v|, h) == NewAdapter(v, n, h)
    ensures Added(NewAdapter(v, n, h), |v|, p) == v + [Adapter(n, 0, [Host(h, [p])])]
  {
    var x := Adapter(n, 0, [Host(h, [])]);
    assert [] + [p] == [p];
    assert Opened(x, h) == x && AppendHost(x.hosts, 0, p) == [Host(h, [p])];
    assert NewAdapter(v, n, h)[|v| := AddedTo(x, p)] == v + [Adapter(n, 0, [Host(h, [p])])];
    assert NewAdapter(v, n, h)[|v| := x] == NewAdapter(v, n, h);
  }

  /** The failure exit of group_by_host_adapter: put every grouped path back. */
  method Restore(pgp: PathGroup, v: seq<Adapter>)
    requires forall p :: p in AllPaths(v) ==> Storable(p.dev, p.dev_t)
    modifies pgp
    ensures pgp.paths == old(pgp.paths) + AllPaths(v)
  {
    for a := 0 to |v|
      invariant pgp.paths == old(pgp.paths) + AllPaths(v[..a])
    {
      AllPathsPrefix(v, a);
      RestoreAdapter(pgp, v[a]);
      Associative(old(pgp.paths), AllPaths(v[..a]), HostPaths(v[a].hosts));
    }
    assert v[..|v|] == v;
  }

  method RestoreAdapter(pgp: PathGroup, x: Adapter)
    requires forall p :: p in HostPaths(x.hosts) ==> Storable(p.dev, p.dev_t)
    modifies pgp
    ensures pgp.paths == old(pgp.paths) + HostPaths(x.hosts)
  {
    for j := 0 to |x.hosts|
      invariant pgp.paths == old(pgp.paths) + HostPaths(x.hosts[..j])
    {
      assert x.hosts[..j + 1][..j] == x.hosts[..j];
      HostPathsPrefix(x.hosts, j);
      Associative(old(pgp.paths), HostPaths(x.hosts[..j]), x.hosts[j].paths);
      RestoreHost(pgp, x.hosts[j].paths);
    }
    assert x.hosts[..|x.hosts|] == x.hosts;
  }

  method RestoreHost(pgp: PathGroup, paths: seq<Path>)
    requires forall p :: p in paths ==> Storable(p.dev, p.dev_t)
    modifies pgp
    ensures pgp.paths == old(pgp.paths) + paths
  {
    var left := paths;
    while |left| > 0
      invariant pgp.paths + left == old(pgp.paths) + paths
      invariant forall p :: p in left ==> Storable(p.dev, p.dev_t)
    {
      assert pgp.paths + left == (pgp.paths + [left[0]]) + left[1..];
      var rc := pgp.StorePath(left[0]);
      left := left[1..];
    }
  }

  /** group_by_host_adapter: it succeeds exactly when every path has a known adapter and can
      be stored; then the groups sort the original paths by adapter and host, each group in
      the original order, and otherwise every path is back in the path group. */
  method GroupByHostAdapter(pgp: PathGroup, name: Lookup) returns (rc: int, v: seq<Adapter>)
    modifies pgp
    ensures rc == 0 <==> forall p :: p in old(pgp.paths) ==> Usable(name, p)
    ensures rc == 0 ==> pgp.paths == [] && Sorted(v, old(pgp.paths), name)
    ensures rc == 0 ==> multiset(AllPaths(v)) == multiset(old(pgp.paths))
    ensures rc != 0 ==> multiset(pgp.paths) == multiset(old(pgp.paths))
  {
    ghost var orig, done := pgp.paths, [];
    v, rc := [], 0;
    assert NoneOnAny(pgp.paths, name, v) && Progress(v, done, pgp.paths, orig, name);
    while |pgp.paths| > 0
      invariant Progress(v, done, pgp.paths, orig, name) && NoneOnAny(pgp.paths, name, v)
    {
      hide Progress, NoneOnAny, Usable, Storable, Split;
      rc, v, done := GroupOne(pgp, name, v, done, orig);
      if rc != 0 {
        SplitStorable(v, done, pgp.paths, orig);
        Restore(pgp, v);
        return;
      }
    }
    AllTakenSortsOriginal(v, done, orig, name);
    rc := 0;
  }

  // ------------------------------------------------------------------ the merge

  function Drop(ps: seq<Path>, n: nat): seq<Path> {
    if n <= |ps| then ps[n..] else []
  }

  /** The host cursor after `n` visits to an adapter with `h` host groups: n mod h. */
  function Turn(n: nat, h: nat): (t: nat)
    requires 0 < h
    ensures t < h
  {
    if n == 0 || Turn(n - 1, h) + 1 == h then 0 else Turn(n - 1, h) + 1
  }

  /** How often the host cursor has come round after `n` visits: n div h. */
  function Lap(n: nat, h: nat): nat
    requires 0 < h
  {
    if n == 0 then 0 else Lap(n - 1, h) + if Turn(n - 1, h) + 1 == h then 1 else 0
  }

  lemma {:induction false} LapAndTurn(n: nat, h: nat)
    requires 0 < h
    ensures n == Lap(n, h) * h + Turn(n, h)
  {
    if n > 0 {
      LapAndTurn(n - 1, h);
      if Turn(n - 1, h) + 1 == h {
        assert (Lap(n - 1, h) + 1) * h == Lap(n - 1, h) * h + h;
      }
    }
  }

  /** Host group `j` has its next turn at some visit from `n` on. */
  lemma {:induction false} NextTurn(n: nat, h: nat, j: nat) returns (r: nat)
    requires j < h
    ensures n <= r && Turn(r, h) == j && Lap(r, h) == Lap(n, h) + if j < Turn(n, h) then 1 else 0
    decreases if j < Turn(n, h) then h + j - Turn(n, h) else j - Turn(n, h)
  {
    if Turn(n, h) == j {
      r := n;
    } else {
      r := NextTurn(n + 1, h, j);
    }
  }

  /** An adapter group after the merge has visited it `visits` times: the host cursor has
      gone round, and each visit has taken the next path of its host group if there was one. */
  ghost function AdapterAt(x: Adapter, visits: nat): (r: Adapter)
    requires x.hosts != []
    ensures |r.hosts| == |x.hosts| && r.name == x.name
  {
    var h := |x.hosts|;
    Adapter(x.name, Turn(visits, h),
            seq(h, j requires 0 <= j < h =>
              Host(x.hosts[j].host_no, Drop(x.hosts[j].paths, Lap(visits, h) + if j < Turn(visits, h) then 1 else 0))))
  }

  ghost predicate Started(v: seq<Adapter>) {
    forall a :: 0 <= a < |v| ==> v[a].next == 0 && v[a].hosts != []
  }

  /** All adapter groups when `i` adapters have been visited in round `round`. */
  ghost function CurAt(v: seq<Adapter>, round: nat, i: nat): (r: seq<Adapter>)
    requires Started(v)
    ensures |r| == |v|
  {
    seq(|v|, a requires 0 <= a < |v| => AdapterAt(v[a], round + if a < i then 1 else 0))
  }

  /** In round `round` adapter `a` offers host group Turn for the Lap-th time: is there
      still a path? */
  ghost predicate Offers(v: seq<Adapter>, round: nat, a: nat)
    requires Started(v)
  {
    a < |v| && Lap(round, |v[a].hosts|) < |v[a].hosts[Turn(round, |v[a].hosts|)].paths|
  }

  ghost function Offer(v: seq<Adapter>, round: nat, a: nat): Path
    requires Started(v) && Offers(v, round, a)
  {
    v[a].hosts[Turn(round, |v[a].hosts|)].paths[Lap(round, |v[a].hosts|)]
  }

  /** The reference order: round by round, adapter by adapter, whatever is offered. */
  ghost function Emitted(v: seq<Adapter>, round: nat, i: nat): seq<Path>
    requires Started(v)
    decreases round, i
  {
    if i > 0 then Emitted(v, round, i - 1) + if Offers(v, round, i - 1) then [Offer(v, round, i - 1)] else []
    else if round > 0 then Emitted(v, round - 1, |v|)
    else []
  }

  /** Nothing is offered at or after the cursor. */
  ghost predicate Drained(v: seq<Adapter>, round: nat, i: nat)
    requires Started(v)
  {
    forall r: nat, a: nat :: Offers(v, r, a) ==> r < round || (r == round && a < i)
  }

  /** What one visit does to an adapter group. */
  function Visit(x: Adapter): (r: Adapter)
    requires x.next < |x.hosts|
  {
    var h := x.hosts[x.next];
    Adapter(x.name, NextCursor(x.next, |x.hosts|), x.hosts[x.next := h.(paths := Drop(h.paths, 1))])
  }

  lemma DropAgain(ps: seq<Path>, n: nat)
    ensures Drop(Drop(ps, n), 1) == Drop(ps, n + 1)
  {
  }

  /** One step of a modular cursor. */
  function NextCursor(t: nat, h: nat): (r: nat)
    requires t < h
    ensures r == if t + 1 == h then 0 else t + 1
  {
    (t + 1) % h
  }

  lemma VisitAdvances(x: Adapter, visits: nat)
    requires x.hosts != []
    ensures Visit(AdapterAt(x, visits)) == AdapterAt(x, visits + 1)
  {
    var h := |x.hosts|;
    DropAgain(x.hosts[Turn(visits, h)].paths, Lap(visits, h));
    hide Drop;
    var y, z := Visit(AdapterAt(x, visits)), AdapterAt(x, visits + 1);
    assert y.hosts == z.hosts;
  }

  // ---------------------------------------------- the merge keeps every path

  lemma HeadRemoved(a: seq<Path>, b: seq<Path>)
    requires b != []
    ensures multiset(a + Drop(b, 1)) + multiset{b[0]} == multiset(a + b)
  {
    assert b == [b[0]] + Drop(b, 1);
  }

  lemma FrontRemoved(a: seq<Path>, a': seq<Path>, b: seq<Path>, p: Path)
    requires multiset(a') + multiset{p} == multiset(a)
    ensures multiset(a' + b) + multiset{p} == multiset(a + b)
  {
  }

  lemma BackRemoved(a: seq<Path>, b: seq<Path>, b': seq<Path>, p: Path)
    requires multiset(b') + multiset{p} == multiset(b)
    ensures multiset(a + b') + multiset{p} == multiset(a + b)
  {
  }

  function TakeHost(hosts: seq<Host>, j: nat): (r: seq<Host>)
    requires j < |hosts|
    ensures |r| == |hosts|
  {
    hosts[j := hosts[j].(paths := Drop(hosts[j].paths, 1))]
  }

  lemma {:induction false} TakeHostRemovesOne(hosts: seq<Host>, j: nat)
    requires j < |hosts| && hosts[j].paths != []
    ensures multiset(HostPaths(TakeHost(hosts, j))) + multiset{hosts[j].paths[0]} == multiset(HostPaths(hosts))
  {
    var n := |hosts| - 1;
    var front, p := hosts[..n], hosts[j].paths[0];
    hide Drop;
    if j < n {
      assert TakeHost(hosts, j)[..n] == TakeHost(front, j);
      TakeHostRemovesOne(front, j);
      FrontRemoved(HostPaths(front), HostPaths(TakeHost(front, j)), hosts[n].paths, p);
    } else {
      assert TakeHost(hosts, j)[..n] == front;
      HeadRemoved(HostPaths(front), hosts[n].paths);
    }
  }

  lemma AllPathsSnoc(v: seq<Adapter>, a: nat, x: Adapter)
    requires a < |v|
    ensures AllPaths(v) == AllPaths(v[..|v| - 1]) + HostPaths(v[|v| - 1].hosts)
    ensures AllPaths(v[a := x]) ==
            if a < |v| - 1 then AllPaths(v[..|v| - 1][a := x]) + HostPaths(v[|v| - 1].hosts)
            else AllPaths(v[..|v| - 1]) + HostPaths(x.hosts)
  {
    assert v[a := x][..|v| - 1] == if a < |v| - 1 then v[..|v| - 1][a := x] else v[..|v| - 1];
    hide HostPaths;
  }

  lemma VisitTakes(x: Adapter)
    requires x.next < |x.hosts|
    ensures Visit(x).hosts == TakeHost(x.hosts, x.next)
  {
  }

  lemma {:induction false} VisitRemovesOne(v: seq<Adapter>, a: nat)
    requires a < |v| && v[a].next < |v[a].hosts| && v[a].hosts[v[a].next].paths != []
    ensures multiset(AllPaths(v[a := Visit(v[a])])) + multiset{v[a].hosts[v[a].next].paths[0]} == multiset(AllPaths(v))
  {
    hide AllPaths, HostPaths, Visit, TakeHost;
    var n := |v| - 1;
    var x, front, p := Visit(v[a]), v[..n], v[a].hosts[v[a].next].paths[0];
    AllPathsSnoc(v, a, x);
    if a < n {
      VisitRemovesOne(front, a);
      FrontRemoved(AllPaths(front), AllPaths(front[a := x]), HostPaths(v[n].hosts), p);
    } else {
      VisitTakes(v[n]);
      TakeHostRemovesOne(v[n].hosts, v[n].next);
      BackRemoved(AllPaths(front), HostPaths(v[n].hosts), HostPaths(x.hosts), p);
    }
  }

  lemma {:induction false} HostPathsOf(hosts: seq<Host>, hosts': seq<Host>)
    requires |hosts'| == |hosts| && forall j :: 0 <= j < |hosts| ==> hosts'[j].paths == hosts[j].paths
    ensures HostPaths(hosts') == HostPaths(hosts)
  {
    if hosts != [] {
      HostPathsOf(hosts[..|hosts| - 1], hosts'[..|hosts| - 1]);
    }
  }

  lemma {:induction false} IdleVisitKeepsAll(v: seq<Adapter>, a: nat)
    requires a < |v| && v[a].next < |v[a].hosts| && v[a].hosts[v[a].next].paths == []
    ensures AllPaths(v[a := Visit(v[a])]) == AllPaths(v)
  {
    var n := |v| - 1;
    var v' := v[a := Visit(v[a])];
    if a < n {
      assert v'[..n] == v[..n][a := Visit(v[a])];
      IdleVisitKeepsAll(v[..n], a);
    } else {
      assert v'[..n] == v[..n];
      HostPathsOf(v[n].hosts, v'[n].hosts);
    }
  }

  lemma {:induction false} NonemptyHost(hosts: seq<Host>) returns (j: nat)
    requires HostPaths(hosts) != []
    ensures j < |hosts| && hosts[j].paths != []
  {
    var n := |hosts| - 1;
    if hosts[n].paths != [] {
      j := n;
    } else {
      j := NonemptyHost(hosts[..n]);
    }
  }

  lemma {:induction false} NonemptyAdapter(v: seq<Adapter>) returns (a: nat, j: nat)
    requires AllPaths(v) != []
    ensures a < |v| && j < |v[a].hosts| && v[a].hosts[j].paths != []
  {
    var n := |v| - 1;
    if HostPaths(v[n].hosts) != [] {
      a := n;
      j := NonemptyHost(v[n].hosts);
    } else {
      a, j := NonemptyAdapter(v[..n]);
    }
  }

  /** While paths are left, some later stop of the two cursors still offers one. */
  lemma NextOffer(v: seq<Adapter>, round: nat, i: nat) returns (r: nat, a: nat)
    requires Started(v) && AllPaths(CurAt(v, round, i)) != []
    ensures Offers(v, r, a) && (round < r || (round == r && i <= a))
  {
    var j;
    a, j := NonemptyAdapter(CurAt(v, round, i));
    var n, h := round + if a < i then 1 else 0, |v[a].hosts|;
    assert CurAt(v, round, i)[a] == AdapterAt(v[a], n);
    assert Drop(v[a].hosts[j].paths, Lap(n, h) + if j < Turn(n, h) then 1 else 0) != [];
    r := NextTurn(n, h, j);
  }

  // ---------------------------------------------- the merge itself

  lemma MergeVisit(v: seq<Adapter>, round: nat, i: nat)
    requires Started(v) && i < |v|
    ensures var cur := CurAt(v, round, i);
            && cur[i].next < |cur[i].hosts|
            && (cur[i].hosts[cur[i].next].paths != [] <==> Offers(v, round, i))
            && (Offers(v, round, i) ==> cur[i].hosts[cur[i].next].paths[0] == Offer(v, round, i))
            && cur[i := Visit(cur[i])] == CurAt(v, round, i + 1)
  {
    VisitAdvances(v[i], round);
    assert CurAt(v, round, i)[i] == AdapterAt(v[i], round);
    assert CurAt(v, round, i)[i := AdapterAt(v[i], round + 1)] == CurAt(v, round, i + 1);
  }

  lemma RoundEnds(v: seq<Adapter>, round: nat)
    requires Started(v)
    ensures CurAt(v, round, |v|) == CurAt(v, round + 1, 0)
  {
  }

  /** The state of the merge at a stop of the two cursors. */
  ghost predicate Merging(v: seq<Adapter>, cur: seq<Adapter>, out: seq<Path>, round: nat, i: nat)
    requires Started(v)
  {
    && cur == CurAt(v, round, i)
    && out == Emitted(v, round, i)
    && multiset(out) + multiset(AllPaths(cur)) == multiset(AllPaths(v))
  }

  lemma MergeStep(v: seq<Adapter>, cur: seq<Adapter>, out: seq<Path>, round: nat, i: nat)
    requires Started(v) && i < |v| && Merging(v, cur, out, round, i)
    ensures cur[i].next < |cur[i].hosts|
    ensures var ps := cur[i].hosts[cur[i].next].paths;
            && Merging(v, cur[i := Visit(cur[i])], if ps == [] then out else out + [ps[0]], round, i + 1)
            && (ps != [] <==> Offers(v, round, i))
            && |AllPaths(cur)| == |AllPaths(cur[i := Visit(cur[i])])| + (if ps == [] then 0 else 1)
            && (ps != [] ==> ps[0] in AllPaths(v))
  {
    hide AllPaths, Visit, Offers, Offer, CurAt, Emitted;
    MergeVisit(v, round, i);
    EmittedNext(v, round, i);
    var ps := cur[i].hosts[cur[i].next].paths;
    if ps == [] {
      IdleVisitKeepsAll(cur, i);
    } else {
      VisitRemovesOne(cur, i);
      MovedOne(out, ps[0], AllPaths(cur), AllPaths(cur[i := Visit(cur[i])]), AllPaths(v));
    }
  }

  /** A path that leaves the groups and joins the order. */
  lemma MovedOne(out: seq<Path>, p: Path, left: seq<Path>, left': seq<Path>, all: seq<Path>)
    requires multiset(out) + multiset(left) == multiset(all) && multiset(left') + multiset{p} == multiset(left)
    ensures multiset(out + [p]) + multiset(left') == multiset(all) && |left| == |left'| + 1 && p in all
  {
    assert |multiset(left') + multiset{p}| == |multiset(left)|;
    assert p in multiset(left) && p in multiset(all);
  }

  lemma {:induction false} LapGrows(n: nat, r: nat, h: nat)
    requires 0 < h && n <= r
    ensures Lap(n, h) + (if Turn(r, h) < Turn(n, h) then 1 else 0) <= Lap(r, h)
    decreases r - n
  {
    if n < r {
      LapGrows(n, r - 1, h);
    }
  }

  /** A path offered at or after the cursor has not been taken. */
  lemma LateOfferIsLeft(v: seq<Adapter>, round: nat, i: nat, r: nat, a: nat)
    requires Started(v) && Offers(v, r, a) && (round < r || (round == r && i <= a))
    ensures AllPaths(CurAt(v, round, i)) != []
  {
    var n, h := round + if a < i then 1 else 0, |v[a].hosts|;
    var j := Turn(r, h);
    LapGrows(n, r, h);
    var cur := CurAt(v, round, i);
    assert cur[a] == AdapterAt(v[a], n) && cur[a].hosts[j].paths != [];
    HostPathsPrefix(cur[a].hosts, j);
    AllPathsPrefix(cur, a);
    assert cur[a].hosts[j].paths[0] in HostPaths(cur[a].hosts);
  }

  lemma MergeDone(v: seq<Adapter>, cur: seq<Adapter>, out: seq<Path>, round: nat, i: nat)
    requires Started(v) && Merging(v, cur, out, round, i) && AllPaths(cur) == []
    ensures Drained(v, round, i) && out == Emitted(v, round, i) && multiset(out) == multiset(AllPaths(v))
  {
    forall r: nat, a: nat | Offers(v, r, a) ensures r < round || (r == round && a < i) {
      if r > round || (r == round && a >= i) {
        LateOfferIsLeft(v, round, i, r, a);
      }
    }
  }

  /** One turn of the loop of order_paths_in_pg_by_alt_adapters. */
  method MergeOne(pgp: PathGroup, adapters: seq<Adapter>, next_adapter_index: nat, ghost v: seq<Adapter>, ghost round: nat)
      returns (rc: int, adapters': seq<Adapter>, moved: bool)
    requires Started(v) && Merging(v, adapters, pgp.paths, round, next_adapter_index) && next_adapter_index < |v|
    requires forall p :: p in AllPaths(v) ==> Storable(p.dev, p.dev_t)
    modifies pgp
    ensures rc == 0 && Merging(v, adapters', pgp.paths, round, next_adapter_index + 1) && |adapters'| == |adapters|
    ensures moved <==> Offers(v, round, next_adapter_index)
    ensures |AllPaths(adapters)| == |AllPaths(adapters')| + if moved then 1 else 0
  {
    MergeStep(v, adapters, pgp.paths, round, next_adapter_index);
    hide Merging, AllPaths, Offers, Started, Visit, Storable;
    moved, adapters' := false, adapters;
    if next_adapter_index >= |adapters| {
      return 1, adapters', moved;
    }
    var agp := adapters[next_adapter_index];
    if agp.next >= |agp.hosts| {
      return 1, adapters', moved;
    }
    var paths := agp.hosts[agp.next].paths;
    if paths != [] {
      rc := pgp.StorePath(paths[0]);
      if rc != 0 {
        return;
      }
      moved := true;
    }
    // vector_del_slot on the host group's paths, then both cursors advance
    adapters' := adapters[next_adapter_index := Visit(agp)];
    rc := 0;
  }

  /** Stop (r, a) lies at or after the cursors and offers a path. */
  ghost predicate Ahead(v: seq<Adapter>, round: nat, i: nat, r: nat, a: nat)
    requires Started(v)
  {
    Offers(v, r, a) && a < |v| && (round < r || (round == r && i <= a))
  }

  /** The same turn with the bookkeeping of its end: while nothing is moved, the cursors
      come closer to a stop that offers a path. */
  method MergeTurn(pgp: PathGroup, adapters: seq<Adapter>, next_adapter_index: nat, ghost v: seq<Adapter>,
                   ghost round: nat, ghost target: nat, ghost at: nat)
      returns (rc: int, adapters': seq<Adapter>, next': nat, moved: bool, ghost round': nat)
    requires Started(v) && Merging(v, adapters, pgp.paths, round, next_adapter_index)
    requires next_adapter_index < |v| == |adapters| && Ahead(v, round, next_adapter_index, target, at)
    requires forall p :: p in AllPaths(v) ==> Storable(p.dev, p.dev_t)
    modifies pgp
    ensures rc == 0 && Merging(v, adapters', pgp.paths, round', next') && next' < |v| == |adapters'|
    ensures |AllPaths(adapters)| == |AllPaths(adapters')| + if moved then 1 else 0
    ensures !moved ==> Ahead(v, round', next', target, at)
    ensures round' > round || (round' == round && next' > next_adapter_index)
  {
    rc, adapters', moved := MergeOne(pgp, adapters, next_adapter_index, v, round);
    hide Merging, AllPaths, Offers, Started, Storable;
    next', round' := next_adapter_index + 1, round;
    if rc != 0 {
      return;
    }
    next' := NextCursor(next_adapter_index, |adapters|);
    if next' == 0 {
      MergeNextRound(v, adapters', pgp.paths, round);
      round' := round + 1;
    }
  }

  /** order_paths_in_pg_by_alt_adapters.  It never takes a failure return, and it ends: either
      a path is moved or the cursors come closer to the next host group that offers one. */
  method OrderPaths(pgp: PathGroup, v: seq<Adapter>, total: nat) returns (rc: int, ghost round: nat, ghost i: nat)
    requires Started(v) && total == |AllPaths(v)| && pgp.paths == []
    requires forall p :: p in AllPaths(v) ==> Storable(p.dev, p.dev_t)
    modifies pgp
    ensures rc == 0 && i <= |v| && Drained(v, round, i) && pgp.paths == Emitted(v, round, i)
    ensures multiset(pgp.paths) == multiset(AllPaths(v))
  {
    hide Merging, AllPaths, Started, Storable, Emitted, Drained;
    var adapters, next_adapter_index: nat, total_paths := v, 0, total;
    round, i, rc := 0, 0, 0;
    MergeStarts(v);
    ghost var target: nat, at: nat := 0, 0;
    if total_paths > 0 {
      target, at := NextOfferAt(v, adapters, pgp.paths, round, next_adapter_index);
    }
    while total_paths > 0
      invariant Merging(v, adapters, pgp.paths, round, next_adapter_index)
      invariant |adapters| == |v| && total_paths == |AllPaths(adapters)| && next_adapter_index <= |v|
      invariant total_paths > 0 ==> next_adapter_index < |v| && Ahead(v, round, next_adapter_index, target, at)
      decreases total_paths, target - round, |v| - next_adapter_index
    {
      var moved;
      rc, adapters, next_adapter_index, moved, round :=
        MergeTurn(pgp, adapters, next_adapter_index, v, round, target, at);
      if rc != 0 {
        return;
      }
      if moved {
        total_paths := total_paths - 1;
        if total_paths > 0 {
          target, at := NextOfferAt(v, adapters, pgp.paths, round, next_adapter_index);
        }
      }
    }
    i := next_adapter_index;
    MergeDone(v, adapters, pgp.paths, round, i);
    rc := 0;
  }

  lemma MergeStarts(v: seq<Adapter>)
    requires Started(v)
    ensures Merging(v, v, [], 0, 0)
  {
    forall a | 0 <= a < |v| ensures AdapterAt(v[a], 0) == v[a] {
      assert AdapterAt(v[a], 0).hosts == v[a].hosts;
    }
    assert CurAt(v, 0, 0) == v;
  }

  lemma MergeNextRound(v: seq<Adapter>, cur: seq<Adapter>, out: seq<Path>, round: nat)
    requires Started(v) && Merging(v, cur, out, round, |v|)
    ensures Merging(v, cur, out, round + 1, 0)
  {
    RoundEnds(v, round);
  }

  lemma NextOfferAt(v: seq<Adapter>, cur: seq<Adapter>, out: seq<Path>, round: nat, i: nat) returns (r: nat, a: nat)
    requires Started(v) && Merging(v, cur, out, round, i) && AllPaths(cur) != []
    ensures Ahead(v, round, i, r, a)
  {
    r, a := NextOffer(v, round, i);
  }

  // ---------------------------------------------- what the reference order means

  lemma {:induction false} SelectedHasKey(ps: seq<Path>, name: Lookup, n: string, h: int, p: Path)
    requires p in Select(ps, name, n, h)
    ensures p in ps && name(p) == Some(n) && p.host_no == h
  {
    var m := |ps| - 1;
    if !(name(ps[m]) == Some(n) && ps[m].host_no == h && p == ps[m]) {
      SelectedHasKey(ps[..m], name, n, h, p);
    }
  }

  lemma OfferHasKey(v: seq<Adapter>, orig: seq<Path>, name: Lookup, round: nat, a: nat)
    requires Sorted(v, orig, name) && Started(v) && Offers(v, round, a)
    ensures var g := v[a].hosts[Turn(round, |v[a].hosts|)];
            Offer(v, round, a) in orig && name(Offer(v, round, a)) == Some(v[a].name) && Offer(v, round, a).host_no == g.host_no
  {
    var g := v[a].hosts[Turn(round, |v[a].hosts|)];
    assert g.paths == Select(orig, name, v[a].name, g.host_no);
    SelectedHasKey(orig, name, v[a].name, g.host_no, Offer(v, round, a));
  }

  function Clamp(n: nat, ps: seq<Path>): nat {
    if n < |ps| then n else |ps|
  }

  /** How many turns host group `j` of adapter `a` has had before stop (round, i). */
  function Turns(v: seq<Adapter>, round: nat, i: nat, a: nat, j: nat): nat
    requires a < |v| && j < |v[a].hosts|
  {
    var n, h := round + (if a < i then 1 else 0), |v[a].hosts|;
    Lap(n, h) + if j < Turn(n, h) then 1 else 0
  }

  lemma TurnsStep(v: seq<Adapter>, round: nat, b: nat, a: nat, j: nat)
    requires Started(v) && a < |v| && j < |v[a].hosts|
    ensures Turns(v, round, b + 1, a, j) == Turns(v, round, b, a, j) + if a == b && Turn(round, |v[a].hosts|) == j then 1 else 0
    ensures a == b && Turn(round, |v[a].hosts|) == j ==>
              && (Offers(v, round, b) <==> Turns(v, round, b, a, j) < |v[a].hosts[j].paths|)
              && (Offers(v, round, b) ==> Offer(v, round, b) == v[a].hosts[j].paths[Turns(v, round, b, a, j)])
  {
    hide Turn, Lap;
    TurnNext(round, |v[a].hosts|);
  }

  lemma TurnNext(n: nat, h: nat)
    requires 0 < h
    ensures Turn(n + 1, h) == if Turn(n, h) + 1 == h then 0 else Turn(n, h) + 1
    ensures Lap(n + 1, h) == if Turn(n, h) + 1 == h then Lap(n, h) + 1 else Lap(n, h)
  {
  }

  lemma EmittedNext(v: seq<Adapter>, round: nat, i: nat)
    requires Started(v)
    ensures Emitted(v, round, i + 1) == if Offers(v, round, i) then Emitted(v, round, i) + [Offer(v, round, i)] else Emitted(v, round, i)
  {
  }

  /** The merge takes the paths of every host group in their order. */
  lemma {:induction false} GroupOrderKept(v: seq<Adapter>, orig: seq<Path>, name: Lookup, round: nat, i: nat, a: nat, j: nat)
    requires Sorted(v, orig, name) && Started(v) && i <= |v| && a < |v| && j < |v[a].hosts|
    ensures Select(Emitted(v, round, i), name, v[a].name, v[a].hosts[j].host_no) == Taken(v, round, i, a, j)
    decreases round, i
  {
    hide Taken, Sorted, Select, Started;
    if i > 0 {
      GroupOrderKept(v, orig, name, round, i - 1, a, j);
      EmittedNext(v, round, i - 1);
      TakenNext(v, round, i - 1, a, j);
      StopKeepsOrder(v, orig, name, round, i - 1, a, j, Emitted(v, round, i - 1));
      hide Emitted, Offers, Offer, Turn;
    } else if round > 0 {
      GroupOrderKept(v, orig, name, round - 1, |v|, a, j);
      TakenSameAcrossRound(v, round - 1, a, j);
    } else {
      TakenNothing(v, a, j);
      SelectNone([], name, v[a].name, v[a].hosts[j].host_no);
    }
  }

  /** The paths that host group `j` of adapter `a` has given away before stop (round, i). */
  function Taken(v: seq<Adapter>, round: nat, i: nat, a: nat, j: nat): seq<Path>
    requires a < |v| && j < |v[a].hosts|
  {
    v[a].hosts[j].paths[..Clamp(Turns(v, round, i, a, j), v[a].hosts[j].paths)]
  }

  lemma TakenSameAcrossRound(v: seq<Adapter>, round: nat, a: nat, j: nat)
    requires a < |v| && j < |v[a].hosts|
    ensures Taken(v, round, |v|, a, j) == Taken(v, round + 1, 0, a, j)
  {
  }

  lemma TakenNothing(v: seq<Adapter>, a: nat, j: nat)
    requires a < |v| && j < |v[a].hosts|
    ensures Taken(v, 0, 0, a, j) == []
  {
  }

  lemma TakenNext(v: seq<Adapter>, round: nat, b: nat, a: nat, j: nat)
    requires Started(v) && a < |v| && j < |v[a].hosts|
    ensures Taken(v, round, b + 1, a, j) == Taken(v, round, b, a, j) +
              if a == b && Turn(round, |v[a].hosts|) == j && Offers(v, round, b) then [Offer(v, round, b)] else []
  {
    TurnsStep(v, round, b, a, j);
    ClampNext(v[a].hosts[j].paths, Turns(v, round, b, a, j));
    hide Turn, Turns, Clamp, Offer, Offers;
  }

  lemma ClampNext(ps: seq<Path>, n: nat)
    ensures ps[..Clamp(n + 1, ps)] == ps[..Clamp(n, ps)] + if n < |ps| then [ps[n]] else []
  {
  }

  lemma StopKeepsOrder(v: seq<Adapter>, orig: seq<Path>, name: Lookup, round: nat, b: nat, a: nat, j: nat, e: seq<Path>)
    requires Sorted(v, orig, name) && Started(v) && a < |v| && j < |v[a].hosts|
    ensures Offers(v, round, b) ==>
              Select(e + [Offer(v, round, b)], name, v[a].name, v[a].hosts[j].host_no) ==
              Select(e, name, v[a].name, v[a].hosts[j].host_no) +
              if a == b && Turn(round, |v[a].hosts|) == j then [Offer(v, round, b)] else []
  {
    if Offers(v, round, b) {
      OfferHasKey(v, orig, name, round, b);
      assert (e + [Offer(v, round, b)])[..|e|] == e;
      if b == a {
        assert Turn(round, |v[a].hosts|) != j ==> v[a].hosts[Turn(round, |v[a].hosts|)].host_no != v[a].hosts[j].host_no;
      } else {
        assert v[b].name != v[a].name;
      }
    }
  }

  lemma {:induction false} EmittedFromGroups(v: seq<Adapter>, orig: seq<Path>, name: Lookup, round: nat, i: nat, p: Path)
    requires Sorted(v, orig, name) && Started(v) && i <= |v| && p in Emitted(v, round, i)
    ensures p in orig
    decreases round, i
  {
    if i > 0 {
      if p in Emitted(v, round, i - 1) {
        EmittedFromGroups(v, orig, name, round, i - 1, p);
      } else {
        OfferHasKey(v, orig, name, round, i - 1);
      }
    } else {
      EmittedFromGroups(v, orig, name, round - 1, |v|, p);
    }
  }

  lemma DrainedHasTakenAll(v: seq<Adapter>, round: nat, i: nat, a: nat, j: nat)
    requires Started(v) && Drained(v, round, i) && i <= |v| && a < |v| && j < |v[a].hosts|
    ensures |v[a].hosts[j].paths| <= Turns(v, round, i, a, j)
  {
    if Turns(v, round, i, a, j) < |v[a].hosts[j].paths| {
      var r := NextTurn(round + if a < i then 1 else 0, |v[a].hosts|, j);
      assert Offers(v, r, a);
      assert false;
    }
  }

  /** For every adapter and host the merged order lists exactly the original paths of that
      host, in their original order. */
  lemma MergeIsStable(v: seq<Adapter>, orig: seq<Path>, name: Lookup, round: nat, i: nat, n: string, h: int)
    requires Sorted(v, orig, name) && Started(v) && Drained(v, round, i) && i <= |v|
    ensures Select(Emitted(v, round, i), name, n, h) == Select(orig, name, n, h)
  {
    if a, j :| 0 <= a < |v| && 0 <= j < |v[a].hosts| && v[a].name == n && v[a].hosts[j].host_no == h {
      GroupOrderKept(v, orig, name, round, i, a, j);
      DrainedHasTakenAll(v, round, i, a, j);
    } else {
      forall p | p in orig ensures name(p) != Some(n) || p.host_no != h {
        var a, j :| 0 <= a < |v| && 0 <= j < |v[a].hosts| && InGroup(v, a, j, name, p);
      }
      forall p | p in Emitted(v, round, i) ensures p in orig {
        EmittedFromGroups(v, orig, name, round, i, p);
      }
      SelectNoHost(orig, name, n, h);
      SelectNoHost(Emitted(v, round, i), name, n, h);
    }
  }

  /** Stop number `k` of the cursors is adapter k mod A in round k div A. */
  ghost predicate StopOffers(v: seq<Adapter>, k: nat)
    requires Started(v) && v != []
  {
    Offers(v, Lap(k, |v|), Turn(k, |v|))
  }

  ghost function StopOffer(v: seq<Adapter>, k: nat): Path
    requires Started(v) && v != [] && StopOffers(v, k)
  {
    Offer(v, Lap(k, |v|), Turn(k, |v|))
  }

  ghost function EmittedBefore(v: seq<Adapter>, k: nat): seq<Path>
    requires Started(v) && v != []
  {
    Emitted(v, Lap(k, |v|), Turn(k, |v|))
  }

  lemma NextStop(v: seq<Adapter>, k: nat)
    requires Started(v) && v != []
    ensures EmittedBefore(v, k + 1) == EmittedBefore(v, k) + if StopOffers(v, k) then [StopOffer(v, k)] else []
  {
    var r, a := Lap(k, |v|), Turn(k, |v|);
    TurnNext(k, |v|);
    hide Turn, Lap;
    assert Emitted(v, r, a + 1) == Emitted(v, r, a) + if Offers(v, r, a) then [Offer(v, r, a)] else [];
    assert a + 1 == |v| ==> Emitted(v, r + 1, 0) == Emitted(v, r, a + 1);
  }

  /** As long as every stop offers a path, path number k of the merged order comes from
      adapter k mod A, from host group (k div A) mod H of that adapter. */
  lemma {:induction false} AlternatesWhileFull(v: seq<Adapter>, n: nat)
    requires Started(v) && v != [] && forall k: nat :: k < n ==> StopOffers(v, k)
    ensures |EmittedBefore(v, n)| == n && forall k: nat :: k < n ==> EmittedBefore(v, n)[k] == StopOffer(v, k)
  {
    hide EmittedBefore, StopOffer, StopOffers;
    if n > 0 {
      AlternatesWhileFull(v, n - 1);
      NextStop(v, n - 1);
    } else {
      NothingBefore(v);
    }
  }

  lemma NothingBefore(v: seq<Adapter>)
    requires Started(v) && v != []
    ensures EmittedBefore(v, 0) == []
  {
  }

  /** Later stops only add to the order, so its beginning is settled once it is reached. */
  lemma {:induction false} EmittedGrows(v: seq<Adapter>, r: nat, a: nat, round: nat, i: nat)
    requires Started(v) && a <= |v| && i <= |v| && (r < round || (r == round && a <= i))
    ensures Emitted(v, r, a) <= Emitted(v, round, i)
    decreases round, i
  {
    if (r, a) != (round, i) {
      if i > 0 {
        EmittedGrows(v, r, a, round, i - 1);
      } else {
        EmittedGrows(v, r, a, round - 1, |v|);
      }
    }
  }

  /** The first `n` stops of the cursors all have a path. */
  ghost predicate FullUpTo(v: seq<Adapter>, n: nat)
    requires Started(v) && v != []
  {
    forall k: nat :: k < n ==> StopOffers(v, k)
  }

  /** For as long as every stop has a path, the paths are those of the stops, in turn. */
  ghost predicate Alternates(v: seq<Adapter>, ps: seq<Path>)
    requires Started(v) && v != []
  {
    forall n: nat :: FullUpTo(v, n) ==> n <= |ps| && forall k: nat :: k < n ==> ps[k] == StopOffer(v, k)
  }

  /** The merge does not end before a stop that offers. */
  lemma FullIsBeforeEnd(v: seq<Adapter>, round: nat, i: nat, n: nat)
    requires Started(v) && v != [] && Drained(v, round, i) && i <= |v| && FullUpTo(v, n)
    ensures EmittedBefore(v, n) <= Emitted(v, round, i)
  {
    var r, a := Lap(n, |v|), Turn(n, |v|);
    if r < round || (r == round && a <= i) {
      EmittedGrows(v, r, a, round, i);
    } else {
      assert StopOffers(v, n - 1);
      TurnNext(n - 1, |v|);
      assert Emitted(v, round + 1, 0) == Emitted(v, round, |v|);
      hide Turn, Lap, Offers, Emitted;
    }
  }

  lemma MergeAlternates(v: seq<Adapter>, round: nat, i: nat)
    requires Started(v) && v != [] && Drained(v, round, i) && i <= |v|
    ensures Alternates(v, Emitted(v, round, i))
  {
    hide Drained, Emitted, StopOffer, EmittedBefore;
    forall n: nat | FullUpTo(v, n)
      ensures n <= |Emitted(v, round, i)| && forall k: nat :: k < n ==> Emitted(v, round, i)[k] == StopOffer(v, k)
    {
      AlternatesWhileFull(v, n);
      FullIsBeforeEnd(v, round, i, n);
    }
  }

  /** rr_optimize_path_order */
  method RrOptimizePathOrder(pgp: PathGroup, name: Lookup) returns (rc: int, ghost v: seq<Adapter>, ghost round: nat, ghost i: nat)
    modifies pgp
    ensures rc == 0
    ensures multiset(pgp.paths) == multiset(old(pgp.paths))
    ensures (exists p :: p in old(pgp.paths) && p.proto == OtherProtocol) ==> pgp.paths == old(pgp.paths)
    ensures (forall p :: p in old(pgp.paths) ==> p.proto != OtherProtocol && Usable(name, p)) ==>
              && Sorted(v, old(pgp.paths), name) && Started(v)
              && Drained(v, round, i) && pgp.paths == Emitted(v, round, i)
              && (v != [] ==> Alternates(v, pgp.paths))
              && forall n, h :: Select(pgp.paths, name, n, h) == Select(old(pgp.paths), name, n, h)
  {
    v, round, i := [], 0, 0;
    var total_paths := |pgp.paths|;
    for k := 0 to |pgp.paths|
      invariant forall m :: 0 <= m < k ==> pgp.paths[m].proto != OtherProtocol
    {
      var proto := pgp.paths[k].proto;
      if proto != FCP && proto != SAS && proto != ISCSI && proto != SRP {
        assert pgp.paths[k] in pgp.paths;
        return 0, v, round, i;
      }
    }
    ghost var orig := pgp.paths;
    hide Sorted, AllPaths, Usable, Drained, Emitted, Alternates;
    var adapters;
    rc, adapters := GroupByHostAdapter(pgp, name);
    if rc != 0 {
      return 0, v, round, i;
    }
    GroupsReadyToMerge(adapters, orig, name);
    rc, round, i := OrderPaths(pgp, adapters, total_paths);
    v := adapters;
    if v != [] {
      MergeAlternates(v, round, i);
    }
    forall n, h ensures Select(pgp.paths, name, n, h) == Select(orig, name, n, h) {
      MergeIsStable(v, orig, name, round, i, n, h);
    }
  }

  lemma GroupsReadyToMerge(v: seq<Adapter>, orig: seq<Path>, name: Lookup)
    requires Sorted(v, orig, name) && multiset(AllPaths(v)) == multiset(orig)
    requires forall p :: p in orig ==> Usable(name, p)
    ensures Started(v) && |AllPaths(v)| == |orig| && forall p :: p in AllPaths(v) ==> Storable(p.dev, p.dev_t)
  {
    assert |AllPaths(v)| == |multiset(AllPaths(v))|;
    forall p | p in AllPaths(v) ensures p in orig {
      assert p in multiset(AllPaths(v));
    }
  }
}
