/** check_alias_settings of libmultipath/alias.c: the aliases of multipath.conf and of the
    bindings file are made consistent, the first definition of an alias winning. */
module AliasSettings {
  import opened Wrappers
  import opened AliasCodec
  import opened BindingsFile

  // ------------------------------------------------------------------ order

  /** strcmp: negative, zero or positive. */
  function Strcmp(a: string, b: string): (r: int)
    ensures r == 0 <==> a == b
  {
    if a == "" && b == "" then 0
    else if a == "" then -1
    else if b == "" then 1
    else if a[0] != b[0] then a[0] as int - b[0] as int
    else
      assert a == [a[0]] + a[1..] && b == [b[0]] + b[1..];
      Strcmp(a[1..], b[1..])
  }

  lemma {:induction false} StrcmpFlips(a: string, b: string)
    ensures Strcmp(a, b) < 0 <==> Strcmp(b, a) > 0
  {
    if a != "" && b != "" && a[0] == b[0] {
      StrcmpFlips(a[1..], b[1..]);
    }
  }

  lemma {:induction false} StrcmpTransitive(a: string, b: string, c: string)
    requires Strcmp(a, b) < 0 && Strcmp(b, c) < 0
    ensures Strcmp(a, c) < 0
  {
    if a != "" && a[0] == b[0] == c[0] {
      StrcmpTransitive(a[1..], b[1..], c[1..]);
    }
  }

  ghost predicate Less(v: seq<Binding>, i: nat, j: nat)
    requires i < |v| && j < |v|
  {
    Strcmp(v[i].alias, v[j].alias) < 0
  }

  /** The in-memory table: strictly sorted by alias. */
  ghost predicate Sorted(v: seq<Binding>) {
    forall i, j :: 0 <= i < j < |v| ==> Less(v, i, j)
  }

  lemma SortedIsDistinct(v: seq<Binding>, i: nat, j: nat)
    requires Sorted(v) && i < |v| && j < |v| && v[i].alias == v[j].alias
    ensures i == j
  {
    assert i < j ==> Less(v, i, j);
    assert j < i ==> Less(v, j, i);
  }

  // ------------------------------------------------------------------ add_binding

  datatype Added = Exists | Conflict | Inserted

  function Insert(v: seq<Binding>, i: nat, b: Binding): seq<Binding>
    requires i <= |v|
  {
    v[..i] + [b] + v[i..]
  }

  lemma InsertKeepsSorted(v: seq<Binding>, i: nat, b: Binding)
    requires Sorted(v) && i <= |v|
    requires i > 0 ==> Strcmp(v[i - 1].alias, b.alias) < 0
    requires i < |v| ==> Strcmp(v[i].alias, b.alias) > 0
    ensures Sorted(Insert(v, i, b))
  {
    var w := Insert(v, i, b);
    forall j, k | 0 <= j < k < |w| ensures Less(w, j, k) {
      if k == i {
        assert j < i - 1 ==> Less(v, j, i - 1);
        if j < i - 1 {
          StrcmpTransitive(v[j].alias, v[i - 1].alias, b.alias);
        }
      } else if j == i {
        StrcmpFlips(b.alias, v[i].alias);
        assert i < k - 1 ==> Less(v, i, k - 1);
        if i < k - 1 {
          StrcmpTransitive(b.alias, v[i].alias, v[k - 1].alias);
        }
      } else {
        assert Less(v, if j < i then j else j - 1, if k < i then k else k - 1);
      }
    }
  }

  class Table {
    var v: seq<Binding>

    constructor ()
      ensures v == []
    {
      v := [];
    }

    /** add_binding: search backwards for the place, refuse a second wwid for an alias. */
    method AddBinding(alias: string, wwid: string) returns (rc: Added)
      requires Sorted(v)
      modifies this
      ensures Sorted(v)
      ensures rc == Exists <==> Binding(alias, wwid) in old(v)
      ensures forall b :: b in v <==> b in old(v) || (rc == Inserted && b == Binding(alias, wwid))
      ensures rc == Conflict <==> exists b :: b in old(v) && b.alias == alias && b.wwid != wwid
      ensures rc == Inserted <==> forall b :: b in old(v) ==> b.alias != alias
      ensures if rc == Inserted then exists i :: 0 <= i <= |old(v)| && v == Insert(old(v), i, Binding(alias, wwid)) else v == old(v)
    {
      var i, cmp := |v| - 1, 0;
      var found := false;
      while i >= 0 && !found
        invariant -1 <= i < |v|
        invariant found ==> i >= 0 && cmp == Strcmp(v[i].alias, alias) <= 0
        invariant forall k :: i < k < |v| ==> Strcmp(v[k].alias, alias) > 0
        decreases i, !found
      {
        cmp := Strcmp(v[i].alias, alias);
        if cmp <= 0 {
          found := true;
        } else {
          i := i - 1;
        }
      }
      if i >= 0 && cmp == 0 {
        forall b | b in v && b.alias == alias ensures b == v[i] {
          var k :| 0 <= k < |v| && v[k] == b;
          SortedIsDistinct(v, i, k);
        }
        return if v[i].wwid != wwid then Conflict else Exists;
      }
      i := i + 1;
      forall k | 0 <= k < |v| ensures v[k].alias != alias {
        if k < i - 1 {
          assert Less(v, k, i - 1);
          StrcmpFlips(v[k].alias, v[i - 1].alias);
        }
      }
      InsertKeepsSorted(v, i, Binding(alias, wwid));
      v := Insert(v, i, Binding(alias, wwid));
      rc := Inserted;
    }
  }

  // ------------------------------------------------------------------ what the table means

  /** The table holds exactly the bindings of the map. */
  ghost predicate Shows(v: seq<Binding>, m: map<string, string>) {
    && (forall b :: b in v ==> b.alias in m && m[b.alias] == b.wwid)
    && (forall a :: a in m ==> Binding(a, m[a]) in v)
  }

  /** The reference meaning: the first wwid given to an alias wins. */
  function FirstWins(bs: seq<Binding>): (m: map<string, string>) {
    if bs == [] then map[] else
      var m := FirstWins(bs[..|bs| - 1]);
      var b := bs[|bs| - 1];
      if b.alias in m then m else m[b.alias := b.wwid]
  }

  lemma {:induction false} FirstWinsHolds(bs: seq<Binding>)
    ensures forall a :: a in FirstWins(bs) ==> Binding(a, FirstWins(bs)[a]) in bs
    ensures forall b :: b in bs ==> b.alias in FirstWins(bs)
  {
    if bs != [] {
      var front := bs[..|bs| - 1];
      FirstWinsHolds(front);
      assert forall b :: b in bs ==> b in front || b == bs[|bs| - 1];
    }
  }

  lemma {:induction false} FirstWinsIsFirst(bs: seq<Binding>, k: nat)
    requires k < |bs| && forall j :: 0 <= j < k ==> bs[j].alias != bs[k].alias
    ensures bs[k].alias in FirstWins(bs) && FirstWins(bs)[bs[k].alias] == bs[k].wwid
  {
    var front := bs[..|bs| - 1];
    FirstWinsHolds(front);
    if k < |front| {
      FirstWinsIsFirst(front, k);
      assert front[k] in front && bs[k] == front[k];
    }
  }

  /** No alias is given two wwids. */
  ghost predicate Unambiguous(bs: seq<Binding>) {
    forall b, c :: b in bs && c in bs && b.alias == c.alias ==> b.wwid == c.wwid
  }

  // ------------------------------------------------------------------ multipath.conf

  datatype Mpe = Mpe(wwid: Option<string>, alias: Option<string>)

  /** get_mpe_wwid: the wwid of the first entry with this alias. */
  function MpeWwid(mp: seq<Mpe>, alias: string): (r: Option<string>) {
    if mp == [] then None
    else if mp[0].alias == Some(alias) then mp[0].wwid
    else MpeWwid(mp[1..], alias)
  }

  /** The aliases that multipath.conf defines. */
  function Defined(mp: seq<Mpe>): seq<Binding> {
    if mp == [] then [] else
      var e := mp[|mp| - 1];
      Defined(mp[..|mp| - 1]) + if e.wwid.Some? && e.alias.Some? then [Binding(e.alias.value, e.wwid.value)] else []
  }

  /** A line of the bindings file agrees with multipath.conf. */
  predicate Agrees(mp: seq<Mpe>, b: Binding) {
    MpeWwid(mp, b.alias) == None || MpeWwid(mp, b.alias) == Some(b.wwid)
  }

  function Agreeing(bs: seq<Binding>, mp: seq<Mpe>): (r: seq<Binding>)
    ensures forall b :: b in r <==> b in bs && Agrees(mp, b)
  {
    if bs == [] then [] else
      var b := bs[|bs| - 1];
      Agreeing(bs[..|bs| - 1], mp) + if Agrees(mp, b) then [b] else []
  }

  lemma AgreeingAll(bs: seq<Binding>, mp: seq<Mpe>)
    ensures Agreeing(bs, mp) == bs <==> forall b :: b in bs ==> Agrees(mp, b)
  {
    hide Agrees;
    hide Agreeing;
    if forall b :: b in bs ==> Agrees(mp, b) {
      assert forall k :: 0 <= k < |bs| ==> bs[k] in bs;
      AllAgreeing(bs, mp);
    }
  }

  lemma {:induction false} AllAgreeing(bs: seq<Binding>, mp: seq<Mpe>)
    requires forall k :: 0 <= k < |bs| ==> Agrees(mp, bs[k])
    ensures Agreeing(bs, mp) == bs
  {
    hide Agrees, Agreeing;
    if bs == [] {
      AgreeingNothing(mp);
    } else {
      AllAgreeing(bs[..|bs| - 1], mp);
      AgreeingLast(bs, mp);
    }
  }

  lemma AgreeingNothing(mp: seq<Mpe>)
    ensures Agreeing([], mp) == []
  {
  }

  lemma AgreeingLast(bs: seq<Binding>, mp: seq<Mpe>)
    requires bs != [] && Agrees(mp, bs[|bs| - 1]) && Agreeing(bs[..|bs| - 1], mp) == bs[..|bs| - 1]
    ensures Agreeing(bs, mp) == bs
  {
    hide Agrees;
    assert bs[..|bs| - 1] + [bs[|bs| - 1]] == bs;
  }

  lemma {:induction false} FirstWinsUnambiguous(bs: seq<Binding>)
    requires Unambiguous(bs)
    ensures forall b :: b in bs ==> b.alias in FirstWins(bs) && FirstWins(bs)[b.alias] == b.wwid
  {
    FirstWinsHolds(bs);
    forall b | b in bs ensures FirstWins(bs)[b.alias] == b.wwid {
      assert Binding(b.alias, FirstWins(bs)[b.alias]) in bs;
    }
  }

  /** Adding one binding to a table that shows what the bindings before it mean. */
  lemma AddedShows(old_v: seq<Binding>, v: seq<Binding>, bs: seq<Binding>, b: Binding, rc: Added)
    requires Shows(old_v, FirstWins(bs))
    requires rc == Inserted <==> forall c :: c in old_v ==> c.alias != b.alias
    requires forall c :: c in v <==> c in old_v || (rc == Inserted && c == b)
    ensures Shows(v, FirstWins(bs + [b]))
    ensures rc == Inserted <==> b.alias !in FirstWins(bs)
  {
    assert (bs + [b])[..|bs|] == bs;
    var m := FirstWins(bs);
    if b.alias in m {
      assert Binding(b.alias, m[b.alias]) in old_v;
    }
  }

  /** Does the next binding introduce an ambiguity? */
  lemma AmbiguityShowsAtOnce(bs: seq<Binding>, b: Binding)
    requires Unambiguous(bs)
    ensures Unambiguous(bs + [b]) <==> (b.alias in FirstWins(bs) ==> FirstWins(bs)[b.alias] == b.wwid)
  {
    FirstWinsHolds(bs);
    FirstWinsUnambiguous(bs);
    if b.alias in FirstWins(bs) {
      assert Binding(b.alias, FirstWins(bs)[b.alias]) in bs + [b] && b in bs + [b];
    }
    if b.alias in FirstWins(bs) && FirstWins(bs)[b.alias] == b.wwid {
      forall c, d | c in bs + [b] && d in bs + [b] && c.alias == d.alias ensures c.wwid == d.wwid {
        assert c in bs || c == b;
      }
    }
  }

  /** _check_bindings_file: drop what contradicts multipath.conf, keep the first line of
      every other alias, and say whether anything was dropped for a conflict. */
  method CheckBindingsFile(lines: seq<string>, mp: seq<Mpe>, table: Table) returns (rc: int)
    requires table.v == []
    modifies table
    ensures Sorted(table.v) && Shows(table.v, FirstWins(Agreeing(Bindings(lines), mp)))
    ensures rc == if Consistent(Bindings(lines), mp) then 0 else -1
  {
    rc := 0;
    CheckStarts(lines, mp);
    hide Bindings, ParseLine, Agreeing, Consistent, FirstWins, Shows, Sorted;
    for k := 0 to |lines|
      invariant Sorted(table.v) && Shows(table.v, FirstWins(Agreeing(Bindings(lines[..k]), mp)))
      invariant rc == if Consistent(Bindings(lines[..k]), mp) then 0 else -1
    {
      var line := ParseLine(lines[k]);
      NextLine(lines, k);
      if line.Entry? {
        var b := Binding(line.alias, line.wwid);
        CheckStep(Bindings(lines[..k]), b, mp);
        var ok := CheckOne(b, mp, table, Bindings(lines[..k]));
        if !ok {
          rc := -1;
        }
      }
    }
  }

  lemma CheckStarts(lines: seq<string>, mp: seq<Mpe>)
    ensures Consistent(Bindings(lines[..0]), mp) && Sorted([]) && Shows([], FirstWins(Agreeing(Bindings(lines[..0]), mp)))
    ensures lines[..|lines|] == lines
  {
    assert lines[..0] == [];
  }

  lemma NextLine(lines: seq<string>, k: nat)
    requires k < |lines|
    ensures match ParseLine(lines[k])
            case Entry(alias, wwid) => Bindings(lines[..k + 1]) == Bindings(lines[..k]) + [Binding(alias, wwid)]
            case _ => Bindings(lines[..k + 1]) == Bindings(lines[..k])
  {
    assert lines[..k + 1] == lines[..k] + [lines[k]];
    BindingsSnoc(lines[..k], lines[k]);
    hide ParseLine, Bindings;
  }

  /** The lines agree with multipath.conf and with each other. */
  ghost predicate Consistent(bs: seq<Binding>, mp: seq<Mpe>) {
    Unambiguous(bs) && forall b :: b in bs ==> Agrees(mp, b)
  }

  /** A binding is accepted when it agrees with multipath.conf and is not a second wwid. */
  ghost predicate Accepted(bs: seq<Binding>, b: Binding, mp: seq<Mpe>) {
    var m := FirstWins(Agreeing(bs, mp));
    Agrees(mp, b) && (b.alias in m ==> m[b.alias] == b.wwid)
  }

  lemma CheckStep(bs: seq<Binding>, b: Binding, mp: seq<Mpe>)
    ensures Consistent(bs + [b], mp) <==> Consistent(bs, mp) && Accepted(bs, b, mp)
    ensures Agreeing(bs + [b], mp) == Agreeing(bs, mp) + if Agrees(mp, b) then [b] else []
  {
    assert (bs + [b])[..|bs|] == bs && b in bs + [b] && forall c :: c in bs ==> c in bs + [b];
    hide FirstWins, Agrees;
    if Consistent(bs, mp) {
      AgreeingAll(bs, mp);
      AmbiguityShowsAtOnce(bs, b);
    }
  }

  method CheckOne(b: Binding, mp: seq<Mpe>, table: Table, ghost bs: seq<Binding>) returns (ok: bool)
    requires Sorted(table.v) && Shows(table.v, FirstWins(Agreeing(bs, mp)))
    requires Agreeing(bs + [b], mp) == Agreeing(bs, mp) + if Agrees(mp, b) then [b] else []
    modifies table
    ensures Sorted(table.v) && Shows(table.v, FirstWins(Agreeing(bs + [b], mp)))
    ensures ok <==> Accepted(bs, b, mp)
  {
    var mpe_wwid := MpeWwid(mp, b.alias);
    if mpe_wwid.Some? && mpe_wwid.value != b.wwid {
      assert Agreeing(bs, mp) + [] == Agreeing(bs, mp);
      return false;
    }
    ghost var before, kept := table.v, Agreeing(bs, mp);
    hide Agreeing, Sorted;
    var rc := table.AddBinding(b.alias, b.wwid);
    AddedShows(before, table.v, kept, b, rc);
    hide FirstWins;
    ok := rc != Conflict;
  }

  // ------------------------------------------------------------------ settling multipath.conf

  /** An entry loses its alias when the alias already belongs to another wwid. */
  function SettleOne(e: Mpe, m: map<string, string>): (r: Mpe)
    ensures r.wwid == e.wwid && (r.alias == e.alias || r.alias == None)
  {
    if e.wwid.Some? && e.alias.Some? && e.alias.value in m && m[e.alias.value] != e.wwid.value
    then Mpe(e.wwid, None) else e
  }

  /** multipath.conf after the first loop of check_alias_settings. */
  function Settled(mp: seq<Mpe>): (r: seq<Mpe>)
    ensures |r| == |mp|
  {
    if mp == [] then [] else
      var front := mp[..|mp| - 1];
      Settled(front) + [SettleOne(mp[|mp| - 1], FirstWins(Defined(front)))]
  }

  function DefinedBy(e: Mpe): seq<Binding> {
    if e.wwid.Some? && e.alias.Some? then [Binding(e.alias.value, e.wwid.value)] else []
  }

  lemma DefinedSnoc(mp: seq<Mpe>, e: Mpe)
    ensures Defined(mp + [e]) == Defined(mp) + DefinedBy(e)
    ensures Settled(mp + [e]) == Settled(mp) + [SettleOne(e, FirstWins(Defined(mp)))]
  {
    assert (mp + [e])[..|mp|] == mp;
  }

  lemma FirstWinsSnoc(bs: seq<Binding>, b: Binding)
    ensures FirstWins(bs + [b]) == if b.alias in FirstWins(bs) then FirstWins(bs) else FirstWins(bs)[b.alias := b.wwid]
  {
    assert (bs + [b])[..|bs|] == bs;
  }

  /** Settling keeps what the aliases mean and leaves every alias with one wwid: the first. */
  lemma {:induction false} SettledIsUnambiguous(mp: seq<Mpe>)
    ensures FirstWins(Defined(Settled(mp))) == FirstWins(Defined(mp))
    ensures forall b :: b in Defined(Settled(mp)) ==> b.alias in FirstWins(Defined(mp)) && FirstWins(Defined(mp))[b.alias] == b.wwid
  {
    if mp != [] {
      var front, e := mp[..|mp| - 1], mp[|mp| - 1];
      assert mp == front + [e];
      SettledIsUnambiguous(front);
      DefinedSnoc(front, e);
      var m := FirstWins(Defined(front));
      DefinedSnoc(Settled(front), SettleOne(e, m));
      hide Defined, Settled, FirstWins;
      SettleStep(Defined(front), Defined(Settled(front)), e);
    }
  }

  /** Both sides see the next entry: `d` what was defined, `s` what was kept of it. */
  lemma SettleStep(d: seq<Binding>, s: seq<Binding>, e: Mpe)
    requires FirstWins(s) == FirstWins(d)
    requires forall b :: b in s ==> b.alias in FirstWins(d) && FirstWins(d)[b.alias] == b.wwid
    ensures var d', s' := d + DefinedBy(e), s + DefinedBy(SettleOne(e, FirstWins(d)));
            && FirstWins(s') == FirstWins(d')
            && forall b :: b in s' ==> b.alias in FirstWins(d') && FirstWins(d')[b.alias] == b.wwid
  {
    assert d + [] == d && s + [] == s;
    if e.wwid.Some? && e.alias.Some? {
      var b := Binding(e.alias.value, e.wwid.value);
      FirstWinsSnoc(d, b);
      FirstWinsSnoc(s, b);
      hide FirstWins;
      assert DefinedBy(e) == [b];
    }
  }

  lemma SettledUnambiguous(mp: seq<Mpe>)
    ensures Unambiguous(Defined(Settled(mp)))
  {
    SettledIsUnambiguous(mp);
    hide Defined, Settled, FirstWins;
  }

  /** A table without ambiguity is settled already. */
  lemma {:induction false} UnambiguousIsSettled(mp: seq<Mpe>)
    requires Unambiguous(Defined(mp))
    ensures Settled(mp) == mp
  {
    if mp != [] {
      var front, e := mp[..|mp| - 1], mp[|mp| - 1];
      assert mp == front + [e];
      DefinedSnoc(front, e);
      hide Defined, Settled;
      assert forall b :: b in Defined(front) ==> b in Defined(mp);
      UnambiguousIsSettled(front);
      FirstWinsHolds(Defined(front));
      hide FirstWins;
      if e.wwid.Some? && e.alias.Some? {
        var b := Binding(e.alias.value, e.wwid.value);
        assert b in Defined(mp);
        if e.alias.value in FirstWins(Defined(front)) {
          assert Binding(e.alias.value, FirstWins(Defined(front))[e.alias.value]) in Defined(mp);
        }
      }
    }
  }

  ghost predicate HasEntry(mp: seq<Mpe>, alias: string, wwid: string) {
    Mpe(Some(wwid), Some(alias)) in mp
  }

  lemma {:induction false} DefinedIsEntry(mp: seq<Mpe>, alias: string, wwid: string)
    ensures Binding(alias, wwid) in Defined(mp) <==> HasEntry(mp, alias, wwid)
  {
    if mp != [] {
      var front, e := mp[..|mp| - 1], mp[|mp| - 1];
      assert mp == front + [e];
      DefinedIsEntry(front, alias, wwid);
    }
  }

  predicate AllNamed(mp: seq<Mpe>) {
    forall e :: e in mp ==> e.wwid.Some?
  }

  lemma {:induction false} MpeWwidIsEntry(mp: seq<Mpe>, alias: string)
    requires AllNamed(mp)
    ensures MpeWwid(mp, alias).Some? ==> HasEntry(mp, alias, MpeWwid(mp, alias).value)
    ensures MpeWwid(mp, alias) == None ==> forall w :: !HasEntry(mp, alias, w)
  {
    if mp != [] {
      assert mp == [mp[0]] + mp[1..] && mp[0] in mp;
      MpeWwidIsEntry(mp[1..], alias);
      forall w | MpeWwid(mp, alias) == None ensures !HasEntry(mp, alias, w) {
        assert !HasEntry(mp[1..], alias, w);
      }
    }
  }

  /** When nothing is ambiguous, agreeing with multipath.conf means agreeing with each entry. */
  lemma AgreesWithEveryEntry(mp: seq<Mpe>, b: Binding)
    requires AllNamed(mp) && Unambiguous(Defined(mp)) && Agrees(mp, b)
    ensures forall d :: d in Defined(mp) && d.alias == b.alias ==> d.wwid == b.wwid
  {
    MpeWwidIsEntry(mp, b.alias);
    forall d | d in Defined(mp) && d.alias == b.alias ensures d.wwid == b.wwid {
      DefinedIsEntry(mp, d.alias, d.wwid);
      DefinedIsEntry(mp, b.alias, MpeWwid(mp, b.alias).value);
    }
  }

  // ------------------------------------------------------------------ the file

  /** The length of what getline reads from the front of `s`. */
  function LineEnd(s: string): (n: nat)
    ensures n <= |s| && (s != "" ==> n > 0)
  {
    if s == "" then 0 else if s[0] == '\n' then 1 else 1 + LineEnd(s[1..])
  }

  /** The successive results of getline until the end of the file. */
  function AllLines(s: string): (ls: seq<string>)
    decreases |s|
  {
    if s == "" then [] else [s[..LineEnd(s)]] + AllLines(s[LineEnd(s)..])
  }

  lemma {:induction false} LineEndBeforeMore(s: string, t: string)
    requires s != "" && Terminated(s)
    ensures LineEnd(s + t) == LineEnd(s)
  {
    if s[0] != '\n' {
      assert (s + t)[1..] == s[1..] + t;
      LineEndBeforeMore(s[1..], t);
    }
  }

  lemma {:induction false} LineEndOfLine(l: string)
    requires l != "" && l[|l| - 1] == '\n' && forall k :: 0 <= k < |l| - 1 ==> l[k] != '\n'
    ensures LineEnd(l) == |l|
  {
    if l[0] != '\n' {
      LineEndOfLine(l[1..]);
    }
  }

  lemma {:induction false} AllLinesAppend(s: string, l: string)
    requires Terminated(s) && IsLine(l)
    ensures AllLines(s + l) == AllLines(s) + [l] && Terminated(s + l)
    decreases |s|
  {
    TerminatedAppend(s, l);
    if s == "" {
      AllLinesOfOne(l);
      assert s + l == l;
    } else {
      hide AllLines, LineEnd, IsLine, Terminated;
      var n := LineEnd(s);
      LineEndBeforeMore(s, l);
      SplitAppend(s, l, n);
      RestOfTerminated(s, n);
      AllLinesUnfold(s);
      AllLinesUnfold(s + l);
      AllLinesAppend(s[n..], l);
      Regroup([s[..n]], AllLines(s[n..]), [l]);
    }
  }

  lemma RestOfTerminated(s: string, n: nat)
    requires n <= |s| && Terminated(s)
    ensures Terminated(s[n..])
  {
  }

  lemma Regroup<T>(a: seq<T>, b: seq<T>, c: seq<T>)
    ensures a + (b + c) == a + b + c
  {
  }

  lemma AllLinesOfOne(l: string)
    requires IsLine(l)
    ensures AllLines(l) == [l]
  {
    LineEndOfLine(l);
    assert l[..|l|] == l && l[|l|..] == "";
    hide LineEnd;
  }

  lemma AllLinesUnfold(s: string)
    requires s != ""
    ensures AllLines(s) == [s[..LineEnd(s)]] + AllLines(s[LineEnd(s)..])
  {
  }

  /** A header that binds nothing and ends in a newline. */
  ghost predicate IsHeader(header: string) {
    Terminated(header) && Bindings(AllLines(header)) == []
  }

  /** Bindings that a file line can hold. */
  predicate Writable(b: Binding) {
    IsName(b.alias) && IsName(b.wwid) && |b.alias| + |b.wwid| + 2 < LINE_MAX
  }

  function Written(header: string, v: seq<Binding>): string {
    if v == [] then header else
      Written(header, v[..|v| - 1]) + BindingLine(v[|v| - 1].alias, v[|v| - 1].wwid)
  }

  /** Writing a table and reading the file again gives the same table. */
  lemma {:induction false} WrittenReadsBack(header: string, v: seq<Binding>)
    requires IsHeader(header) && forall b :: b in v ==> Writable(b)
    ensures Bindings(AllLines(Written(header, v))) == v && Terminated(Written(header, v))
  {
    if v != [] {
      var front, b := v[..|v| - 1], v[|v| - 1];
      assert v == front + [b] && b in v && forall c :: c in front ==> c in v;
      hide Writable, AllLines, Bindings, Terminated, IsHeader;
      WrittenReadsBack(header, front);
      WriteOneMore(Written(header, front), front, b);
    }
  }

  lemma WriteOneMore(s: string, v: seq<Binding>, b: Binding)
    requires Terminated(s) && Bindings(AllLines(s)) == v && Writable(b)
    ensures var t := s + BindingLine(b.alias, b.wwid);
            Terminated(t) && Bindings(AllLines(t)) == v + [b]
  {
    var l := BindingLine(b.alias, b.wwid);
    ParseBindingLine(b.alias, b.wwid);
    BindingLineIsLine(b.alias, b.wwid);
    AllLinesAppend(s, l);
    BindingsSnoc(AllLines(s), l);
    hide AllLines, Bindings, ParseLine, IsLine, Terminated;
  }

  /** write_bindings_file: refuses a line that does not fit its buffer. */
  method WriteBindingsFile(v: seq<Binding>, header: string) returns (text: Option<string>)
    ensures text.Some? <==> forall b :: b in v ==> |b.alias| + |b.wwid| + 2 < LINE_MAX
    ensures text.Some? ==> text.value == Written(header, v)
  {
    var out := header;
    for k := 0 to |v|
      invariant out == Written(header, v[..k])
      invariant forall b :: b in v[..k] ==> |b.alias| + |b.wwid| + 2 < LINE_MAX
    {
      assert v[..k + 1][..k] == v[..k];
      if |v[k].alias| + |v[k].wwid| + 2 >= LINE_MAX {
        return None;
      }
      out := out + BindingLine(v[k].alias, v[k].wwid);
    }
    assert v[..|v|] == v;
    text := Some(out);
  }

  // ------------------------------------------------------------------ tokens are names

  lemma {:induction false} CutIsCut(s: string)
    ensures forall k :: 0 <= k < |Cut(s)| ==> !EndsText(Cut(s)[k])
  {
    if s != "" && !EndsText(s[0]) {
      CutIsCut(s[1..]);
    }
  }

  lemma {:induction false} SkipBlanksIsSuffix(s: string)
    ensures |SkipBlanks(s)| <= |s| && SkipBlanks(s) == s[|s| - |SkipBlanks(s)|..]
  {
    if s != "" && IsBlank(s[0]) {
      SkipBlanksIsSuffix(s[1..]);
    }
  }

  lemma TokenIsName(s: string)
    requires s != "" && !IsBlank(s[0]) && forall k :: 0 <= k < |s| ==> !EndsText(s[k])
    ensures IsName(UpToBlank(s))
  {
    assert UpToBlank(s) <= s;
  }

  lemma {:induction false} ParsedIsName(l: string)
    ensures ParseLine(l).Entry? ==> IsName(ParseLine(l).alias) && IsName(ParseLine(l).wwid)
  {
    CutIsCut(l);
    SkipBlanksIsSuffix(Cut(l));
    var s := SkipBlanks(Cut(l));
    if s != "" {
      TokenIsName(s);
      var rest := s[|UpToBlank(s)|..];
      SkipBlanksIsSuffix(rest);
      if SkipBlanks(rest) != "" {
        TokenIsName(SkipBlanks(rest));
      }
    }
  }

  lemma {:induction false} BindingsAreNames(ls: seq<string>)
    ensures forall b :: b in Bindings(ls) ==> IsName(b.alias) && IsName(b.wwid)
  {
    if ls != [] {
      BindingsAreNames(ls[..|ls| - 1]);
      ParsedIsName(ls[|ls| - 1]);
    }
  }

  // ------------------------------------------------------------------ check_alias_settings

  lemma SliceStep(mp: seq<Mpe>, i: nat)
    requires i < |mp|
    ensures mp[..i + 1] == mp[..i] + [mp[i]] && mp[i..][1..] == mp[i + 1..]
  {
  }

  lemma UpdateMiddle(a: seq<Mpe>, b: seq<Mpe>, e: Mpe)
    requires b != []
    ensures (a + b)[|a| := e] == (a + [e]) + b[1..] && (a + b)[|a|] == b[0]
  {
  }

  method SettleEntry(table: Table, e: Mpe, ghost d: seq<Binding>) returns (r: Mpe)
    requires Sorted(table.v) && Shows(table.v, FirstWins(d))
    modifies table
    ensures r == SettleOne(e, FirstWins(d))
    ensures Sorted(table.v) && Shows(table.v, FirstWins(d + DefinedBy(e)))
  {
    assert d + [] == d;
    if e.wwid == None || e.alias == None {
      return e;
    }
    ghost var before := table.v;
    var rc := table.AddBinding(e.alias.value, e.wwid.value);
    AddedShows(before, table.v, d, Binding(e.alias.value, e.wwid.value), rc);
    hide FirstWins, Sorted;
    r := if rc == Conflict then Mpe(e.wwid, None) else e;
  }

  class Config {
    var mptable: seq<Mpe>
    var text: string                // the bindings file
    const header: string
    const opens: bool               // open and fdopen succeed
    const can_write: bool
    const bindings_read_only: bool

    constructor (mptable: seq<Mpe>, text: string, header: string, opens: bool, can_write: bool, bindings_read_only: bool)
      ensures this.mptable == mptable && this.text == text && this.header == header && this.opens == opens
      ensures this.can_write == can_write && this.bindings_read_only == bindings_read_only
    {
      this.mptable, this.text, this.header, this.opens := mptable, text, header, opens;
      this.can_write, this.bindings_read_only := can_write, bindings_read_only;
    }

    /** What the lines of the bindings file bind. */
    ghost function Bound(): seq<Binding>
      reads this
    {
      Bindings(AllLines(text))
    }

    /** The first loop: an alias of a second wwid is taken away from its entry. */
    method SettleMpTable()
      modifies this`mptable
      ensures mptable == Settled(old(mptable))
    {
      var table := new Table();
      ghost var mp := mptable;
      assert mp[..0] == [] && mp[0..] == mp;
      for i := 0 to |mptable|
        invariant mptable == Settled(mp[..i]) + mp[i..]
        invariant fresh(table) && Sorted(table.v) && Shows(table.v, FirstWins(Defined(mp[..i])))
      {
        SliceStep(mp, i);
        DefinedSnoc(mp[..i], mp[i]);
        hide Defined, Settled, FirstWins, Shows, Sorted;
        var e := SettleEntry(table, mptable[i], Defined(mp[..i]));
        UpdateMiddle(Settled(mp[..i]), mp[i..], e);
        mptable := mptable[i := e];
      }
      assert mp[..|mp|] == mp && mp[|mp|..] == [] && Settled(mp) + [] == Settled(mp);
    }

    /** The text of the file once open_file has put the header into an empty one. */
    function Headed(): string
      reads this
    {
      if opens && can_write && text == "" then header else text
    }

    /** open_file: an empty file gets the header, or is not opened when that cannot be written. */
    method Open() returns (ok: bool)
      requires IsHeader(header)
      modifies this`text
      ensures text == old(Headed()) && Bound() == old(Bound())
      ensures ok <==> opens && (old(text) != "" || can_write)
    {
      if !opens || (text == "" && !can_write) {
        return false;
      }
      if text == "" {
        text := header;
      }
      ok := true;
    }

    /** The end of check_alias_settings, on an open file. */
    method CheckFile() returns (rc: int)
      requires IsHeader(header)
      modifies this`text
      ensures rc == 0 || rc == -1
      ensures rc == 0 ==> Consistent(Bound(), mptable)
      ensures Consistent(old(Bound()), mptable) ==> rc == 0 && text == old(text)
      ensures rc == 0 && !Consistent(old(Bound()), mptable) ==>
                Sorted(Bound()) && Shows(Bound(), FirstWins(Agreeing(old(Bound()), mptable)))
      ensures !Consistent(old(Bound()), mptable) && (!can_write || bindings_read_only) ==> rc == -1 && text == old(text)
      ensures text == old(text) || header <= text
    {
      hide AllLines, Defined, Unambiguous, FirstWins, Agreeing, Agrees;
      var lines := AllLines(text);
      var table := new Table();
      rc := CheckBindingsFile(lines, mptable, table);
      if rc == -1 && can_write && !bindings_read_only {
        var fixed := WriteBindingsFile(table.v, header);
        if fixed.Some? {
          KeptIsWritable(Bindings(lines), mptable, table.v, lines);
          WrittenReadsBack(header, table.v);
          KeptIsConsistent(Bindings(lines), mptable, table.v);
          WrittenStarts(header, table.v);
          text := fixed.value;
          rc := 0;
        }
      }
    }

    /** check_alias_settings.  A file that cannot be opened is not looked at. */
    method CheckAliasSettings() returns (rc: int)
      requires IsHeader(header)
      modifies this
      ensures rc == 0 || rc == -1
      ensures mptable == Settled(old(mptable)) && Unambiguous(Defined(mptable))
      ensures !opens ==> rc == 0 && text == old(text)
      ensures opens && rc == 0 ==> Consistent(Bound(), mptable)
      ensures Consistent(old(Bound()), mptable) ==> rc == 0 && text == old(Headed())
      ensures opens && rc == 0 && !Consistent(old(Bound()), mptable) ==>
                Sorted(Bound()) && Shows(Bound(), FirstWins(Agreeing(old(Bound()), mptable)))
      ensures opens && !Consistent(old(Bound()), mptable) && (!can_write || bindings_read_only) ==> rc == -1 && text == old(text)
      ensures Headed() == text
    {
      hide AllLines, Bindings, Settled, Unambiguous, Defined, FirstWins, Agreeing, Sorted, Shows, Consistent, IsHeader;
      SettleMpTable();
      SettledUnambiguous(old(mptable));
      EmptyIsConsistent(mptable);
      var ok := Open();
      if !ok {
        return 0;
      }
      rc := CheckFile();
    }

    /** A second run finds nothing to change: `mp` and `t` are table and text between the runs. */
    method CheckTwice() returns (first: int, second: int, ghost mp: seq<Mpe>, ghost t: string)
      requires IsHeader(header)
      modifies this
      ensures mp == Settled(old(mptable))
      ensures first == 0 ==> second == 0 && mptable == mp && text == t
    {
      hide AllLines, Bindings, Settled, Unambiguous, Defined, FirstWins, Agreeing, Sorted, Shows, Consistent, IsHeader;
      first := CheckAliasSettings();
      mp, t := mptable, text;
      second := -1;
      if first == 0 {
        UnambiguousIsSettled(mp);
        second := CheckAliasSettings();
      }
    }
  }

  lemma {:induction false} WrittenStarts(header: string, v: seq<Binding>)
    ensures header <= Written(header, v)
  {
    if v != [] {
      WrittenStarts(header, v[..|v| - 1]);
    }
  }

  lemma EmptyIsConsistent(mp: seq<Mpe>)
    ensures Consistent(Bindings(AllLines("")), mp)
  {
  }

  lemma KeptIsWritable(bs: seq<Binding>, mp: seq<Mpe>, v: seq<Binding>, lines: seq<string>)
    requires bs == Bindings(lines) && Shows(v, FirstWins(Agreeing(bs, mp)))
    requires forall b :: b in v ==> |b.alias| + |b.wwid| + 2 < LINE_MAX
    ensures forall b :: b in v ==> Writable(b)
  {
    BindingsAreNames(lines);
    FirstWinsHolds(Agreeing(bs, mp));
    hide FirstWins, Bindings;
    forall b | b in v ensures b in bs {
      assert Binding(b.alias, FirstWins(Agreeing(bs, mp))[b.alias]) in Agreeing(bs, mp);
    }
  }

  lemma KeptIsConsistent(bs: seq<Binding>, mp: seq<Mpe>, v: seq<Binding>)
    requires Shows(v, FirstWins(Agreeing(bs, mp)))
    ensures Consistent(v, mp)
  {
    FirstWinsHolds(Agreeing(bs, mp));
    hide FirstWins, Agrees;
    forall b | b in v ensures Agrees(mp, b) {
      assert Binding(b.alias, FirstWins(Agreeing(bs, mp))[b.alias]) in Agreeing(bs, mp);
    }
  }
}
