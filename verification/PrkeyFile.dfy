/** The reservation-key file of libmultipath/prkey.c: "key wwid" lines that are looked up
    through a sliding window, overwritten in place, and erased by a '#' over their first byte.
    Together the operations behave as a finite map from wwids to keys. */
module PrkeyFile {

  import opened Wrappers

  /** 18 characters of key and the blank behind them. */
  const PRKEY_SIZE: nat := 19
  const WINDOW: nat := 4096
  const WWID_SIZE: nat := 128

  // ------------------------------------------------------------------ lines

  /** A line: its only newline is its last character, and the window can hold it. */
  predicate IsLine(l: string) {
    0 < |l| <= WINDOW && l[|l| - 1] == '\n' && forall k :: 0 <= k < |l| - 1 ==> l[k] != '\n'
  }

  predicate AreLines(ls: seq<string>) {
    forall i :: 0 <= i < |ls| ==> IsLine(ls[i])
  }

  function Flatten(ls: seq<string>): string {
    if ls == [] then "" else ls[0] + Flatten(ls[1..])
  }

  /** Where line `i` begins. */
  function Offset(ls: seq<string>, i: nat): nat
    requires i <= |ls|
  {
    if i == 0 then 0 else |ls[0]| + Offset(ls[1..], i - 1)
  }

  /** A wwid: not empty, below WWID_SIZE, without blanks and newlines. */
  predicate IsWwid(w: string) {
    0 < |w| < WWID_SIZE && forall k :: 0 <= k < |w| ==> w[k] != ' ' && w[k] != '\n'
  }

  /** The text " w\n" stands at the end of the line. */
  predicate EndsWith(l: string, w: string) {
    |w| + 2 <= |l| && l[|l| - |w| - 2..] == " " + w + "\n"
  }

  /** The first line of a wwid, or the number of lines. */
  function FindLine(ls: seq<string>, w: string): (i: nat)
    ensures i <= |ls|
    ensures i < |ls| ==> EndsWith(ls[i], w)
  {
    if ls == [] || EndsWith(ls[0], w) then 0 else 1 + FindLine(ls[1..], w)
  }

  /** The whole-file scan: what FindLine is. */
  lemma {:induction false} FindLineIsFirst(ls: seq<string>, w: string, i: nat)
    requires i <= |ls|
    requires forall j :: 0 <= j < i ==> !EndsWith(ls[j], w)
    requires i < |ls| ==> EndsWith(ls[i], w)
    ensures FindLine(ls, w) == i
  {
    if 0 < i {
      assert forall j :: 0 <= j < i - 1 ==> ls[1..][j] == ls[j + 1];
      FindLineIsFirst(ls[1..], w, i - 1);
    }
  }

  lemma {:induction false} BeforeFirst(ls: seq<string>, w: string, j: nat)
    requires j < FindLine(ls, w)
    ensures !EndsWith(ls[j], w)
  {
    if 0 < j {
      BeforeFirst(ls[1..], w, j - 1);
    }
  }

  /** No line carries the endings of two wwids. */
  lemma OneEnding(l: string, v: string, w: string)
    requires IsWwid(v) && IsWwid(w) && EndsWith(l, v) && EndsWith(l, w)
    ensures v == w
  {
    var n := |l|;
    assert forall k :: 0 <= k < |v| ==> v[k] == l[n - |v| - 2..][k + 1] == l[n - |v| - 1 + k];
    assert forall k :: 0 <= k < |w| ==> w[k] == l[n - |w| - 2..][k + 1] == l[n - |w| - 1 + k];
    assert l[n - |v| - 2..][0] == ' ' && l[n - |w| - 2..][0] == ' ';
    assert forall k :: n - |v| - 1 <= k < n - 1 ==> l[k] == v[k - (n - |v| - 1)] != ' ';
    assert forall k :: n - |w| - 1 <= k < n - 1 ==> l[k] == w[k - (n - |w| - 1)] != ' ';
    assert l[n - |v| - 2] == ' ' && l[n - |w| - 2] == ' ';
    assert |v| == |w|;
  }

  lemma {:induction false} FlattenSplit(ls: seq<string>, i: nat)
    requires i <= |ls|
    ensures Offset(ls, i) <= |Flatten(ls)|
    ensures Flatten(ls)[Offset(ls, i)..] == Flatten(ls[i..])
    ensures i < |ls| ==> Offset(ls, i + 1) == Offset(ls, i) + |ls[i]| <= |Flatten(ls)|
    ensures i < |ls| ==> Flatten(ls)[Offset(ls, i)..Offset(ls, i) + |ls[i]|] == ls[i]
  {
    if i == 0 {
      assert ls[0..] == ls;
      assert i < |ls| ==> Offset(ls[1..], 0) == 0;
    } else {
      FlattenSplit(ls[1..], i - 1);
      assert ls[1..][i - 1..] == ls[i..];
      assert Flatten(ls)[Offset(ls, i)..] == Flatten(ls[1..])[Offset(ls[1..], i - 1)..];
      if i < |ls| {
        var a := Offset(ls[1..], i - 1);
        assert Flatten(ls)[|ls[0]| + a..|ls[0]| + a + |ls[i]|] == Flatten(ls[1..])[a..a + |ls[i]|];
      }
    }
  }

  lemma {:induction false} OffsetsGrow(ls: seq<string>, i: nat, j: nat)
    requires i < j <= |ls|
    ensures Offset(ls, i) + |ls[i]| <= Offset(ls, j)
  {
    if 0 < i {
      OffsetsGrow(ls[1..], i - 1, j - 1);
    }
  }

  // ------------------------------------------------------------------ hits in a buffer

  predicate Occurs(buf: string, w: string, p: int) {
    0 <= p && p + |w| <= |buf| && buf[p..p + |w|] == w
  }

  /** What the search accepts: " w\n" with `w` at `p`. */
  predicate Hit(buf: string, w: string, p: int) {
    0 < p && p + |w| < |buf| && buf[p - 1] == ' ' && Occurs(buf, w, p) && buf[p + |w|] == '\n'
  }

  ghost predicate FirstHitAt(buf: string, w: string, p: int) {
    Hit(buf, w, p) && forall q :: q < p ==> !Hit(buf, w, q)
  }

  ghost predicate NoHit(buf: string, w: string) {
    forall p :: !Hit(buf, w, p)
  }

  /** The last newline of the buffer is just before `o`. */
  predicate LastNewlineBefore(buf: string, o: int) {
    0 < o <= |buf| && buf[o - 1] == '\n' && '\n' !in buf[o..]
  }

  /** strstr(buf + from, w): the first occurrence at or after `from`, or the buffer's length. */
  method Strstr(buf: string, from: nat, w: string) returns (p: nat)
    requires from <= |buf| && w != ""
    ensures from <= p <= |buf|
    ensures p < |buf| ==> Occurs(buf, w, p)
    ensures forall q :: from <= q < p ==> !Occurs(buf, w, q)
  {
    p := from;
    while p + |w| <= |buf|
      invariant from <= p <= |buf|
      invariant forall q :: from <= q < p ==> !Occurs(buf, w, q)
    {
      if buf[p..p + |w|] == w {
        return;
      }
      p := p + 1;
    }
    p := |buf|;
  }

  /** Two hits do not overlap: the blank before the second would be inside the wwid. */
  lemma NoHitInside(buf: string, w: string, p: nat, q: int)
    requires IsWwid(w) && Occurs(buf, w, p) && p < q < p + |w|
    ensures !Hit(buf, w, q)
  {
    assert buf[q - 1] == buf[p..p + |w|][q - 1 - p];
  }

  /** The inner search of do_prkey: occurrences without a blank before and a newline behind
      them are skipped as a whole. */
  method Search(buf: string, w: string) returns (ptr: Option<nat>)
    requires IsWwid(w)
    ensures ptr == None ==> NoHit(buf, w)
    ensures ptr.Some? ==> FirstHitAt(buf, w, ptr.value)
  {
    var p := Strstr(buf, 0, w);
    while p < |buf| && (p == 0 || buf[p - 1] != ' ' || p + |w| == |buf| || buf[p + |w|] != '\n')
      invariant p <= |buf| && (p < |buf| ==> Occurs(buf, w, p))
      invariant forall q :: q < p ==> !Hit(buf, w, q)
      decreases |buf| - p
    {
      forall q | p < q < p + |w| ensures !Hit(buf, w, q) {
        NoHitInside(buf, w, p, q);
      }
      p := Strstr(buf, p + |w|, w);
    }
    ptr := if p < |buf| then Some(p) else None;
  }

  /** strrchr(buf, '\n'): the last newline. */
  method LastNewline(buf: string) returns (ptr: Option<nat>)
    ensures ptr == None ==> forall o :: !LastNewlineBefore(buf, o)
    ensures ptr.Some? ==> LastNewlineBefore(buf, ptr.value + 1)
  {
    var i := |buf|;
    while 0 < i
      invariant 0 <= i <= |buf| && '\n' !in buf[i..]
    {
      i := i - 1;
      if buf[i] == '\n' {
        return Some(i);
      }
      assert buf[i..] == [buf[i]] + buf[i + 1..];
    }
    assert buf[0..] == buf;
    ptr := None;
  }

  // ------------------------------------------------------------------ a window on lines

  /** Number of lines that lie wholly in the first `n` bytes. */
  function Complete(ls: seq<string>, n: nat): (c: nat)
    ensures c <= |ls|
  {
    if ls == [] || n < |ls[0]| then 0 else 1 + Complete(ls[1..], n - |ls[0]|)
  }

  /** Where `w` begins in a line that ends with it, counted from the first line. */
  function HitOf(ls: seq<string>, w: string, i: nat): int
    requires i < |ls|
  {
    Offset(ls, i) + |ls[i]| - 1 - |w|
  }

  /** A hit in a text that begins with a line is at the end of that line, or in the rest. */
  lemma HitSplits(l: string, t: string, w: string, p: int)
    requires IsLine(l) && IsWwid(w) && Hit(l + t, w, p)
    ensures if p < |l| then EndsWith(l, w) && p == |l| - 1 - |w| else |l| < p && Hit(t, w, p - |l|)
  {
    var buf := l + t;
    assert forall k :: 0 <= k < |w| ==> buf[p + k] == buf[p..p + |w|][k] == w[k];
    assert forall k :: p <= k < p + |w| ==> buf[k] == w[k - p] != '\n';
    if p < |l| {
      assert forall k :: 0 <= k < |l| - 1 ==> buf[k] != '\n';
      assert buf[|l| - 1] == '\n';
      assert p + |w| == |l| - 1;
      assert l[p - 1..] == " " + w + "\n";
    } else {
      assert buf[p..p + |w|] == t[p - |l|..p - |l| + |w|];
      assert buf[p - 1] == ' ' && buf[|l| - 1] == '\n';
    }
  }

  lemma HitAtEnd(l: string, t: string, w: string)
    requires IsLine(l) && EndsWith(l, w)
    ensures Hit(l + t, w, |l| - 1 - |w|)
  {
    var p := |l| - 1 - |w|;
    assert l[p - 1..][0] == ' ' && l[p - 1..][|w| + 1] == '\n';
    assert (l + t)[p..p + |w|] == l[p - 1..][1..|w| + 1] == w;
  }

  lemma HitInRest(l: string, t: string, w: string, p: int)
    requires Hit(t, w, p)
    ensures Hit(l + t, w, |l| + p)
  {
    assert (l + t)[|l| + p..|l| + p + |w|] == t[p..p + |w|];
  }

  lemma PrefixOfLines(ls: seq<string>, n: nat)
    requires ls != [] && |ls[0]| <= n <= |Flatten(ls)|
    ensures n - |ls[0]| <= |Flatten(ls[1..])|
    ensures Flatten(ls)[..n] == ls[0] + Flatten(ls[1..])[..n - |ls[0]|]
  {
  }

  lemma ShortWindow(ls: seq<string>, n: nat)
    requires AreLines(ls) && ls != [] && n < |ls[0]|
    ensures forall k :: 0 <= k < n ==> Flatten(ls)[..n][k] != '\n'
  {
    assert forall k :: 0 <= k < n ==> Flatten(ls)[..n][k] == ls[0][k];
  }

  /** Every hit in the window is the end of a complete line. */
  lemma {:induction false} HitIsLine(ls: seq<string>, n: nat, w: string, p: int) returns (i: nat)
    requires AreLines(ls) && IsWwid(w) && n <= |Flatten(ls)| && Hit(Flatten(ls)[..n], w, p)
    ensures i < Complete(ls, n) && EndsWith(ls[i], w) && p == HitOf(ls, w, i)
  {
    if |ls[0]| <= n {
      PrefixOfLines(ls, n);
      HitSplits(ls[0], Flatten(ls[1..])[..n - |ls[0]|], w, p);
      if p < |ls[0]| {
        i := 0;
      } else {
        var j := HitIsLine(ls[1..], n - |ls[0]|, w, p - |ls[0]|);
        i := j + 1;
        assert Offset(ls, i) == |ls[0]| + Offset(ls[1..], j);
      }
    } else {
      ShortWindow(ls, n);
      assert false;
    }
  }

  /** Every complete line of the wwid is a hit in the window. */
  lemma {:induction false} LineIsHit(ls: seq<string>, n: nat, w: string, i: nat)
    requires AreLines(ls) && n <= |Flatten(ls)| && i < Complete(ls, n) && EndsWith(ls[i], w)
    ensures Hit(Flatten(ls)[..n], w, HitOf(ls, w, i))
  {
    hide Hit, EndsWith, IsLine;
    PrefixOfLines(ls, n);
    var t := Flatten(ls[1..])[..n - |ls[0]|];
    if i == 0 {
      HitAtEnd(ls[0], t, w);
    } else {
      LineIsHit(ls[1..], n - |ls[0]|, w, i - 1);
      HitInRest(ls[0], t, w, HitOf(ls[1..], w, i - 1));
    }
  }

  /** The last newline of the window ends its last complete line. */
  lemma {:induction false} NewlineEndsComplete(ls: seq<string>, n: nat)
    requires AreLines(ls) && n <= |Flatten(ls)|
    ensures Offset(ls, Complete(ls, n)) <= n
    ensures '\n' !in Flatten(ls)[..n][Offset(ls, Complete(ls, n))..]
    ensures 0 < Complete(ls, n) ==> 0 < Offset(ls, Complete(ls, n)) &&
                                    Flatten(ls)[..n][Offset(ls, Complete(ls, n)) - 1] == '\n'
  {
    if ls != [] && |ls[0]| <= n {
      PrefixOfLines(ls, n);
      NewlineEndsComplete(ls[1..], n - |ls[0]|);
      var a := Offset(ls[1..], Complete(ls[1..], n - |ls[0]|));
      assert Offset(ls, Complete(ls, n)) == |ls[0]| + a;
      var t := Flatten(ls[1..])[..n - |ls[0]|];
      assert (ls[0] + t)[|ls[0]| + a..] == t[a..];
      assert a == 0 || (ls[0] + t)[|ls[0]| + a - 1] == t[a - 1];
      assert Complete(ls[1..], n - |ls[0]|) == 0 ==> a == 0;
    } else if ls != [] {
      assert forall k :: 0 <= k < n ==> Flatten(ls)[..n][k] == ls[0][k];
    }
  }

  /** The window holds its first line. */
  lemma WindowHoldsALine(ls: seq<string>, n: nat)
    requires AreLines(ls) && ls != [] && n <= |Flatten(ls)| && (n == WINDOW || n == |Flatten(ls)|)
    ensures 0 < Complete(ls, n)
  {
  }

  /** The first hit in the window is the first complete line of the wwid. */
  lemma FirstHit(ls: seq<string>, n: nat, w: string, p: int) returns (i: nat)
    requires AreLines(ls) && IsWwid(w) && n <= |Flatten(ls)|
    requires FirstHitAt(Flatten(ls)[..n], w, p)
    ensures i < Complete(ls, n) <= |ls| && EndsWith(ls[i], w) && p == HitOf(ls, w, i) < n
    ensures forall j :: 0 <= j < i ==> !EndsWith(ls[j], w)
  {
    i := HitIsLine(ls, n, w, p);
    forall j | 0 <= j < i ensures !EndsWith(ls[j], w) {
      if EndsWith(ls[j], w) {
        LineIsHit(ls, n, w, j);
        OffsetsGrow(ls, j, i);
      }
    }
  }

  lemma NoHitNoLine(ls: seq<string>, n: nat, w: string)
    requires AreLines(ls) && n <= |Flatten(ls)|
    requires NoHit(Flatten(ls)[..n], w)
    ensures forall j :: 0 <= j < Complete(ls, n) ==> !EndsWith(ls[j], w)
  {
    forall j | 0 <= j < Complete(ls, n) ensures !EndsWith(ls[j], w) {
      if EndsWith(ls[j], w) {
        LineIsHit(ls, n, w, j);
      }
    }
  }

  lemma BehindNewline(ls: seq<string>, i: nat)
    requires AreLines(ls) && 0 < i <= |ls|
    ensures 0 < Offset(ls, i) <= |Flatten(ls)| && Flatten(ls)[Offset(ls, i) - 1] == '\n'
  {
    FlattenSplit(ls, i - 1);
    var a := Offset(ls, i - 1);
    assert Flatten(ls)[a + |ls[i - 1]| - 1] == Flatten(ls)[a..a + |ls[i - 1]|][|ls[i - 1]| - 1];
  }

  lemma {:induction false} OffsetsAdd(ls: seq<string>, k: nat, c: nat)
    requires k + c <= |ls|
    ensures Offset(ls, k + c) == Offset(ls, k) + Offset(ls[k..], c)
  {
    if k == 0 {
      assert ls[0..] == ls;
    } else {
      assert ls[1..][k - 1..] == ls[k..];
      OffsetsAdd(ls[1..], k - 1, c);
    }
  }

  // ------------------------------------------------------------------ the file as lines

  /** A key string: 18 characters that begin with '0'. */
  predicate IsKey(k: string) {
    |k| == PRKEY_SIZE - 1 && k[0] == '0' && forall i :: 0 <= i < |k| ==> k[i] != '\n'
  }

  function KeyLine(key: string, w: string): string {
    key + " " + w + "\n"
  }

  /** The length of a line that is a key line of the wwid, live or erased. */
  function KeyLength(w: string): nat { PRKEY_SIZE + |w| + 1 }

  /** The first line that ends with the wwid, if there is one, is a key line and no header line. */
  predicate Suits(ls: seq<string>, w: string) {
    IsWwid(w) && (FindLine(ls, w) < |ls| ==> |ls[FindLine(ls, w)]| == KeyLength(w))
  }

  /** The first line that ends with the wwid is too short for a key line, and yet another line
      begins 19 bytes before the wwid: the search takes that place for the key. */
  predicate Misplaced(ls: seq<string>, w: string) {
    var i := FindLine(ls, w);
    i < |ls| && |ls[i]| < KeyLength(w) &&
    exists j :: 0 <= j <= i && Offset(ls, j) + KeyLength(w) == Offset(ls, i) + |ls[i]|
  }

  /** What the search is defined for. */
  predicate Findable(ls: seq<string>, w: string) {
    IsWwid(w) && !Misplaced(ls, w)
  }

  lemma SuitsIsFindable(ls: seq<string>, w: string)
    requires Suits(ls, w)
    ensures Findable(ls, w)
  {
  }

  function GetKey(ls: seq<string>, w: string): Option<string>
    requires Suits(ls, w)
  {
    var i := FindLine(ls, w);
    if i == |ls| || ls[i][0] == '#' then None else Some(ls[i][..PRKEY_SIZE - 1])
  }

  function SetKey(ls: seq<string>, w: string, key: string): seq<string> {
    var i := FindLine(ls, w);
    if i == |ls| then ls + [KeyLine(key, w)] else ls[i := KeyLine(key, w)]
  }

  function Erase(ls: seq<string>, w: string): seq<string> {
    var i := FindLine(ls, w);
    if i == |ls| then ls else ls[i := "#" + ls[i][1..]]
  }

  /** pwrite of `s` at `at`. */
  function Overwrite(data: string, at: nat, s: string): string
    requires at <= |data|
  {
    data[..at] + s + (if at + |s| <= |data| then data[at + |s|..] else "")
  }

  lemma {:induction false} OverwriteLine(ls: seq<string>, i: nat, l: string)
    requires i < |ls| && |l| == |ls[i]|
    ensures Offset(ls, i) <= |Flatten(ls)|
    ensures Flatten(ls[i := l]) == Overwrite(Flatten(ls), Offset(ls, i), l)
  {
    if i == 0 {
      assert ls[0 := l][1..] == ls[1..];
    } else {
      FlattenSplit(ls, i);
      OverwriteLine(ls[1..], i - 1, l);
      assert ls[i := l][1..] == ls[1..][i - 1 := l];
    }
  }

  lemma {:induction false} FlattenAppend(ls: seq<string>, l: string)
    ensures Flatten(ls + [l]) == Flatten(ls) + l
  {
    if ls == [] {
      assert [] + [l] == [l] && [l][1..] == [];
    } else {
      assert (ls + [l])[1..] == ls[1..] + [l];
      FlattenAppend(ls[1..], l);
    }
  }

  /** Where a scan stands that has passed `k` lines, none of them the wwid's. */
  predicate Scanned(ls: seq<string>, w: string, k: nat, start: nat) {
    AreLines(ls) && Findable(ls, w) && k <= |ls| && start == Offset(ls, k) <= |Flatten(ls)| &&
    Flatten(ls)[start..] == Flatten(ls[k..]) && forall j :: 0 <= j < k ==> !EndsWith(ls[j], w)
  }

  lemma ScanStarts(ls: seq<string>, w: string)
    requires AreLines(ls) && Findable(ls, w)
    ensures Scanned(ls, w, 0, 0)
  {
    assert ls[0..] == ls;
  }

  /** What a read at `start` puts into the buffer. */
  predicate Window(ls: seq<string>, k: nat, buf: string) {
    k <= |ls| && |buf| <= |Flatten(ls[k..])| && buf == Flatten(ls[k..])[..|buf|] &&
    (|buf| == WINDOW || |buf| == |Flatten(ls[k..])|)
  }

  lemma ReadsWindow(ls: seq<string>, w: string, k: nat, start: nat, buf: string)
    requires Scanned(ls, w, k, start) && |buf| <= |Flatten(ls)| - start
    requires buf == Flatten(ls)[start..start + |buf|]
    requires |buf| == WINDOW || |buf| == |Flatten(ls)| - start
    ensures Window(ls, k, buf)
    ensures buf == "" ==> k == |ls| && FindLine(ls, w) == |ls|
    ensures buf != "" ==> k < |ls|
  {
    assert buf == Flatten(ls)[start..][..|buf|];
    if k == |ls| {
      FindLineIsFirst(ls, w, k);
    } else {
      assert |Flatten(ls[k..])| >= |ls[k..][0]| > 0;
    }
  }

  lemma LastIsUnique(buf: string, a: nat, b: nat)
    requires LastNewlineBefore(buf, a) && LastNewlineBefore(buf, b)
    ensures a == b
  {
    assert forall i :: a <= i < |buf| ==> buf[a..][i - a] == buf[i];
    assert forall i :: b <= i < |buf| ==> buf[b..][i - b] == buf[i];
  }

  lemma FirstOfScan(ls: seq<string>, w: string, k: nat, start: nat, i: nat)
    requires Scanned(ls, w, k, start) && i < |ls[k..]| && EndsWith(ls[k..][i], w)
    requires forall j :: 0 <= j < i ==> !EndsWith(ls[k..][j], w)
    ensures FindLine(ls, w) == k + i && Offset(ls, k + i) == start + Offset(ls[k..], i)
    ensures ls[k..][i] == ls[k + i]
  {
    var rest := ls[k..];
    assert ls[k + i] == rest[i];
    assert forall j :: k <= j < k + i ==> ls[j] == rest[j - k];
    FindLineIsFirst(ls, w, k + i);
    OffsetsAdd(ls, k, i);
  }

  /** The first hit of a window is the end of the first line of the wwid in the whole file. */
  lemma HitFinds(ls: seq<string>, w: string, k: nat, start: nat, buf: string, p: nat)
    requires Scanned(ls, w, k, start) && Window(ls, k, buf) && FirstHitAt(buf, w, p)
    ensures var i := FindLine(ls, w);
            k <= i < |ls| && p < |buf| && start + p + |w| + 1 == Offset(ls, i) + |ls[i]| && start <= Offset(ls, i)
  {
    hide Flatten, Offset, FindLine, EndsWith, Hit, FirstHitAt, IsWwid, IsLine, Complete, Misplaced;
    var rest, n := ls[k..], |buf|;
    assert AreLines(rest);
    var i := FirstHit(rest, n, w, p);
    FirstOfScan(ls, w, k, start, i);
  }

  /** The byte before the start of a line, and no other, is a newline. */
  lemma {:induction false} LineStart(ls: seq<string>, q: nat) returns (j: nat)
    requires AreLines(ls) && 0 < q <= |Flatten(ls)| && Flatten(ls)[q - 1] == '\n'
    ensures 0 < j <= |ls| && Offset(ls, j) == q
  {
    var n := |ls[0]|;
    assert forall i :: 0 <= i < n ==> Flatten(ls)[i] == ls[0][i];
    if q <= n {
      j := 1;
      assert Offset(ls[1..], 0) == 0;
    } else {
      assert Flatten(ls)[q - 1] == Flatten(ls[1..])[q - n - 1];
      j := LineStart(ls[1..], q - n);
      j := j + 1;
    }
  }

  /** The test of the place 19 bytes before the hit tells whether the line is a key line. */
  lemma HitLocates(ls: seq<string>, w: string, k: nat, start: nat, buf: string, p: nat)
    requires Scanned(ls, w, k, start) && Window(ls, k, buf) && FirstHitAt(buf, w, p)
    ensures FindLine(ls, w) < |ls| && p < |buf|
    ensures var back: int := p - PRKEY_SIZE;
            if Suits(ls, w)
            then 0 <= back && start + back == Offset(ls, FindLine(ls, w)) && (back == 0 || buf[back - 1] == '\n')
            else back < 0 || (back != 0 && buf[back - 1] != '\n')
  {
    hide Flatten, Offset, FindLine, EndsWith, Hit, FirstHitAt, IsLine, Complete, Misplaced;
    HitFinds(ls, w, k, start, buf, p);
    var i, back: int := FindLine(ls, w), p - PRKEY_SIZE;
    assert start + back + KeyLength(w) == Offset(ls, i) + |ls[i]|;
    if 0 < back {
      assert buf[back - 1] == Flatten(ls[k..])[back - 1] == Flatten(ls)[start..][back - 1] == Flatten(ls)[start + back - 1];
    }
    if Suits(ls, w) {
      if 0 < back {
        BehindNewline(ls, i);
      }
    } else if 0 <= back && (back == 0 || buf[back - 1] == '\n') {
      BegunElsewhere(ls, w, k, start, back);
      assert false;
    }
  }

  /** No line begins where a key line would have begun. */
  lemma BegunElsewhere(ls: seq<string>, w: string, k: nat, start: nat, back: nat)
    requires Scanned(ls, w, k, start) && FindLine(ls, w) < |ls| && k <= FindLine(ls, w)
    requires start + back + KeyLength(w) == Offset(ls, FindLine(ls, w)) + |ls[FindLine(ls, w)]|
    requires back == 0 || (start + back <= |Flatten(ls)| && Flatten(ls)[start + back - 1] == '\n')
    ensures Suits(ls, w)
  {
    hide Flatten, FindLine, EndsWith, IsLine;
    var i, j := FindLine(ls, w), k;
    if back > 0 {
      j := LineStart(ls, start + back);
    }
    if j > i {
      OffsetsGrow(ls, i, j);
    } else if j < i {
      OffsetsGrow(ls, j, i);
    }
  }

  /** A window without a hit lets the scan go on behind its last newline. */
  lemma MissGoesOn(ls: seq<string>, w: string, k: nat, start: nat, buf: string) returns (c: nat)
    requires Scanned(ls, w, k, start) && Window(ls, k, buf) && k < |ls| && NoHit(buf, w)
    ensures 0 < c <= |ls| - k && LastNewlineBefore(buf, Offset(ls[k..], c))
    ensures start + Offset(ls[k..], c) <= |Flatten(ls)| && Scanned(ls, w, k + c, start + Offset(ls[k..], c))
  {
    hide Offset, Flatten, EndsWith, Complete, FindLine, NoHit, IsLine;
    var rest, n := ls[k..], |buf|;
    assert forall j :: 0 <= j < |rest| ==> rest[j] == ls[k + j];
    c := Complete(rest, n);
    NewlineEndsComplete(rest, n);
    WindowHoldsALine(rest, n);
    NoHitNoLine(rest, n, w);
    OffsetsAdd(ls, k, c);
    FlattenSplit(ls, k + c);
    assert forall j :: k <= j < k + c ==> ls[j] == rest[j - k];
  }

  lemma KeyLineIsLine(key: string, w: string)
    requires IsKey(key) && IsWwid(w)
    ensures IsLine(KeyLine(key, w)) && EndsWith(KeyLine(key, w), w)
    ensures KeyLine(key, w)[..PRKEY_SIZE - 1] == key && KeyLine(key, w)[0] == '0'
  {
    assert KeyLine(key, w)[PRKEY_SIZE - 1..] == " " + w + "\n";
  }

  lemma ErasedLine(l: string, w: string)
    requires IsLine(l) && |w| + 2 < |l|
    ensures IsLine("#" + l[1..])
    ensures EndsWith(l, w) <==> EndsWith("#" + l[1..], w)
  {
    assert ("#" + l[1..])[|l| - |w| - 2..] == l[|l| - |w| - 2..];
  }

  /** The place 19 bytes before a hit, unless no line begins there. */
  method KeyBefore(buf: string, p: nat, start: nat) returns (at: Option<nat>, malformed: bool)
    requires p < |buf|
    ensures var back: int := p - PRKEY_SIZE;
            (malformed <==> back < 0 || (back != 0 && buf[back - 1] != '\n')) &&
            if malformed then at == None else 0 <= back && at == Some(start + back)
  {
    var back: int := p - PRKEY_SIZE;
    malformed := back < 0 || (back != 0 && buf[back - 1] != '\n');
    at := if malformed then None else Some(start + back);
  }

  /** A window without a hit has a newline, and the scan goes on behind the last one. */
  lemma ScanGoesOn(ls: seq<string>, w: string, k: nat, start: nat, buf: string, nl: Option<nat>) returns (c: nat)
    requires Scanned(ls, w, k, start) && Window(ls, k, buf) && k < |ls| && NoHit(buf, w)
    requires if nl == None then forall o :: !LastNewlineBefore(buf, o) else LastNewlineBefore(buf, nl.value + 1)
    ensures 0 < c <= |ls| - k && nl.Some? && start + nl.value + 1 <= |Flatten(ls)|
    ensures Scanned(ls, w, k + c, start + nl.value + 1)
  {
    hide LastNewlineBefore, Scanned, Window, NoHit, Flatten, Offset;
    c := MissGoesOn(ls, w, k, start, buf);
    LastIsUnique(buf, Offset(ls[k..], c), nl.value + 1);
  }

  /** pread of at most WINDOW bytes. */
  method ReadAt(data: string, ghost ls: seq<string>, ghost w: string, ghost k: nat, start: nat) returns (buf: string)
    requires Scanned(ls, w, k, start) && data == Flatten(ls)
    ensures Window(ls, k, buf)
    ensures buf == "" ==> k == |ls| && FindLine(ls, w) == |ls|
    ensures buf != "" ==> k < |ls|
  {
    var bytes := if |data| - start < WINDOW then |data| - start else WINDOW;
    buf := data[start..start + bytes];
    hide Flatten, Window, FindLine, EndsWith, Offset;
    ReadsWindow(ls, w, k, start, buf);
  }

  /** The outer loop of do_prkey: read a window, search it, go on behind its last newline. */
  method Locate(data: string, ghost lines: seq<string>, wwid: string) returns (at: Option<nat>, malformed: bool)
    requires AreLines(lines) && data == Flatten(lines) && Findable(lines, wwid)
    ensures malformed <==> !Suits(lines, wwid)
    ensures FindLine(lines, wwid) == |lines| ==> at == None
    ensures FindLine(lines, wwid) < |lines| && !malformed ==> at == Some(Offset(lines, FindLine(lines, wwid)))
  {
    assert FindLine(lines, wwid) == |lines| ==> Suits(lines, wwid);
    hide Flatten, Offset, FindLine, EndsWith, IsWwid, Scanned, Window, FirstHitAt, NoHit, LastNewlineBefore, Suits, Findable;
    hide AreLines, Complete, Hit, Occurs, KeyLength, Misplaced;
    ScanStarts(lines, wwid);
    at, malformed := None, false;
    var start: nat := 0;
    ghost var k := 0;
    while true
      invariant k <= |lines| && start <= |data| && Scanned(lines, wwid, k, start)
      decreases |lines| - k
    {
      var buf := ReadAt(data, lines, wwid, k, start);
      if buf == "" {
        return;
      }
      var ptr := Search(buf, wwid);
      if ptr.Some? {
        HitLocates(lines, wwid, k, start, buf, ptr.value);
        at, malformed := KeyBefore(buf, ptr.value, start);
        return;
      }
      var nl := LastNewline(buf);
      ghost var c := ScanGoesOn(lines, wwid, k, start, buf, nl);
      if nl == None {
        return;
      }
      start := start + nl.value + 1;
      k := k + c;
    }
  }

  // ------------------------------------------------------------------ one write, and what it leaves alone

  /** `after` is `before` with one line of `w` added, or its first line replaced by another
      line of `w`, or nothing done. */
  predicate ChangesOnly(before: seq<string>, after: seq<string>, w: string) {
    var i := FindLine(before, w);
    after == before ||
    (i < |before| && |after| == |before| && after == before[i := after[i]] && EndsWith(after[i], w)) ||
    (i == |before| && |after| == i + 1 && after == before + [after[i]] && EndsWith(after[i], w))
  }

  lemma WriteChangesOnly(ls: seq<string>, w: string, key: string)
    requires AreLines(ls) && Suits(ls, w) && IsKey(key)
    ensures ChangesOnly(ls, SetKey(ls, w, key), w) && AreLines(SetKey(ls, w, key))
    ensures ChangesOnly(ls, Erase(ls, w), w) && AreLines(Erase(ls, w))
  {
    KeyLineIsLine(key, w);
    var i := FindLine(ls, w);
    if i < |ls| {
      ErasedLine(ls[i], w);
    }
  }

  lemma OtherLinesStay(before: seq<string>, after: seq<string>, w: string, v: string, j: nat)
    requires ChangesOnly(before, after, w) && IsWwid(w) && IsWwid(v) && v != w && j < |after|
    ensures j < |before| ==> (EndsWith(after[j], v) <==> EndsWith(before[j], v))
    ensures j < |before| && EndsWith(before[j], v) ==> after[j] == before[j]
    ensures j == |before| ==> !EndsWith(after[j], v)
  {
    var i := FindLine(before, w);
    if j == i && after != before {
      if EndsWith(after[j], v) {
        OneEnding(after[j], v, w);
      }
      if j < |before| && EndsWith(before[j], v) {
        OneEnding(before[j], v, w);
      }
    }
  }

  /** Writing one wwid leaves the first line of every other where it was. */
  lemma SameFirst(before: seq<string>, after: seq<string>, w: string, v: string)
    requires ChangesOnly(before, after, w) && IsWwid(w) && IsWwid(v) && v != w
    ensures |before| <= |after|
    ensures FindLine(after, v) == if FindLine(before, v) == |before| then |after| else FindLine(before, v)
  {
    forall j: nat | j < |after|
      ensures j < |before| ==> (EndsWith(after[j], v) <==> EndsWith(before[j], v))
      ensures j == |before| ==> !EndsWith(after[j], v)
    {
      OtherLinesStay(before, after, w, v, j);
    }
    var i := FindLine(before, v);
    forall j | 0 <= j < i ensures !EndsWith(after[j], v) {
      BeforeFirst(before, v, j);
    }
    FindLineIsFirst(after, v, if i == |before| then |after| else i);
  }

  /** Writing one wwid changes no other wwid's answer. */
  lemma OthersUnchanged(before: seq<string>, after: seq<string>, w: string, v: string)
    requires ChangesOnly(before, after, w) && IsWwid(w) && IsWwid(v) && v != w
    ensures Suits(after, v) <==> Suits(before, v)
    ensures Suits(before, v) ==> GetKey(after, v) == GetKey(before, v)
  {
    SameFirst(before, after, w, v);
    if FindLine(before, v) < |before| {
      OtherLinesStay(before, after, w, v, FindLine(before, v));
    }
    hide FindLine, EndsWith, ChangesOnly, IsWwid;
  }

  lemma {:induction false} OffsetsKept(a: seq<string>, b: seq<string>, n: nat)
    requires n <= |a| && n <= |b| && forall k :: 0 <= k < n ==> |a[k]| == |b[k]|
    ensures Offset(a, n) == Offset(b, n)
  {
    if n > 0 {
      assert forall k :: 0 <= k < n - 1 ==> a[1..][k] == a[k + 1] && b[1..][k] == b[k + 1];
      OffsetsKept(a[1..], b[1..], n - 1);
    }
  }

  /** Writing one wwid misplaces no other. */
  lemma FindableKept(before: seq<string>, after: seq<string>, w: string, v: string)
    requires ChangesOnly(before, after, w) && IsWwid(w) && Findable(before, v) && v != w
    requires forall k :: 0 <= k < |before| ==> k < |after| && |after[k]| == |before[k]|
    ensures Findable(after, v)
  {
    SameFirst(before, after, w, v);
    hide FindLine, EndsWith, ChangesOnly;
    var i := FindLine(before, v);
    if i < |before| {
      forall j | 0 <= j <= i ensures Offset(after, j) == Offset(before, j) {
        OffsetsKept(after, before, j);
      }
    }
  }

  /** Erased or live, no wwid gets a second line. */
  predicate AtMostOne(ls: seq<string>, v: string) {
    forall i, j :: 0 <= i < |ls| && 0 <= j < |ls| && EndsWith(ls[i], v) && EndsWith(ls[j], v) ==> i == j
  }

  lemma OneLinePerWwid(before: seq<string>, after: seq<string>, w: string, v: string)
    requires ChangesOnly(before, after, w) && IsWwid(w) && IsWwid(v) && AtMostOne(before, v)
    ensures AtMostOne(after, v)
  {
    var f := FindLine(before, w);
    forall j: nat | j < |after| && EndsWith(after[j], v)
      ensures if j < |before| then EndsWith(before[j], v) else v == w && f == j
    {
      if v != w {
        OtherLinesStay(before, after, w, v, j);
      }
    }
    if v == w && f == |before| {
      forall j | 0 <= j < f ensures !EndsWith(before[j], v) {
        BeforeFirst(before, v, j);
      }
    }
  }

  /** What is written is what is read; what is erased reads as absent. */
  lemma SetThenGet(ls: seq<string>, w: string, key: string)
    requires AreLines(ls) && Suits(ls, w) && IsKey(key)
    ensures Suits(SetKey(ls, w, key), w) && GetKey(SetKey(ls, w, key), w) == Some(key)
    ensures Suits(Erase(ls, w), w) && GetKey(Erase(ls, w), w) == None
  {
    KeyLineIsLine(key, w);
    var i := FindLine(ls, w);
    if i < |ls| {
      ErasedLine(ls[i], w);
    }
    forall j | 0 <= j < i ensures !EndsWith(ls[j], w) {
      BeforeFirst(ls, w, j);
    }
    FindLineIsFirst(SetKey(ls, w, key), w, i);
    FindLineIsFirst(Erase(ls, w), w, i);
  }

  lemma OverwriteFirst(data: string, at: nat, l: string)
    requires l != "" && at + |l| <= |data| && data[at..at + |l|] == l
    ensures Overwrite(data, at, "#") == Overwrite(data, at, "#" + l[1..])
  {
    assert data[at + 1..] == data[at..at + |l|][1..] + data[at + |l|..];
  }

  // ------------------------------------------------------------------ key strings

  const TWO64: nat := 0x1_0000_0000_0000_0000

  function HexDigit(d: nat): char
    requires d < 16
  {
    "0123456789abcdef"[d]
  }

  /** The lowest `n` hexadecimal digits of `k`, as "%0nx" prints them. */
  function Hex(k: nat, n: nat): (s: string)
    ensures |s| == n
  {
    if n == 0 then "" else Hex(k / 16, n - 1) + [HexDigit(k % 16)]
  }

  predicate IsHexDigit(c: char) {
    '0' <= c <= '9' || 'a' <= c <= 'f' || 'A' <= c <= 'F'
  }

  function DigitValue(c: char): nat
    requires IsHexDigit(c)
  {
    if '0' <= c <= '9' then c as int - '0' as int
    else if 'a' <= c <= 'f' then c as int - 'a' as int + 10
    else c as int - 'A' as int + 10
  }

  predicate AllHex(s: string) {
    forall i :: 0 <= i < |s| ==> IsHexDigit(s[i])
  }

  function HexValue(s: string): nat
    requires AllHex(s)
  {
    if s == "" then 0 else 16 * HexValue(s[..|s| - 1]) + DigitValue(s[|s| - 1])
  }

  function Pow16(n: nat): nat {
    if n == 0 then 1 else 16 * Pow16(n - 1)
  }

  /** parse_prkey: an optional '0', an optional 'x', and one to sixteen hexadecimal digits. */
  function ParsePrkey(text: string): Option<nat> {
    var s := if text != "" && text[0] == '0' then text[1..] else text;
    var t := if s != "" && (s[0] == 'x' || s[0] == 'X') then s[1..] else s;
    if t == "" || 16 < |t| || !AllHex(t) then None else Some(HexValue(t))
  }

  /** The key string of set_prkey: the case of the 'x' carries the APTPL flag. */
  function KeyText(k: nat, aptpl: bool): string {
    (if aptpl then "0X" else "0x") + Hex(k, 16)
  }

  lemma {:induction false} HexRoundTrip(k: nat, n: nat)
    requires k < Pow16(n)
    ensures AllHex(Hex(k, n)) && HexValue(Hex(k, n)) == k
    ensures forall i :: 0 <= i < n ==> Hex(k, n)[i] != 'X' && Hex(k, n)[i] != '\n'
  {
    if n > 0 {
      HexRoundTrip(k / 16, n - 1);
      var s := Hex(k, n);
      assert s[..|s| - 1] == Hex(k / 16, n - 1);
      assert DigitValue(HexDigit(k % 16)) == k % 16;
    }
  }

  /** Every key and flag survive their 18 characters. */
  lemma KeyTextRoundTrip(k: nat, aptpl: bool)
    requires k < TWO64
    ensures IsKey(KeyText(k, aptpl))
    ensures ParsePrkey(KeyText(k, aptpl)) == Some(k)
    ensures 'X' in KeyText(k, aptpl) <==> aptpl
  {
    assert Pow16(4) == 0x1_0000 && Pow16(8) == 0x1_0000_0000 && Pow16(12) == 0x1_0000_0000_0000;
    assert Pow16(16) == TWO64;
    HexRoundTrip(k, 16);
    var t := KeyText(k, aptpl);
    assert t[1..][1..] == Hex(k, 16);
    assert t[1] == (if aptpl then 'X' else 'x');
    assert forall i :: 2 <= i < 18 ==> t[i] == Hex(k, 16)[i - 2];
  }

  // ------------------------------------------------------------------ the file as a map

  type Key = (nat, bool)

  /** What get_prkey finds: the key and its APTPL flag. */
  function Lookup(ls: seq<string>, w: string): Option<Key>
    requires Suits(ls, w)
  {
    match GetKey(ls, w)
    case None => None
    case Some(text) =>
      match ParsePrkey(text)
      case None => None
      case Some(k) => Some((k, 'X' in text))
  }

  /** set_prkey on the lines: key 0 erases. */
  function Store(ls: seq<string>, w: string, k: nat, aptpl: bool): seq<string> {
    if k == 0 then Erase(ls, w) else SetKey(ls, w, KeyText(k, aptpl))
  }

  function MapStore(m: map<string, Key>, w: string, k: nat, aptpl: bool): map<string, Key> {
    if k == 0 then m - {w} else m[w := (k, aptpl)]
  }

  function MapLookup(m: map<string, Key>, w: string): Option<Key> {
    if w in m then Some(m[w]) else None
  }

  ghost predicate Agrees(ls: seq<string>, m: map<string, Key>) {
    forall w :: Suits(ls, w) ==> Lookup(ls, w) == MapLookup(m, w)
  }

  lemma StoreOwn(ls: seq<string>, m: map<string, Key>, w: string, k: nat, aptpl: bool)
    requires AreLines(ls) && Suits(ls, w) && k < TWO64
    ensures Suits(Store(ls, w, k, aptpl), w)
    ensures Lookup(Store(ls, w, k, aptpl), w) == MapLookup(MapStore(m, w, k, aptpl), w)
  {
    KeyTextRoundTrip(k, aptpl);
    SetThenGet(ls, w, KeyText(k, aptpl));
    hide GetKey, ParsePrkey, KeyText, SetKey, Erase, Suits;
  }

  lemma StoreChangesOnly(ls: seq<string>, w: string, k: nat, aptpl: bool)
    requires AreLines(ls) && Suits(ls, w) && k < TWO64
    ensures ChangesOnly(ls, Store(ls, w, k, aptpl), w) && AreLines(Store(ls, w, k, aptpl))
  {
    KeyTextRoundTrip(k, aptpl);
    WriteChangesOnly(ls, w, KeyText(k, aptpl));
  }

  lemma StoreFor(ls: seq<string>, m: map<string, Key>, w: string, k: nat, aptpl: bool, v: string)
    requires AreLines(ls) && Suits(ls, w) && k < TWO64 && Agrees(ls, m) && IsWwid(v)
    ensures Suits(Store(ls, w, k, aptpl), v) <==> Suits(ls, v)
    ensures Suits(ls, v) ==> Lookup(Store(ls, w, k, aptpl), v) == MapLookup(MapStore(m, w, k, aptpl), v)
    ensures AtMostOne(ls, v) ==> AtMostOne(Store(ls, w, k, aptpl), v)
  {
    assert IsWwid(w);
    hide GetKey, Store, AtMostOne, ChangesOnly, Suits, IsWwid, ParsePrkey, AreLines;
    StoreChangesOnly(ls, w, k, aptpl);
    StoreOwn(ls, m, w, k, aptpl);
    var after := Store(ls, w, k, aptpl);
    if v != w {
      OthersUnchanged(ls, after, w, v);
    }
    if AtMostOne(ls, v) {
      OneLinePerWwid(ls, after, w, v);
    }
  }

  lemma StoreIsMapStore(ls: seq<string>, m: map<string, Key>, w: string, k: nat, aptpl: bool)
    requires AreLines(ls) && Suits(ls, w) && k < TWO64 && Agrees(ls, m)
    ensures AreLines(Store(ls, w, k, aptpl)) && Agrees(Store(ls, w, k, aptpl), MapStore(m, w, k, aptpl))
    ensures SuitsKept(ls, Store(ls, w, k, aptpl)) && SinglesKept(ls, Store(ls, w, k, aptpl))
  {
    StoreChangesOnly(ls, w, k, aptpl);
    var after := Store(ls, w, k, aptpl);
    hide GetKey, Store, AtMostOne, ChangesOnly, ParsePrkey, MapStore;
    forall v | IsWwid(v)
      ensures Suits(after, v) <==> Suits(ls, v)
      ensures Suits(after, v) ==> Lookup(after, v) == MapLookup(MapStore(m, w, k, aptpl), v)
      ensures AtMostOne(ls, v) ==> AtMostOne(after, v)
    {
      StoreFor(ls, m, w, k, aptpl, v);
    }
  }

  datatype Op = Get(wwid: string) | Set(wwid: string, key: nat, aptpl: bool)

  function MapStep(m: map<string, Key>, op: Op): map<string, Key> {
    match op
    case Get(_) => m
    case Set(w, k, aptpl) => MapStore(m, w, k, aptpl)
  }

  function MapAfter(m: map<string, Key>, ops: seq<Op>): map<string, Key> {
    if ops == [] then m else MapStep(MapAfter(m, ops[..|ops| - 1]), ops[|ops| - 1])
  }

  ghost predicate SuitsKept(before: seq<string>, after: seq<string>) {
    forall v :: Suits(before, v) ==> Suits(after, v)
  }

  ghost predicate SinglesKept(before: seq<string>, after: seq<string>) {
    forall v :: IsWwid(v) && AtMostOne(before, v) ==> AtMostOne(after, v)
  }

  // ------------------------------------------------------------------ the header

  const HEADER: seq<string> := [
    "# Multipath persistent " + ("reservation keys, " + "Version : 1.0\n"),
    "# NOTE: this file is " + ("automatically maintained " + "by the multipathd program.\n"),
    "# You should not need to " + ("edit this file in normal " + "circumstances.\n"),
    "#\n",
    "# Format:\n",
    "# prkey wwid\n",
    "#\n"]

  lemma HeaderEnding(l: string, v: string, w: string)
    requires IsWwid(v) && IsWwid(w) && EndsWith(l, v)
    ensures EndsWith(l, w) <==> w == v
  {
    if EndsWith(l, w) {
      OneEnding(l, v, w);
    }
  }

  lemma HeaderTail(a: string, l: string, w: string)
    requires IsLine(l) && EndsWith(l, w) && |a| + |l| <= WINDOW && '\n' !in a
    ensures IsLine(a + l) && EndsWith(a + l, w)
  {
    assert (a + l)[|a| + |l| - |w| - 2..] == l[|l| - |w| - 2..];
  }

  lemma LongWord()
    ensures IsLine("edit this file in normal " + "circumstances.\n")
    ensures EndsWith("edit this file in normal " + "circumstances.\n", "circumstances.")
  {
    assert ("edit this file in normal " + "circumstances.\n")[24..] == " " + "circumstances." + "\n";
  }

  lemma FirstLine()
    ensures IsLine(HEADER[0]) && EndsWith(HEADER[0], "1.0") && |HEADER[0]| != 23
  {
    HeaderTail("reservation keys, ", "Version : 1.0\n", "1.0");
    HeaderTail("# Multipath persistent ", "reservation keys, " + "Version : 1.0\n", "1.0");
  }

  lemma SecondLine()
    ensures IsLine(HEADER[1]) && EndsWith(HEADER[1], "program.") && |HEADER[1]| != 28
  {
    HeaderTail("automatically maintained ", "by the multipathd program.\n", "program.");
    HeaderTail("# NOTE: this file is ", "automatically maintained " + "by the multipathd program.\n", "program.");
  }

  lemma ThirdLine()
    ensures IsLine(HEADER[2]) && EndsWith(HEADER[2], "circumstances.") && |HEADER[2]| != 34
  {
    LongWord();
    HeaderTail("# You should not need to ", "edit this file in normal " + "circumstances.\n", "circumstances.");
  }

  lemma ShortLines()
    ensures IsLine(HEADER[3]) && HEADER[3] == HEADER[6] == "#\n"
    ensures IsLine(HEADER[4]) && EndsWith(HEADER[4], "Format:") && |HEADER[4]| != 27
    ensures IsLine(HEADER[5]) && EndsWith(HEADER[5], "wwid") && |HEADER[5]| != 24
  {
  }

  lemma HeaderLines()
    ensures AreLines(HEADER)
    ensures EndsWith(HEADER[0], "1.0") && EndsWith(HEADER[1], "program.") && EndsWith(HEADER[2], "circumstances.")
    ensures EndsWith(HEADER[4], "Format:") && EndsWith(HEADER[5], "wwid")
    ensures HEADER[3] == HEADER[6] == "#\n"
    ensures |HEADER[0]| != 23 && |HEADER[1]| != 28 && |HEADER[2]| != 34 && |HEADER[4]| != 27 && |HEADER[5]| != 24
  {
    hide IsLine, EndsWith;
    FirstLine();
    SecondLine();
    ThirdLine();
    ShortLines();
  }

  /** The line of the header that ends with `w`. */
  function HeaderLine(w: string): nat {
    if w == "1.0" then 0 else if w == "program." then 1 else if w == "circumstances." then 2
    else if w == "Format:" then 4 else if w == "wwid" then 5 else 7
  }

  /** The wwids the file can hold are those that end no line of its header. */
  lemma HeaderSuits(w: string)
    requires IsWwid(w)
    ensures Suits(HEADER, w) <==> w !in {"1.0", "program.", "circumstances.", "Format:", "wwid"}
    ensures FindLine(HEADER, w) == HeaderLine(w) && |HEADER| == 7
  {
    HeaderLines();
    hide EndsWith, IsLine, FindLine;
    var h := HEADER;
    HeaderEnding(h[0], "1.0", w);
    HeaderEnding(h[1], "program.", w);
    HeaderEnding(h[2], "circumstances.", w);
    HeaderEnding(h[4], "Format:", w);
    HeaderEnding(h[5], "wwid", w);
    NoEnding(w);
    FindLineIsFirst(h, w, HeaderLine(w));
  }

  lemma NoEnding(w: string)
    requires w != ""
    ensures !EndsWith("#\n", w)
  {
  }

  /** In a new file no wwid is misplaced. */
  lemma HeaderIsFindable(w: string)
    requires IsWwid(w)
    ensures Findable(HEADER, w)
  {
    hide FindLine, EndsWith, Offset;
    HeaderSuits(w);
    HeaderOffsets();
  }

  lemma HeaderLengths()
    ensures |HEADER| == 7 && |HEADER[0]| == 55 && |HEADER[1]| == 73 && |HEADER[2]| == 65 && |HEADER[3]| == 2
    ensures |HEADER[4]| == 10 && |HEADER[5]| == 13
  {
  }

  lemma {:induction false} OffsetNext(ls: seq<string>, i: nat)
    requires i < |ls|
    ensures Offset(ls, i + 1) == Offset(ls, i) + |ls[i]|
  {
    if i == 0 {
      assert Offset(ls[1..], 0) == 0;
    } else {
      OffsetNext(ls[1..], i - 1);
    }
  }

  lemma HeaderOffsets()
    ensures Offset(HEADER, 0) == 0 && Offset(HEADER, 1) == 55 && Offset(HEADER, 2) == 128 && Offset(HEADER, 3) == 193
    ensures Offset(HEADER, 4) == 195 && Offset(HEADER, 5) == 205
    ensures |HEADER| == 7 && |HEADER[0]| == 55 && |HEADER[1]| == 73 && |HEADER[2]| == 65 && |HEADER[4]| == 10 && |HEADER[5]| == 13
  {
    HeaderLengths();
    OffsetsFrom(HEADER);
  }

  lemma OffsetsFrom(h: seq<string>)
    requires 5 < |h|
    ensures Offset(h, 0) == 0 && Offset(h, 1) == |h[0]| && Offset(h, 2) == Offset(h, 1) + |h[1]|
    ensures Offset(h, 3) == Offset(h, 2) + |h[2]| && Offset(h, 4) == Offset(h, 3) + |h[3]| && Offset(h, 5) == Offset(h, 4) + |h[4]|
  {
    assert Offset(h, 0) == 0;
    hide Offset;
    OffsetNext(h, 0);
    OffsetNext(h, 1);
    OffsetNext(h, 2);
    OffsetNext(h, 3);
    OffsetNext(h, 4);
  }

  /** A new file is the empty map. */
  lemma HeaderIsEmpty()
    ensures AreLines(HEADER) && Agrees(HEADER, map[])
    ensures forall v :: Suits(HEADER, v) ==> AtMostOne(HEADER, v)
  {
    HeaderLines();
    forall w | Suits(HEADER, w) ensures GetKey(HEADER, w) == None && AtMostOne(HEADER, w) {
      HeaderSuits(w);
      forall j | 0 <= j < |HEADER| ensures !EndsWith(HEADER[j], w) {
        BeforeFirst(HEADER, w, j);
      }
    }
  }

  // ------------------------------------------------------------------ the operations

  /** The bytes of a located line. */
  lemma LineBytes(ls: seq<string>, w: string)
    requires AreLines(ls) && Suits(ls, w) && FindLine(ls, w) < |ls|
    ensures var at := Offset(ls, FindLine(ls, w));
            at + PRKEY_SIZE <= |Flatten(ls)| &&
            GetKey(ls, w) == if Flatten(ls)[at] == '#' then None else Some(Flatten(ls)[at..at + PRKEY_SIZE - 1])
  {
    var i := FindLine(ls, w);
    FlattenSplit(ls, i);
    var at := Offset(ls, i);
    var l := Flatten(ls)[at..at + |ls[i]|];
    assert l[..PRKEY_SIZE - 1] == Flatten(ls)[at..at + PRKEY_SIZE - 1] && l[0] == Flatten(ls)[at];
  }

  /** One '#' written over a line is Erase on the lines. */
  lemma EraseBytes(ls: seq<string>, w: string)
    requires AreLines(ls) && Suits(ls, w) && FindLine(ls, w) < |ls|
    ensures AreLines(Erase(ls, w)) && Offset(ls, FindLine(ls, w)) <= |Flatten(ls)|
    ensures Flatten(Erase(ls, w)) == Overwrite(Flatten(ls), Offset(ls, FindLine(ls, w)), "#")
  {
    var i := FindLine(ls, w);
    FlattenSplit(ls, i);
    OverwriteFirst(Flatten(ls), Offset(ls, i), ls[i]);
    OverwriteLine(ls, i, "#" + ls[i][1..]);
    ErasedLine(ls[i], w);
  }

  lemma OverwriteEnd(data: string, s: string)
    ensures Overwrite(data, |data|, s) == data + s
  {
    assert data[..|data|] == data;
    assert s == "" ==> data[|data|..] == "";
  }

  /** A key line written over the old one, or at the end, is SetKey on the lines. */
  lemma SetBytes(ls: seq<string>, w: string, key: string)
    requires AreLines(ls) && Suits(ls, w) && IsKey(key)
    ensures AreLines(SetKey(ls, w, key))
    ensures FindLine(ls, w) < |ls| ==>
              Offset(ls, FindLine(ls, w)) <= |Flatten(ls)| &&
              Flatten(SetKey(ls, w, key)) == Overwrite(Flatten(ls), Offset(ls, FindLine(ls, w)), KeyLine(key, w))
    ensures FindLine(ls, w) == |ls| ==>
              Flatten(SetKey(ls, w, key)) == Overwrite(Flatten(ls), |Flatten(ls)|, KeyLine(key, w))
  {
    var i := FindLine(ls, w);
    KeyLineIsLine(key, w);
    assert |KeyLine(key, w)| == PRKEY_SIZE + |w| + 1;
    assert i < |ls| ==> |ls[i]| == PRKEY_SIZE + |w| + 1;
    hide Flatten, Overwrite, Offset, EndsWith, IsLine, KeyLine, IsKey, Suits, FindLine;
    if i < |ls| {
      OverwriteLine(ls, i, KeyLine(key, w));
    } else {
      FlattenAppend(ls, KeyLine(key, w));
      OverwriteEnd(Flatten(ls), KeyLine(key, w));
    }
  }

  datatype Command = Read | Write

  /** The file: its bytes, and the lines they make up. */
  class File {
    var data: string
    ghost var lines: seq<string>

    ghost predicate Valid()
      reads this
    {
      AreLines(lines) && data == Flatten(lines)
    }

    constructor (ghost header: seq<string>, text: string)
      requires AreLines(header) && text == Flatten(header)
      ensures Valid() && lines == header
    {
      data := text;
      lines := header;
    }

    /** do_prkey: locate the line, then read it, overwrite it, erase it or append one.  A line
        of another form that ends with the wwid is an error, and nothing is written. */
    method DoPrkey(wwid: string, keystr: Option<string>, cmd: Command) returns (ret: int, text: string)
      requires Valid() && Findable(lines, wwid)
      requires keystr.Some? ==> IsKey(keystr.value)
      modifies this
      ensures Valid()
      ensures cmd == Read ==> data == old(data) && lines == old(lines)
      ensures !Suits(old(lines), wwid) ==> ret == 1 && data == old(data) && lines == old(lines)
      ensures Suits(old(lines), wwid) && cmd == Read ==>
                (ret == 0 <==> GetKey(lines, wwid).Some?) && (ret == 0 ==> GetKey(lines, wwid) == Some(text))
      ensures Suits(old(lines), wwid) && cmd == Write ==>
                ret == 0 && lines == if keystr == None then Erase(old(lines), wwid) else SetKey(old(lines), wwid, keystr.value)
    {
      text := "";
      var at, malformed := Locate(data, lines, wwid);
      if malformed {
        return 1, text;
      }
      if FindLine(lines, wwid) < |lines| {
        LineBytes(lines, wwid);
        EraseBytes(lines, wwid);
      }
      hide FindLine, Offset, Flatten, Overwrite, IsKey, KeyLine, AreLines, Suits;
      if cmd == Read {
        if at == None || data[at.value] == '#' {
          return 1, text;
        }
        text := data[at.value..at.value + PRKEY_SIZE - 1];
        return 0, text;
      }
      ret := 0;
      if at == None && keystr == None {
        return;
      }
      var offset := if at.Some? then at.value else |data|;
      if keystr == None {
        data := Overwrite(data, offset, "#");
        lines := Erase(lines, wwid);
      } else {
        SetBytes(lines, wwid, keystr.value);
        data := Overwrite(data, offset, KeyLine(keystr.value, wwid));
        lines := SetKey(lines, wwid, keystr.value);
      }
    }

    method GetPrkey(wwid: string) returns (ret: int, prkey: nat, aptpl: bool)
      requires Valid() && (wwid == "" || Findable(lines, wwid))
      modifies this
      ensures Valid() && data == old(data) && lines == old(lines)
      ensures wwid == "" || !Suits(lines, wwid) ==> ret == 1
      ensures wwid != "" && Suits(lines, wwid) ==> (ret == 0 <==> Lookup(lines, wwid).Some?)
      ensures ret == 0 ==> Lookup(lines, wwid) == Some((prkey, aptpl))
    {
      ret, prkey, aptpl := 1, 0, false;
      if wwid == "" {
        return;
      }
      var text;
      ret, text := DoPrkey(wwid, None, Read);
      if ret != 0 {
        return;
      }
      aptpl := 'X' in text;
      match ParsePrkey(text)
      case None => ret := 1;
      case Some(k) => prkey := k;
    }

    method SetPrkey(wwid: string, prkey: nat, aptpl: bool) returns (ret: int)
      requires Valid() && (wwid == "" || Findable(lines, wwid)) && prkey < TWO64
      modifies this
      ensures Valid()
      ensures wwid == "" || !Suits(old(lines), wwid) ==> ret == 1 && lines == old(lines)
      ensures wwid != "" && Suits(old(lines), wwid) ==> ret == 0 && lines == Store(old(lines), wwid, prkey, aptpl)
    {
      ret := 1;
      if wwid == "" {
        return;
      }
      var text;
      if prkey != 0 {
        KeyTextRoundTrip(prkey, aptpl);
        ret, text := DoPrkey(wwid, Some(KeyText(prkey, aptpl)), Write);
      } else {
        ret, text := DoPrkey(wwid, None, Write);
      }
    }

    /** One operation, on the file and on the map. */
    method Do(op: Op, ghost m: map<string, Key>) returns (answer: Option<Key>)
      requires Valid() && Agrees(lines, m) && Suits(lines, op.wwid) && (op.Set? ==> op.key < TWO64)
      modifies this
      ensures Valid() && Agrees(lines, MapStep(m, op))
      ensures op.Get? ==> answer == MapLookup(m, op.wwid)
      ensures SuitsKept(old(lines), lines) && SinglesKept(old(lines), lines)
    {
      answer := None;
      match op {
        case Get(w) =>
          var ret, k, aptpl := GetPrkey(w);
          answer := if ret == 0 then Some((k, aptpl)) else None;
        case Set(w, k, aptpl) =>
          StoreIsMapStore(lines, m, w, k, aptpl);
          var ret := SetPrkey(w, k, aptpl);
      }
    }

    /** Any run of the operations on one file answers as the same run on a finite map, and
        leaves at most one line to a wwid. */
    method Run(ops: seq<Op>, ghost m: map<string, Key>) returns (answers: seq<Option<Key>>)
      requires Valid() && Agrees(lines, m)
      requires forall i :: 0 <= i < |ops| ==> Suits(lines, ops[i].wwid) && (ops[i].Set? ==> ops[i].key < TWO64)
      modifies this
      ensures Valid() && Agrees(lines, MapAfter(m, ops))
      ensures |answers| == |ops|
      ensures forall i :: 0 <= i < |ops| && ops[i].Get? ==> answers[i] == MapLookup(MapAfter(m, ops[..i]), ops[i].wwid)
      ensures SinglesKept(old(lines), lines)
    {
      answers := [];
      ghost var first := lines;
      hide Agrees, MapStep, Suits, AtMostOne, IsWwid, MapLookup;
      for i := 0 to |ops|
        invariant Valid() && |answers| == i && Agrees(lines, MapAfter(m, ops[..i]))
        invariant SuitsKept(first, lines) && SinglesKept(first, lines)
        invariant forall j :: 0 <= j < i && ops[j].Get? ==> answers[j] == MapLookup(MapAfter(m, ops[..j]), ops[j].wwid)
      {
        assert ops[..i + 1][..i] == ops[..i];
        var answer := Do(ops[i], MapAfter(m, ops[..i]));
        answers := answers + [answer];
      }
      assert ops[..|ops|] == ops;
    }
  }
}
