/** Counted feature strings: add_feature and remove_feature of libmultipath/structs.c, and what
    libmultipath/propsel.c and the head of assemble_map in libmultipath/dmparser.c do with them. */
module Features {

  import opened Wrappers
  import opened Words

  /** A feature string in order: the number of words, then the words. */
  function FeatureText(ws: seq<string>): string {
    Join([Dec(|ws|)] + ws)
  }

  // ------------------------------------------------------------------ scanning

  /** strtoul, its result in an `int`: white space, a sign, then digits; the value and where it
      ends. */
  function Count(f: string): Option<(int, nat)> {
    var i := SkipSpace(f, 0);
    var minus := i < |f| && f[i] == '-';
    var k := if i < |f| && (f[i] == '-' || f[i] == '+') then i + 1 else i;
    var j := DigitRun(f, k);
    var v: int := DigitsValue(f[k..j]);
    if k == j then None else Some((if minus then -v else v, j))
  }

  /** Blanks in a row at the front are reduced to one. */
  function StripBlanks(e: string): string {
    if |e| >= 2 && e[0] == ' ' && e[1] == ' ' then StripBlanks(e[1..]) else e
  }

  function SkipBlanks(s: string, i: nat): (j: nat)
    requires i <= |s|
    ensures i <= j <= |s|
    decreases |s| - i
  {
    if i < |s| && s[i] == ' ' then SkipBlanks(s, i + 1) else i
  }

  function FirstBlank(s: string, i: nat): (j: nat)
    requires i <= |s|
    ensures i <= j <= |s| && (j < |s| ==> s[j] == ' ')
    decreases |s| - i
  {
    if i < |s| && s[i] != ' ' then FirstBlank(s, i + 1) else i
  }

  /** The start of the blanks that end at `e`. */
  function BackUp(s: string, e: nat): (b: nat)
    requires e <= |s|
    ensures b <= e
  {
    if 0 < e && s[e - 1] == ' ' then BackUp(s, e - 1) else e
  }

  function FirstFrom(s: string, w: string, i: nat): (p: nat)
    requires i <= |s|
    ensures i <= p <= |s| + 1 && (p <= |s| ==> Occurs(s, w, p))
    decreases |s| - i
  {
    if Occurs(s, w, i) then i else if i == |s| then |s| + 1 else FirstFrom(s, w, i + 1)
  }

  lemma {:induction false} FirstFromIs(s: string, w: string, i: nat, p: nat)
    requires i <= p <= |s| && Occurs(s, w, p) && forall q: nat :: i <= q < p ==> !Occurs(s, w, q)
    ensures FirstFrom(s, w, i) == p
    decreases p - i
  {
    if i < p {
      FirstFromIs(s, w, i + 1, p);
    }
  }

  // ------------------------------------------------------------------ add_feature

  function AddResult(f: Option<string>, n: Option<string>): (int, Option<string>) {
    if n == None || (n.value != "" && n.value[0] == '0') then (0, f)
    else if ' ' in n.value then (1, f)
    else if f == None then (0, Some("1 " + n.value))
    else if Contains(f.value, n.value) then (0, f)
    else match Count(f.value)
         case None => (1, f)
         case Some((c, e)) =>
           if e < |f.value| && f.value[e] != ' ' then (1, f)
           else (0, Some(Dec(c + 1) + StripBlanks(f.value[e..]) + " " + n.value))
  }

  /** add_feature. */
  method AddFeature(f: Option<string>, n: Option<string>) returns (ret: int, g: Option<string>)
    ensures (ret, g) == AddResult(f, n)
  {
    ret, g := 0, f;
    if n == None || (n.value != "" && n.value[0] == '0') {
      return;
    }
    if ' ' in n.value {
      return 1, f;
    }
    if f == None {
      return 0, Some("1 " + n.value);
    }
    var at := Strstr(f.value, n.value);
    if at.Some? {
      return;
    }
    var count := Count(f.value);
    if count == None || (count.value.1 < |f.value| && f.value[count.value.1] != ' ') {
      return 1, f;
    }
    var c, e := count.value.0, count.value.1;
    var start := e;
    if e < |f.value| && f.value[e] == ' ' {
      while e + 1 < |f.value| && f.value[e + 1] == ' '
        invariant start <= e < |f.value| && f.value[e] == ' '
        invariant StripBlanks(f.value[e..]) == StripBlanks(f.value[start..])
      {
        assert f.value[e..][1..] == f.value[e + 1..];
        e := e + 1;
      }
    }
    g := Some(Dec(c + 1) + f.value[e..] + " " + n.value);
  }

  // ------------------------------------------------------------------ remove_feature

  /** How many words `o` counts for. */
  function Pieces(o: string): nat {
    if o == "" then 1
    else Pieces(o[1..]) + (if o[0] == ' ' && |o| > 1 && o[1] != ' ' then 1 else 0)
  }

  /** The last blank of the first row of blanks, where the copy begins. */
  function CopyFrom(f: string): nat
    requires FirstBlank(f, 0) < |f|
  {
    SkipBlanks(f, FirstBlank(f, 0) + 1) - 1
  }

  /** The features but for the `l` bytes at `e`: what is before, without its blanks, and what is
      behind, with one. */
  function Cut(f: string, e: nat, l: nat): string
    requires e + l <= |f| && FirstBlank(f, 0) < |f| && CopyFrom(f) <= BackUp(f, e)
  {
    var t := SkipBlanks(f, e + l);
    f[CopyFrom(f)..BackUp(f, e)] + (if 0 < t < |f| then f[t - 1..] else "")
  }

  /** The pointer arithmetic stays inside the string: what is removed stands behind the count,
      and the blanks before it do not reach back over the first one. */
  predicate Removable(f: string, o: string) {
    FirstBlank(f, 0) < |f| ==>
      var e := FirstFrom(f, o, 0);
      e <= |f| ==> CopyFrom(f) < e && CopyFrom(f) <= BackUp(f, e) && 0 < BackUp(f, e)
  }

  function RemoveResult(f: Option<string>, o: Option<string>): (int, Option<string>)
    requires f.Some? && o.Some? ==> Removable(f.value, o.value[SkipBlanks(o.value, 0)..])
  {
    if f == None then (1, f)
    else if o == None || o.value == "" || !Contains(f.value, o.value) then (0, f)
    else match Count(f.value)
         case None => (1, f)
         case Some((c, _)) =>
           var name := o.value[SkipBlanks(o.value, 0)..];
           if name == "" then (0, f)
           else
             var left := c - Pieces(name);
             if left == 0 then (0, Some("0"))
             else
               var e := FirstFrom(f.value, name, 0);
               if e > |f.value| then (0, f)
               else if FirstBlank(f.value, 0) == |f.value| then (1, f)
               else (0, Some(Dec(left) + Cut(f.value, e, |name|)))
  }

  method NormalizedName(o: string) returns (name: string, d: nat)
    ensures name == o[SkipBlanks(o, 0)..] && d == |name|
  {
    var i: nat := 0;
    while i < |o| && o[i] == ' '
      invariant i <= |o| && SkipBlanks(o, i) == SkipBlanks(o, 0)
    {
      i := i + 1;
    }
    // the scan for trailing blanks starts at the terminating NUL and so finds none
    name, d := o[i..], |o| - i;
  }

  method PiecesOf(name: string) returns (n: nat)
    ensures n == Pieces(name)
  {
    n := 1;
    var i := 0;
    while i < |name|
      invariant 0 <= i <= |name| && n + Pieces(name[i..]) == Pieces(name) + 1
    {
      assert name[i..][1..] == name[i + 1..];
      if name[i] == ' ' && i + 1 < |name| && name[i + 1] != ' ' {
        n := n + 1;
      }
      i := i + 1;
    }
    assert name[i..] == "";
  }

  /** The first blank of the string, and the last one of its row. */
  method CopyStart(f: string) returns (p: Option<nat>)
    ensures p == None <==> FirstBlank(f, 0) == |f|
    ensures p.Some? ==> p.value == CopyFrom(f)
  {
    var i: nat := 0;
    while i < |f| && f[i] != ' '
      invariant i <= |f| && FirstBlank(f, i) == FirstBlank(f, 0)
    {
      i := i + 1;
    }
    if i == |f| {
      return None;
    }
    ghost var first := i + 1;
    i := i + 1;
    while i < |f| && f[i] == ' '
      invariant first <= i <= |f| && SkipBlanks(f, i) == SkipBlanks(f, first)
    {
      i := i + 1;
    }
    p := Some(i - 1);
  }

  /** The blanks before `at` count as removed too. */
  method StepBack(f: string, at: nat, length: nat) returns (e: nat, d: nat)
    requires 0 < at <= |f| && 0 < BackUp(f, at)
    ensures e == BackUp(f, at) && e + d == at + length
  {
    var i: int := at - 1;
    d := length + 1;
    while f[i] == ' '
      invariant 0 <= i < at && d == length + (at - i) && BackUp(f, i + 1) == BackUp(f, at)
      decreases i
    {
      i, d := i - 1, d + 1;
    }
    e, d := i + 1, d - 1;
  }

  /** What is behind `start`, with one blank before it. */
  method CopyRest(f: string, start: nat) returns (rest: string)
    requires 0 < start <= |f|
    ensures rest == (var t := SkipBlanks(f, start); if t < |f| then f[t - 1..] else "")
  {
    var p := start;
    while p < |f| && f[p] == ' '
      invariant start <= p <= |f| && SkipBlanks(f, p) == SkipBlanks(f, start)
    {
      p := p + 1;
    }
    rest := if p < |f| then f[p - 1..] else "";
  }

  /** The copy of remove_feature: `length` bytes at `at` are left out. */
  method CutOut(f: string, at: nat, length: nat, left: int) returns (ret: int, g: Option<string>)
    requires 0 < length && at + length <= |f|
    requires FirstBlank(f, 0) < |f| ==> CopyFrom(f) < at && CopyFrom(f) <= BackUp(f, at) && 0 < BackUp(f, at)
    ensures FirstBlank(f, 0) == |f| ==> ret == 1 && g == Some(f)
    ensures FirstBlank(f, 0) < |f| ==> ret == 0 && g == Some(Dec(left) + Cut(f, at, length))
  {
    hide CopyFrom, BackUp, FirstBlank, SkipBlanks, Dec;
    var p := CopyStart(f);
    if p == None {
      return 1, Some(f);
    }
    var n := Dec(left);
    var e, d := StepBack(f, at, length);
    n := n + f[p.value..e];
    var rest := CopyRest(f, e + d);
    assert n + rest == Dec(left) + (f[p.value..e] + rest);
    return 0, Some(n + rest);
  }

  lemma {:induction false} FirstFromNone(s: string, w: string, i: nat)
    requires i <= |s| && !Contains(s, w)
    ensures FirstFrom(s, w, i) == |s| + 1
    decreases |s| - i
  {
    if i < |s| {
      FirstFromNone(s, w, i + 1);
    }
  }

  /** remove_feature. */
  method RemoveFeature(f: Option<string>, o: Option<string>) returns (ret: int, g: Option<string>)
    requires f.Some? && o.Some? ==> Removable(f.value, o.value[SkipBlanks(o.value, 0)..])
    ensures (ret, g) == RemoveResult(f, o)
  {
    hide Pieces, Cut, CopyFrom, BackUp, FirstBlank, FirstFrom, Count, Contains, SkipBlanks, Dec;
    ret, g := 0, f;
    if f == None {
      return 1, f;
    }
    if o == None || o.value == "" {
      return;
    }
    var present := Strstr(f.value, o.value);
    if present == None {
      return;
    }
    var count := Count(f.value);
    if count == None {
      return 1, f;
    }
    var name, d := NormalizedName(o.value);
    if name == "" {
      return;
    }
    var pieces := PiecesOf(name);
    var c := count.value.0 - pieces;
    if c == 0 {
      return 0, Some("0");
    }
    var at := Strstr(f.value, name);
    if at == None {
      FirstFromNone(f.value, name, 0);
      return;
    }
    FirstFromIs(f.value, name, 0, at.value);
    ret, g := CutOut(f.value, at.value, d, c);
  }

  // ------------------------------------------------------------------ counted strings

  lemma TextParts(c: string, ws: seq<string>)
    ensures Join([c] + ws) == c + Suffix(ws)
  {
    hide Join, Suffix;
    JoinMid([], c, ws);
    assert [] + ([c] + ws) == [c] + ws;
    assert Prefix([]) + c == c;
  }

  lemma {:induction false} SuffixConcat(a: seq<string>, b: seq<string>)
    ensures Suffix(a + b) == Suffix(a) + Suffix(b)
  {
    hide Join;
    if a == [] || b == [] {
      assert a == [] ==> a + b == b;
      assert b == [] ==> a + b == a;
    } else {
      JoinConcat(a, b);
    }
  }

  lemma SuffixStart(ws: seq<string>)
    requires AreWords(ws) && ws != []
    ensures |Suffix(ws)| >= 2 && Suffix(ws)[0] == ' ' && !IsSpace(Suffix(ws)[1])
  {
    JoinNotEmpty(ws);
    hide Join;
  }

  lemma CountOfText(ws: seq<string>)
    requires AreWords(ws)
    ensures FeatureText(ws) == Dec(|ws|) + Suffix(ws)
    ensures Count(FeatureText(ws)) == Some((|ws|, |Dec(|ws|)|))
    ensures StripBlanks(Suffix(ws)) == Suffix(ws)
  {
    var c, f := Dec(|ws|), FeatureText(ws);
    TextParts(c, ws);
    DecRoundTrip(|ws|);
    DecNatDigits(|ws|);
    if ws != [] {
      SuffixStart(ws);
    }
    hide Join, Suffix, DecNat, FeatureText;
    assert forall i :: 0 <= i < |c| ==> f[i] == c[i] && IsDigit(c[i]);
    assert |c| < |f| ==> f[|c|] == ' ';
    DigitRunTo(f, 0, |c|);
    assert f[0..|c|] == c;
  }

  /** Adding a feature that is nowhere in the string appends one word and counts it. */
  lemma AddCounts(ws: seq<string>, n: string)
    requires AreWords(ws) && IsWord(n) && n[0] != '0' && !Contains(FeatureText(ws), n)
    ensures AddResult(Some(FeatureText(ws)), Some(n)) == (0, Some(FeatureText(ws + [n])))
  {
    assert Suffix([]) == "";
    hide Join, Dec, Contains, Count, AddResult, Suffix, StripBlanks, IsWord;
    CountOfText(ws);
    if ws != [] {
      SuffixStart(ws);
    }
    WordNoBlank(n);
    AddToText(Dec(|ws|), Suffix(ws), |ws|, n);
    TextParts(Dec(|ws| + 1), ws + [n]);
    SuffixConcat(ws, [n]);
    SuffixOne(n);
    Regrouped(Dec(|ws| + 1), Suffix(ws), " ", n);
  }

  lemma SuffixOne(n: string)
    ensures Suffix([n]) == " " + n
  {
    JoinOne(n);
  }

  lemma Regrouped(a: string, b: string, c: string, e: string)
    ensures a + (b + (c + e)) == a + b + c + e
  {
  }

  /** What add_feature makes of a count `c` and the rest `s`. */
  lemma AddToText(c: string, s: string, k: int, n: string)
    requires Count(c + s) == Some((k, |c|)) && StripBlanks(s) == s && (s != "" ==> s[0] == ' ')
    requires n != "" && n[0] != '0' && ' ' !in n && !Contains(c + s, n)
    ensures AddResult(Some(c + s), Some(n)) == (0, Some(Dec(k + 1) + s + " " + n))
  {
    hide Contains, Count, StripBlanks, Dec;
    assert (c + s)[|c|..] == s;
  }

  lemma {:induction false} FirstBlankIs(s: string, i: nat, j: nat)
    requires i <= j < |s| && s[j] == ' ' && forall k :: i <= k < j ==> s[k] != ' '
    ensures FirstBlank(s, i) == j
    decreases j - i
  {
    if i < j {
      FirstBlankIs(s, i + 1, j);
    }
  }

  /** The copy starts with the blank behind the count. */
  lemma CopyFromIs(f: string, c: string, s: string)
    requires f == c + s && ' ' !in c && |s| >= 2 && s[0] == ' ' && s[1] != ' '
    ensures FirstBlank(f, 0) == |c| && CopyFrom(f) == |c|
  {
    assert forall k :: 0 <= k < |c| ==> f[k] == c[k];
    assert f[|c|] == s[0] && f[|c| + 1] == s[1];
    FirstBlankIs(f, 0, |c|);
  }

  /** The text `f` is `j`, a blank, the word `w` and `s`. */
  predicate Built(f: string, j: string, w: string, s: string) {
    f == j + " " + w + s && j != "" && j[|j| - 1] != ' ' && ' ' !in w &&
    (s == "" || (|s| >= 2 && s[0] == ' ' && s[1] != ' '))
  }

  /** Where the copy stops before word `w` of which `u` characters are kept. */
  function Stop(j: string, u: nat): nat {
    if u == 0 then |j| else |j| + 1 + u
  }

  lemma StopIs(f: string, j: string, w: string, s: string, u: nat)
    requires Built(f, j, w, s) && u <= |w|
    ensures |j| + 1 + |w| <= |f| && BackUp(f, |j| + 1 + u) == Stop(j, u)
  {
    assert f[|j|] == ' ' && f[|j| - 1] == j[|j| - 1];
    assert forall k :: 0 <= k < |w| ==> f[|j| + 1 + k] == w[k];
  }

  /** What is copied behind the first `n` characters of word `w`. */
  function Rest(w: string, s: string, n: nat): string
    requires 0 < n <= |w|
  {
    if n == |w| then s else w[n - 1..] + s
  }

  function CopiedBehind(f: string, e: nat): string
    requires 0 < e <= |f|
  {
    var t := SkipBlanks(f, e);
    if t < |f| then f[t - 1..] else ""
  }

  lemma RestIs(f: string, j: string, w: string, s: string, n: nat)
    requires Built(f, j, w, s) && 0 < n <= |w|
    ensures |j| + 1 + n <= |f| && CopiedBehind(f, |j| + 1 + n) == Rest(w, s, n)
  {
    var t0 := |j| + 1 + n;
    if n < |w| {
      assert f[t0] == w[n];
      assert f[t0 - 1..] == w[n - 1..] + s;
    } else if s != "" {
      assert f[t0] == s[0] && f[t0 + 1] == s[1];
      assert SkipBlanks(f, t0 + 1) == t0 + 1;
      assert f[t0..] == s;
    }
  }

  lemma JoinEnd(ws: seq<string>)
    requires AreWords(ws) && ws != []
    ensures Join(ws) != "" && !IsSpace(Join(ws)[|Join(ws)| - 1])
  {
    var l := ws[|ws| - 1];
    assert IsWord(l);
  }

  function Without(ws: seq<string>, k: nat): seq<string>
    requires k < |ws|
  {
    ws[..k] + ws[k + 1..]
  }

  lemma PiecesOfWord(o: string)
    requires ' ' !in o
    ensures Pieces(o) == 1 && SkipBlanks(o, 0) == 0
  {
  }

  /** The text around word `k`. */
  lemma TextAround(ws: seq<string>, k: nat)
    requires AreWords(ws) && k < |ws|
    ensures Built(FeatureText(ws), Dec(|ws|) + Suffix(ws[..k]), ws[k], Suffix(ws[k + 1..]))
    ensures |Before([Dec(|ws|)] + ws, k + 1)| == |Dec(|ws|) + Suffix(ws[..k])| + 1
  {
    hide Join, Dec, IsWord;
    var c := Dec(|ws|);
    var all := [c] + ws;
    DecRoundTrip(|ws|);
    JoinParts(all, k + 1);
    assert all[..k + 1] == [c] + ws[..k] && all[k + 2..] == ws[k + 1..];
    TextParts(c, ws[..k]);
    JoinEnd([c] + ws[..k]);
    if ws[k + 1..] != [] {
      SuffixStart(ws[k + 1..]);
    }
    WordNoBlank(ws[k]);
    assert IsSpace(' ');
    hide Suffix;
  }

  /** What is copied before word `w` of which `u` characters are kept. */
  function Front(a: string, w: string, u: nat): string
    requires u <= |w|
  {
    if u == 0 then a else a + " " + w[..u]
  }

  lemma FrontIs(f: string, c: string, a: string, w: string, s: string, u: nat)
    requires Built(f, c + a, w, s) && u <= |w|
    ensures |c| <= Stop(c + a, u) <= |f| && f[|c|..Stop(c + a, u)] == Front(a, w, u)
  {
    if u == 0 {
      assert f[|c|..|c + a|] == a;
    } else {
      assert f == c + (a + " " + w[..u]) + (w[u..] + s);
      assert f[|c|..|c + a| + 1 + u] == a + " " + w[..u];
    }
  }

  /** The features with `l` characters of word `w` left out, `u` characters into it. */
  function Shape(a: string, w: string, s: string, u: nat, l: nat): string
    requires 0 < u + l <= |w|
  {
    Front(a, w, u) + Rest(w, s, u + l)
  }

  /** The cut when the occurrence is `u` characters into the word behind `c + a`. */
  lemma CutBetween(c: string, a: string, w: string, s: string, f: string, u: nat, l: nat)
    requires Built(f, c + a, w, s) && 0 < l && u + l <= |w| && c != ""
    requires FirstBlank(f, 0) < |f| && CopyFrom(f) == |c|
    ensures var e := |c + a| + 1 + u;
            |c| <= BackUp(f, e) && |c| < e && e + l <= |f| && Cut(f, e, l) == Shape(a, w, s, u, l)
  {
    hide Built, Stop, BackUp, CopyFrom, FirstBlank, SkipBlanks, Front, Rest, Cut, CopiedBehind;
    StopIs(f, c + a, w, s, u);
    RestIs(f, c + a, w, s, u + l);
    FrontIs(f, c, a, w, s, u);
    CutUnfold(f, |c + a| + 1 + u, l);
  }

  lemma CutUnfold(f: string, e: nat, l: nat)
    requires 0 < e + l <= |f| && FirstBlank(f, 0) < |f| && CopyFrom(f) <= BackUp(f, e)
    ensures Cut(f, e, l) == f[CopyFrom(f)..BackUp(f, e)] + CopiedBehind(f, e + l)
  {
    hide BackUp, CopyFrom, FirstBlank, SkipBlanks;
  }

  lemma CopyFromText(ws: seq<string>)
    requires AreWords(ws) && ws != []
    ensures FirstBlank(FeatureText(ws), 0) < |FeatureText(ws)| && CopyFrom(FeatureText(ws)) == |Dec(|ws|)| > 0
  {
    CountOfText(ws);
    SuffixStart(ws);
    DecRoundTrip(|ws|);
    WordNoBlank(Dec(|ws|));
    hide Join, Suffix, Dec, FeatureText, AreWords, BackUp, CopyFrom, FirstBlank;
    CopyFromIs(FeatureText(ws), Dec(|ws|), Suffix(ws));
  }

  lemma CutOfText(ws: seq<string>, k: nat, e: nat, u: nat, l: nat)
    requires AreWords(ws) && k < |ws| && 0 < l && u + l <= |ws[k]|
    requires e == |Before([Dec(|ws|)] + ws, k + 1)| + u
    ensures var f := FeatureText(ws);
            FirstBlank(f, 0) < |f| && e + l <= |f| && CopyFrom(f) <= BackUp(f, e) && CopyFrom(f) < e && 0 < BackUp(f, e) &&
            Cut(f, e, l) == Shape(Suffix(ws[..k]), ws[k], Suffix(ws[k + 1..]), u, l)
  {
    hide Join, Suffix, Dec, FeatureText, AreWords, IsWord, Before, Cut, Shape, BackUp, CopyFrom, FirstBlank, Built;
    TextAround(ws, k);
    CopyFromText(ws);
    CutBetween(Dec(|ws|), Suffix(ws[..k]), ws[k], Suffix(ws[k + 1..]), FeatureText(ws), u, l);
  }

  lemma WordNoBlank(w: string)
    requires IsWord(w)
    ensures ' ' !in w && forall k :: 0 <= k < |w| ==> w[k] != ' '
  {
    assert IsSpace(' ');
  }

  /** The features without the first that is named `o`. */
  function Drop(ws: seq<string>, o: string): seq<string> {
    if ws == [] then [] else if ws[0] == o then ws[1..] else [ws[0]] + Drop(ws[1..], o)
  }

  lemma {:induction false} DropIs(ws: seq<string>, o: string, k: nat)
    requires k < |ws| && ws[k] == o && forall j :: 0 <= j < k ==> ws[j] != o
    ensures Drop(ws, o) == Without(ws, k)
  {
    if k > 0 {
      DropIs(ws[1..], o, k - 1);
      assert Without(ws, k) == [ws[0]] + Without(ws[1..], k - 1);
    } else {
      assert Without(ws, 0) == ws[1..];
    }
  }

  lemma {:induction false} DropNone(ws: seq<string>, o: string)
    requires o !in ws
    ensures Drop(ws, o) == ws
  {
    if ws != [] {
      DropNone(ws[1..], o);
    }
  }

  /** What remove_feature leaves when the first occurrence is `u` characters into word `k`. */
  function Left(ws: seq<string>, k: nat, u: nat, l: nat): string
    requires k < |ws| && 0 < u + l <= |ws[k]|
  {
    Dec(|ws| - 1) + Shape(Suffix(ws[..k]), ws[k], Suffix(ws[k + 1..]), u, l)
  }

  /** Removal does what it is for, if and only if the first word that contains the name is the
      name itself.  Otherwise the string is left mangled, even when the name is not a feature of
      the string at all. */
  lemma RemoveRightIff(ws: seq<string>, o: string) returns (k: nat)
    requires AreWords(ws) && IsWord(o) && !AllDigits(o) && Contains(FeatureText(ws), o)
    ensures k < |ws| && Contains(ws[k], o) && forall j :: 0 <= j < k ==> !Contains(ws[j], o)
    ensures Removable(FeatureText(ws), o) && o[SkipBlanks(o, 0)..] == o
    ensures RemoveResult(Some(FeatureText(ws)), Some(o)) == (0, Some(FeatureText(Drop(ws, o)))) <==> o == ws[k]
  {
    var u;
    k, u := RemoveLeaves(ws, o);
    OccursFits(ws[k], o, u);
    WholeWord(ws[k], o, u);
    hide Occurs, Contains, FeatureText, AllDigits, Left, IsWord, RemoveResult, Removable, Drop;
    NotBefore(ws, o, k);
    if o == ws[k] {
      DropIs(ws, o, k);
      RightWhole(ws, k);
    } else {
      WrongOtherwise(ws, o, k, u);
    }
  }

  lemma NotBefore(ws: seq<string>, o: string, k: nat)
    requires k <= |ws| && forall j :: 0 <= j < k ==> !Contains(ws[j], o)
    ensures forall j :: 0 <= j < k ==> ws[j] != o
  {
    OccursBelow(o, o, 0);
  }

  lemma RemoveLeaves(ws: seq<string>, o: string) returns (k: nat, u: nat)
    requires AreWords(ws) && IsWord(o) && !AllDigits(o) && Contains(FeatureText(ws), o)
    ensures k < |ws| && Contains(ws[k], o) && forall j :: 0 <= j < k ==> !Contains(ws[j], o)
    ensures Occurs(ws[k], o, u) && 0 < u + |o| <= |ws[k]|
    ensures Removable(FeatureText(ws), o) && o[SkipBlanks(o, 0)..] == o
    ensures RemoveResult(Some(FeatureText(ws)), Some(o)) == (0, Some(if |ws| == 1 then "0" else Left(ws, k, u, |o|)))
  {
    hide Join, Suffix, AreWords, IsWord, AllDigits, Occurs, Contains, FeatureText, Before, Dec;
    hide Cut, CopyFrom, BackUp, FirstBlank, FirstFrom, SkipBlanks, Shape, RemoveResult, Removable, Count;
    k, u := FirstIn(ws, o);
    OccursFits(ws[k], o, u);
    WordNoBlank(o);
    var f := FeatureText(ws);
    CountOfText(ws);
    CutOfText(ws, k, FirstFrom(f, o, 0), u, |o|);
    RemoveUnfold(f, o, |ws|);
  }

  lemma RightWhole(ws: seq<string>, k: nat)
    requires AreWords(ws) && k < |ws| && 0 < |ws[k]|
    ensures (if |ws| == 1 then "0" else Left(ws, k, 0, |ws[k]|)) == FeatureText(Without(ws, k))
  {
    hide Join, Suffix, AreWords, Dec;
    if |ws| == 1 {
      LastGoes(ws, k);
    } else {
      TextParts(Dec(|ws| - 1), Without(ws, k));
      SuffixConcat(ws[..k], ws[k + 1..]);
    }
  }

  /** The text of the features around word `k`. */
  lemma SuffixAround(ws: seq<string>, k: nat)
    requires k < |ws|
    ensures Suffix(ws) == Suffix(ws[..k]) + " " + ws[k] + Suffix(ws[k + 1..])
    ensures Suffix(Without(ws, k)) == Suffix(ws[..k]) + Suffix(ws[k + 1..])
  {
    hide Join;
    JoinOne(ws[k]);
    assert Suffix([ws[k]]) == " " + ws[k];
    hide Suffix;
    SuffixConcat(ws[..k], [ws[k]]);
    SuffixConcat(ws[..k] + [ws[k]], ws[k + 1..]);
    SuffixConcat(ws[..k], ws[k + 1..]);
    assert ws == ws[..k] + [ws[k]] + ws[k + 1..];
    assert Suffix(ws[..k]) + (" " + ws[k]) == Suffix(ws[..k]) + " " + ws[k];
  }

  lemma ShapeLength(a: string, w: string, s: string, u: nat, l: nat)
    requires 0 < u + l <= |w| && 0 < l
    ensures |Shape(a, w, s, u, l)| == |a| + |s| + |w| - l
                                      + (if u == 0 then 0 else 1) + (if u + l == |w| then 0 else 1)
  {
  }

  /** When only a part of word `k` was the occurrence, the result is not the right one. */
  lemma WrongOtherwise(ws: seq<string>, o: string, k: nat, u: nat)
    requires AreWords(ws) && k < |ws| && 0 < |o| && u + |o| <= |ws[k]| && !(u == 0 && |o| == |ws[k]|)
    requires o != ws[k] && forall j :: 0 <= j < k ==> ws[j] != o
    ensures (if |ws| == 1 then "0" else Left(ws, k, u, |o|)) != FeatureText(Drop(ws, o))
  {
    hide AreWords, Suffix, Join, Dec, Shape, FeatureText;
    if o in ws {
      var m := Whole(ws, o, 0);
      DropIs(ws, o, m);
      WrongWord(ws, o, k, u, m);
    } else {
      DropNone(ws, o);
      WrongCount(ws, o, k, u);
    }
  }

  lemma {:induction false} Whole(ws: seq<string>, o: string, i: nat) returns (m: nat)
    requires i <= |ws| && o in ws && forall j :: 0 <= j < i ==> ws[j] != o
    ensures m < |ws| && ws[m] == o && forall j :: 0 <= j < m ==> ws[j] != o
    decreases |ws| - i
  {
    if ws[i] == o {
      m := i;
    } else {
      m := Whole(ws, o, i + 1);
    }
  }

  /** The name is a later word: the result is too long. */
  lemma WrongWord(ws: seq<string>, o: string, k: nat, u: nat, m: nat)
    requires AreWords(ws) && k < m < |ws| && ws[m] == o
    requires 0 < |o| && u + |o| <= |ws[k]| && !(u == 0 && |o| == |ws[k]|)
    ensures Left(ws, k, u, |o|) != FeatureText(Without(ws, m))
  {
    hide AreWords, Suffix, Join, Dec, Shape, FeatureText;
    SuffixAround(ws, k);
    SuffixAround(ws, m);
    TextIs(Without(ws, m));
    ShapeLength(Suffix(ws[..k]), ws[k], Suffix(ws[k + 1..]), u, |o|);
  }

  lemma TextIs(ws: seq<string>)
    ensures FeatureText(ws) == Dec(|ws|) + Suffix(ws)
  {
    hide Join, Suffix, Dec;
    TextParts(Dec(|ws|), ws);
  }

  /** The name is no feature at all: the count is wrong, or the result too short. */
  lemma WrongCount(ws: seq<string>, o: string, k: nat, u: nat)
    requires AreWords(ws) && k < |ws|
    requires 0 < |o| && u + |o| <= |ws[k]| && !(u == 0 && |o| == |ws[k]|)
    ensures (if |ws| == 1 then "0" else Left(ws, k, u, |o|)) != FeatureText(ws)
  {
    TextIs(ws);
    SuffixStart(ws);
    DecLonger(|ws| - 1);
    FrontStart(ws, k, u);
    hide AreWords, Suffix, Join, Dec, FeatureText, Front, Rest;
    var a, w, s := Suffix(ws[..k]), ws[k], Suffix(ws[k + 1..]);
    SuffixAround(ws, k);
    ShapeLength(a, w, s, u, |o|);
    if |ws| > 1 && (k > 0 || u > 0) {
      CountsDiffer(|ws| - 1, Shape(a, w, s, u, |o|), Suffix(ws));
    }
  }

  lemma FrontStart(ws: seq<string>, k: nat, u: nat)
    requires AreWords(ws) && k < |ws| && u <= |ws[k]|
    ensures if k > 0 || u > 0 then Front(Suffix(ws[..k]), ws[k], u) != "" && Front(Suffix(ws[..k]), ws[k], u)[0] == ' '
            else Suffix(ws[..k]) == ""
  {
    if k > 0 {
      SuffixStart(ws[..k]);
    }
    hide Join;
  }

  lemma SameFront(c: string, s: string, d: string, t: string)
    requires c + s == d + t && ' ' !in c && ' ' !in d
    requires s != "" && s[0] == ' ' && t != "" && t[0] == ' '
    ensures c == d
  {
    FirstBlankIs(c + s, 0, |c|);
    FirstBlankIs(d + t, 0, |d|);
    assert c == (c + s)[..|c|] && d == (d + t)[..|d|];
  }

  /** Two counted strings with different counts differ. */
  lemma CountsDiffer(n: nat, s: string, t: string)
    requires s != "" && s[0] == ' ' && t != "" && t[0] == ' '
    ensures Dec(n) + s != Dec(n + 1) + t
  {
    DecRoundTrip(n);
    DecRoundTrip(n + 1);
    WordNoBlank(Dec(n));
    WordNoBlank(Dec(n + 1));
    hide Dec, Atoi, IsWord;
    if Dec(n) + s == Dec(n + 1) + t {
      SameFront(Dec(n), s, Dec(n + 1), t);
    }
  }

  lemma {:induction false} DecLonger(n: nat)
    ensures 0 < |DecNat(n)| <= |DecNat(n + 1)|
  {
    if n > 9 {
      var q, q' := n / 10, (n + 1) / 10;
      assert q' == q || q' == q + 1;
      assert |DecNat(n)| == |DecNat(q)| + 1 && |DecNat(n + 1)| == |DecNat(q')| + 1;
      hide DecNat;
      DecLonger(q);
    }
  }

  lemma RemoveUnfold(f: string, o: string, c: nat)
    requires o != "" && ' ' !in o && Contains(f, o) && FirstBlank(f, 0) < |f| && FirstFrom(f, o, 0) <= |f|
    requires Count(f).Some? && Count(f).value.0 == c
    requires var e := FirstFrom(f, o, 0); CopyFrom(f) < e && CopyFrom(f) <= BackUp(f, e) && 0 < BackUp(f, e)
    ensures Removable(f, o) && o[SkipBlanks(o, 0)..] == o
    ensures RemoveResult(Some(f), Some(o)) ==
            if c == 1 then (0, Some("0")) else (0, Some(Dec(c - 1) + Cut(f, FirstFrom(f, o, 0), |o|)))
  {
    hide Contains, Occurs, FirstFrom, Count, CopyFrom, BackUp, FirstBlank, Cut, Dec, Pieces, SkipBlanks;
    PiecesOfWord(o);
    assert o[0..] == o;
  }

  lemma OccursFits(w: string, o: string, u: nat)
    requires Occurs(w, o, u) && IsWord(o)
    ensures u + |o| <= |w| && 0 < |o|
  {
  }

  lemma WholeWord(w: string, o: string, u: nat)
    requires Occurs(w, o, u)
    ensures o == w <==> u == 0 && |o| == |w|
  {
  }

  lemma LastGoes(ws: seq<string>, k: nat)
    requires |ws| == 1 && k < 1
    ensures FeatureText(Without(ws, k)) == "0"
  {
    assert Without(ws, k) == [];
    assert [Dec(0)] + [] == [Dec(0)];
  }

  /** The first occurrence of a non-numeric word is in one of the features. */
  lemma FirstIn(ws: seq<string>, o: string) returns (k: nat, u: nat)
    requires AreWords(ws) && IsWord(o) && !AllDigits(o) && Contains(FeatureText(ws), o)
    ensures k < |ws| && Occurs(ws[k], o, u) && Contains(ws[k], o) && forall j :: 0 <= j < k ==> !Contains(ws[j], o)
    ensures FirstFrom(FeatureText(ws), o, 0) == |Before([Dec(|ws|)] + ws, k + 1)| + u <= |FeatureText(ws)|
  {
    hide Join, Dec, FirstFrom, Before, Occurs, AreWords, AllDigits, IsWord, Contains;
    DecRoundTrip(|ws|);
    var all := [Dec(|ws|)] + ws;
    var kk, i := FirstInJoin(all, o);
    if kk == 0 {
      DigitsInside(Dec(|ws|), o, i);
      assert false;
    }
    k, u := kk - 1, i;
    assert forall j :: 0 <= j < |ws| ==> all[j + 1] == ws[j];
  }

  /** The word that holds the first occurrence, and where in it. */
  lemma FirstInJoin(all: seq<string>, o: string) returns (k: nat, u: nat)
    requires all != [] && IsWord(o) && Contains(Join(all), o)
    ensures k < |all| && Occurs(all[k], o, u) && Contains(all[k], o) && forall j :: 0 <= j < k ==> !Contains(all[j], o)
    ensures FirstFrom(Join(all), o, 0) == |Before(all, k)| + u <= |Join(all)|
  {
    FirstFromFinds(Join(all), o, 0);
    assert o != "";
    hide Join, FirstFrom, Before, Occurs, IsWord, Contains;
    k, u := OccursInWord(all, o, FirstFrom(Join(all), o, 0));
    OccursBelow(all[k], o, u);
    forall j | 0 <= j < k ensures !Contains(all[j], o) {
      if Contains(all[j], o) {
        NotEarlier(all, o, j, k);
      }
    }
  }

  lemma NotEarlier(all: seq<string>, o: string, j: nat, k: nat)
    requires j < k < |all| && Contains(all[j], o) && o != ""
    ensures FirstFrom(Join(all), o, 0) < |Before(all, k)|
  {
    var q: nat :| q <= |all[j]| && Occurs(all[j], o, q);
    hide Join, Before, Occurs, FirstFrom, Contains;
    var p := |Before(all, j)| + q;
    WordOccurs(all, o, j, q);
    OccursBelow(Join(all), o, p);
    FirstFromFirst(Join(all), o, 0, p);
    BeforeGrows(all, j, k);
  }

  lemma DigitsInside(c: string, o: string, i: nat)
    requires AllDigits(c) && Occurs(c, o, i)
    ensures AllDigits(o)
  {
    assert forall k :: 0 <= k < |o| ==> o[k] == c[i..i + |o|][k] == c[i + k];
  }

  lemma BeforeGrows(ws: seq<string>, j: nat, k: nat)
    requires j < k < |ws|
    ensures |Before(ws, j)| + |ws[j]| < |Before(ws, k)|
  {
    JoinParts(ws[..k], j);
    assert ws[..k][..j] == ws[..j];
    hide Join;
  }

  lemma {:induction false} FirstFromFinds(s: string, w: string, i: nat)
    requires i <= |s| && exists p: nat :: i <= p <= |s| && Occurs(s, w, p)
    ensures FirstFrom(s, w, i) <= |s|
    decreases |s| - i
  {
    if !Occurs(s, w, i) && i < |s| {
      FirstFromFinds(s, w, i + 1);
    }
  }

  lemma {:induction false} FirstFromFirst(s: string, w: string, i: nat, p: nat)
    requires i <= p <= |s| && Occurs(s, w, p)
    ensures FirstFrom(s, w, i) <= p
    decreases |s| - i
  {
    if !Occurs(s, w, i) && i < |s| {
      FirstFromFirst(s, w, i + 1, p);
    }
  }

  lemma TextContains(ws: seq<string>, o: string)
    requires AreWords(ws) && IsWord(o) && !AllDigits(o)
    ensures Contains(FeatureText(ws), o) <==> exists k :: 0 <= k < |ws| && Contains(ws[k], o)
  {
    var c := Dec(|ws|);
    var all := [c] + ws;
    ContainsWord(all, o);
    DecRoundTrip(|ws|);
    if Contains(c, o) {
      var q: nat :| q <= |c| && Occurs(c, o, q);
      DigitsInside(c, o, q);
    }
    hide Contains, Join, Dec, Occurs, AllDigits, IsWord, AreWords;
    assert forall k :: 0 <= k < |ws| ==> all[k + 1] == ws[k];
    assert forall k :: 1 <= k < |all| ==> all[k] == ws[k - 1];
  }

  /** Removing a feature that was just added gives the string back. */
  lemma RemoveUndoesAdd(ws: seq<string>, n: string)
    requires AreWords(ws) && IsWord(n) && !AllDigits(n) && n[0] != '0' && !Contains(FeatureText(ws), n)
    ensures var added := AddResult(Some(FeatureText(ws)), Some(n)).1;
            added.Some? && Removable(added.value, n[SkipBlanks(n, 0)..]) &&
            RemoveResult(added, Some(n)) == (0, Some(FeatureText(ws)))
  {
    AddCounts(ws, n);
    TextContains(ws, n);
    var more := ws + [n];
    assert more[|ws|] == n && Occurs(n, n, 0);
    OccursBelow(n, n, 0);
    TextContains(more, n);
    hide FeatureText, Contains, AddResult, RemoveResult, Removable, Occurs, AllDigits, IsWord;
    assert forall j :: 0 <= j < |ws| ==> more[j] == ws[j];
    var k := RemoveRightIff(more, n);
    DropIs(more, n, k);
    assert Without(more, |ws|) == ws;
  }

  // ------------------------------------------------------------------ the two derived features

  const QUEUE := "queue_if_no_path"
  const RETAIN := "retain_attached_hw_handler"

  const NO_PATH_RETRY_UNDEF := 0
  const NO_PATH_RETRY_FAIL := -1
  const NO_PATH_RETRY_QUEUE := -2

  datatype Retain = Undef | Off | On

  lemma Names()
    ensures IsWord(QUEUE) && !AllDigits(QUEUE) && QUEUE[0] != '0'
    ensures IsWord(RETAIN) && !AllDigits(RETAIN) && RETAIN[0] != '0'
    ensures !Contains(QUEUE, RETAIN) && !Contains(RETAIN, QUEUE)
    ensures QUEUE != RETAIN && Contains(QUEUE, QUEUE) && Contains(RETAIN, RETAIN)
  {
    NamesAreWords();
    NoQueueInRetain();
    OccursBelow(QUEUE, QUEUE, 0);
    OccursBelow(RETAIN, RETAIN, 0);
    hide Contains, IsWord, AllDigits;
  }

  lemma NamesAreWords()
    ensures IsWord(QUEUE) && !AllDigits(QUEUE) && QUEUE[0] != '0'
    ensures IsWord(RETAIN) && !AllDigits(RETAIN) && RETAIN[0] != '0'
    ensures |QUEUE| < |RETAIN| && QUEUE[0] == 'q' && 'q' !in RETAIN
  {
    assert !IsDigit(QUEUE[0]) && !IsDigit(RETAIN[0]);
  }

  lemma NoQueueInRetain()
    ensures !Contains(QUEUE, RETAIN) && !Contains(RETAIN, QUEUE)
  {
    NamesAreWords();
    hide IsWord, AllDigits;
    NoFirst(RETAIN, QUEUE);
  }

  /** A text that the first character of the name is not in does not contain the name. */
  lemma NoFirst(s: string, w: string)
    requires w != "" && w[0] !in s
    ensures !Contains(s, w)
  {
    forall p: nat | p + |w| <= |s| ensures !Occurs(s, w, p) {
      assert s[p..p + |w|][0] == s[p];
    }
  }

  /** Only the name itself contains the name, and it is there at most once. */
  predicate Once(ws: seq<string>, o: string) {
    (forall w :: w in ws && Contains(w, o) ==> w == o) &&
    (forall i, j :: 0 <= i < j < |ws| && ws[i] == o ==> ws[j] != o)
  }

  predicate Clean(ws: seq<string>) {
    AreWords(ws) && Once(ws, QUEUE) && Once(ws, RETAIN)
  }

  /** What is left when a name that is there once is dropped. */
  lemma {:induction false} DropMember(ws: seq<string>, o: string, w: string)
    requires forall i, j :: 0 <= i < j < |ws| && ws[i] == o ==> ws[j] != o
    ensures w in Drop(ws, o) <==> w in ws && w != o
  {
    if ws != [] {
      if ws[0] == o {
        assert o !in ws[1..];
      } else {
        DropMember(ws[1..], o, w);
      }
      assert ws == [ws[0]] + ws[1..];
    }
  }

  lemma {:induction false} DropKeepsOnce(ws: seq<string>, o: string, i: nat, j: nat)
    requires i < j < |Drop(ws, o)|
    ensures exists a, b :: 0 <= a < b < |ws| && ws[a] == Drop(ws, o)[i] && ws[b] == Drop(ws, o)[j]
  {
    var d := Drop(ws, o);
    if ws[0] == o {
      assert ws[i + 1] == d[i] && ws[j + 1] == d[j];
    } else if i == 0 {
      DropHas(ws[1..], o, d[j]);
      var b :| 0 <= b < |ws[1..]| && ws[1..][b] == d[j];
      assert ws[0] == d[0] && ws[b + 1] == d[j];
    } else {
      DropKeepsOnce(ws[1..], o, i - 1, j - 1);
      var a, b :| 0 <= a < b < |ws[1..]| && ws[1..][a] == d[i] && ws[1..][b] == d[j];
      assert ws[a + 1] == d[i] && ws[b + 1] == d[j];
    }
  }

  lemma {:induction false} DropHas(ws: seq<string>, o: string, w: string)
    requires w in Drop(ws, o)
    ensures w in ws
  {
    if ws[0] != o && w != ws[0] {
      DropHas(ws[1..], o, w);
    }
  }

  lemma WordsDrop(ws: seq<string>, o: string)
    requires AreWords(ws)
    ensures AreWords(Drop(ws, o))
  {
    var d := Drop(ws, o);
    hide IsWord;
    forall i | 0 <= i < |d| ensures IsWord(d[i]) {
      DropHas(ws, o, d[i]);
    }
  }

  lemma OnceDrop(ws: seq<string>, o: string, x: string)
    requires Once(ws, x)
    ensures Once(Drop(ws, o), x)
  {
    var d := Drop(ws, o);
    forall w | w in d ensures w in ws {
      DropHas(ws, o, w);
    }
    hide Contains, Drop;
    forall i, j | 0 <= i < j < |d| && d[i] == x ensures d[j] != x {
      DropKeepsOnce(ws, o, i, j);
    }
  }

  lemma CleanDrop(ws: seq<string>, o: string)
    requires Clean(ws)
    ensures Clean(Drop(ws, o))
  {
    WordsDrop(ws, o);
    OnceDrop(ws, o, QUEUE);
    OnceDrop(ws, o, RETAIN);
    hide Once, AreWords, Drop;
  }

  /** Dropping a derived feature from a clean string. */
  lemma RemoveDrops(ws: seq<string>, o: string)
    requires Clean(ws) && (o == QUEUE || o == RETAIN)
    ensures Contains(FeatureText(ws), o) <==> o in ws
    ensures o in ws ==> Removable(FeatureText(ws), o[SkipBlanks(o, 0)..]) &&
                        RemoveResult(Some(FeatureText(ws)), Some(o)) == (0, Some(FeatureText(Drop(ws, o))))
    ensures o !in ws ==> Drop(ws, o) == ws
  {
    Names();
    TextContains(ws, o);
    hide FeatureText, Contains, RemoveResult, Removable, IsWord, AllDigits, Drop;
    assert forall k :: 0 <= k < |ws| ==> ws[k] in ws;
    if o in ws {
      var i :| 0 <= i < |ws| && ws[i] == o;
      assert Contains(ws[i], o);
      var k := RemoveRightIff(ws, o);
    } else {
      DropNone(ws, o);
    }
  }

  function RetryAfter(ws: seq<string>, noPathRetry: int): int {
    if QUEUE in ws && noPathRetry == NO_PATH_RETRY_UNDEF then NO_PATH_RETRY_QUEUE else noPathRetry
  }

  function RetainAfter(ws: seq<string>, retain: Retain): Retain {
    if RETAIN in ws && retain == Undef then On else retain
  }

  /** The words that are no derived features. */
  function Plain(ws: seq<string>): seq<string> {
    Drop(Drop(ws, QUEUE), RETAIN)
  }

  lemma PlainMember(ws: seq<string>, w: string)
    requires Clean(ws)
    ensures w in Plain(ws) <==> w in ws && w != QUEUE && w != RETAIN
    ensures w == RETAIN ==> (w in Drop(ws, QUEUE) <==> w in ws)
  {
    Names();
    CleanDrop(ws, QUEUE);
    DropMember(ws, QUEUE, w);
    DropMember(Drop(ws, QUEUE), RETAIN, w);
  }

  /** reconcile_features_with_options: the derived features become options. */
  method ReconcileFeaturesWithOptions(features: Option<string>, noPathRetry: int, retain: Retain, ghost ws: seq<string>)
    returns (f: Option<string>, retry: int, keep: Retain)
    requires features.Some? ==> Clean(ws) && features.value == FeatureText(ws)
    ensures features == None ==> (f, retry, keep) == (None, noPathRetry, retain)
    ensures features.Some? ==> f == Some(FeatureText(Plain(ws))) && Clean(Plain(ws)) &&
                               retry == RetryAfter(ws, noPathRetry) && keep == RetainAfter(ws, retain)
  {
    f, retry, keep := features, noPathRetry, retain;
    if features == None {
      return;
    }
    RemoveDrops(ws, QUEUE);
    CleanDrop(ws, QUEUE);
    RemoveDrops(Drop(ws, QUEUE), RETAIN);
    CleanDrop(Drop(ws, QUEUE), RETAIN);
    PlainMember(ws, RETAIN);
    hide FeatureText, Contains, RemoveResult, Removable, Drop, Clean;
    var ret;
    var q := Strstr(f.value, QUEUE);
    if q.Some? {
      if retry == NO_PATH_RETRY_UNDEF {
        retry := NO_PATH_RETRY_QUEUE;
      }
      ret, f := RemoveFeature(f, Some(QUEUE));
    }
    var r := Strstr(f.value, RETAIN);
    if r.Some? {
      if keep == Undef {
        keep := On;
      }
      ret, f := RemoveFeature(f, Some(RETAIN));
    }
  }

  /** The features string with the options that the table needs as features. */
  function DerivedText(features: Option<string>, noPathRetry: int, retain: Retain, oldKernel: bool): Option<string> {
    var f := if noPathRetry != NO_PATH_RETRY_UNDEF && noPathRetry != NO_PATH_RETRY_FAIL
             then AddResult(features, Some(QUEUE)).1 else features;
    if retain == On && oldKernel then AddResult(f, Some(RETAIN)).1 else f
  }

  /** The features that stand for the options. */
  function Derived(noPathRetry: int, retain: Retain, oldKernel: bool): seq<string> {
    (if noPathRetry != NO_PATH_RETRY_UNDEF && noPathRetry != NO_PATH_RETRY_FAIL then [QUEUE] else []) +
    (if retain == On && oldKernel then [RETAIN] else [])
  }

  /** `features` is the counted string of `ws`, in which no word contains a derived feature. */
  predicate Lists(features: Option<string>, ws: seq<string>) {
    features == Some(FeatureText(ws)) && AreWords(ws) && forall w :: w in ws ==> !Contains(w, QUEUE) && !Contains(w, RETAIN)
  }

  /** The head of assemble_map: options become features again, behind the others and counted. */
  method AddDerivedFeatures(features: Option<string>, noPathRetry: int, retain: Retain, oldKernel: bool)
    returns (f: Option<string>)
    ensures f == DerivedText(features, noPathRetry, retain, oldKernel)
    ensures forall ws :: Lists(features, ws) ==> f == Some(FeatureText(ws + Derived(noPathRetry, retain, oldKernel)))
  {
    hide FeatureText, AddResult, Contains;
    forall ws | Lists(features, ws)
      ensures DerivedText(features, noPathRetry, retain, oldKernel) == Some(FeatureText(ws + Derived(noPathRetry, retain, oldKernel)))
    {
      DerivedCounts(ws, noPathRetry, retain, oldKernel);
    }
    f := features;
    var ret;
    if noPathRetry != NO_PATH_RETRY_UNDEF && noPathRetry != NO_PATH_RETRY_FAIL {
      ret, f := AddFeature(f, Some(QUEUE));
    }
    if retain == On && oldKernel {
      ret, f := AddFeature(f, Some(RETAIN));
    }
  }

  lemma DerivedStays(features: Option<string>, noPathRetry: int, retain: Retain, oldKernel: bool)
    ensures features.Some? ==> DerivedText(features, noPathRetry, retain, oldKernel).Some?
  {
  }

  lemma DerivedCounts(ws: seq<string>, noPathRetry: int, retain: Retain, oldKernel: bool)
    requires AreWords(ws) && forall w :: w in ws ==> !Contains(w, QUEUE) && !Contains(w, RETAIN)
    ensures AreWords(ws + Derived(noPathRetry, retain, oldKernel))
    ensures DerivedText(Some(FeatureText(ws)), noPathRetry, retain, oldKernel) ==
            Some(FeatureText(ws + Derived(noPathRetry, retain, oldKernel)))
  {
    Names();
    hide FeatureText, Contains, IsWord, AllDigits, AddResult;
    var q := if noPathRetry != NO_PATH_RETRY_UNDEF && noPathRetry != NO_PATH_RETRY_FAIL then [QUEUE] else [];
    if q != [] {
      AddAbsent(ws, QUEUE);
    } else {
      assert ws + q == ws;
    }
    var r := if retain == On && oldKernel then [RETAIN] else [];
    if r != [] {
      AddAbsent(ws + q, RETAIN);
    } else {
      assert ws + q + r == ws + q;
    }
    assert ws + Derived(noPathRetry, retain, oldKernel) == ws + q + r;
  }

  lemma AddAbsent(ws: seq<string>, n: string)
    requires AreWords(ws) && IsWord(n) && !AllDigits(n) && n[0] != '0' && forall w :: w in ws ==> !Contains(w, n)
    ensures AddResult(Some(FeatureText(ws)), Some(n)) == (0, Some(FeatureText(ws + [n]))) && AreWords(ws + [n])
  {
    hide FeatureText, Contains, IsWord, AllDigits, AddResult;
    TextContains(ws, n);
    assert forall k :: 0 <= k < |ws| ==> ws[k] in ws;
    AddCounts(ws, n);
  }

  /** select_features and then assemble_map: the table queues if and only if no_path_retry is
      neither undefined nor fail, its count is right, and all other features are still there. */
  method SelectAndAssemble(features: string, noPathRetry: int, retain: Retain, oldKernel: bool, ghost ws: seq<string>)
    returns (f: string, retry: int, keep: Retain, ghost table: seq<string>)
    requires Clean(ws) && features == FeatureText(ws)
    ensures f == FeatureText(table) && AreWords(table)
    ensures retry == RetryAfter(ws, noPathRetry) && keep == RetainAfter(ws, retain)
    ensures QUEUE in table <==> retry != NO_PATH_RETRY_UNDEF && retry != NO_PATH_RETRY_FAIL
    ensures RETAIN in table <==> keep == On && oldKernel
    ensures forall w :: w != QUEUE && w != RETAIN ==> (w in table <==> w in ws)
  {
    Names();
    var g;
    g, retry, keep := ReconcileFeaturesWithOptions(Some(features), noPathRetry, retain, ws);
    ghost var plain := Plain(ws);
    forall w ensures w in plain <==> w in ws && w != QUEUE && w != RETAIN {
      PlainMember(ws, w);
    }
    DerivedCounts(plain, retry, keep, oldKernel);
    g := AddDerivedFeatures(g, retry, keep, oldKernel);
    f := g.value;
    table := plain + Derived(retry, keep, oldKernel);
    hide FeatureText, Contains, IsWord, AllDigits, Plain;
  }
}
