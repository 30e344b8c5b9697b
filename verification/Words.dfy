/** Words, blanks and decimal numbers, as libmultipath's string code reads and prints them. */
module Words {

  import opened Wrappers

  predicate IsSpace(c: char) { c == ' ' || '\t' <= c <= '\r' }

  predicate IsDigit(c: char) { '0' <= c <= '9' }

  /** A word: not empty, no white space. */
  predicate IsWord(w: string) {
    w != "" && forall k :: 0 <= k < |w| ==> !IsSpace(w[k])
  }

  predicate AreWords(ws: seq<string>) {
    forall i :: 0 <= i < |ws| ==> IsWord(ws[i])
  }

  /** The words with one blank between them. */
  function Join(ws: seq<string>): string {
    if ws == [] then "" else if |ws| == 1 then ws[0] else Join(ws[..|ws| - 1]) + " " + ws[|ws| - 1]
  }

  lemma JoinSnoc(ws: seq<string>, w: string)
    requires ws != []
    ensures Join(ws + [w]) == Join(ws) + " " + w
  {
    assert (ws + [w])[..|ws|] == ws;
  }

  lemma {:induction false} JoinConcat(a: seq<string>, b: seq<string>)
    requires a != [] && b != []
    ensures Join(a + b) == Join(a) + " " + Join(b)
  {
    hide Join;
    var f, l := b[..|b| - 1], b[|b| - 1];
    assert a + b == (a + f) + [l] && b == f + [l];
    JoinSnoc(a + f, l);
    if f == [] {
      assert a + f == a && b == [l];
      JoinOne(l);
    } else {
      JoinConcat(a, f);
      JoinSnoc(f, l);
      assert Join(a) + " " + Join(f) + " " + l == Join(a) + " " + (Join(f) + " " + l);
    }
  }

  lemma JoinOne(w: string)
    ensures Join([w]) == w
  {
  }

  lemma {:induction false} JoinNotEmpty(ws: seq<string>)
    requires AreWords(ws) && ws != []
    ensures Join(ws) != "" && !IsSpace(Join(ws)[0]) && Join(ws)[0] == ws[0][0]
  {
    if |ws| > 1 {
      JoinNotEmpty(ws[..|ws| - 1]);
    }
  }

  // ------------------------------------------------------------------ numbers

  function DecNat(n: nat): string {
    if n < 10 then ["0123456789"[n]] else DecNat(n / 10) + ["0123456789"[n % 10]]
  }

  /** What "%i" prints. */
  function Dec(n: int): string {
    if n < 0 then "-" + DecNat(-n) else DecNat(n)
  }

  predicate AllDigits(s: string) {
    forall k :: 0 <= k < |s| ==> IsDigit(s[k])
  }

  function DigitsValue(s: string): nat
    requires AllDigits(s)
  {
    if s == "" then 0 else 10 * DigitsValue(s[..|s| - 1]) + (s[|s| - 1] as int - '0' as int)
  }

  function DigitRun(s: string, i: nat): (j: nat)
    requires i <= |s|
    ensures i <= j <= |s| && AllDigits(s[i..j])
    decreases |s| - i
  {
    if i < |s| && IsDigit(s[i]) then
      var j := DigitRun(s, i + 1);
      assert s[i..j] == [s[i]] + s[i + 1..j];
      j
    else i
  }

  function SkipSpace(s: string, i: nat): (j: nat)
    requires i <= |s|
    ensures i <= j <= |s|
    decreases |s| - i
  {
    if i < |s| && IsSpace(s[i]) then SkipSpace(s, i + 1) else i
  }

  /** atoi: white space, a sign, digits; what follows is ignored. */
  function Atoi(s: string): int {
    var i := SkipSpace(s, 0);
    var minus := i < |s| && s[i] == '-';
    var k := if i < |s| && (s[i] == '-' || s[i] == '+') then i + 1 else i;
    var v: int := DigitsValue(s[k..DigitRun(s, k)]);
    if minus then -v else v
  }

  lemma {:induction false} DecNatDigits(n: nat)
    ensures DecNat(n) != "" && AllDigits(DecNat(n)) && DigitsValue(DecNat(n)) == n
    ensures IsWord(DecNat(n))
  {
    if n < 10 {
      assert DecNat(n)[..0] == "";
    } else {
      DecNatDigits(n / 10);
      var s := DecNat(n);
      assert s[..|s| - 1] == DecNat(n / 10);
    }
  }

  lemma {:induction false} DigitRunTo(s: string, i: nat, j: nat)
    requires i <= j <= |s| && (forall k :: i <= k < j ==> IsDigit(s[k])) && (j < |s| ==> !IsDigit(s[j]))
    ensures DigitRun(s, i) == j
    decreases j - i
  {
    if i < j {
      DigitRunTo(s, i + 1, j);
    }
  }

  lemma AtoiPlain(d: string)
    requires d != "" && AllDigits(d)
    ensures Atoi(d) == DigitsValue(d)
  {
    assert IsDigit(d[0]);
    DigitRunTo(d, 0, |d|);
    assert d[0..|d|] == d;
  }

  lemma AtoiMinus(d: string)
    requires d != "" && AllDigits(d)
    ensures Atoi("-" + d) == 0 - DigitsValue(d)
  {
    hide DigitRun, DigitsValue;
    var s := "-" + d;
    assert forall i :: 1 <= i < |s| ==> s[i] == d[i - 1];
    DigitRunTo(s, 1, |s|);
    assert s[1..|s|] == d;
    assert SkipSpace(s, 0) == 0;
  }

  /** Printed numbers are words, and read back as they were. */
  lemma DecRoundTrip(n: int)
    ensures Atoi(Dec(n)) == n && IsWord(Dec(n))
    ensures 0 <= n ==> AllDigits(Dec(n))
  {
    hide DecNat, DigitsValue, AllDigits, Atoi;
    var d := DecNat(if n < 0 then -n else n);
    DecNatDigits(if n < 0 then -n else n);
    AtoiPlain(d);
    AtoiMinus(d);
    assert n < 0 ==> forall i :: 1 <= i < |Dec(n)| ==> Dec(n)[i] == d[i - 1];
  }

  /** Division that drops the fraction, as C's does for negative numbers too. */
  function Truncated(a: int, b: nat): int
    requires b != 0
  {
    if 0 <= a then a / b else -((-a) / b)
  }

  // ------------------------------------------------------------------ occurrences

  predicate Occurs(s: string, w: string, p: nat) {
    p + |w| <= |s| && s[p..p + |w|] == w
  }

  predicate Contains(s: string, w: string) {
    exists p :: 0 <= p <= |s| && Occurs(s, w, p)
  }

  predicate IsFirst(s: string, w: string, p: nat) {
    Occurs(s, w, p) && forall q: nat :: q < p ==> !Occurs(s, w, q)
  }

  /** strstr. */
  method Strstr(s: string, w: string) returns (at: Option<nat>)
    ensures at == None <==> !Contains(s, w)
    ensures at.Some? ==> IsFirst(s, w, at.value)
  {
    var p: nat := 0;
    while p + |w| <= |s|
      invariant p <= |s| + 1
      invariant forall q: nat :: q < p ==> !Occurs(s, w, q)
    {
      if s[p..p + |w|] == w {
        assert Occurs(s, w, p);
        return Some(p);
      }
      p := p + 1;
    }
    at := None;
  }

  // ------------------------------------------------------------------ a word in the text

  /** The text up to word `k`, its blank included. */
  function Before(ws: seq<string>, k: nat): string
    requires k <= |ws|
  {
    Prefix(ws[..k])
  }

  /** The text behind word `k`. */
  function After(ws: seq<string>, k: nat): string
    requires k < |ws|
  {
    Suffix(ws[k + 1..])
  }

  function Prefix(a: seq<string>): string {
    if a == [] then "" else Join(a) + " "
  }

  function Suffix(b: seq<string>): string {
    if b == [] then "" else " " + Join(b)
  }

  lemma JoinBoth(a: seq<string>, w: string, b: seq<string>)
    requires a != [] && b != []
    ensures Join(a + ([w] + b)) == Prefix(a) + w + Suffix(b)
  {
    hide Join;
    JoinOne(w);
    JoinConcat([w], b);
    JoinConcat(a, [w] + b);
    var x, y := Join(a) + " ", " " + Join(b);
    assert x + (w + " " + Join(b)) == x + w + y;
  }

  lemma JoinMid(a: seq<string>, w: string, b: seq<string>)
    ensures Join(a + ([w] + b)) == Prefix(a) + w + Suffix(b)
  {
    hide Join;
    JoinOne(w);
    if a == [] {
      assert a + ([w] + b) == [w] + b;
      if b == [] {
        assert [w] + b == [w];
      } else {
        JoinConcat([w], b);
        assert w + " " + Join(b) == w + (" " + Join(b));
      }
    } else if b == [] {
      assert a + ([w] + b) == a + [w];
      JoinSnoc(a, w);
    } else {
      JoinBoth(a, w, b);
    }
  }

  lemma SplitAt<T>(ws: seq<T>, k: nat)
    requires k < |ws|
    ensures ws[..k] + ([ws[k]] + ws[k + 1..]) == ws
  {
  }

  lemma JoinParts(ws: seq<string>, k: nat)
    requires k < |ws|
    ensures Join(ws) == Before(ws, k) + ws[k] + After(ws, k)
  {
    hide Join, Prefix, Suffix;
    SplitAt(ws, k);
    JoinMid(ws[..k], ws[k], ws[k + 1..]);
  }

  /** The word an occurrence lies in, and where: something without blanks never spans two words. */
  lemma {:induction false} OccursInWord(ws: seq<string>, w: string, p: nat) returns (k: nat, i: nat)
    requires ws != [] && IsWord(w) && Occurs(Join(ws), w, p)
    ensures k < |ws| && Occurs(ws[k], w, i) && p == |Before(ws, k)| + i
  {
    if |ws| == 1 {
      k, i := 0, p;
      assert ws[..0] == [];
    } else {
      var f, l := ws[..|ws| - 1], ws[|ws| - 1];
      var s := Join(ws);
      var b := |Join(f)|;
      assert s == Join(f) + " " + l;
      assert forall j :: p <= j < p + |w| ==> s[j] == s[p..p + |w|][j - p] == w[j - p];
      assert forall j :: p <= j < p + |w| ==> s[j] != ' ';
      assert s[b] == ' ';
      if p < b {
        assert s[p..p + |w|] == Join(f)[p..p + |w|];
        k, i := OccursInWord(f, w, p);
        assert f[..k] == ws[..k];
      } else {
        assert s[p..p + |w|] == l[p - b - 1..p - b - 1 + |w|];
        k, i := |ws| - 1, p - b - 1;
      }
    }
  }

  lemma OccursShift(a: string, m: string, b: string, w: string, i: nat)
    requires Occurs(m, w, i)
    ensures Occurs(a + m + b, w, |a| + i)
  {
    assert (a + m + b)[|a| + i..|a| + i + |w|] == m[i..i + |w|];
  }

  /** An occurrence inside a word is one in the whole text. */
  lemma WordOccurs(ws: seq<string>, w: string, k: nat, i: nat)
    requires k < |ws| && Occurs(ws[k], w, i)
    ensures Occurs(Join(ws), w, |Before(ws, k)| + i)
  {
    JoinParts(ws, k);
    OccursShift(Before(ws, k), ws[k], After(ws, k), w, i);
    hide Occurs, Before, After, Join;
  }

  lemma ContainsWord(ws: seq<string>, w: string)
    requires ws != [] && IsWord(w)
    ensures Contains(Join(ws), w) <==> exists k :: 0 <= k < |ws| && Contains(ws[k], w)
  {
    hide Occurs, Join, IsWord;
    if Contains(Join(ws), w) {
      var p: nat :| p <= |Join(ws)| && Occurs(Join(ws), w, p);
      var k, i := OccursInWord(ws, w, p);
      OccursBelow(ws[k], w, i);
    }
    if exists k :: 0 <= k < |ws| && Contains(ws[k], w) {
      var k :| 0 <= k < |ws| && Contains(ws[k], w);
      var i: nat :| i <= |ws[k]| && Occurs(ws[k], w, i);
      WordOccurs(ws, w, k, i);
      OccursBelow(Join(ws), w, |Before(ws, k)| + i);
    }
  }

  lemma OccursBelow(s: string, w: string, p: nat)
    requires Occurs(s, w, p)
    ensures p <= |s| && Contains(s, w)
  {
  }
}
