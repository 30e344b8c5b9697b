/** The device-mapper table of a multipath map: assemble_map and disassemble_map of
    libmultipath/dmparser.c, with get_word of libmultipath/util.c. */
module DmTable {

  import opened Wrappers
  import opened Words
  import F = Features

  // ------------------------------------------------------------------ get_word

  function WordStop(s: string, i: nat): (j: nat)
    requires i <= |s|
    ensures i <= j <= |s|
    decreases |s| - i
  {
    if i < |s| && s[i] != ' ' then WordStop(s, i + 1) else i
  }

  /** strchop: white space at the end is cut off. */
  function Chop(w: string): string {
    if w != "" && IsSpace(w[|w| - 1]) then Chop(w[..|w| - 1]) else w
  }

  /** get_word at `p`: how far to advance, and the word. The last word of the string is returned
      without advancing over it; skipping a word always advances. */
  function GetWordResult(s: string, p: nat, want: bool): (r: (nat, Option<string>))
    requires p <= |s|
    ensures p + r.0 <= |s|
  {
    var i := F.SkipBlanks(s, p);
    var j := WordStop(s, i);
    if i == |s| then (0, None)
    else if !want then (j - p, None)
    else (if j == |s| then 0 else j - p, Some(Chop(s[i..j])))
  }

  method GetWord(s: string, p: nat, want: bool) returns (n: nat, word: Option<string>)
    requires p <= |s|
    ensures (n, word) == GetWordResult(s, p, want)
  {
    n, word := 0, None;
    var sentence := p;
    while sentence < |s| && s[sentence] == ' '
      invariant p <= sentence <= |s| && F.SkipBlanks(s, sentence) == F.SkipBlanks(s, p)
    {
      sentence := sentence + 1;
    }
    if sentence == |s| {
      return;
    }
    var e := sentence;
    while e < |s| && s[e] != ' '
      invariant sentence <= e <= |s| && WordStop(s, e) == WordStop(s, sentence)
    {
      e := e + 1;
    }
    if !want {
      return e - p, None;
    }
    word := Some(Chop(s[sentence..e]));
    if e == |s| {
      return;
    }
    n := e - p;
  }

  /** Where the cursor is when `k` words have been read. */
  function Pos(ws: seq<string>, k: nat): nat
    requires k <= |ws|
  {
    |Join(ws[..k])|
  }

  /** The cursor `p` stands behind word `k - 1` of the text; behind the last one anything goes. */
  predicate At(s: string, ws: seq<string>, p: nat, k: nat) {
    AreWords(ws) && s == Join(ws) && k <= |ws| && p <= |s| && (k < |ws| ==> p == Pos(ws, k))
  }

  lemma PosIs(ws: seq<string>, k: nat)
    requires k < |ws|
    ensures Pos(ws, k + 1) == |Before(ws, k)| + |ws[k]|
    ensures k > 0 ==> |Before(ws, k)| == Pos(ws, k) + 1
    ensures k == 0 ==> Before(ws, k) == "" && Pos(ws, k) == 0
  {
    assert ws[..k + 1][..k] == ws[..k] && ws[..k + 1][k] == ws[k];
    JoinParts(ws[..k + 1], k);
    assert ws[..k + 1][k + 1..] == [];
  }

  lemma {:induction false} WordStopIs(s: string, i: nat, j: nat)
    requires i <= j <= |s| && (forall k :: i <= k < j ==> s[k] != ' ') && (j < |s| ==> s[j] == ' ')
    ensures WordStop(s, i) == j
    decreases j - i
  {
    if i < j {
      WordStopIs(s, i + 1, j);
    }
  }

  /** get_word reads the words of a text one after the other. */
  lemma ReadsNext(s: string, ws: seq<string>, p: nat, k: nat)
    requires At(s, ws, p, k) && k < |ws|
    ensures GetWordResult(s, p, true).1 == Some(ws[k])
    ensures At(s, ws, p + GetWordResult(s, p, true).0, k + 1)
    ensures At(s, ws, p + GetWordResult(s, p, false).0, k + 1)
  {
    var w := ws[k];
    JoinParts(ws, k);
    PosIs(ws, k);
    assert IsWord(w);
    F.WordNoBlank(w);
    var b := |Before(ws, k)|;
    if k + 1 < |ws| {
      assert After(ws, k)[0] == ' ';
    }
    BlankBefore(ws, k);
    Layout(s, Before(ws, k), w, After(ws, k), p);
    assert Chop(w) == w;
    hide Join, Before, After, IsWord;
    assert After(ws, k) == "" <==> k + 1 == |ws| by { AfterEmpty(ws, k); }
  }

  lemma AfterEmpty(ws: seq<string>, k: nat)
    requires k < |ws|
    ensures After(ws, k) == "" <==> k + 1 == |ws|
  {
  }

  lemma BlankBefore(ws: seq<string>, k: nat)
    requires k < |ws|
    ensures k > 0 ==> Before(ws, k) != "" && Before(ws, k)[|Before(ws, k)| - 1] == ' '
  {
  }

  /** One word between what is read and what is not. */
  lemma Layout(s: string, before: string, w: string, after: string, p: nat)
    requires s == before + w + after && w != "" && forall k :: 0 <= k < |w| ==> w[k] != ' '
    requires (before == "" && p == 0) || (before != "" && before[|before| - 1] == ' ' && p == |before| - 1)
    requires after != "" ==> after[0] == ' '
    ensures F.SkipBlanks(s, p) == |before| && WordStop(s, |before|) == |before| + |w|
    ensures s[|before|..|before| + |w|] == w
  {
    assert forall k :: |before| <= k < |before| + |w| ==> s[k] == w[k - |before|];
    assert after != "" ==> s[|before| + |w|] == after[0];
    WordStopIs(s, |before|, |before| + |w|);
  }

  /** p += get_word(p, &word). */
  method NextWord(s: string, p: nat, ghost ws: seq<string>, ghost k: nat) returns (q: nat, word: Option<string>)
    requires p <= |s|
    ensures q <= |s|
    ensures At(s, ws, p, k) && k < |ws| ==> word == Some(ws[k]) && At(s, ws, q, k + 1)
  {
    var n;
    n, word := GetWord(s, p, true);
    q := p + n;
    if At(s, ws, p, k) && k < |ws| {
      ReadsNext(s, ws, p, k);
    }
  }

  /** p += get_word(p, NULL). */
  method SkipWord(s: string, p: nat, ghost ws: seq<string>, ghost k: nat) returns (q: nat)
    requires p <= |s|
    ensures q <= |s|
    ensures At(s, ws, p, k) && k < |ws| ==> At(s, ws, q, k + 1)
  {
    var n, word := GetWord(s, p, false);
    q := p + n;
    if At(s, ws, p, k) && k < |ws| {
      ReadsNext(s, ws, p, k);
    }
  }

  /** The words `x` stand in the text from word `k` on. */
  predicate Follow(ws: seq<string>, k: nat, x: seq<string>) {
    k + |x| <= |ws| && ws[k..k + |x|] == x
  }

  /** The words `x` come next. */
  predicate Next(s: string, ws: seq<string>, p: nat, k: nat, x: seq<string>) {
    At(s, ws, p, k) && Follow(ws, k, x)
  }

  lemma FollowAt(ws: seq<string>, k: nat, x: seq<string>, i: nat)
    requires Follow(ws, k, x) && i < |x|
    ensures k + i < |ws| && ws[k + i] == x[i]
  {
    assert ws[k..k + |x|][i] == ws[k + i];
  }

  // ------------------------------------------------------------------ counted strings in the table

  /** The first `n` words, merged. */
  function Merged(x: seq<string>, n: nat): string
    requires n <= |x|
  {
    Join(x[..n])
  }

  lemma MergedEnds(x: seq<string>)
    requires x != []
    ensures Merged(x, 1) == x[0] && Merged(x, |x|) == Join(x)
  {
    assert x[..1] == [x[0]] && x[..|x|] == x;
    JoinOne(x[0]);
  }

  lemma MergedNext(s: string, ws: seq<string>, p: nat, k: nat, x: seq<string>, i: nat)
    requires Next(s, ws, p, k, x) && 0 < i < |x|
    ensures k + i < |ws| && ws[k + i] == x[i] && Merged(x, i + 1) == Merged(x, i) + " " + x[i]
  {
    hide At, Join;
    FollowAt(ws, k, x, i);
    assert x[..i + 1] == x[..i] + [x[i]];
    JoinSnoc(x[..i], x[i]);
  }

  lemma CountedFirst(s: string, ws: seq<string>, p: nat, k: nat, fw: seq<string>)
    requires Next(s, ws, p, k, [Dec(|fw|)] + fw)
    ensures k < |ws| && At(s, ws, p, k) && Atoi(ws[k]) == |fw| && ws[k] == Merged([Dec(|fw|)] + fw, 1)
    ensures F.FeatureText(fw) == Merged([Dec(|fw|)] + fw, |fw| + 1)
  {
    hide At, Join;
    FollowAt(ws, k, [Dec(|fw|)] + fw, 0);
    MergedEnds([Dec(|fw|)] + fw);
    DecRoundTrip(|fw|);
  }

  /** A count and as many words, merged with one blank between them. */
  method ReadCounted(s: string, p: nat, ghost ws: seq<string>, ghost k: nat, ghost fw: seq<string>)
    returns (ok: bool, q: nat, text: Option<string>)
    requires p <= |s|
    ensures q <= |s|
    ensures Next(s, ws, p, k, [Dec(|fw|)] + fw) ==>
              ok && text == Some(F.FeatureText(fw)) && At(s, ws, q, k + 1 + |fw|)
  {
    ghost var x := [Dec(|fw|)] + fw;
    ghost var wf := Next(s, ws, p, k, x);
    hide Merged, Dec, At, Follow, Atoi, F.FeatureText;
    if wf {
      CountedFirst(s, ws, p, k, fw);
    }
    ok := false;
    q, text := NextWord(s, p, ws, k);
    if text == None {
      return;
    }
    var num := Atoi(text.value);
    var i := 0;
    while i < num
      invariant 0 <= i && (i <= num || i == 0) && q <= |s| && text.Some?
      invariant wf ==> num == |fw| && At(s, ws, q, k + 1 + i) && text.value == Merged(x, i + 1)
    {
      if wf {
        MergedNext(s, ws, p, k, x, i + 1);
      }
      var word;
      q, word := NextWord(s, q, ws, k + 1 + i);
      if word == None {
        return;
      }
      text := Some(text.value + " " + word.value);
      i := i + 1;
    }
    ok := true;
  }

  // ------------------------------------------------------------------ paths in the table

  datatype RrWeight = UndefWeight | NoWeight | PrioWeight

  datatype Path = Path(dev: string, dev_t: string, priority: int)

  /** A path as it is put into a group: one that was known, or a new one. */
  datatype Entry = Entry(dev_t: string, known: bool, priority: int, pgindex: nat)

  const BLK_DEV_SIZE: nat := 33
  const PRIO_UNDEF := -1

  /** find_path_by_devt: the first path with the device number, or the number of paths. */
  function FindByDevt(pathvec: seq<Path>, dev_t: string): (i: nat)
    ensures i <= |pathvec| && (i < |pathvec| ==> pathvec[i].dev_t == dev_t)
  {
    if pathvec == [] || pathvec[0].dev_t == dev_t then 0 else 1 + FindByDevt(pathvec[1..], dev_t)
  }

  function EntryFor(pathvec: seq<Path>, dev_t: string, pgindex: nat): Entry {
    var i := FindByDevt(pathvec, dev_t);
    if i < |pathvec| then Entry(dev_t, true, pathvec[i].priority, pgindex)
    else Entry(if |dev_t| < BLK_DEV_SIZE then dev_t else dev_t[..BLK_DEV_SIZE - 1], false, PRIO_UNDEF, pgindex)
  }

  predicate StartsWith(s: string, x: string) { |x| <= |s| && s[..|x|] == x }

  /** The minio that a path's argument stands for. */
  function MinioOf(printed: int, selector: string, weight: RrWeight, priority: int): int {
    if StartsWith(selector, "round-robin") && weight == PrioWeight && priority > 0
    then Truncated(printed, priority) else printed
  }

  /** A path in the table: its device number and the argument printed for it. */
  type Listed = (string, int)

  function PathWords(g: seq<Listed>): seq<string> {
    if g == [] then [] else PathWords(g[..|g| - 1]) + [g[|g| - 1].0, Dec(g[|g| - 1].1)]
  }

  function Entries(pathvec: seq<Path>, g: seq<Listed>, pgindex: nat): seq<Entry> {
    if g == [] then [] else Entries(pathvec, g[..|g| - 1], pgindex) + [EntryFor(pathvec, g[|g| - 1].0, pgindex)]
  }

  /** The last path decides. */
  function MinioAfter(minio: int, g: seq<Listed>, pathvec: seq<Path>, selector: string, weight: RrWeight): int {
    if g == [] then minio
    else MinioOf(g[|g| - 1].1, selector, weight, EntryFor(pathvec, g[|g| - 1].0, 0).priority)
  }

  lemma {:induction false} PathWordsAt(g: seq<Listed>, j: nat)
    requires j < |g|
    ensures |PathWords(g)| == 2 * |g| && PathWords(g)[2 * j] == g[j].0 && PathWords(g)[2 * j + 1] == Dec(g[j].1)
  {
    var f := g[..|g| - 1];
    if j < |f| {
      PathWordsAt(f, j);
    } else if f != [] {
      PathWordsAt(f, 0);
    }
  }

  lemma PathWordsLength(g: seq<Listed>)
    ensures |PathWords(g)| == 2 * |g|
  {
    if g != [] {
      PathWordsAt(g, 0);
    }
  }

  /** The body of the path loop. */
  method ReadPath(s: string, p: nat, pathvec: seq<Path>, selector: string, weight: RrWeight, numArgs: int, minio: int,
                  pgindex: nat, ghost ws: seq<string>, ghost k: nat, ghost x: Listed)
    returns (ok: bool, q: nat, entry: Entry, after: int)
    requires p <= |s|
    ensures q <= |s|
    ensures Next(s, ws, p, k, [x.0, Dec(x.1)]) && numArgs == 1 ==>
              ok && At(s, ws, q, k + 2) && entry == EntryFor(pathvec, x.0, pgindex) &&
              after == MinioOf(x.1, selector, weight, entry.priority)
  {
    ghost var wf := Next(s, ws, p, k, [x.0, Dec(x.1)]) && numArgs == 1;
    if wf {
      FollowAt(ws, k, [x.0, Dec(x.1)], 0);
      FollowAt(ws, k, [x.0, Dec(x.1)], 1);
      DecRoundTrip(x.1);
      assert IsWord(ws[k]);
    }
    hide Dec, At, FindByDevt, Truncated, StartsWith;
    ok, entry, after := false, Entry("", false, 0, 0), minio;
    var word;
    q, word := NextWord(s, p, ws, k);
    if word == None {
      return;
    }
    var i := FindByDevt(pathvec, word.value);
    entry := EntryFor(pathvec, word.value, pgindex);
    if word.value == "" && (i == |pathvec| || pathvec[i].dev == "") {
      return;
    }
    var a := 0;
    while a < numArgs
      invariant 0 <= a && q <= |s|
      invariant wf ==> a <= 1 && At(s, ws, q, k + 1 + a)
      invariant wf && a == 1 ==> after == MinioOf(x.1, selector, weight, entry.priority)
    {
      if a == 0 {
        q, word := NextWord(s, q, ws, k + 1);
        if word == None {
          return;
        }
        after := MinioOf(Atoi(word.value), selector, weight, entry.priority);
      } else {
        q := SkipWord(s, q, ws, k + 1 + a);
      }
      a := a + 1;
    }
    ok := true;
  }

  /** The path loop. */
  method ReadPaths(s: string, p: nat, pathvec: seq<Path>, selector: string, weight: RrWeight, numPaths: int, numArgs: int,
                   minio: int, pgindex: nat, ghost ws: seq<string>, ghost k: nat, ghost g: seq<Listed>)
    returns (ok: bool, q: nat, entries: seq<Entry>, after: int)
    requires p <= |s|
    ensures q <= |s|
    ensures Next(s, ws, p, k, PathWords(g)) && numArgs == 1 && numPaths == |g| ==>
              ok && At(s, ws, q, k + 2 * |g|) && entries == Entries(pathvec, g, pgindex) &&
              after == MinioAfter(minio, g, pathvec, selector, weight)
  {
    ghost var wf := Next(s, ws, p, k, PathWords(g)) && numArgs == 1 && numPaths == |g|;
    ok, q, entries, after := true, p, [], minio;
    hide At, PathWords, MinioOf, EntryFor;
    var j := 0;
    while j < numPaths
      invariant 0 <= j && q <= |s|
      invariant wf ==> ok && j <= |g| && At(s, ws, q, k + 2 * j) && entries == Entries(pathvec, g[..j], pgindex) &&
                       after == MinioAfter(minio, g[..j], pathvec, selector, weight)
    {
      ghost var x := if wf then g[j] else ("", 0);
      if wf {
        PathNext(s, ws, p, q, k, g, j);
      }
      var entry;
      ok, q, entry, after := ReadPath(s, q, pathvec, selector, weight, numArgs, after, pgindex, ws, k + 2 * j, x);
      if !ok {
        return;
      }
      entries := entries + [entry];
      if wf {
        EntriesSnoc(pathvec, g, j, pgindex, minio, selector, weight);
      }
      j := j + 1;
    }
    assert wf ==> g[..j] == g;
  }

  lemma PathNext(s: string, ws: seq<string>, p: nat, q: nat, k: nat, g: seq<Listed>, j: nat)
    requires Next(s, ws, p, k, PathWords(g)) && At(s, ws, q, k + 2 * j) && j < |g|
    ensures Next(s, ws, q, k + 2 * j, [g[j].0, Dec(g[j].1)])
  {
    hide PathWords, Dec, At, Follow;
    PathWordsAt(g, j);
    FollowAt(ws, k, PathWords(g), 2 * j);
    FollowAt(ws, k, PathWords(g), 2 * j + 1);
    FollowTwo(ws, k + 2 * j, g[j].0, Dec(g[j].1));
  }

  lemma FollowTwo(ws: seq<string>, a: nat, x: string, y: string)
    requires a + 1 < |ws| && ws[a] == x && ws[a + 1] == y
    ensures Follow(ws, a, [x, y])
  {
    assert ws[a..a + 2] == [ws[a], ws[a + 1]];
  }

  lemma EntriesSnoc(pathvec: seq<Path>, g: seq<Listed>, j: nat, pgindex: nat, minio: int, selector: string, weight: RrWeight)
    requires j < |g|
    ensures Entries(pathvec, g[..j + 1], pgindex) == Entries(pathvec, g[..j], pgindex) + [EntryFor(pathvec, g[j].0, pgindex)]
    ensures MinioAfter(minio, g[..j + 1], pathvec, selector, weight) ==
            MinioOf(g[j].1, selector, weight, EntryFor(pathvec, g[j].0, pgindex).priority)
  {
    assert g[..j + 1][..j] == g[..j];
  }

  // ------------------------------------------------------------------ path groups in the table

  /** A path selector without arguments. */
  function SelectorText(name: string): string {
    name + " " + Dec(0)
  }

  function GroupHead(name: string, n: nat): seq<string> {
    [name, Dec(0), Dec(n), Dec(1)]
  }

  function GroupWords(name: string, g: seq<Listed>): seq<string> {
    GroupHead(name, |g|) + PathWords(g)
  }

  function AllGroupWords(name: string, gs: seq<seq<Listed>>): seq<string> {
    if gs == [] then [] else AllGroupWords(name, gs[..|gs| - 1]) + GroupWords(name, gs[|gs| - 1])
  }

  function AllEntries(pathvec: seq<Path>, gs: seq<seq<Listed>>): seq<seq<Entry>> {
    if gs == [] then []
    else AllEntries(pathvec, gs[..|gs| - 1]) + [Entries(pathvec, gs[|gs| - 1], |gs|)]
  }

  function MinioAfterAll(minio: int, gs: seq<seq<Listed>>, pathvec: seq<Path>, selector: string, weight: RrWeight): int {
    if gs == [] then minio
    else MinioAfter(MinioAfterAll(minio, gs[..|gs| - 1], pathvec, selector, weight), gs[|gs| - 1], pathvec, selector, weight)
  }

  lemma FollowParts(ws: seq<string>, k: nat, x: seq<string>, y: seq<string>)
    requires Follow(ws, k, x + y)
    ensures Follow(ws, k, x) && Follow(ws, k + |x|, y)
  {
    assert ws[k..k + |x|] == (x + y)[..|x|] && (x + y)[..|x|] == x;
    assert ws[k + |x|..k + |x| + |y|] == (x + y)[|x|..] && (x + y)[|x|..] == y;
  }

  /** The words of group `i` stand behind those of the groups before it. */
  lemma {:induction false} GroupFollows(ws: seq<string>, k: nat, name: string, gs: seq<seq<Listed>>, i: nat)
    requires Follow(ws, k, AllGroupWords(name, gs)) && i < |gs|
    ensures Follow(ws, k + |AllGroupWords(name, gs[..i])|, GroupWords(name, gs[i]))
    ensures |AllGroupWords(name, gs[..i + 1])| == |AllGroupWords(name, gs[..i])| + |GroupWords(name, gs[i])|
    decreases |gs|
  {
    hide Follow, GroupWords;
    var f := gs[..|gs| - 1];
    FollowParts(ws, k, AllGroupWords(name, f), GroupWords(name, gs[|gs| - 1]));
    assert gs[..i + 1][..i] == gs[..i];
    if i < |f| {
      assert f[..i] == gs[..i];
      GroupFollows(ws, k, name, f, i);
    } else {
      assert gs[..i] == f;
    }
  }

  /** The selector of the first group is kept; later ones are skipped. */
  method ReadSelector(s: string, p: nat, selector: Option<string>, numPgArgs: int,
                      ghost ws: seq<string>, ghost k: nat, ghost name: string)
    returns (ok: bool, q: nat, kept: Option<string>, args: int)
    requires p <= |s|
    ensures q <= |s| && (ok ==> kept.Some?)
    ensures Next(s, ws, p, k, [name, Dec(0)]) && (selector.Some? ==> selector == Some(SelectorText(name)) && numPgArgs == 0) ==>
              ok && At(s, ws, q, k + 2) && kept == Some(SelectorText(name)) && args == 0
  {
    ghost var wf := Next(s, ws, p, k, [name, Dec(0)]);
    if wf {
      FollowAt(ws, k, [name, Dec(0)], 0);
      FollowAt(ws, k, [name, Dec(0)], 1);
      DecRoundTrip(0);
    }
    hide At, Dec, Follow;
    ok, kept, args := false, selector, numPgArgs;
    if selector == None {
      q, kept := NextWord(s, p, ws, k);
      if kept == None {
        return;
      }
      var word;
      q, word := NextWord(s, q, ws, k + 1);
      if word == None {
        return;
      }
      args := Atoi(word.value);
      kept := Some(kept.value + " " + word.value);
    } else {
      q := SkipWord(s, p, ws, k);
      q := SkipWord(s, q, ws, k + 1);
    }
    var j := 0;
    while j < args
      invariant q <= |s| && 0 <= j
      invariant wf && args == 0 ==> At(s, ws, q, k + 2)
    {
      q := SkipWord(s, q, ws, k + 2);
      j := j + 1;
    }
    ok := true;
  }

  /** The number of paths of a group, and of arguments of each. */
  method ReadNumbers(s: string, p: nat, ghost ws: seq<string>, ghost k: nat) returns (ok: bool, q: nat, m: int, n: int)
    requires p <= |s|
    ensures q <= |s|
    ensures At(s, ws, p, k) && k + 1 < |ws| ==> ok && At(s, ws, q, k + 2) && m == Atoi(ws[k]) && n == Atoi(ws[k + 1])
  {
    hide At, Atoi;
    ok, m, n := false, 0, 0;
    var word;
    q, word := NextWord(s, p, ws, k);
    if word == None {
      return;
    }
    m := Atoi(word.value);
    q, word := NextWord(s, q, ws, k + 1);
    if word == None {
      return;
    }
    ok, n := true, Atoi(word.value);
  }

  /** The body of the group loop. */
  method ReadGroup(s: string, p: nat, selector: Option<string>, numPgArgs: int, pathvec: seq<Path>, weight: RrWeight,
                   minio: int, pgindex: nat, ghost ws: seq<string>, ghost k: nat, ghost name: string, ghost g: seq<Listed>)
    returns (ok: bool, q: nat, kept: Option<string>, args: int, group: seq<Entry>, after: int)
    requires p <= |s|
    ensures q <= |s|
    ensures Next(s, ws, p, k, GroupWords(name, g)) &&
            (selector.Some? ==> selector == Some(SelectorText(name)) && numPgArgs == 0) ==>
              ok && At(s, ws, q, k + |GroupWords(name, g)|) && kept == Some(SelectorText(name)) && args == 0 &&
              group == Entries(pathvec, g, pgindex) && after == MinioAfter(minio, g, pathvec, SelectorText(name), weight)
  {
    ghost var wf := Next(s, ws, p, k, GroupWords(name, g)) &&
                    (selector.Some? ==> selector == Some(SelectorText(name)) && numPgArgs == 0);
    if wf {
      GroupLayout(ws, k, name, g);
    }
    hide At, Dec, PathWords, Follow, SelectorText, GroupWords, Atoi, Entries, MinioAfter;
    group, after := [], minio;
    ok, q, kept, args := ReadSelector(s, p, selector, numPgArgs, ws, k, name);
    if !ok {
      return;
    }
    var numPaths, numArgs;
    ok, q, numPaths, numArgs := ReadNumbers(s, q, ws, k + 2);
    if !ok {
      return;
    }
    ok, q, group, after := ReadPaths(s, q, pathvec, kept.value, weight, numPaths, numArgs, after, pgindex, ws, k + 4, g);
  }

  lemma GroupLayout(ws: seq<string>, k: nat, name: string, g: seq<Listed>)
    requires Follow(ws, k, GroupWords(name, g))
    ensures Follow(ws, k, [name, Dec(0)]) && Follow(ws, k + 4, PathWords(g))
    ensures k + 3 < |ws| && Atoi(ws[k + 2]) == |g| && Atoi(ws[k + 3]) == 1
    ensures |GroupWords(name, g)| == 4 + 2 * |g|
  {
    hide Dec, PathWords, Atoi, Follow, GroupHead;
    PathWordsLength(g);
    HeadParts(name, |g|);
    var h := GroupHead(name, |g|);
    FollowParts(ws, k, h, PathWords(g));
    FollowParts(ws, k, [name, Dec(0)], [Dec(|g|), Dec(1)]);
    FollowAt(ws, k, h, 2);
    FollowAt(ws, k, h, 3);
    DecRoundTrip(|g|);
    DecRoundTrip(1);
  }

  lemma HeadParts(name: string, n: nat)
    ensures var h := GroupHead(name, n);
            |h| == 4 && h[2] == Dec(n) && h[3] == Dec(1) && h == [name, Dec(0)] + [Dec(n), Dec(1)]
  {
    hide Dec;
  }

  // ------------------------------------------------------------------ the whole table

  datatype Table = Table(features: seq<string>, hwhandler: seq<string>, nextpg: int, selector: string, groups: seq<seq<Listed>>)

  function Counted(ws: seq<string>): seq<string> {
    [Dec(|ws|)] + ws
  }

  function TableWords(t: Table): seq<string> {
    Counted(t.features) + (Counted(t.hwhandler) + ([Dec(|t.groups|), Dec(t.nextpg)] + AllGroupWords(t.selector, t.groups)))
  }

  /** A map whose fields the parser fills step by step. */
  class Multipath {
    var features: Option<string>
    var hwhandler: Option<string>
    var selector: Option<string>
    var pg: Option<seq<seq<Entry>>>
    var nextpg: int
    var minio: int
    var rr_weight: RrWeight

    constructor (weight: RrWeight, m: int)
      ensures features == None && hwhandler == None && selector == None && pg == None
      ensures minio == m && rr_weight == weight && nextpg == 0
    {
      features, hwhandler, selector, pg := None, None, None, None;
      nextpg, minio, rr_weight := 0, m, weight;
    }

    /** What the parser has to find in the table `t`. */
    predicate Holds(t: Table, pathvec: seq<Path>, m: int)
      reads this
    {
      features == Some(F.FeatureText(t.features)) && hwhandler == Some(F.FeatureText(t.hwhandler)) &&
      nextpg == t.nextpg &&
      pg == (if t.groups == [] then None else Some(AllEntries(pathvec, t.groups))) &&
      selector == (if t.groups == [] then None else Some(SelectorText(t.selector))) &&
      minio == MinioAfterAll(m, t.groups, pathvec, SelectorText(t.selector), rr_weight)
    }

    /** The group loop of disassemble_map. */
    method ReadGroups(pathvec: seq<Path>, params: string, start: nat, numPg: int,
                      ghost ws: seq<string>, ghost k: nat, ghost t: Table)
      returns (ok: bool)
      requires start <= |params| && (numPg > 0 ==> pg.Some?)
      modifies this`selector, this`pg, this`minio
      ensures Next(params, ws, start, k, AllGroupWords(t.selector, t.groups)) && numPg == |t.groups| &&
              old(selector) == None && (numPg > 0 ==> old(pg) == Some([])) ==>
                ok && pg == (if numPg == 0 then old(pg) else Some(AllEntries(pathvec, t.groups))) &&
                selector == (if numPg == 0 then None else Some(SelectorText(t.selector))) &&
                minio == MinioAfterAll(old(minio), t.groups, pathvec, SelectorText(t.selector), rr_weight)
    {
      ghost var gs, name, m := t.groups, t.selector, minio;
      ghost var wf := Next(params, ws, start, k, AllGroupWords(name, gs)) && numPg == |gs| && selector == None &&
                      (numPg > 0 ==> pg == Some([]));
      hide At, Follow, AllGroupWords, GroupWords, SelectorText, MinioAfter, Entries;
      assert wf ==> gs[..0] == [] && |AllGroupWords(name, [])| == 0 by { NoGroupWords(name); }
      var p: nat, i: nat, numPgArgs := start, 0, 0;
      ok := true;
      while i < numPg
        invariant ok && p <= |params| && 0 <= i && (numPg > 0 ==> pg.Some?)
        invariant numPg <= 0 ==> pg == old(pg)
        invariant wf ==> i <= |gs| && At(params, ws, p, k + |AllGroupWords(name, gs[..i])|)
        invariant wf && numPg > 0 ==> pg == Some(AllEntries(pathvec, gs[..i]))
        invariant wf ==> selector == (if i == 0 then None else Some(SelectorText(name))) && numPgArgs == 0
        invariant wf ==> minio == MinioAfterAll(m, gs[..i], pathvec, SelectorText(name), rr_weight)
      {
        ghost var at := if wf then k + |AllGroupWords(name, gs[..i])| else 0;
        ghost var g := if wf then gs[i] else [];
        if wf {
          GroupFollows(ws, k, name, gs, i);
          assert gs[..i + 1][..i] == gs[..i];
        }
        var group;
        ok, p, selector, numPgArgs, group, minio :=
          ReadGroup(params, p, selector, numPgArgs, pathvec, rr_weight, minio, i + 1, ws, at, name, g);
        if !ok {
          return;
        }
        pg := Some(pg.value + [group]);
        i := i + 1;
      }
      assert wf ==> gs[..i] == gs;
    }

    /** The part of disassemble_map from the number of groups on. */
    method ReadBody(pathvec: seq<Path>, params: string, start: nat, numPg: int,
                    ghost ws: seq<string>, ghost k: nat, ghost t: Table)
      returns (ok: bool)
      requires start <= |params|
      modifies this`selector, this`pg, this`nextpg, this`minio
      ensures !ok ==> pg == None
      ensures At(params, ws, start, k) && k < |ws| && Atoi(ws[k]) == t.nextpg &&
              Follow(ws, k + 1, AllGroupWords(t.selector, t.groups)) && numPg == |t.groups| &&
              old(selector) == None && old(pg) == None ==>
                ok && nextpg == t.nextpg && pg == (if numPg == 0 then None else Some(AllEntries(pathvec, t.groups))) &&
                selector == (if numPg == 0 then None else Some(SelectorText(t.selector))) &&
                minio == MinioAfterAll(old(minio), t.groups, pathvec, SelectorText(t.selector), rr_weight)
    {
      hide At, Follow, AllGroupWords, AllEntries, SelectorText, MinioAfterAll, Atoi;
      if numPg > 0 {
        if pg == None {
          pg := Some([]);
        }
      } else {
        pg := None;
      }
      var p, word := NextWord(params, start, ws, k);
      if word == None {
        pg := None;
        return false;
      }
      nextpg := Atoi(word.value);
      ok := ReadGroups(pathvec, params, p, numPg, ws, k + 1, t);
      if !ok {
        pg := None;
      }
    }

    /** disassemble_map. */
    method Disassemble(pathvec: seq<Path>, params: string, ghost t: Table) returns (ret: int)
      modifies this`features, this`hwhandler, this`selector, this`pg, this`nextpg, this`minio
      ensures ret == 0 || ret == 1
      ensures AreWords(TableWords(t)) && params == Join(TableWords(t)) && old(selector) == None && old(pg) == None ==>
                ret == 0 && Holds(t, pathvec, old(minio))
    {
      ghost var ws, k := TableWords(t), |t.features| + |t.hwhandler| + 3;
      hide At, Follow, Join, AllGroupWords, F.FeatureText, TableWords, AreWords, SelectorText, AllEntries, MinioAfterAll, Counted, Atoi;
      TableLayout(t);
      if AreWords(ws) {
        AtStart(ws);
      }
      var ok, p, f, h, numPg := ReadHead(params, hwhandler, ws, t);
      features, hwhandler := f, h;
      if !ok {
        return 1;
      }
      ok := ReadBody(pathvec, params, p, numPg, ws, k, t);
      ret := if ok then 0 else 1;
    }
  }

  /** The head of the table: features, hardware handler, number of groups. */
  method ReadHead(s: string, handler: Option<string>, ghost ws: seq<string>, ghost t: Table)
    returns (ok: bool, q: nat, features: Option<string>, hwhandler: Option<string>, numPg: int)
    ensures q <= |s|
    ensures var a := |t.features| + 1;
            var b := a + |t.hwhandler| + 1;
            Next(s, ws, 0, 0, Counted(t.features)) && Follow(ws, a, Counted(t.hwhandler)) && b < |ws| ==>
              ok && features == Some(F.FeatureText(t.features)) && hwhandler == Some(F.FeatureText(t.hwhandler)) &&
              At(s, ws, q, b + 1) && numPg == Atoi(ws[b])
  {
    hide At, Follow, F.FeatureText, Atoi;
    ghost var a := |t.features| + 1;
    hwhandler, numPg := handler, 0;
    ok, q, features := ReadCounted(s, 0, ws, 0, t.features);
    if !ok {
      return;
    }
    ok, q, hwhandler := ReadCounted(s, q, ws, a, t.hwhandler);
    if !ok {
      return;
    }
    var word;
    q, word := NextWord(s, q, ws, a + |t.hwhandler| + 1);
    ok := word.Some?;
    numPg := if ok then Atoi(word.value) else 0;
  }

  lemma NoGroupWords(name: string)
    ensures AllGroupWords(name, []) == []
  {
  }

  lemma FourParts(ws: seq<string>, x: seq<string>, y: seq<string>, n: string, m: string, g: seq<string>)
    requires ws == x + (y + ([n, m] + g))
    ensures var b := |x| + |y|;
            Follow(ws, 0, x) && Follow(ws, |x|, y) && b + 1 < |ws| && ws[b] == n && ws[b + 1] == m && Follow(ws, b + 2, g)
  {
    assert ws[0..|ws|] == ws;
    assert Follow(ws, 0, x + (y + ([n, m] + g)));
    hide Follow;
    FollowParts(ws, 0, x, y + ([n, m] + g));
    FollowParts(ws, |x|, y, [n, m] + g);
    FollowParts(ws, |x| + |y|, [n, m], g);
    FollowAt(ws, |x| + |y|, [n, m], 0);
    FollowAt(ws, |x| + |y|, [n, m], 1);
  }

  /** Where the parts of the table are. */
  lemma TableLayout(t: Table)
    ensures var ws, a := TableWords(t), |t.features| + 1;
            var b := a + |t.hwhandler| + 1;
            Follow(ws, 0, Counted(t.features)) && Follow(ws, a, Counted(t.hwhandler)) &&
            b + 1 < |ws| && Atoi(ws[b]) == |t.groups| && Atoi(ws[b + 1]) == t.nextpg &&
            Follow(ws, b + 2, AllGroupWords(t.selector, t.groups))
  {
    hide Follow, Dec, AllGroupWords, Atoi;
    DecRoundTrip(|t.groups|);
    DecRoundTrip(t.nextpg);
    FourParts(TableWords(t), Counted(t.features), Counted(t.hwhandler), Dec(|t.groups|), Dec(t.nextpg),
              AllGroupWords(t.selector, t.groups));
  }

  lemma AtStart(ws: seq<string>)
    requires AreWords(ws)
    ensures At(Join(ws), ws, 0, 0)
  {
    assert ws[..0] == [];
  }

  // ------------------------------------------------------------------ printing the table

  /** What assemble_map reads of a map. */
  datatype Source = Source(features: Option<string>, hwhandler: string, selector: string, bestpg: int, minio: int,
                           rr_weight: RrWeight, no_path_retry: int, retain: F.Retain, pg: seq<seq<Path>>)

  /** The argument of a path: minio, times the priority under priority weights. */
  function Printed(minio: int, weight: RrWeight, priority: int): int {
    if weight == PrioWeight && priority > 0 then minio * priority else minio
  }

  function PathText(p: Path, minio: int, weight: RrWeight): string {
    " " + p.dev_t + " " + Dec(Printed(minio, weight, p.priority))
  }

  function PathsText(g: seq<Path>, minio: int, weight: RrWeight): string {
    if g == [] then "" else PathsText(g[..|g| - 1], minio, weight) + PathText(g[|g| - 1], minio, weight)
  }

  function GroupHeadText(n: nat, selector: string): string {
    " " + selector + " " + Dec(n) + " " + Dec(1)
  }

  function GroupText(g: seq<Path>, selector: string, minio: int, weight: RrWeight): string {
    GroupHeadText(|g|, selector) + PathsText(g, minio, weight)
  }

  function GroupsText(pg: seq<seq<Path>>, selector: string, minio: int, weight: RrWeight): string {
    if pg == [] then ""
    else GroupsText(pg[..|pg| - 1], selector, minio, weight) + GroupText(pg[|pg| - 1], selector, minio, weight)
  }

  function InitialPg(mp: Source): int {
    if mp.pg == [] then 0 else mp.bestpg
  }

  function HeadText(mp: Source, features: string): string {
    features + " " + mp.hwhandler + " " + Dec(|mp.pg|) + " " + Dec(InitialPg(mp))
  }

  function MapText(mp: Source, features: string): string {
    HeadText(mp, features) + GroupsText(mp.pg, mp.selector, mp.minio, mp.rr_weight)
  }

  predicate HasDevts(g: seq<Path>) {
    forall p :: p in g ==> p.dev_t != ""
  }

  predicate AllDevts(pg: seq<seq<Path>>) {
    forall i :: 0 <= i < |pg| ==> HasDevts(pg[i])
  }

  lemma {:induction false} PathsTextGrows(g: seq<Path>, i: nat, minio: int, weight: RrWeight)
    requires i <= |g|
    ensures |PathsText(g[..i], minio, weight)| <= |PathsText(g, minio, weight)|
  {
    hide PathText;
    if i < |g| {
      assert g[..|g| - 1][..i] == g[..i];
      PathsTextGrows(g[..|g| - 1], i, minio, weight);
    } else {
      assert g[..i] == g;
    }
  }

  lemma PathsSnoc(g: seq<Path>, j: nat, minio: int, weight: RrWeight)
    requires j < |g|
    ensures PathsText(g[..j + 1], minio, weight) == PathsText(g[..j], minio, weight) + PathText(g[j], minio, weight)
  {
    assert g[..j + 1][..j] == g[..j];
  }

  lemma GroupsSnoc(pg: seq<seq<Path>>, i: nat, selector: string, minio: int, weight: RrWeight)
    requires i < |pg|
    ensures GroupsText(pg[..i + 1], selector, minio, weight) ==
            GroupsText(pg[..i], selector, minio, weight) + GroupText(pg[i], selector, minio, weight)
  {
    assert pg[..i + 1][..i] == pg[..i];
  }

  lemma Associates(a: string, b: string, c: string)
    ensures (a + b) + c == a + (b + c)
  {
  }

  lemma {:induction false} GroupsTextGrows(pg: seq<seq<Path>>, i: nat, selector: string, minio: int, weight: RrWeight)
    requires i <= |pg|
    ensures |GroupsText(pg[..i], selector, minio, weight)| <= |GroupsText(pg, selector, minio, weight)|
    ensures i < |pg| ==> |GroupsText(pg[..i], selector, minio, weight)| + |GroupText(pg[i], selector, minio, weight)| <=
                         |GroupsText(pg, selector, minio, weight)|
  {
    hide GroupText;
    if i < |pg| {
      var f := pg[..|pg| - 1];
      if i < |f| {
        assert f[..i] == pg[..i];
        GroupsTextGrows(f, i, selector, minio, weight);
      } else {
        assert pg[..i] == f;
      }
    } else {
      assert pg[..i] == pg;
    }
  }

  /** The text when `j` paths are printed. */
  function SoFar(head: string, g: seq<Path>, j: nat, minio: int, weight: RrWeight): string
    requires j <= |g|
  {
    head + PathsText(g[..j], minio, weight)
  }

  lemma SoFarSteps(head: string, g: seq<Path>, j: nat, minio: int, weight: RrWeight)
    requires j <= |g|
    ensures SoFar(head, g, 0, minio, weight) == head
    ensures SoFar(head, g, |g|, minio, weight) == head + PathsText(g, minio, weight)
    ensures |SoFar(head, g, j, minio, weight)| <= |head + PathsText(g, minio, weight)|
    ensures j < |g| ==> SoFar(head, g, j + 1, minio, weight) == SoFar(head, g, j, minio, weight) + PathText(g[j], minio, weight)
  {
    assert g[..0] == [] && g[..|g|] == g && PathsText([], minio, weight) == "" && head + "" == head;
    PathsTextGrows(g, j, minio, weight);
    if j < |g| {
      PathsSnoc(g, j, minio, weight);
      Associates(head, PathsText(g[..j], minio, weight), PathText(g[j], minio, weight));
    }
    hide PathText, PathsText;
  }

  /** The paths of a group, behind the text so far. */
  method AppendPaths(head: string, len: nat, paths: seq<Path>, minio: int, weight: RrWeight)
    returns (ok: bool, params: string)
    requires |head| < len
    ensures ok <==> HasDevts(paths) && |head + PathsText(paths, minio, weight)| < len
    ensures ok ==> params == head + PathsText(paths, minio, weight)
  {
    hide SoFar, PathsText, Dec;
    params, ok := head, false;
    SoFarSteps(head, paths, 0, minio, weight);
    var j := 0;
    while j < |paths|
      invariant 0 <= j <= |paths| && params == SoFar(head, paths, j, minio, weight) && |params| < len
      invariant forall k :: 0 <= k < j ==> paths[k].dev_t != ""
    {
      var pp := paths[j];
      var tmpMinio := if weight == PrioWeight && pp.priority > 0 then minio * pp.priority else minio;
      if |pp.dev_t| == 0 {
        assert pp in paths;
        return;
      }
      SoFarSteps(head, paths, j, minio, weight);
      SoFarSteps(head, paths, j + 1, minio, weight);
      params := params + (" " + pp.dev_t + " " + Dec(tmpMinio));
      if |params| >= len {
        return;
      }
      j := j + 1;
    }
    ok := true;
  }

  /** One path group, behind the text so far. */
  method AppendGroup(text: string, len: nat, pgp: seq<Path>, selector: string, minio: int, weight: RrWeight)
    returns (ok: bool, params: string)
    ensures ok <==> HasDevts(pgp) && |text| + |GroupText(pgp, selector, minio, weight)| < len
    ensures ok ==> params == text + GroupText(pgp, selector, minio, weight)
  {
    hide PathsText, HasDevts, GroupHeadText;
    var head := GroupHeadText(|pgp|, selector);
    Associates(text, head, PathsText(pgp, minio, weight));
    params := text + head;
    if |params| >= len {
      return false, params;
    }
    ok, params := AppendPaths(params, len, pgp, minio, weight);
  }

  /** assemble_map: the table, or an error if it does not fit or a device number is missing. */
  method AssembleMap(mp: Source, oldKernel: bool, len: nat) returns (ret: int, params: string, features: string)
    requires mp.features.Some? || F.DerivedText(mp.features, mp.no_path_retry, mp.retain, oldKernel).Some?
    ensures F.DerivedText(mp.features, mp.no_path_retry, mp.retain, oldKernel) == Some(features)
    ensures ret == 0 || ret == 1
    ensures ret == 0 <==> AllDevts(mp.pg) && |MapText(mp, features)| < len
    ensures ret == 0 ==> params == MapText(mp, features)
  {
    var f := F.AddDerivedFeatures(mp.features, mp.no_path_retry, mp.retain, oldKernel);
    F.DerivedStays(mp.features, mp.no_path_retry, mp.retain, oldKernel);
    features := f.value;
    var ok;
    ok, params := AppendGroups(HeadText(mp, features), len, mp.pg, mp.selector, mp.minio, mp.rr_weight);
    ret := if ok then 0 else 1;
  }

  /** The text when `i` groups are printed. */
  function GroupsSoFar(head: string, pg: seq<seq<Path>>, i: nat, selector: string, minio: int, weight: RrWeight): string
    requires i <= |pg|
  {
    head + GroupsText(pg[..i], selector, minio, weight)
  }

  lemma GroupsSoFarSteps(head: string, pg: seq<seq<Path>>, i: nat, selector: string, minio: int, weight: RrWeight)
    requires i <= |pg|
    ensures GroupsSoFar(head, pg, 0, selector, minio, weight) == head
    ensures GroupsSoFar(head, pg, |pg|, selector, minio, weight) == head + GroupsText(pg, selector, minio, weight)
    ensures |GroupsSoFar(head, pg, i, selector, minio, weight)| <= |head + GroupsText(pg, selector, minio, weight)|
    ensures i < |pg| ==> GroupsSoFar(head, pg, i + 1, selector, minio, weight) ==
                         GroupsSoFar(head, pg, i, selector, minio, weight) + GroupText(pg[i], selector, minio, weight)
  {
    assert pg[..0] == [] && pg[..|pg|] == pg && GroupsText([], selector, minio, weight) == "" && head + "" == head;
    GroupsTextGrows(pg, i, selector, minio, weight);
    if i < |pg| {
      GroupsSnoc(pg, i, selector, minio, weight);
      Associates(head, GroupsText(pg[..i], selector, minio, weight), GroupText(pg[i], selector, minio, weight));
    }
    hide GroupText, GroupsText;
  }

  /** The group loop of assemble_map. */
  method AppendGroups(head: string, len: nat, pg: seq<seq<Path>>, selector: string, minio: int, weight: RrWeight)
    returns (ok: bool, params: string)
    ensures ok <==> AllDevts(pg) && |head + GroupsText(pg, selector, minio, weight)| < len
    ensures ok ==> params == head + GroupsText(pg, selector, minio, weight)
  {
    hide GroupsSoFar, GroupsText, GroupText, HasDevts;
    params, ok := head, false;
    GroupsSoFarSteps(head, pg, 0, selector, minio, weight);
    if |params| >= len {
      return;
    }
    var i := 0;
    while i < |pg|
      invariant 0 <= i <= |pg| && params == GroupsSoFar(head, pg, i, selector, minio, weight) && |params| < len
      invariant forall k :: 0 <= k < i ==> HasDevts(pg[k])
    {
      GroupsSoFarSteps(head, pg, i, selector, minio, weight);
      GroupsSoFarSteps(head, pg, i + 1, selector, minio, weight);
      var fits, text := AppendGroup(params, len, pg[i], selector, minio, weight);
      if !fits {
        return;
      }
      params := text;
      i := i + 1;
    }
    ok := true;
  }

  // ------------------------------------------------------------------ there and back

  function ListedPaths(g: seq<Path>, minio: int, weight: RrWeight): seq<Listed> {
    if g == [] then []
    else ListedPaths(g[..|g| - 1], minio, weight) + [(g[|g| - 1].dev_t, Printed(minio, weight, g[|g| - 1].priority))]
  }

  function ListedGroups(pg: seq<seq<Path>>, minio: int, weight: RrWeight): seq<seq<Listed>> {
    if pg == [] then [] else ListedGroups(pg[..|pg| - 1], minio, weight) + [ListedPaths(pg[|pg| - 1], minio, weight)]
  }

  /** The table of a map with counted features `fw`, counted handler `hw` and selector `name`. */
  function TableOf(mp: Source, fw: seq<string>, hw: seq<string>, name: string): Table {
    Table(fw, hw, InitialPg(mp), name, ListedGroups(mp.pg, mp.minio, mp.rr_weight))
  }

  lemma {:induction false} ListedLength(g: seq<Path>, minio: int, weight: RrWeight)
    ensures |ListedPaths(g, minio, weight)| == |g|
  {
    if g != [] {
      ListedLength(g[..|g| - 1], minio, weight);
    }
  }

  lemma {:induction false} ListedGroupsLength(pg: seq<seq<Path>>, minio: int, weight: RrWeight)
    ensures |ListedGroups(pg, minio, weight)| == |pg|
  {
    if pg != [] {
      ListedGroupsLength(pg[..|pg| - 1], minio, weight);
    }
  }

  lemma SuffixTwo(a: string, b: string)
    ensures Suffix([a, b]) == " " + a + " " + b
    ensures Suffix([a]) == " " + a
  {
    JoinOne(a);
    JoinSnoc([a], b);
    assert [a] + [b] == [a, b];
    Associates(" ", a + " ", b);
    Associates(" ", a, " ");
    hide Join;
  }

  lemma {:induction false} PathsTextIs(g: seq<Path>, minio: int, weight: RrWeight)
    ensures PathsText(g, minio, weight) == Suffix(PathWords(ListedPaths(g, minio, weight)))
  {
    if g != [] {
      var f, p := g[..|g| - 1], g[|g| - 1];
      PathsTextIs(f, minio, weight);
      var l, x := ListedPaths(f, minio, weight), (p.dev_t, Printed(minio, weight, p.priority));
      assert (l + [x])[..|l + [x]| - 1] == l;
      F.SuffixConcat(PathWords(l), [x.0, Dec(x.1)]);
      SuffixTwo(x.0, Dec(x.1));
      hide Suffix, Dec;
    }
  }

  lemma GroupTextIs(g: seq<Path>, name: string, minio: int, weight: RrWeight)
    ensures GroupText(g, SelectorText(name), minio, weight) == Suffix(GroupWords(name, ListedPaths(g, minio, weight)))
  {
    var l := ListedPaths(g, minio, weight);
    ListedLength(g, minio, weight);
    PathsTextIs(g, minio, weight);
    HeadParts(name, |g|);
    F.SuffixConcat(GroupHead(name, |g|), PathWords(l));
    F.SuffixConcat([name, Dec(0)], [Dec(|g|), Dec(1)]);
    SuffixTwo(name, Dec(0));
    SuffixTwo(Dec(|g|), Dec(1));
    Associates(" " + name + " " + Dec(0), " " + Dec(|g|), " " + Dec(1));
    HeadTextIs(name, |g|);
    hide Suffix, Dec, PathsText, PathWords, GroupHead, GroupHeadText;
  }

  lemma HeadTextIs(name: string, n: nat)
    ensures GroupHeadText(n, SelectorText(name)) == (" " + name + " " + Dec(0)) + (" " + Dec(n) + " " + Dec(1))
  {
    hide Dec;
    Associates(" " + name + " " + Dec(0), " " + Dec(n) + " ", Dec(1));
    Associates(" " + name + " " + Dec(0), " " + Dec(n), " ");
    Associates(" " + name + " " + Dec(0), " ", Dec(n));
    Associates(" ", name + " ", Dec(0));
    Associates(" ", name, " ");
  }

  lemma {:induction false} GroupsTextIs(pg: seq<seq<Path>>, name: string, minio: int, weight: RrWeight)
    ensures GroupsText(pg, SelectorText(name), minio, weight) == Suffix(AllGroupWords(name, ListedGroups(pg, minio, weight)))
  {
    if pg != [] {
      hide GroupText, GroupWords, Suffix;
      var f, g := pg[..|pg| - 1], pg[|pg| - 1];
      GroupsTextIs(f, name, minio, weight);
      var l, x := ListedGroups(f, minio, weight), ListedPaths(g, minio, weight);
      assert (l + [x])[..|l + [x]| - 1] == l;
      GroupTextIs(g, name, minio, weight);
      F.SuffixConcat(AllGroupWords(name, l), GroupWords(name, x));
    } else {
      assert Suffix([]) == "";
    }
  }

  lemma JoinSuffix(a: seq<string>, b: seq<string>)
    requires a != []
    ensures Join(a + b) == Join(a) + Suffix(b)
  {
    if b == [] {
      assert a + b == a;
    } else {
      JoinConcat(a, b);
      Associates(Join(a), " ", Join(b));
    }
    hide Join;
  }

  /** The printed table is the words of the table. */
  lemma MapTextIs(mp: Source, fw: seq<string>, hw: seq<string>, name: string)
    requires mp.hwhandler == F.FeatureText(hw) && mp.selector == SelectorText(name)
    ensures MapText(mp, F.FeatureText(fw)) == Join(TableWords(TableOf(mp, fw, hw, name)))
  {
    var t := TableOf(mp, fw, hw, name);
    ListedGroupsLength(mp.pg, mp.minio, mp.rr_weight);
    var x, y, z, g := Counted(fw), Counted(hw), [Dec(|mp.pg|), Dec(InitialPg(mp))], AllGroupWords(name, t.groups);
    assert TableWords(t) == x + (y + (z + g));
    JoinSuffix(x, y + (z + g));
    F.SuffixConcat(y, z + g);
    F.SuffixConcat(z, g);
    SuffixTwo(Dec(|mp.pg|), Dec(InitialPg(mp)));
    GroupsTextIs(mp.pg, name, mp.minio, mp.rr_weight);
    assert Suffix(y) == " " + F.FeatureText(hw);
    hide Join, Suffix, Dec, GroupsText, AllGroupWords, SelectorText, F.FeatureText, TableWords;
    var a, b, c, d := F.FeatureText(fw), F.FeatureText(hw), Dec(|mp.pg|), Dec(InitialPg(mp));
    var tail := Suffix(g);
    HeadAssociates(a, b, c, d, tail);
  }

  lemma HeadAssociates(a: string, b: string, c: string, d: string, tail: string)
    ensures (a + " " + b + " " + c + " " + d) + tail == a + ((" " + b) + ((" " + c + " " + d) + tail))
  {
  }

  /** Device numbers as the kernel prints them: words that fit their field. */
  predicate DevtsAreWords(pg: seq<seq<Path>>) {
    forall i, j :: 0 <= i < |pg| && 0 <= j < |pg[i]| ==> IsWord(pg[i][j].dev_t) && |pg[i][j].dev_t| < BLK_DEV_SIZE
  }

  lemma WordsConcat(a: seq<string>, b: seq<string>)
    requires AreWords(a) && AreWords(b)
    ensures AreWords(a + b)
  {
  }

  lemma {:induction false} PathWordsAreWords(g: seq<Path>, minio: int, weight: RrWeight)
    requires forall j :: 0 <= j < |g| ==> IsWord(g[j].dev_t)
    ensures AreWords(PathWords(ListedPaths(g, minio, weight)))
  {
    if g != [] {
      hide IsWord;
      var f, p := g[..|g| - 1], g[|g| - 1];
      PathWordsAreWords(f, minio, weight);
      var l, x := ListedPaths(f, minio, weight), (p.dev_t, Printed(minio, weight, p.priority));
      assert (l + [x])[..|l + [x]| - 1] == l;
      DecRoundTrip(x.1);
      WordsConcat(PathWords(l), [x.0, Dec(x.1)]);
    }
  }

  lemma OneGroupAreWords(g: seq<Path>, name: string, minio: int, weight: RrWeight)
    requires IsWord(name) && forall j :: 0 <= j < |g| ==> IsWord(g[j].dev_t)
    ensures AreWords(GroupWords(name, ListedPaths(g, minio, weight)))
  {
    hide IsWord;
    var x := ListedPaths(g, minio, weight);
    PathWordsAreWords(g, minio, weight);
    DecRoundTrip(0);
    DecRoundTrip(1);
    DecRoundTrip(|x|);
    WordsConcat(GroupHead(name, |x|), PathWords(x));
  }

  lemma {:induction false} GroupWordsAreWords(pg: seq<seq<Path>>, name: string, minio: int, weight: RrWeight)
    requires IsWord(name) && DevtsAreWords(pg)
    ensures AreWords(AllGroupWords(name, ListedGroups(pg, minio, weight)))
  {
    if pg != [] {
      hide IsWord, GroupWords, ListedPaths;
      var f, g := pg[..|pg| - 1], pg[|pg| - 1];
      GroupWordsAreWords(f, name, minio, weight);
      var l, x := ListedGroups(f, minio, weight), ListedPaths(g, minio, weight);
      assert (l + [x])[..|l + [x]| - 1] == l;
      OneGroupAreWords(g, name, minio, weight);
      WordsConcat(AllGroupWords(name, l), GroupWords(name, x));
    }
  }

  lemma TableOfWords(mp: Source, fw: seq<string>, hw: seq<string>, name: string)
    requires AreWords(fw) && AreWords(hw) && IsWord(name) && DevtsAreWords(mp.pg)
    ensures AreWords(TableWords(TableOf(mp, fw, hw, name)))
  {
    hide IsWord, AllGroupWords, Dec;
    var t := TableOf(mp, fw, hw, name);
    var g := AllGroupWords(name, t.groups);
    GroupWordsAreWords(mp.pg, name, mp.minio, mp.rr_weight);
    DecRoundTrip(|fw|);
    DecRoundTrip(|hw|);
    DecRoundTrip(|t.groups|);
    DecRoundTrip(t.nextpg);
    WordsConcat([Dec(|t.groups|), Dec(t.nextpg)], g);
    WordsConcat([Dec(|hw|)], hw);
    WordsConcat([Dec(|fw|)], fw);
    WordsConcat(Counted(hw), [Dec(|t.groups|), Dec(t.nextpg)] + g);
    WordsConcat(Counted(fw), Counted(hw) + ([Dec(|t.groups|), Dec(t.nextpg)] + g));
  }

  /** The groups of `es` list the device numbers of `pg` in order, each with its group's number. */
  predicate SamePaths(es: seq<seq<Entry>>, pg: seq<seq<Path>>) {
    |es| == |pg| &&
    forall i :: 0 <= i < |pg| ==> SameGroup(es[i], pg[i], i + 1)
  }

  predicate SameGroup(es: seq<Entry>, g: seq<Path>, pgindex: nat) {
    |es| == |g| && forall j :: 0 <= j < |g| ==> es[j].dev_t == g[j].dev_t && es[j].pgindex == pgindex
  }

  lemma {:induction false} GroupRecovered(pathvec: seq<Path>, g: seq<Path>, minio: int, weight: RrWeight, pgindex: nat)
    requires forall j :: 0 <= j < |g| ==> |g[j].dev_t| < BLK_DEV_SIZE
    ensures SameGroup(Entries(pathvec, ListedPaths(g, minio, weight), pgindex), g, pgindex)
  {
    if g != [] {
      var f := g[..|g| - 1];
      GroupRecovered(pathvec, f, minio, weight, pgindex);
      var l := ListedPaths(g, minio, weight);
      assert l[..|l| - 1] == ListedPaths(f, minio, weight);
    }
  }

  lemma {:induction false} GroupsRecovered(pathvec: seq<Path>, pg: seq<seq<Path>>, minio: int, weight: RrWeight)
    requires DevtsAreWords(pg)
    ensures SamePaths(AllEntries(pathvec, ListedGroups(pg, minio, weight)), pg)
  {
    if pg != [] {
      var f := pg[..|pg| - 1];
      var l := ListedGroups(pg, minio, weight);
      hide IsWord, Entries, ListedPaths, SameGroup;
      assert DevtsAreWords(f);
      GroupsRecovered(pathvec, f, minio, weight);
      ListedGroupsLength(f, minio, weight);
      assert l[..|l| - 1] == ListedGroups(f, minio, weight);
      GroupRecovered(pathvec, pg[|pg| - 1], minio, weight, |pg|);
    }
  }

  /** The printed text is the text of a table that a parser can read back to `mp`. */
  ghost predicate Prints(mp: Source, t: Table, text: string, pathvec: seq<Path>) {
    && AreWords(TableWords(t)) && text == Join(TableWords(t)) && AllDevts(mp.pg)
    && mp.hwhandler == F.FeatureText(t.hwhandler) && mp.selector == SelectorText(t.selector) && t.nextpg == InitialPg(mp)
    && t.groups == ListedGroups(mp.pg, mp.minio, mp.rr_weight) && |t.groups| == |mp.pg|
    && SamePaths(AllEntries(pathvec, t.groups), mp.pg)
  }

  lemma DevtsAreSet(pg: seq<seq<Path>>)
    requires DevtsAreWords(pg)
    ensures AllDevts(pg)
  {
  }

  lemma TablePrints(mp: Source, pathvec: seq<Path>, fw: seq<string>, hw: seq<string>, name: string)
    requires AreWords(fw) && AreWords(hw) && IsWord(name) && DevtsAreWords(mp.pg)
    requires mp.hwhandler == F.FeatureText(hw) && mp.selector == SelectorText(name)
    ensures Prints(mp, TableOf(mp, fw, hw, name), MapText(mp, F.FeatureText(fw)), pathvec)
  {
    hide F.FeatureText, AreWords, IsWord, Join, TableWords, MapText, AllEntries, ListedGroups, SamePaths;
    hide DevtsAreWords, AllDevts, SelectorText;
    TableOfWords(mp, fw, hw, name);
    MapTextIs(mp, fw, hw, name);
    GroupsRecovered(pathvec, mp.pg, mp.minio, mp.rr_weight);
    ListedGroupsLength(mp.pg, mp.minio, mp.rr_weight);
    DevtsAreSet(mp.pg);
  }

  /** Printing a map and parsing the text into a fresh one recovers the feature and handler
      strings, the selector, the group to try first, and every group's paths in order. */
  method RoundTrip(mp: Source, oldKernel: bool, len: nat, pathvec: seq<Path>, m: int,
                   ghost fw: seq<string>, ghost hw: seq<string>, ghost name: string)
    returns (ret: int, features: string, copy: Multipath)
    requires AreWords(fw) && AreWords(hw) && IsWord(name) && DevtsAreWords(mp.pg)
    requires F.DerivedText(mp.features, mp.no_path_retry, mp.retain, oldKernel) == Some(F.FeatureText(fw))
    requires mp.hwhandler == F.FeatureText(hw) && mp.selector == SelectorText(name)
    ensures features == F.FeatureText(fw)
    ensures ret == 0 <==> |MapText(mp, features)| < len
    ensures ret == 0 ==>
              copy.features == Some(features) && copy.hwhandler == Some(mp.hwhandler) && copy.nextpg == InitialPg(mp) &&
              (mp.pg == [] ==> copy.pg == None) &&
              (mp.pg != [] ==> copy.selector == Some(mp.selector) && copy.pg.Some? && SamePaths(copy.pg.value, mp.pg)) &&
              copy.minio == MinioAfterAll(m, ListedGroups(mp.pg, mp.minio, mp.rr_weight), pathvec, mp.selector, mp.rr_weight)
  {
    hide F.DerivedText, F.FeatureText, AreWords, IsWord, Join, TableWords, MapText, AllEntries, ListedGroups, SamePaths, MinioAfterAll;
    hide DevtsAreWords, SelectorText, AllDevts, InitialPg;
    TablePrints(mp, pathvec, fw, hw, name);
    var params;
    ret, params, features := AssembleMap(mp, oldKernel, len);
    copy := new Multipath(mp.rr_weight, m);
    if ret == 0 {
      var again := copy.Disassemble(pathvec, params, TableOf(mp, fw, hw, name));
    }
  }

  // ------------------------------------------------------------------ minio

  /** The last path of the table. */
  function LastPath(pg: seq<seq<Path>>): Option<Path> {
    if pg == [] then None
    else if pg[|pg| - 1] != [] then Some(pg[|pg| - 1][|pg[|pg| - 1]| - 1])
    else LastPath(pg[..|pg| - 1])
  }

  lemma {:induction false} LastDecides(pg: seq<seq<Path>>, minio: int, weight: RrWeight, m: int, pathvec: seq<Path>, selector: string)
    ensures var r := MinioAfterAll(m, ListedGroups(pg, minio, weight), pathvec, selector, weight);
            match LastPath(pg)
            case None => r == m
            case Some(p) =>
              r == MinioOf(Printed(minio, weight, p.priority), selector, weight, EntryFor(pathvec, p.dev_t, 0).priority)
  {
    if pg != [] {
      hide MinioOf, EntryFor, Printed;
      var f, g := pg[..|pg| - 1], pg[|pg| - 1];
      LastDecides(f, minio, weight, m, pathvec, selector);
      var l := ListedGroups(pg, minio, weight);
      assert l[..|l| - 1] == ListedGroups(f, minio, weight);
    }
  }

  function Abs(m: int): nat {
    if m < 0 then -m else m
  }

  /** The factor by which assemble_map scales minio for a path under priority weights. */
  function Scale(priority: int): nat {
    if priority > 0 then priority else 1
  }

  /** Division undoes multiplication by a number not smaller, if what is dropped is less than one. */
  lemma DivisionUndoes(n: nat, p: nat, q: nat)
    requires 0 < n && 0 < q
    ensures n * p / q == n <==> q <= p && n * (p - q) < q
  {
    var x := n * p;
    assert x / q == n <==> n * q <= x < (n + 1) * q by {
      QuotientIs(x, q, n);
    }
    assert n * (p - q) == n * p - n * q;
    assert (n + 1) * q == n * q + q;
    if q <= p {
      assert 0 <= n * (p - q);
    } else {
      assert n * (q - p) >= 1;
      assert n * (q - p) == n * q - n * p;
    }
  }

  lemma QuotientIs(x: nat, q: nat, n: nat)
    requires 0 < q
    ensures x / q == n <==> n * q <= x < (n + 1) * q
  {
    QuotientBounds(x, q);
    if n < x / q {
      Monotone(n + 1, x / q, q);
    } else if n > x / q {
      Monotone(x / q + 1, n, q);
    }
  }

  lemma QuotientBounds(x: nat, q: nat)
    requires 0 < q
    ensures 0 <= x / q && x / q * q <= x < (x / q + 1) * q
  {
    assert x == x / q * q + x % q;
    assert (x / q + 1) * q == x / q * q + q;
  }

  lemma Monotone(a: nat, b: nat, q: nat)
    requires a <= b
    ensures a * q <= b * q
  {
  }

  lemma TruncatedUndoes(m: int, p: nat, q: nat)
    requires 0 < p && 0 < q
    ensures Truncated(m * p, q) == m <==> m == 0 || (q <= p && Abs(m) * (p - q) < q)
  {
    if m > 0 {
      assert m * p >= 0;
      DivisionUndoes(m, p, q);
    } else if m < 0 {
      assert m * p < 0 && -(m * p) == (-m) * p;
      DivisionUndoes(-m, p, q);
    }
  }

  /** minio survives the round trip exactly when it is not weighted, or is 0, or the last path's
      scale is undone.  Under the round-robin selector that depends on the priority that the
      parser knows for the path, and under any other one there must be no scale. */
  lemma MinioRecoveredIff(pg: seq<seq<Path>>, minio: int, weight: RrWeight, m: int, pathvec: seq<Path>, selector: string)
    requires LastPath(pg).Some?
    ensures var p := LastPath(pg).value;
            var scale, known := Scale(p.priority), EntryFor(pathvec, p.dev_t, 0).priority;
            MinioAfterAll(m, ListedGroups(pg, minio, weight), pathvec, selector, weight) == minio <==>
            weight != PrioWeight || minio == 0 ||
            if StartsWith(selector, "round-robin") && known > 0 then known <= scale && Abs(minio) * (scale - known) < known
            else scale == 1
  {
    LastDecides(pg, minio, weight, m, pathvec, selector);
    var p := LastPath(pg).value;
    var scale, known := Scale(p.priority), EntryFor(pathvec, p.dev_t, 0).priority;
    if known > 0 {
      TruncatedUndoes(minio, scale, known);
    }
    ScaledIsSame(minio, scale);
    assert minio * 1 == minio;
    hide Truncated, StartsWith, ListedGroups, MinioAfterAll, FindByDevt, EntryFor, Abs;
  }

  lemma ScaledIsSame(m: int, p: nat)
    requires 0 < p
    ensures m * p == m <==> m == 0 || p == 1
  {
    if m != 0 && p > 1 {
      assert m * (p - 1) != 0;
      assert m * p == m * (p - 1) + m;
    }
  }

  /** In particular it survives when the parser knows the path with its priority. */
  lemma KnownPriorityRecovers(pg: seq<seq<Path>>, minio: int, weight: RrWeight, m: int, pathvec: seq<Path>, selector: string)
    requires LastPath(pg).Some? && StartsWith(selector, "round-robin")
    requires var p := LastPath(pg).value; EntryFor(pathvec, p.dev_t, 0).priority == p.priority
    ensures MinioAfterAll(m, ListedGroups(pg, minio, weight), pathvec, selector, weight) == minio
  {
    MinioRecoveredIff(pg, minio, weight, m, pathvec, selector);
    var p := LastPath(pg).value;
    assert Abs(minio) * 0 == 0;
    hide StartsWith, ListedGroups, MinioAfterAll, EntryFor;
  }
}
