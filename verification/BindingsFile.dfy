/** The bindings file of libmultipath/alias.c: one "alias wwid" line per map, searched line
    by line and only ever extended at its end. */
module BindingsFile {
  import opened Wrappers
  import opened AliasCodec

  const LINE_MAX: nat := 2048
  const WWID_SIZE: nat := 128

  // ------------------------------------------------------------------ lines

  /** The length of what fgets(buf, LINE_MAX, f) reads from the front of `s`. */
  function ChunkLength(s: string, room: nat): (n: nat)
    ensures n <= |s| && n <= room && (s != "" && room > 0 ==> n > 0)
    ensures forall k :: 0 <= k < n - 1 ==> s[k] != '\n'
  {
    if s == "" || room == 0 then 0
    else if s[0] == '\n' then 1
    else
      assert forall k :: 0 < k < |s| ==> s[k] == s[1..][k - 1];
      1 + ChunkLength(s[1..], room - 1)
  }

  /** The successive results of fgets until the end of the file. */
  function Lines(s: string): (ls: seq<string>)
    decreases |s|
  {
    if s == "" then [] else
      var n := ChunkLength(s, LINE_MAX - 1);
      [s[..n]] + Lines(s[n..])
  }

  /** One line: its only newline is its last character. */
  predicate IsLine(l: string) {
    l != "" && l[|l| - 1] == '\n' && |l| < LINE_MAX && forall k :: 0 <= k < |l| - 1 ==> l[k] != '\n'
  }

  predicate Terminated(s: string) {
    s != "" ==> s[|s| - 1] == '\n'
  }

  lemma {:induction false} ChunkOfLine(l: string, rest: string, room: nat)
    requires l != "" && l[|l| - 1] == '\n' && |l| <= room && forall k :: 0 <= k < |l| - 1 ==> l[k] != '\n'
    ensures ChunkLength(l + rest, room) == |l|
  {
    if l[0] != '\n' {
      assert (l + rest)[1..] == l[1..] + rest;
      ChunkOfLine(l[1..], rest, room - 1);
    }
  }

  /** A chunk that ends in a newline or fills the buffer stays as it is when text follows;
      any other swallows some of what follows. */
  lemma {:induction false} ChunkBeforeMore(s: string, t: string, room: nat)
    requires s != "" && room > 0 && t != ""
    ensures var n := ChunkLength(s, room);
            0 < n <= |s| &&
            if n == room || s[n - 1] == '\n' then ChunkLength(s + t, room) == n
            else n == |s| < ChunkLength(s + t, room)
  {
    if s[0] != '\n' {
      assert (s + t)[1..] == s[1..] + t;
      if s[1..] == "" {
        assert s[1..] + t == t;
      } else if room > 1 {
        ChunkBeforeMore(s[1..], t, room - 1);
      }
    }
  }

  /** The last read filled the buffer. */
  predicate FullAtEnd(s: string) {
    s != "" && var ls := Lines(s); |ls[|ls| - 1]| == LINE_MAX - 1
  }

  /** Nothing that is appended is read together with what is there. */
  predicate Complete(s: string) {
    Terminated(s) || FullAtEnd(s)
  }

  lemma SplitAppend(s: string, l: string, n: nat)
    requires n <= |s|
    ensures (s + l)[..n] == s[..n] && (s + l)[n..] == s[n..] + l
  {
  }

  lemma TerminatedRest(s: string, n: nat)
    requires 0 < n <= |s|
    ensures Terminated(s) <==> if n < |s| then Terminated(s[n..]) else s[n - 1] == '\n'
  {
  }

  lemma TerminatedAppend(s: string, l: string)
    requires IsLine(l)
    ensures Terminated(s + l)
  {
  }

  lemma CompleteRest(s: string)
    requires s != ""
    ensures var n := ChunkLength(s, LINE_MAX - 1);
            Complete(s) <==> if n < |s| then Complete(s[n..]) else n == LINE_MAX - 1 || s[n - 1] == '\n'
  {
    hide ChunkLength, Lines, FullAtEnd, Terminated;
    FullRest(s);
    TerminatedRest(s, ChunkLength(s, LINE_MAX - 1));
  }

  lemma FullRest(s: string)
    requires s != ""
    ensures var n := ChunkLength(s, LINE_MAX - 1);
            FullAtEnd(s) <==> if n < |s| then FullAtEnd(s[n..]) else n == LINE_MAX - 1
  {
    assert Lines("") == [];
    hide ChunkLength, Lines;
    var n := ChunkLength(s, LINE_MAX - 1);
    LinesUnfold(s);
    if n < |s| {
      LinesUnfold(s[n..]);
    } else {
      assert s[n..] == "";
    }
  }

  /** Appending a line to a file adds exactly that line to what is read, and leaves the others
      as they were, if and only if the file ends in a newline or with a full buffer. */
  lemma {:induction false} LinesAppend(s: string, l: string)
    requires IsLine(l)
    ensures Lines(s + l) == Lines(s) + [l] <==> Complete(s)
    decreases |s|
  {
    if s == "" {
      LinesOfOne(l);
      assert s + l == l && Lines(s) == [];
    } else {
      var n := ChunkLength(s, LINE_MAX - 1);
      ChunkBeforeMore(s, l, LINE_MAX - 1);
      LinesUnfold(s);
      LinesUnfold(s + l);
      CompleteRest(s);
      LineLonger(s, l);
      if n == LINE_MAX - 1 || s[n - 1] == '\n' {
        SplitAppend(s, l, n);
        LinesAppend(s[n..], l);
        hide Lines, ChunkLength, IsLine, Complete;
        SameFront(s[..n], Lines(s[n..] + l), Lines(s[n..]), l);
        if n == |s| {
          assert s[n..] == "";
        }
      }
    }
  }

  lemma LineLonger(s: string, l: string)
    requires s != ""
    ensures ChunkLength(s, LINE_MAX - 1) == |s| < ChunkLength(s + l, LINE_MAX - 1) ==> Lines(s + l) != Lines(s) + [l]
  {
    LinesUnfold(s);
    LinesUnfold(s + l);
    hide ChunkLength, Lines;
    if ChunkLength(s, LINE_MAX - 1) == |s| < ChunkLength(s + l, LINE_MAX - 1) {
      assert |Lines(s + l)[0]| > |(Lines(s) + [l])[0]|;
    }
  }

  lemma SameFront(x: string, a: seq<string>, b: seq<string>, l: string)
    ensures [x] + a == [x] + b + [l] <==> a == b + [l]
  {
    assert [x] + b + [l] == [x] + (b + [l]);
    assert ([x] + a)[1..] == a && ([x] + (b + [l]))[1..] == b + [l];
  }

  lemma LinesOfOne(l: string)
    requires IsLine(l)
    ensures Lines(l) == [l]
  {
    ChunkOfLine(l, "", LINE_MAX - 1);
    assert l + "" == l && l[..|l|] == l && l[|l|..] == "";
    hide ChunkLength;
  }

  lemma LinesUnfold(s: string)
    requires s != ""
    ensures var n := ChunkLength(s, LINE_MAX - 1); Lines(s) == [s[..n]] + Lines(s[n..])
  {
  }

  // ------------------------------------------------------------------ tokens

  predicate EndsText(c: char) { c == '#' || c == '\n' || c == '\r' || c == '\0' }

  /** The text of a line: comments and the line end are cut off. */
  function Cut(s: string): (r: string)
    ensures r <= s
  {
    if s == "" || EndsText(s[0]) then "" else
      assert s == [s[0]] + s[1..];
      [s[0]] + Cut(s[1..])
  }

  function SkipBlanks(s: string): (r: string)
    ensures |r| <= |s| && (r != "" ==> !IsBlank(r[0]))
  {
    if s != "" && IsBlank(s[0]) then SkipBlanks(s[1..]) else s
  }

  /** What the tokens of a line say; tokens after the second are ignored. */
  datatype Line = Empty | Malformed(alias: string) | Entry(alias: string, wwid: string)

  function ParseLine(l: string): Line {
    var s := SkipBlanks(Cut(l));
    if s == "" then Empty else
      var alias := UpToBlank(s);
      var t := SkipBlanks(s[|alias|..]);
      if t == "" then Malformed(alias) else Entry(alias, UpToBlank(t))
  }

  predicate Clean(s: string) {
    forall k :: 0 <= k < |s| ==> !IsBlank(s[k]) && !EndsText(s[k])
  }

  /** Names that survive being written to and read from a line. */
  predicate IsName(s: string) {
    s != "" && Clean(s)
  }

  lemma {:induction false} CutKeepsName(s: string, t: string)
    requires forall k :: 0 <= k < |s| ==> !EndsText(s[k])
    ensures Cut(s + t) == s + Cut(t)
  {
    if s == "" {
      assert s + t == t && s + Cut(t) == Cut(t);
    } else {
      assert (s + t)[1..] == s[1..] + t && (s + t)[0] == s[0];
      CutKeepsName(s[1..], t);
      assert Cut(s + t) == [s[0]] + Cut(s[1..] + t);
      hide Cut;
      assert [s[0]] + (s[1..] + Cut(t)) == ([s[0]] + s[1..]) + Cut(t);
      assert [s[0]] + s[1..] == s;
    }
  }

  lemma {:induction false} UpToBlankStops(s: string, t: string)
    requires BlankFree(s) && (t == "" || IsBlank(t[0]))
    ensures UpToBlank(s + t) == s
  {
    if s == "" {
      assert s + t == t;
    } else {
      assert (s + t)[1..] == s[1..] + t;
      UpToBlankStops(s[1..], t);
    }
  }

  function BindingLine(alias: string, wwid: string): string {
    alias + " " + wwid + "\n"
  }

  /** A written binding reads back as itself. */
  lemma ParseBindingLine(alias: string, wwid: string)
    requires IsName(alias) && IsName(wwid)
    ensures ParseLine(BindingLine(alias, wwid)) == Entry(alias, wwid)
  {
    var text := alias + " " + wwid;
    CutKeepsName(text, "\n");
    assert Cut("\n") == "" && text + "" == text;
    hide Cut;
    TwoTokens(alias, wwid);
  }

  lemma TwoTokens(alias: string, wwid: string)
    requires IsName(alias) && IsName(wwid)
    ensures var text := alias + " " + wwid;
            && SkipBlanks(text) == text && UpToBlank(text) == alias
            && SkipBlanks(text[|alias|..]) == wwid && UpToBlank(wwid) == wwid
  {
    var rest := " " + wwid;
    UpToBlankOfBlankFree(wwid);
    UpToBlankStops(alias, rest);
    hide UpToBlank;
    assert alias + " " + wwid == alias + rest && rest[1..] == wwid;
    assert (alias + rest)[|alias|..] == rest;
    assert SkipBlanks(rest) == SkipBlanks(wwid) == wwid;
  }

  lemma BindingLineIsLine(alias: string, wwid: string)
    requires IsName(alias) && IsName(wwid) && |alias| + |wwid| + 2 < LINE_MAX
    ensures IsLine(BindingLine(alias, wwid))
  {
  }

  // ------------------------------------------------------------------ contents

  datatype Binding = Binding(alias: string, wwid: string)

  function LineBindings(l: string): (bs: seq<Binding>) {
    match ParseLine(l)
    case Entry(alias, wwid) => [Binding(alias, wwid)]
    case _ => []
  }

  /** The bindings that the lines hold, in file order. */
  function Bindings(ls: seq<string>): (bs: seq<Binding>) {
    if ls == [] then [] else Bindings(ls[..|ls| - 1]) + LineBindings(ls[|ls| - 1])
  }

  /** Some line, complete or not, starts with an alias that means `id` under `prefix`. */
  predicate Used(ls: seq<string>, prefix: Option<string>, id: int) {
    exists k :: 0 <= k < |ls| && LineId(ls[k], prefix) == id
  }

  /** The id that a line takes under `prefix`, or -1. */
  function LineId(l: string, prefix: Option<string>): (id: int)
    ensures -1 <= id <= INT_MAX
  {
    match ParseLine(l)
    case Empty => -1
    case Malformed(alias) => Scan(alias, prefix)
    case Entry(alias, _) => Scan(alias, prefix)
  }

  /** The alias of the first line that binds `wwid`. */
  function FirstMatch(ls: seq<string>, wwid: string): (r: Option<string>) {
    if ls == [] then None else
      var n := |ls| - 1;
      var before := FirstMatch(ls[..n], wwid);
      if before.Some? then before else
        match ParseLine(ls[n])
        case Entry(alias, w) => if w == wwid then Some(alias) else None
        case _ => None
  }

  lemma {:induction false} FirstMatchIsBinding(ls: seq<string>, wwid: string)
    ensures FirstMatch(ls, wwid).Some? ==> Binding(FirstMatch(ls, wwid).value, wwid) in Bindings(ls)
    ensures FirstMatch(ls, wwid) == None ==> forall b :: b in Bindings(ls) ==> b.wwid != wwid
  {
    if ls != [] {
      FirstMatchIsBinding(ls[..|ls| - 1], wwid);
    }
  }

  // ------------------------------------------------------------------ lookup_binding

  lemma {:induction false} FirstMatchStays(ls: seq<string>, k: nat, wwid: string)
    requires k <= |ls| && FirstMatch(ls[..k], wwid).Some?
    ensures FirstMatch(ls, wwid) == FirstMatch(ls[..k], wwid)
  {
    if k < |ls| {
      var front := ls[..|ls| - 1];
      assert front[..k] == ls[..k];
      FirstMatchStays(front, k, wwid);
    } else {
      assert ls[..k] == ls;
    }
  }

  /** The ids that the lines take under `prefix`, in file order. */
  function Ids(ls: seq<string>, prefix: Option<string>): (ids: seq<int>)
    ensures |ids| == |ls| && forall k :: 0 <= k < |ls| ==> ids[k] == LineId(ls[k], prefix)
  {
    if ls == [] then [] else Ids(ls[..|ls| - 1], prefix) + [LineId(ls[|ls| - 1], prefix)]
  }

  /** What the running variables of lookup_binding know about the ids read so far. */
  ghost predicate Seen(ids: seq<int>, id: int, biggest: int, smallest: int) {
    && 1 <= id <= INT_MAX && 1 <= biggest <= INT_MAX && 0 < smallest <= INT_MAX
    && (forall c :: c in ids ==> c <= biggest && (c < id || smallest <= c))
    && (biggest == 1 || biggest in ids)
    && (forall n :: 1 <= n < id ==> n in ids)
  }

  /** One more line, with the updates that lookup_binding makes. */
  lemma SeenNext(ids: seq<int>, c: int, id: int, biggest: int, smallest: int)
    requires Seen(ids, id, biggest, smallest) && -1 <= c <= INT_MAX && (id < INT_MAX || c != id)
    ensures var id' := if c == id then id + 1 else id;
            Seen(ids + [c], id', if c > biggest then c else biggest, if c > id' && c < smallest then c else smallest)
  {
  }

  lemma FirstMatchNext(ls: seq<string>, k: nat, wwid: string)
    requires k < |ls| && FirstMatch(ls[..k], wwid) == None
    ensures ParseLine(ls[k]).Entry? && ParseLine(ls[k]).wwid == wwid ==> FirstMatch(ls, wwid) == Some(ParseLine(ls[k]).alias)
    ensures !(ParseLine(ls[k]).Entry? && ParseLine(ls[k]).wwid == wwid) ==> FirstMatch(ls[..k + 1], wwid) == None
  {
    assert ls[..k + 1][..k] == ls[..k] && ls[..k + 1][k] == ls[k];
    hide ParseLine;
    if ParseLine(ls[k]).Entry? && ParseLine(ls[k]).wwid == wwid {
      FirstMatchStays(ls, k + 1, wwid);
    }
  }

  lemma LineIdOfParsed(l: string, prefix: Option<string>)
    ensures ParseLine(l) == Empty ==> LineId(l, prefix) == -1
    ensures ParseLine(l) != Empty ==> LineId(l, prefix) == Scan(ParseLine(l).alias, prefix)
  {
  }

  lemma UsedIsId(ls: seq<string>, prefix: Option<string>, id: int)
    ensures Used(ls, prefix, id) <==> id in Ids(ls, prefix)
  {
  }

  lemma SeenPositive(ids: seq<int>, id: int, biggest: int, smallest: int)
    requires Seen(ids, id, biggest, smallest)
    ensures 1 <= id <= INT_MAX && 1 <= biggest <= INT_MAX && 0 < smallest <= INT_MAX
  {
  }

  /** Seen, for the first `k` lines. */
  ghost predicate SeenLines(ls: seq<string>, k: nat, prefix: Option<string>, id: int, biggest: int, smallest: int)
    requires k <= |ls|
  {
    Seen(Ids(ls, prefix)[..k], id, biggest, smallest)
  }

  lemma IdsNext(ls: seq<string>, k: nat, prefix: Option<string>)
    requires k < |ls|
    ensures Ids(ls, prefix)[..k + 1] == Ids(ls, prefix)[..k] + [LineId(ls[k], prefix)]
  {
    hide LineId;
  }

  lemma SeenNextLine(ls: seq<string>, k: nat, prefix: Option<string>, id: int, biggest: int, smallest: int)
    requires k < |ls| && SeenLines(ls, k, prefix, id, biggest, smallest)
    ensures var c := LineId(ls[k], prefix); var id' := if c == id then id + 1 else id;
            id < INT_MAX || c != id ==>
              SeenLines(ls, k + 1, prefix, id', if c > biggest then c else biggest, if c > id' && c < smallest then c else smallest)
    ensures 1 <= id <= INT_MAX && 1 <= biggest <= INT_MAX && 0 < smallest <= INT_MAX
    ensures Used(ls, prefix, LineId(ls[k], prefix))
  {
    var c := LineId(ls[k], prefix);
    IdsNext(ls, k, prefix);
    UsedIsId(ls, prefix, c);
    SeenPositive(Ids(ls, prefix)[..k], id, biggest, smallest);
    hide Ids, Used, LineId, Seen;
    if id < INT_MAX || c != id {
      SeenNext(Ids(ls, prefix)[..k], c, id, biggest, smallest);
    }
  }

  lemma SeenDecides(ls: seq<string>, prefix: Option<string>, id: int, biggest: int, smallest: int)
    requires SeenLines(ls, |ls|, prefix, id, biggest, smallest)
    ensures 1 <= id <= INT_MAX && 1 <= biggest <= INT_MAX
    ensures id < smallest ==> !Used(ls, prefix, id)
    ensures biggest < INT_MAX ==> !Used(ls, prefix, biggest + 1)
    ensures biggest == INT_MAX ==> Used(ls, prefix, INT_MAX)
  {
    assert Ids(ls, prefix)[..|ls|] == Ids(ls, prefix);
    UsedIsId(ls, prefix, id);
    UsedIsId(ls, prefix, biggest);
    UsedIsId(ls, prefix, biggest + 1);
  }

  lemma SeenNothing(ls: seq<string>, prefix: Option<string>, wwid: string)
    ensures SeenLines(ls, 0, prefix, 1, 1, INT_MAX) && FirstMatch(ls[..0], wwid) == None
    ensures FirstMatch(ls[..|ls|], wwid) == FirstMatch(ls, wwid)
  {
    assert ls[..|ls|] == ls;
  }

  /** lookup_binding: 0 with the alias of the first line for the wwid, a free id, or -1.
      A free id is one that no line uses, complete or not. */
  method LookupBinding(ls: seq<string>, map_wwid: string, prefix: Option<string>) returns (rc: int, map_alias: Option<string>)
    ensures rc == 0 ==> map_alias == FirstMatch(ls, map_wwid) != None
    ensures rc != 0 ==> map_alias == None
    ensures |ls| < INT_MAX && FirstMatch(ls, map_wwid) != None ==> rc == 0
    ensures rc > 0 ==> rc <= INT_MAX && FirstMatch(ls, map_wwid) == None && !Used(ls, prefix, rc)
    ensures rc < 0 ==> rc == -1 && Used(ls, prefix, INT_MAX)
  {
    map_alias := None;
    var id, biggest_id, smallest_bigger_id := 1, 1, INT_MAX;
    var k := 0;
    SeenNothing(ls, prefix, map_wwid);
    hide SeenLines, Used, FirstMatch, ParseLine, Scan, LineId;
    while k < |ls|
      invariant k <= |ls| && FirstMatch(ls[..k], map_wwid) == None && id <= k + 1
      invariant SeenLines(ls, k, prefix, id, biggest_id, smallest_bigger_id)
    {
      var line := ParseLine(ls[k]);
      FirstMatchNext(ls, k, map_wwid);
      LineIdOfParsed(ls[k], prefix);
      SeenNextLine(ls, k, prefix, id, biggest_id, smallest_bigger_id);
      if line != Empty {
        var curr_id := Scan(line.alias, prefix);
        if curr_id == id {
          if id < INT_MAX {
            id := id + 1;
          } else {
            return -1, None;
          }
        }
        if curr_id > biggest_id {
          biggest_id := curr_id;
        }
        if curr_id > id && curr_id < smallest_bigger_id {
          smallest_bigger_id := curr_id;
        }
        if line.Entry? && line.wwid == map_wwid {
          return 0, Some(line.alias);
        }
      }
      k := k + 1;
    }
    SeenDecides(ls, prefix, id, biggest_id, smallest_bigger_id);
    rc := id;
    if id >= smallest_bigger_id {
      if biggest_id < INT_MAX {
        rc := biggest_id + 1;
      } else {
        rc := -1;
      }
    }
  }

  // ------------------------------------------------------------------ the file

  /** Bindings of distinct aliases and distinct wwids. */
  ghost predicate Distinct(bs: seq<Binding>) {
    forall i, j :: 0 <= i < j < |bs| ==> bs[i].alias != bs[j].alias && bs[i].wwid != bs[j].wwid
  }

  /** No binding of the alias is one that rlookup_binding sees. */
  ghost predicate Unseen(bs: seq<Binding>, alias: string) {
    forall b :: b in bs && b.alias == alias ==> |b.wwid| >= WWID_SIZE
  }

  /** The wwid that rlookup_binding finds for an alias; over-long wwids are passed over. */
  function ReverseMatch(ls: seq<string>, alias: string): (r: Option<string>) {
    if ls == [] then None else
      match ParseLine(ls[0])
      case Entry(a, w) =>
        if |w| <= WWID_SIZE - 1 && a == alias then Some(w) else ReverseMatch(ls[1..], alias)
      case _ => ReverseMatch(ls[1..], alias)
  }

  method RlookupBinding(ls: seq<string>, map_alias: string) returns (buff: Option<string>)
    ensures buff == ReverseMatch(ls, map_alias)
  {
    var k := 0;
    while k < |ls|
      invariant k <= |ls| && ReverseMatch(ls, map_alias) == ReverseMatch(ls[k..], map_alias)
    {
      var line := ParseLine(ls[k]);
      assert ls[k..][1..] == ls[k + 1..];
      if line.Entry? && |line.wwid| <= WWID_SIZE - 1 && line.alias == map_alias {
        return Some(line.wwid);
      }
      k := k + 1;
    }
    buff := None;
  }

  lemma BindingsSnoc(ls: seq<string>, l: string)
    ensures Bindings(ls + [l]) == Bindings(ls) + LineBindings(l)
  {
    assert (ls + [l])[..|ls|] == ls;
  }

  lemma Associative(a: seq<Binding>, b: seq<Binding>, c: seq<Binding>)
    ensures a + (b + c) == (a + b) + c
  {
  }

  lemma {:induction false} BindingsConcat(ls: seq<string>, ms: seq<string>)
    ensures Bindings(ls + ms) == Bindings(ls) + Bindings(ms)
  {
    if ms == [] {
      assert ls + ms == ls && Bindings(ls) + [] == Bindings(ls);
    } else {
      hide Bindings, LineBindings;
      var front, l := ms[..|ms| - 1], ms[|ms| - 1];
      assert ms == front + [l] && ls + ms == (ls + front) + [l];
      BindingsConcat(ls, front);
      BindingsSnoc(front, l);
      BindingsSnoc(ls + front, l);
      Associative(Bindings(ls), Bindings(front), LineBindings(l));
    }
  }

  /** rlookup_binding finds a wwid exactly for the aliases that have one of legal length. */
  lemma {:induction false} ReverseMatchIsBinding(ls: seq<string>, alias: string)
    ensures ReverseMatch(ls, alias).Some? ==> Binding(alias, ReverseMatch(ls, alias).value) in Bindings(ls)
    ensures ReverseMatch(ls, alias).Some? ==> 0 < |ReverseMatch(ls, alias).value| < WWID_SIZE
    ensures ReverseMatch(ls, alias) == None <==> Unseen(Bindings(ls), alias)
  {
    if ls != [] {
      assert ls == [ls[0]] + ls[1..];
      BindingsConcat([ls[0]], ls[1..]);
      assert [ls[0]][..0] == [] && Bindings([ls[0]]) == LineBindings(ls[0]);
      ReverseMatchIsBinding(ls[1..], alias);
    }
  }

  /** An alias that nobody uses as an id of its prefix is bound nowhere. */
  lemma {:induction false} UnusedAliasIsNew(ls: seq<string>, prefix: string, id: nat)
    requires 0 < id <= INT_MAX && !Used(ls, Some(prefix), id)
    ensures forall b :: b in Bindings(ls) ==> b.alias != prefix + Suffix(id)
  {
    ScanInvertsFormat(id, prefix);
    if ls != [] {
      var n := |ls| - 1;
      assert forall k :: 0 <= k < n ==> ls[..n][k] == ls[k];
      assert LineId(ls[n], Some(prefix)) != id;
      UnusedAliasIsNew(ls[..n], prefix, id);
    }
  }

  /** Comment lines, such as those of BINDINGS_FILE_HEADER, bind nothing. */
  lemma {:induction false} CommentsBindNothing(ls: seq<string>)
    requires forall k :: 0 <= k < |ls| ==> ls[k] != "" && ls[k][0] == '#'
    ensures Bindings(ls) == []
  {
    if ls != [] {
      CommentsBindNothing(ls[..|ls| - 1]);
      assert Cut(ls[|ls| - 1]) == "";
    }
  }

  /** strchr(buf, ' ') and termination at that place */
  function BeforeSpace(s: string): string {
    if s == "" || s[0] == ' ' then "" else [s[0]] + BeforeSpace(s[1..])
  }

  lemma {:induction false} BeforeSpaceOfLine(alias: string, t: string)
    requires Clean(alias) && t != "" && t[0] == ' '
    ensures BeforeSpace(alias + t) == alias
  {
    if alias == "" {
      assert alias + t == t;
    } else {
      assert (alias + t)[1..] == alias[1..] + t;
      BeforeSpaceOfLine(alias[1..], t);
    }
  }

  /** A written binding is one more binding of the file, and the file then ends in a newline. */
  lemma AddBinds(s: string, alias: string, wwid: string)
    requires Complete(s) && IsName(alias) && IsName(wwid) && |alias| + |wwid| + 2 < LINE_MAX
    ensures var t := s + BindingLine(alias, wwid);
            && Terminated(t) && Bindings(Lines(t)) == Bindings(Lines(s)) + [Binding(alias, wwid)]
            && |Lines(t)| == |Lines(s)| + 1
  {
    ParseBindingLine(alias, wwid);
    BindingLineIsLine(alias, wwid);
    LinesAppend(s, BindingLine(alias, wwid));
    BindingsSnoc(Lines(s), BindingLine(alias, wwid));
    hide Lines, Bindings;
  }

  /** One more binding keeps aliases and wwids distinct exactly when both are new. */
  lemma DistinctSnoc(bs: seq<Binding>, c: Binding)
    requires Distinct(bs)
    ensures Distinct(bs + [c]) <==> forall b :: b in bs ==> b.alias != c.alias && b.wwid != c.wwid
  {
    var more := bs + [c];
    if Distinct(more) {
      forall b | b in bs ensures b.alias != c.alias && b.wwid != c.wwid {
        var i :| 0 <= i < |bs| && bs[i] == b;
        assert more[i] == b && more[|bs|] == c;
      }
    }
  }

  class File {
    var text: string
    const header: string
    const can_write: bool

    ghost predicate Valid()
      reads this
    {
      Terminated(header) && Bindings(Lines(header)) == [] && Complete(text)
    }

    ghost function Bound(): seq<Binding>
      reads this
    {
      Bindings(Lines(text))
    }

    constructor (text: string, header: string, can_write: bool)
      requires Terminated(header) && Bindings(Lines(header)) == [] && Complete(text)
      ensures Valid() && this.text == text
    {
      this.text, this.header, this.can_write := text, header, can_write;
    }

    /** open_file: an empty file gets the header. */
    method Open() returns (ok: bool)
      requires Valid()
      modifies this
      ensures Valid() && Bound() == old(Bound())
      ensures ok == (old(text) != "" || can_write) && (old(text) != "" || !can_write ==> text == old(text))
    {
      if text == "" {
        if !can_write {
          return false;
        }
        text := header;
      }
      ok := true;
    }

    /** The line that allocate_binding writes, and the alias it returns. */
    static method FormatBinding(wwid: string, id: int32, prefix: string) returns (line: Option<(string, string)>)
      requires IsName(wwid) && Clean(prefix)
      ensures line.Some? <==> id > 0 && |prefix| + |Suffix(id as int)| + |wwid| + 2 < LINE_MAX
      ensures line.Some? ==> line.value == (BindingLine(prefix + Suffix(id as int), wwid), prefix + Suffix(id as int))
    {
      hide Suffix;
      if id <= 0 {
        return None;
      }
      var buf := new char[LINE_MAX];
      var i := FormatDevname(buf, id, prefix);
      if i == -1 || |wwid| + 2 >= LINE_MAX - i {
        return None;
      }
      var text := buf[..i] + " " + wwid + "\n";
      ghost var name := prefix + Suffix(id as int);
      BeforeSpaceOfLine(name, " " + wwid + "\n");
      assert text == name + (" " + wwid + "\n");
      line := Some((text, BeforeSpace(text)));
    }

    /** allocate_binding: append "alias wwid" for a free id. */
    method AllocateBinding(wwid: string, id: int32, prefix: string) returns (alias: Option<string>)
      requires Valid() && IsName(wwid) && Clean(prefix)
      modifies this
      ensures Valid()
      ensures alias.Some? <==> id > 0 && |prefix| + |Suffix(id as int)| + |wwid| + 2 < LINE_MAX
      ensures alias.Some? ==> alias.value == prefix + Suffix(id as int) && Bound() == old(Bound()) + [Binding(alias.value, wwid)]
      ensures alias == None ==> text == old(text)
    {
      hide Lines, Bindings, Complete, BindingLine;
      var line := FormatBinding(wwid, id, prefix);
      if line == None {
        return None;
      }
      AddBinds(text, prefix + Suffix(id as int), wwid);
      text := text + line.value.0;
      TerminatedIsComplete(text);
      alias := Some(line.value.1);
    }

    /** allocate_binding for an id that no line uses and a wwid that has no alias. */
    method BindFree(wwid: string, id: int, prefix: string) returns (alias: Option<string>)
      requires Valid() && IsName(wwid) && Clean(prefix) && 0 < id <= INT_MAX
      requires !Used(Lines(text), Some(prefix), id) && forall b :: b in Bound() ==> b.wwid != wwid
      modifies this
      ensures Valid() && Grows(old(Bound()), Bound(), wwid)
      ensures old(Distinct(Bound())) ==> Distinct(Bound())
      ensures alias.Some? ==> Binding(alias.value, wwid) in Bound()
    {
      UnusedAliasIsNew(Lines(text), prefix, id);
      hide Lines, Bindings, Complete, Used, Suffix, Distinct, Clean, IsName;
      ghost var bs := Bound();
      alias := AllocateBinding(wwid, id as int32, prefix);
      if Distinct(bs) {
        DistinctSnoc(bs, Binding(prefix + Suffix(id), wwid));
      }
    }

    /** get_user_friendly_alias: an alias for `wwid` that the file binds to it, and no alias or
        wwid bound twice that was not before. */
    method GetUserFriendlyAlias(wwid: string, prefix: string, read_only: bool) returns (alias: Option<string>)
      requires Valid() && Clean(wwid) && Clean(prefix)
      modifies this
      ensures Valid() && Grows(old(Bound()), Bound(), wwid)
      ensures old(Distinct(Bound())) ==> Distinct(Bound())
      ensures alias.Some? ==> Binding(alias.value, wwid) in Bound()
      ensures wwid != "" && |Lines(old(text))| < INT_MAX && (exists b :: b in old(Bound()) && b.wwid == wwid) ==> alias.Some?
    {
      assert Bindings(Lines("")) == [];
      hide Distinct, Lines, Bindings, Complete, FirstMatch, Used, Suffix, Clean;
      if wwid == "" {
        return None;
      }
      var ok := Open();
      if !ok {
        return None;
      }
      var ls := Lines(text);
      FirstMatchIsBinding(ls, wwid);
      var rc;
      rc, alias := LookupBinding(ls, wwid, Some(prefix));
      if rc < 0 {
        return None;
      }
      if can_write && !read_only && alias == None {
        alias := BindFree(wwid, rc, prefix);
      }
    }

    /** The wwid that holds an alias, as rlookup_binding tells. */
    method HolderOf(alias: string) returns (buff: Option<string>)
      requires Valid()
      ensures buff.Some? ==> buff.value != "" && Binding(alias, buff.value) in Bound()
      ensures buff == None <==> Unseen(Bound(), alias)
    {
      var ls := Lines(text);
      ReverseMatchIsBinding(ls, alias);
      hide Lines, Bindings, ReverseMatch;
      buff := RlookupBinding(ls, alias);
    }

    /** The alias a wwid has, as lookup_binding without a prefix tells. */
    method AliasOf(wwid: string) returns (alias: Option<string>)
      requires Valid()
      ensures alias.Some? ==> Binding(alias.value, wwid) in Bound()
      ensures alias == None ==> forall b :: b in Bound() ==> b.wwid != wwid
    {
      var ls := Lines(text);
      FirstMatchIsBinding(ls, wwid);
      NoPrefixNoIds(ls);
      hide Lines, Bindings, Used, FirstMatch;
      var rc;
      rc, alias := LookupBinding(ls, wwid, None);
    }

    /** The end of use_existing_alias: an old alias that is a name of the prefix is bound. */
    method BindOldAlias(wwid: string, alias_old: string, prefix: string, read_only: bool) returns (alias: Option<string>)
      requires Valid() && IsName(wwid) && Clean(alias_old) && Clean(prefix)
      modifies this
      ensures Valid()
      ensures alias.Some? <==> can_write && !read_only && Reusable(wwid, alias_old, prefix)
      ensures alias == None ==> text == old(text)
      ensures alias.Some? ==> alias == Some(alias_old) && Bound() == old(Bound()) + [Binding(alias_old, wwid)]
    {
      hide Lines, Bindings, Scan, Suffix, Complete;
      alias := None;
      var id := ScanDevname(alias_old, Some(prefix));
      if id <= 0 {
        return;
      }
      CleanRest(alias_old, prefix);
      FormatInvertsScan(alias_old, prefix);
      if can_write && !read_only {
        alias := AllocateBinding(wwid, id, prefix);
      }
    }

    /** use_existing_alias: at most a line for `alias_old` and `wwid` is written.  It is a second
        line for `alias_old`, and the only way to make distinct bindings clash, exactly when an
        over-long wwid has that alias already. */
    method UseExistingAlias(wwid: string, alias_old: string, prefix: string, read_only: bool) returns (alias: Option<string>)
      requires Valid() && IsName(wwid) && Clean(alias_old) && Clean(prefix)
      modifies this
      ensures Valid()
      ensures Bound() == old(Bound()) +
                if can_write && !read_only && Claims(old(Bound()), wwid, alias_old, prefix) then [Binding(alias_old, wwid)] else []
      ensures alias.Some? ==> Binding(alias.value, wwid) in Bound()
      ensures Bound() != old(Bound()) ==> alias == Some(alias_old)
      ensures old(Distinct(Bound())) ==>
                (!Distinct(Bound()) <==>
                   can_write && !read_only && Claims(old(Bound()), wwid, alias_old, prefix) &&
                   exists b :: b in old(Bound()) && b.alias == alias_old && |b.wwid| >= WWID_SIZE)
    {
      hide Lines, Bindings, Distinct, Complete, Clean, IsName, Reusable;
      ghost var bs := Bound();
      alias := None;
      assert bs + [] == bs;
      var ok := Open();
      if !ok {
        return;
      }
      var buff := HolderOf(alias_old);
      if buff.Some? && |buff.value| > 0 {
        return if buff.value == wwid then Some(alias_old) else None;
      }
      alias := AliasOf(wwid);
      if alias == None {
        alias := BindOldAlias(wwid, alias_old, prefix, read_only);
        if Distinct(bs) {
          DistinctSnoc(bs, Binding(alias_old, wwid));
        }
      }
    }
  }

  lemma TerminatedIsComplete(s: string)
    requires Terminated(s)
    ensures Complete(s)
  {
  }

  lemma CleanRest(alias: string, prefix: string)
    requires Clean(alias) && Scan(alias, Some(prefix)) > 0
    ensures BlankFree(alias[|prefix|..])
  {
    var tail := alias[|prefix|..];
    assert forall k :: 0 <= k < |tail| ==> tail[k] == alias[|prefix| + k];
  }

  /** `alias_old` is a name of the prefix, and a line with it fits its buffer. */
  predicate Reusable(wwid: string, alias_old: string, prefix: string) {
    Scan(alias_old, Some(prefix)) > 0 && |alias_old| + |wwid| + 2 < LINE_MAX
  }

  /** Nothing that use_existing_alias can see keeps it from binding `alias_old` to `wwid`. */
  ghost predicate Claims(bs: seq<Binding>, wwid: string, alias_old: string, prefix: string) {
    Unseen(bs, alias_old) && (forall b :: b in bs ==> b.wwid != wwid) && Reusable(wwid, alias_old, prefix)
  }

  /** Nothing but at most one new binding for `wwid` is added, at the end. */
  predicate Grows(before: seq<Binding>, after: seq<Binding>, wwid: string) {
    after == before || (|after| == |before| + 1 && before <= after && after[|before|].wwid == wwid)
  }

  lemma NoPrefixNoIds(ls: seq<string>)
    ensures !Used(ls, None, INT_MAX)
  {
  }

  // ------------------------------------------------------------------ runs

  datatype Call =
    | Get(wwid: string, prefix: string, read_only: bool)
    | Use(wwid: string, alias_old: string, prefix: string, read_only: bool)

  predicate Legal(c: Call) {
    && Clean(c.wwid) && Clean(c.prefix)
    && (c.Use? ==> c.wwid != "" && Clean(c.alias_old))
  }

  /** The call does not ask for an alias that an over-long wwid has. */
  ghost predicate Harmless(c: Call, bs: seq<Binding>) {
    c.Use? ==> forall b :: b in bs && b.alias == c.alias_old ==> |b.wwid| < WWID_SIZE
  }

  lemma OneAliasPerWwid(bs: seq<Binding>, a: Binding, b: Binding)
    requires Distinct(bs) && a in bs && b in bs
    ensures a.wwid == b.wwid <==> a.alias == b.alias
  {
  }

  method Do(f: File, c: Call) returns (a: Option<string>)
    requires f.Valid() && Legal(c)
    modifies f
    ensures f.Valid() && old(f.Bound()) <= f.Bound()
    ensures a.Some? ==> Binding(a.value, c.wwid) in f.Bound()
    ensures old(Distinct(f.Bound())) && Harmless(c, old(f.Bound())) ==> Distinct(f.Bound())
    ensures forall b :: b in f.Bound() ==> b in old(f.Bound()) || b.wwid == c.wwid
  {
    hide Lines, Bindings, Distinct, Complete, Claims;
    match c {
      case Get(wwid, prefix, read_only) =>
        a := f.GetUserFriendlyAlias(wwid, prefix, read_only);
      case Use(wwid, alias_old, prefix, read_only) =>
        a := f.UseExistingAlias(wwid, alias_old, prefix, read_only);
    }
  }

  /** Over any run of calls, with whatever prefixes, the file keeps every binding it ever had.
      If no call asks for the alias of an over-long wwid, it stays free of duplicate aliases and
      wwids, and two calls for one wwid that are answered get the same answer, as two calls for
      different wwids never do. */
  method Run(f: File, calls: seq<Call>) returns (answers: seq<Option<string>>)
    requires f.Valid() && forall i :: 0 <= i < |calls| ==> Legal(calls[i])
    modifies f
    ensures f.Valid() && old(f.Bound()) <= f.Bound() && |answers| == |calls|
    ensures forall i :: 0 <= i < |calls| && answers[i].Some? ==> Binding(answers[i].value, calls[i].wwid) in f.Bound()
    ensures old(Distinct(f.Bound())) && (forall i :: 0 <= i < |calls| ==> Harmless(calls[i], f.Bound())) ==>
              && Distinct(f.Bound())
              && forall i, j :: 0 <= i < |calls| && 0 <= j < |calls| && answers[i].Some? && answers[j].Some? ==>
                   (calls[i].wwid == calls[j].wwid <==> answers[i] == answers[j])
    ensures (forall b :: b in old(f.Bound()) ==> |b.wwid| < WWID_SIZE) && (forall i :: 0 <= i < |calls| ==> |calls[i].wwid| < WWID_SIZE) ==>
              forall i :: 0 <= i < |calls| ==> Harmless(calls[i], f.Bound())
  {
    answers := [];
    hide Lines, Bindings, Distinct, Complete, Legal;
    ghost var before := f.Bound();
    for k := 0 to |calls|
      invariant f.Valid() && before <= f.Bound() && |answers| == k
      invariant forall i :: 0 <= i < k && answers[i].Some? ==> Binding(answers[i].value, calls[i].wwid) in f.Bound()
      invariant Distinct(before) && (forall i :: 0 <= i < k ==> Harmless(calls[i], f.Bound())) ==> Distinct(f.Bound())
      invariant forall b :: b in f.Bound() ==> b in before || exists i :: 0 <= i < k && b.wwid == calls[i].wwid
    {
      assert Legal(calls[k]);
      ghost var bs := f.Bound();
      var a := Do(f, calls[k]);
      forall i | 0 <= i <= k && Harmless(calls[i], f.Bound()) ensures Harmless(calls[i], bs) {
      }
      answers := answers + [a];
    }
    if Distinct(f.Bound()) {
      forall i, j | 0 <= i < |calls| && 0 <= j < |calls| && answers[i].Some? && answers[j].Some?
        ensures calls[i].wwid == calls[j].wwid <==> answers[i] == answers[j]
      {
        OneAliasPerWwid(f.Bound(), Binding(answers[i].value, calls[i].wwid), Binding(answers[j].value, calls[j].wwid));
      }
    }
  }
}
