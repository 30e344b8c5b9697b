/** Quoted values of the configuration file: the tokenizer and set_value of
    libmultipath/parser.c against the printer print_str of libmultipath/dict.c. */
module Quoting {

  import opened Wrappers

  /** A slot of the token vector: the quote marker, or text. */
  datatype Token = Quote | Word(text: string)

  // ------------------------------------------------------------------ characters

  /** What is skipped between tokens: isspace, or outside ASCII. */
  predicate IsBlank(c: char) {
    c == ' ' || '\t' <= c <= '\r' || 128 as char <= c
  }

  predicate IsComment(c: char) {
    c == '!' || c == '#'
  }

  predicate IsBrace(c: char) {
    c == '{' || c == '}'
  }

  predicate EndsWord(c: char) {
    IsBlank(c) || IsComment(c) || IsBrace(c) || c == '"'
  }

  // ------------------------------------------------------------------ what the tokenizer computes

  function SkipBlanks(s: string, i: nat): (j: nat)
    requires i <= |s|
    ensures i <= j <= |s| && (j < |s| ==> !IsBlank(s[j]))
    decreases |s| - i
  {
    if i < |s| && IsBlank(s[i]) then SkipBlanks(s, i + 1) else i
  }

  function WordEnd(s: string, i: nat): (j: nat)
    requires i <= |s|
    ensures i <= j <= |s| && (j < |s| ==> EndsWord(s[j]))
    decreases |s| - i
  {
    if i < |s| && !EndsWord(s[i]) then WordEnd(s, i + 1) else i
  }

  /** Inside a string: the next quote that is not one of two in a row. */
  function StringEnd(s: string, i: nat): (j: nat)
    requires i <= |s|
    ensures i <= j <= |s|
    decreases |s| - i
  {
    if i == |s| then i
    else if s[i] != '"' then StringEnd(s, i + 1)
    else if i + 1 < |s| && s[i + 1] == '"' then StringEnd(s, i + 2)
    else i
  }

  /** Two quotes in a row stand for one. */
  function Collapse(t: string): string {
    if |t| < 2 then t
    else if t[0] == '"' && t[1] == '"' then "\"" + Collapse(t[2..])
    else [t[0]] + Collapse(t[1..])
  }

  /** One token from position `i`: the token, where it ends, and whether a string is open there. */
  function NextToken(s: string, i: nat, inString: bool): (r: (Token, nat, bool))
    requires i < |s| && (inString || (!IsBlank(s[i]) && !IsComment(s[i])))
    ensures i < r.1 <= |s|
  {
    if s[i] == '"' && !(inString && i + 1 < |s| && s[i + 1] == '"') then (Quote, i + 1, !inString)
    else if !inString && IsBrace(s[i]) then (Word([s[i]]), i + 1, false)
    else if inString then
      (Word(Collapse(s[i..StringEnd(s, i)])), StringEnd(s, i), true)
    else (Word(s[i..WordEnd(s, i)]), WordEnd(s, i), false)
  }

  /** The line is over: nothing left, or a comment outside a string. */
  predicate AtEnd(s: string, i: nat, inString: bool)
    requires i <= |s|
  {
    i == |s| || (!inString && IsComment(s[i]))
  }

  /** The start of the next token. */
  function Resume(s: string, i: nat, inString: bool): (j: nat)
    requires i <= |s|
    ensures i <= j <= |s| && (!inString && j < |s| ==> !IsBlank(s[j]))
  {
    if inString then i else SkipBlanks(s, i)
  }

  function TokensFrom(s: string, i: nat, inString: bool): seq<Token>
    requires i < |s| && (inString || (!IsBlank(s[i]) && !IsComment(s[i])))
    decreases |s| - i
  {
    var (t, j, open) := NextToken(s, i, inString);
    var k := Resume(s, j, open);
    if AtEnd(s, k, open) then [t] else [t] + TokensFrom(s, k, open)
  }

  function Tokens(s: string): Option<seq<Token>> {
    var i := SkipBlanks(s, 0);
    if AtEnd(s, i, false) then None else Some(TokensFrom(s, i, false))
  }

  // ------------------------------------------------------------------ the tokenizer

  predicate PairAt(t: string, q: nat) {
    q + 1 < |t| && t[q] == '"' && t[q + 1] == '"'
  }

  /** strstr(t + from, two quotes): the first pair at or after `from`, or the text's length. */
  method FindPair(t: string, from: nat) returns (p: nat)
    requires from <= |t|
    ensures from <= p <= |t| && (p < |t| ==> PairAt(t, p))
    ensures forall q :: from <= q < p ==> !PairAt(t, q)
  {
    p := from;
    while p + 1 < |t|
      invariant from <= p <= |t|
      invariant forall q :: from <= q < p ==> !PairAt(t, q)
    {
      if t[p] == '"' && t[p + 1] == '"' {
        return;
      }
      p := p + 1;
    }
    p := |t|;
  }

  /** Text before the first pair is kept as it is. */
  lemma {:induction false} CollapseSkips(t: string, n: nat)
    requires n <= |t| && forall q: nat :: q < n ==> !PairAt(t, q)
    ensures Collapse(t) == t[..n] + Collapse(t[n..])
  {
    if n == 0 {
      assert t[0..] == t;
    } else if |t| >= 2 {
      assert !PairAt(t, 0);
      assert Collapse(t) == [t[0]] + Collapse(t[1..]);
      forall q: nat | q < n - 1 ensures !PairAt(t[1..], q) {
        assert !PairAt(t, q + 1);
      }
      CollapseSkips(t[1..], n - 1);
      hide Collapse;
      assert t[1..][n - 1..] == t[n..];
      assert t[..n] == [t[0]] + t[1..][..n - 1];
    } else {
      assert t[n..] == "";
    }
  }

  /** The text before `at` is done, the rest still to be collapsed. */
  predicate Collapsing(token: string, t: string, at: nat) {
    at <= |t| && Collapse(token) == t[..at] + Collapse(t[at..])
  }

  lemma SkipTo(token: string, t: string, at: nat, p: nat)
    requires Collapsing(token, t, at) && at <= p <= |t| && forall q :: at <= q < p ==> !PairAt(t, q)
    ensures Collapsing(token, t, p)
  {
    hide Collapse;
    var rest := t[at..];
    forall q: nat | q < p - at ensures !PairAt(rest, q) {
      assert !PairAt(t, at + q);
    }
    CollapseSkips(rest, p - at);
    hide PairAt;
    var a, b, c := t[..at], rest[..p - at], Collapse(t[p..]);
    assert rest[p - at..] == t[p..];
    assert t[..p] == a + b;
    assert a + (b + c) == (a + b) + c;
  }

  lemma DropSecond(token: string, t: string, p: nat)
    requires Collapsing(token, t, p) && PairAt(t, p)
    ensures Collapsing(token, t[..p + 1] + t[p + 2..], p + 1)
  {
    var u := t[..p + 1] + t[p + 2..];
    assert t[p..][2..] == t[p + 2..] == u[p + 1..];
    assert u[..p + 1] == t[..p] + "\"";
  }

  /** The replacement loop of alloc_strvec: each pair found loses its second quote. */
  method CollapsePairs(token: string) returns (t: string)
    ensures t == Collapse(token)
  {
    t := token;
    assert t[..0] == "" && t[0..] == t;
    var qq := FindPair(t, 0);
    SkipTo(token, t, 0, qq);
    hide Collapse, Collapsing;
    while qq < |t|
      invariant qq <= |t| && (qq < |t| ==> PairAt(t, qq)) && Collapsing(token, t, qq)
      decreases |t| - qq
    {
      DropSecond(token, t, qq);
      t := t[..qq + 1] + t[qq + 2..];
      ghost var at := qq + 1;
      qq := FindPair(t, qq + 1);
      SkipTo(token, t, at, qq);
    }
    Collapsed(token, t);
  }

  lemma Collapsed(token: string, t: string)
    requires Collapsing(token, t, |t|)
    ensures t == Collapse(token)
  {
  }

  /** Outside a string blanks are skipped. */
  method SkipSpace(s: string, start: nat, inString: bool) returns (cp: nat)
    requires start <= |s|
    ensures cp == Resume(s, start, inString)
  {
    cp := start;
    while !inString && cp < |s| && IsBlank(s[cp])
      invariant start <= cp <= |s| && Resume(s, cp, inString) == Resume(s, start, inString)
    {
      cp := cp + 1;
    }
  }

  lemma TokensUnfold(s: string, i: nat, inString: bool)
    requires i < |s| && (inString || (!IsBlank(s[i]) && !IsComment(s[i])))
    ensures var (t, j, open) := NextToken(s, i, inString);
            var k := Resume(s, j, open);
            TokensFrom(s, i, inString) == if AtEnd(s, k, open) then [t] else [t] + TokensFrom(s, k, open)
  {
  }

  /** alloc_strvec: every turn of its loop consumes at least one character. */
  method AllocStrvec(s: string) returns (strvec: Option<seq<Token>>)
    ensures strvec == Tokens(s)
  {
    hide NextToken, SkipBlanks, TokensFrom, IsBlank, IsComment;
    var cp := SkipSpace(s, 0, false);
    if cp == |s| || IsComment(s[cp]) {
      return None;
    }
    var tokens: seq<Token> := [];
    var inString := false;
    ghost var all := TokensFrom(s, cp, false);
    while true
      invariant cp < |s| && (inString || (!IsBlank(s[cp]) && !IsComment(s[cp])))
      invariant tokens + TokensFrom(s, cp, inString) == all
      decreases |s| - cp
    {
      TokensUnfold(s, cp, inString);
      var token;
      token, cp, inString := ScanToken(s, cp, inString);
      tokens := tokens + [token];
      cp := SkipSpace(s, cp, inString);
      if cp == |s| || (!inString && IsComment(s[cp])) {
        return Some(tokens);
      }
    }
  }

  /** The body of the token loop. */
  method ScanToken(s: string, start: nat, inString: bool) returns (token: Token, cp: nat, open: bool)
    requires start < |s| && (inString || (!IsBlank(s[start]) && !IsComment(s[start])))
    ensures (token, cp, open) == NextToken(s, start, inString)
  {
    cp, open := start, inString;
    if s[cp] == '"' && !(inString && cp + 1 < |s| && s[cp + 1] == '"') {
      return Quote, cp + 1, !inString;
    }
    if !inString && IsBrace(s[cp]) {
      return Word([s[cp]]), cp + 1, false;
    }
    var twoQuotes := false;
    while true
      invariant start <= cp <= |s|
      invariant inString ==> StringEnd(s, cp) == StringEnd(s, start)
      invariant !inString ==> cp == start
      invariant if twoQuotes then inString else cp == start
      decreases |s| - cp
    {
      ghost var from := cp;
      while cp < |s| && (inString || !(IsBlank(s[cp]) || IsComment(s[cp]) || IsBrace(s[cp]))) && s[cp] != '"'
        invariant from <= cp <= |s|
        invariant inString ==> StringEnd(s, cp) == StringEnd(s, start)
        invariant !inString ==> WordEnd(s, cp) == WordEnd(s, start)
        invariant forall q :: from <= q < cp ==> s[q] != '"'
      {
        cp := cp + 1;
      }
      if inString && cp < |s| && s[cp] == '"' && cp + 1 < |s| && s[cp + 1] == '"' {
        twoQuotes := true;
        cp := cp + 2;
      } else {
        break;
      }
    }
    var text := s[start..cp];
    if twoQuotes {
      text := CollapsePairs(text);
    } else {
      forall q: nat | q < |text| ensures !PairAt(text, q) {
        assert text[q] == s[start + q];
      }
      CollapseSkips(text, |text|);
      assert text[|text|..] == "" && text[..|text|] == text;
    }
    token := Word(text);
    ghost var next := NextToken(s, start, inString);
    assert next.0 == token && next.1 == cp && next.2 == open;
  }

  // ------------------------------------------------------------------ reading a value

  /** Words up to the next quote marker, joined with blanks to what is there already. */
  function Joined(alloc: string, tokens: seq<Token>, i: nat): string
    requires i <= |tokens|
    decreases |tokens| - i
  {
    if i == |tokens| || tokens[i] == Quote then alloc
    else Joined(alloc + (if alloc != "" then " " else "") + tokens[i].text, tokens, i + 1)
  }

  function Value(tokens: seq<Token>): Option<string> {
    if |tokens| < 2 then None
    else if tokens[1].Word? then (if tokens[1].text == "" then None else Some(tokens[1].text))
    else Some(Joined("", tokens, 2))
  }

  /** set_value: None stands for a missing or empty unquoted value. */
  method SetValue(strvec: seq<Token>) returns (value: Option<string>)
    ensures value == Value(strvec)
  {
    if |strvec| <= 1 {
      return None;
    }
    if strvec[1] != Quote {
      return if |strvec[1].text| == 0 then None else Some(strvec[1].text);
    }
    var alloc := "";
    var i := 2;
    while i < |strvec|
      invariant 2 <= i <= |strvec| && Joined(alloc, strvec, i) == Joined("", strvec, 2)
    {
      if strvec[i] == Quote {
        break;
      }
      if alloc != "" {
        alloc := alloc + " ";
      }
      alloc := alloc + strvec[i].text;
      i := i + 1;
    }
    value := Some(alloc);
  }

  // ------------------------------------------------------------------ printing a value

  function Escape(v: string): string {
    if v == "" then "" else (if v[0] == '"' then "\"\"" else [v[0]]) + Escape(v[1..])
  }

  function Quoted(v: string): string {
    "\"" + Escape(v) + "\""
  }

  /** strchr(v + from, '"'): the first quote at or after `from`, or the length. */
  method FindQuote(v: string, from: nat) returns (q: nat)
    requires from <= |v|
    ensures from <= q <= |v| && (q < |v| ==> v[q] == '"')
    ensures forall k :: from <= k < q ==> v[k] != '"'
  {
    q := from;
    while q < |v| && v[q] != '"'
      invariant from <= q <= |v| && forall k :: from <= k < q ==> v[k] != '"'
    {
      q := q + 1;
    }
  }

  lemma {:induction false} EscapeSplits(a: string, b: string)
    ensures Escape(a + b) == Escape(a) + Escape(b)
  {
    if a == "" {
      assert a + b == b;
    } else {
      assert (a + b)[1..] == a[1..] + b;
      EscapeSplits(a[1..], b);
    }
  }

  lemma {:induction false} EscapePlain(v: string)
    ensures |v| <= |Escape(v)|
    ensures '"' !in v ==> Escape(v) == v
  {
    if v != "" {
      EscapePlain(v[1..]);
    }
  }

  /** The text before a quote, and the quote doubled. */
  lemma EscapeThrough(v: string, ptr: nat, q: nat)
    requires ptr <= q < |v| && v[q] == '"' && forall k :: ptr <= k < q ==> v[k] != '"'
    ensures Escape(v[..q + 1]) == Escape(v[..ptr]) + v[ptr..q + 1] + "\""
  {
    assert v[..q + 1] == v[..ptr] + (v[ptr..q] + "\"");
    EscapeSplits(v[..ptr], v[ptr..q] + "\"");
    EscapeSplits(v[ptr..q], "\"");
    EscapePlain(v[ptr..q]);
    assert Escape("\"") == "\"\"";
    assert v[ptr..q + 1] == v[ptr..q] + "\"";
  }

  lemma EscapeRest(v: string, ptr: nat)
    requires ptr <= |v| && forall k :: ptr <= k < |v| ==> v[k] != '"'
    ensures Escape(v) == Escape(v[..ptr]) + v[ptr..]
  {
    assert v == v[..ptr] + v[ptr..];
    EscapeSplits(v[..ptr], v[ptr..]);
    EscapePlain(v[ptr..]);
  }

  lemma EscapePrefix(v: string, n: nat)
    requires n <= |v|
    ensures |Escape(v[..n])| + |v| - n <= |Escape(v)|
  {
    assert v == v[..n] + v[n..];
    EscapeSplits(v[..n], v[n..]);
    EscapePlain(v[n..]);
  }

  lemma PrefixIsPrefix(v: string, n: nat)
    requires n <= |v|
    ensures "\"" + Escape(v[..n]) <= Quoted(v)
  {
    assert v == v[..n] + v[n..];
    EscapeSplits(v[..n], v[n..]);
    hide Escape;
    assert Quoted(v) == "\"" + Escape(v[..n]) + (Escape(v[n..]) + "\"");
  }

  lemma Shorter(a: string, w: string, y: string, b: string, x: nat)
    requires a + w + y <= b && x <= |w|
    ensures a + w[..x] <= b
  {
    assert a + w[..x] <= a + w + y;
  }

  /** What print_str has written when `x` characters are copied behind `ptr`, before the next quote. */
  lemma CopiedIsPrefix(v: string, ptr: nat, q: nat, x: nat)
    requires ptr <= q <= |v| && (q < |v| ==> v[q] == '"') && forall k :: ptr <= k < q ==> v[k] != '"'
    requires ptr + x <= q + 1 && ptr + x <= |v|
    ensures "\"" + Escape(v[..ptr]) + v[ptr..ptr + x] <= Quoted(v)
  {
    var a, b, end := "\"" + Escape(v[..ptr]), Quoted(v), if q < |v| then q + 1 else |v|;
    if q < |v| {
      EscapeThrough(v, ptr, q);
      PrefixIsPrefix(v, q + 1);
    } else {
      EscapeRest(v, ptr);
    }
    hide Escape;
    Regrouped("\"", Escape(v[..ptr]), v[ptr..end], "\"");
    SliceOfSlice(v, ptr, end, x);
    Shorter(a, v[ptr..end], "\"", b, x);
  }

  lemma SliceOfSlice(v: string, a: nat, b: nat, x: nat)
    requires a <= b <= |v| && a + x <= b
    ensures v[a..b][..x] == v[a..a + x]
  {
  }

  lemma Regrouped(a: string, b: string, c: string, e: string)
    ensures a + (b + c + e) == a + b + c + e && a + (b + c) + e == a + b + c + e
  {
  }

  /** The text of print_str behind the quotes it has copied so far. */
  predicate Copied(v: string, text: string, ptr: nat) {
    ptr <= |v| && text == "\"" + Escape(v[..ptr])
  }

  lemma CopyStarts(v: string)
    ensures Copied(v, "\"", 0)
  {
    assert v[..0] == "";
  }

  lemma CopyStep(v: string, text: string, ptr: nat, q: nat)
    requires Copied(v, text, ptr) && ptr <= q < |v| && v[q] == '"' && forall k :: ptr <= k < q ==> v[k] != '"'
    ensures Copied(v, text + v[ptr..q + 1] + "\"", q + 1)
    ensures |text| + (q + 1 - ptr) + 1 < |Quoted(v)| && text + v[ptr..q + 1] + "\"" <= Quoted(v)
  {
    EscapeThrough(v, ptr, q);
    EscapePrefix(v, q + 1);
    PrefixIsPrefix(v, q + 1);
    hide Escape;
  }

  lemma CopyEnds(v: string, text: string, ptr: nat)
    requires Copied(v, text, ptr) && forall k :: ptr <= k < |v| ==> v[k] != '"'
    ensures text + v[ptr..] + "\"" == Quoted(v)
  {
    EscapeRest(v, ptr);
    hide Escape;
  }

  /** print_str into a buffer of `len` bytes. The text is complete exactly when the printed
      form and its terminating NUL fit; otherwise at least `len` is returned, and the text is
      the beginning of the printed form, filling the buffer up to one byte at most. */
  method PrintStr(len: int, v: string) returns (text: string, n: int)
    ensures len <= 0 ==> n == 0
    ensures 0 < len && |Quoted(v)| < len ==> text == Quoted(v) && n == |text|
    ensures 0 < len && len <= |Quoted(v)| ==> len <= n && text <= Quoted(v) && len - 2 <= |text| < len
  {
    text, n := "", 0;
    if len <= 0 {
      return;
    }
    var q := FindQuote(v, 0);
    EscapePlain(v);
    CopyStarts(v);
    hide Escape, Copied;
    if q == |v| {
      var all := "\"" + v + "\"";
      return if |all| < len then all else all[..len - 1], |all|;
    }
    var last := len - 1;
    if 0 >= last {
      return text, len;
    }
    text := "\"";
    if |text| >= last {
      return text, len;
    }
    var ptr: nat := 0;
    while q < |v|
      invariant ptr <= q <= |v| && (q < |v| ==> v[q] == '"') && forall k :: ptr <= k < q ==> v[k] != '"'
      invariant Copied(v, text, ptr) && |text| < last
      decreases |v| - ptr
    {
      CopyStep(v, text, ptr, q);
      if q + 1 - ptr < last - |text| {
        text := text + v[ptr..q + 1];
      } else {
        CutBehind(v, text, ptr, q, last - |text|);
        return text + v[ptr..ptr + last - |text|], len;
      }
      text := text + "\"";
      if |text| >= last {
        return text, len;
      }
      ptr := q + 1;
      q := FindQuote(v, ptr);
    }
    CopyEnds(v, text, ptr);
    // strlcpy reports the length it would have liked to copy, and keeps a byte for its NUL
    if |text| + (|v| - ptr) >= last {
      CutBehind(v, text, ptr, q, last - |text| - 1);
      return text + v[ptr..ptr + last - |text| - 1], len;
    }
    text := text + v[ptr..] + "\"";
    n := |text|;
  }

  lemma CutBehind(v: string, text: string, ptr: nat, q: nat, x: nat)
    requires Copied(v, text, ptr) && ptr <= q <= |v| && (q < |v| ==> v[q] == '"') && forall k :: ptr <= k < q ==> v[k] != '"'
    requires ptr + x <= q + 1 && ptr + x <= |v|
    ensures text + v[ptr..ptr + x] <= Quoted(v)
  {
    CopiedIsPrefix(v, ptr, q, x);
    hide Escape;
  }

  // ------------------------------------------------------------------ there and back

  lemma {:induction false} CollapseEscape(v: string)
    ensures Collapse(Escape(v)) == v
  {
    if v != "" {
      CollapseEscape(v[1..]);
      var e := Escape(v);
      if v[0] == '"' {
        assert e[2..] == Escape(v[1..]);
      } else {
        assert e[1..] == Escape(v[1..]);
      }
    }
  }

  /** The printed text `e` stands in `s` at `i`, and a closing quote behind it. */
  predicate StandsQuoted(s: string, i: nat, e: string) {
    var j := i + |e|;
    j < |s| && s[i..j] == e && s[j] == '"' && (j + 1 < |s| ==> s[j + 1] != '"')
  }

  lemma {:induction false} StringEndAfter(s: string, i: nat, v: string)
    requires StandsQuoted(s, i, Escape(v))
    ensures StringEnd(s, i) == i + |Escape(v)|
    decreases |v|
  {
    var e := Escape(v);
    if v != "" {
      assert s[i] == e[0];
      if v[0] == '"' {
        assert s[i + 1] == e[1];
        assert s[i + 2..i + |e|] == e[2..] == Escape(v[1..]);
        StringEndAfter(s, i + 2, v[1..]);
      } else {
        assert s[i + 1..i + |e|] == e[1..] == Escape(v[1..]);
        StringEndAfter(s, i + 1, v[1..]);
      }
    }
  }

  lemma {:induction false} SkipBlanksTo(s: string, i: nat, j: nat)
    requires i <= j <= |s| && (forall k :: i <= k < j ==> IsBlank(s[k])) && (j < |s| ==> !IsBlank(s[j]))
    ensures SkipBlanks(s, i) == j
    decreases j - i
  {
    if i < j {
      SkipBlanksTo(s, i + 1, j);
    }
  }

  lemma {:induction false} WordEndAt(s: string, i: nat, j: nat)
    requires i <= j <= |s| && (forall k :: i <= k < j ==> !EndsWord(s[k])) && (j < |s| ==> EndsWord(s[j]))
    ensures WordEnd(s, i) == j
    decreases j - i
  {
    if i < j {
      WordEndAt(s, i + 1, j);
    }
  }

  /** A keyword: one word. */
  predicate IsKeyword(kw: string) {
    kw != "" && forall k :: 0 <= k < |kw| ==> !EndsWord(kw[k])
  }

  /** What may stand behind a value: blanks, and then nothing or a comment. */
  predicate IsTail(s: string, i: nat)
    requires i <= |s|
  {
    AtEnd(s, SkipBlanks(s, i), false)
  }

  lemma OpeningQuote(s: string, i: nat)
    requires i + 1 < |s| && s[i] == '"'
    ensures TokensFrom(s, i, false) == [Quote] + TokensFrom(s, i + 1, true)
  {
    assert NextToken(s, i, false) == (Quote, i + 1, true);
  }

  lemma ClosingQuote(s: string, j: nat)
    requires j < |s| && s[j] == '"' && (j + 1 < |s| ==> s[j + 1] != '"') && IsTail(s, j + 1)
    ensures TokensFrom(s, j, true) == [Quote]
  {
    assert NextToken(s, j, true) == (Quote, j + 1, false);
  }

  lemma StringToken(s: string, i: nat, v: string)
    requires v != "" && StandsQuoted(s, i, Escape(v))
    ensures TokensFrom(s, i, true) == [Word(v)] + TokensFrom(s, i + |Escape(v)|, true)
  {
    hide Escape, Collapse, TokensFrom;
    StringNext(s, i, v);
    TokensUnfold(s, i, true);
    assert s[i + |Escape(v)|] == '"';
  }

  /** Inside a string the next token is the printed value, unless that is empty. */
  lemma StringNext(s: string, i: nat, v: string)
    requires v != "" && StandsQuoted(s, i, Escape(v))
    ensures i < |s| && NextToken(s, i, true) == (Word(v), i + |Escape(v)|, true)
  {
    hide Escape, Collapse, StringEnd, IsBlank, IsComment, IsBrace, StandsQuoted;
    EscapeStart(v);
    StandsInside(s, i, Escape(v));
    StringEndAfter(s, i, v);
    CollapseEscape(v);
  }

  lemma StandsInside(s: string, i: nat, e: string)
    requires StandsQuoted(s, i, e) && e != ""
    ensures i + |e| < |s| && s[i..i + |e|] == e && s[i] == e[0] && (|e| > 1 ==> s[i + 1] == e[1])
  {
    assert s[i] == s[i..i + |e|][0];
    assert |e| > 1 ==> s[i + 1] == s[i..i + |e|][1];
  }

  lemma EscapeStart(v: string)
    requires v != ""
    ensures Escape(v) != "" && (Escape(v)[0] == '"' ==> |Escape(v)| > 1 && Escape(v)[1] == '"')
  {
  }

  lemma StandsBefore(s: string, i: nat, e: string)
    requires StandsQuoted(s, i, e)
    ensures i + |e| < |s| && s[i + |e|] == '"' && (i + |e| + 1 < |s| ==> s[i + |e| + 1] != '"')
  {
  }

  lemma KeywordToken(s: string, a: nat, b: nat)
    requires a < b && b + 1 < |s| && s[b] == ' ' && !IsBlank(s[b + 1]) && !IsComment(s[b + 1])
    requires forall k :: a <= k < b ==> !EndsWord(s[k])
    ensures !EndsWord(s[a]) && TokensFrom(s, a, false) == [Word(s[a..b])] + TokensFrom(s, b + 1, false)
  {
    WordEndAt(s, a, b);
    SkipBlanksTo(s, b, b + 1);
    assert NextToken(s, a, false) == (Word(s[a..b]), b, false);
  }

  /** The tokens of a printed value: the marker, the value unless it is empty, the marker. */
  function Marked(v: string): seq<Token> {
    [Quote] + (if v == "" then [] else [Word(v)]) + [Quote]
  }

  lemma MarkedIs(v: string, t0: seq<Token>, t1: seq<Token>)
    requires t1 == (if v == "" then [Quote] else [Word(v)] + [Quote]) && t0 == [Quote] + t1
    ensures t0 == Marked(v)
  {
  }

  /** From the opening quote on: the tokens of the value. */
  lemma QuotedTokens(s: string, i: nat, v: string)
    requires i < |s| && s[i] == '"' && StandsQuoted(s, i + 1, Escape(v))
    requires IsTail(s, i + |Escape(v)| + 2)
    ensures TokensFrom(s, i, false) == Marked(v)
  {
    hide TokensFrom, Escape, IsTail, StandsQuoted, Marked;
    StandsBefore(s, i + 1, Escape(v));
    if v == "" {
      EscapeNothing();
    } else {
      StringToken(s, i + 1, v);
    }
    TokensBetween(s, i, i + 1 + |Escape(v)|, v);
  }

  lemma EscapeNothing()
    ensures Escape("") == ""
  {
  }

  lemma TokensBetween(s: string, i: nat, j: nat, v: string)
    requires i < j < |s| && s[i] == s[j] == '"' && (j + 1 < |s| ==> s[j + 1] != '"') && IsTail(s, j + 1)
    requires if v == "" then j == i + 1 else TokensFrom(s, i + 1, true) == [Word(v)] + TokensFrom(s, j, true)
    ensures TokensFrom(s, i, false) == Marked(v)
  {
    hide TokensFrom, IsTail, Marked;
    ClosingQuote(s, j);
    OpeningQuote(s, i);
    MarkedIs(v, TokensFrom(s, i, false), TokensFrom(s, i + 1, true));
  }

  lemma QuotedValue(kw: string, v: string)
    ensures Value([Word(kw), Quote] + (if v == "" then [] else [Word(v)]) + [Quote]) == Some(v)
  {
    var ts := [Word(kw), Quote] + (if v == "" then [] else [Word(v)]) + [Quote];
    if v != "" {
      assert Joined(v, ts, 3) == v;
      assert "" + "" + v == v;
    }
  }

  /** A line of the configuration file with a printed value. */
  function Line(indent: string, kw: string, v: string, tail: string): string {
    indent + kw + " " + Quoted(v) + tail
  }

  /** Where the parts of the line are. */
  lemma LineParts(indent: string, kw: string, v: string, tail: string)
    ensures var s, a, b := Line(indent, kw, v, tail), |indent|, |indent| + |kw|;
            var j := b + 2 + |Escape(v)|;
            j < |s| && s[..a] == indent && s[a..b] == kw && s[b] == ' ' && s[b + 1] == '"' &&
            s[b + 2..j] == Escape(v) && s[j] == '"' && s[j + 1..] == tail
  {
    hide Escape;
  }

  /** A printed value is read back as it was, whatever quotes, braces or comment characters
      it holds, behind any indent and before any tail. */
  lemma RoundTrip(indent: string, kw: string, v: string, tail: string)
    requires (forall k :: 0 <= k < |indent| ==> IsBlank(indent[k])) && IsKeyword(kw) && IsTail(tail, 0)
    ensures var ts := Tokens(Line(indent, kw, v, tail));
            ts == Some([Word(kw), Quote] + (if v == "" then [] else [Word(v)]) + [Quote]) &&
            Value(ts.value) == Some(v)
  {
    var s, a, b := Line(indent, kw, v, tail), |indent|, |indent| + |kw|;
    LineParts(indent, kw, v, tail);
    hide Line, Escape, TokensFrom, Value, Joined;
    assert forall k :: 0 <= k < a ==> s[k] == s[..a][k];
    assert forall k :: a <= k < b ==> s[k] == s[a..b][k - a];
    assert !EndsWord(s[a]);
    SkipBlanksTo(s, 0, a);
    KeywordToken(s, a, b);
    var j := b + 2 + |Escape(v)|;
    TailMoves(s, j + 1);
    assert j + 1 < |s| ==> s[j + 1] == s[j + 1..][0] != '"' by {
      TailIsNoQuote(tail);
    }
    QuotedTokens(s, b + 1, v);
    QuotedValue(kw, v);
    assert [Word(kw)] + ([Quote] + (if v == "" then [] else [Word(v)]) + [Quote]) ==
           [Word(kw), Quote] + (if v == "" then [] else [Word(v)]) + [Quote];
  }

  lemma TailIsNoQuote(tail: string)
    requires IsTail(tail, 0)
    ensures tail != "" ==> tail[0] != '"'
  {
  }

  lemma {:induction false} TailMoves(s: string, i: nat)
    requires i <= |s|
    ensures i + SkipBlanks(s[i..], 0) == SkipBlanks(s, i)
    ensures IsTail(s[i..], 0) <==> IsTail(s, i)
  {
    var j := SkipBlanks(s[i..], 0);
    BlanksSkipped(s[i..], 0);
    assert forall k :: i <= k < i + j ==> s[k] == s[i..][k - i];
    assert j < |s[i..]| ==> s[i + j] == s[i..][j];
    SkipBlanksTo(s, i, i + j);
  }

  lemma {:induction false} BlanksSkipped(s: string, i: nat)
    requires i <= |s|
    ensures forall k :: i <= k < SkipBlanks(s, i) ==> IsBlank(s[k])
    decreases |s| - i
  {
    if i < |s| && IsBlank(s[i]) {
      BlanksSkipped(s, i + 1);
    }
  }

  // ------------------------------------------------------------------ any line

  lemma {:induction false} StringEndIsQuote(s: string, i: nat)
    requires i <= |s|
    ensures var j := StringEnd(s, i); j < |s| ==> s[j] == '"' && (j + 1 < |s| ==> s[j + 1] != '"')
    decreases |s| - i
  {
    if i < |s| {
      if s[i] != '"' {
        StringEndIsQuote(s, i + 1);
      } else if i + 1 < |s| && s[i + 1] == '"' {
        StringEndIsQuote(s, i + 2);
      }
    }
  }

  /** Between two quote markers stands at most one word, whatever the line. */
  lemma OneWordPerString(s: string, i: nat)
    requires i < |s|
    ensures var ts := TokensFrom(s, i, true); ts[0].Word? ==> |ts| == 1 || ts[1] == Quote
  {
    StringEndIsQuote(s, i);
    var (t, j, open) := NextToken(s, i, true);
    if t.Word? && j < |s| {
      assert NextToken(s, j, true).0 == Quote;
      assert TokensFrom(s, j, true)[0] == Quote;
    }
  }

  /** A quoted value is the one word behind the marker, never two joined with a blank. */
  lemma QuotedValueIsOneWord(s: string)
    requires Tokens(s).Some? && |Tokens(s).value| >= 3
    requires Tokens(s).value[0].Word? && Tokens(s).value[1] == Quote
    ensures Value(Tokens(s).value) == Some(if Tokens(s).value[2].Word? then Tokens(s).value[2].text else "")
  {
    var ts := Tokens(s).value;
    var i := SkipBlanks(s, 0);
    var (_, j, open) := NextToken(s, i, false);
    var k := Resume(s, j, open);
    assert ts == [ts[0]] + TokensFrom(s, k, false);
    var (_, l, inside) := NextToken(s, k, false);
    assert TokensFrom(s, k, false) == [Quote] + TokensFrom(s, l, true);
    OneWordPerString(s, l);
    assert ts[2..] == TokensFrom(s, l, true);
    if ts[2].Word? {
      assert Joined("", ts, 2) == Joined(ts[2].text, ts, 3) by {
        assert "" + "" + ts[2].text == ts[2].text;
      }
    }
  }
}
