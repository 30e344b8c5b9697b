/** format_devname and scan_devname of libmultipath/alias.c: user-friendly names are a prefix
    followed by a positive id in bijective base 26 ("a" is 1, "z" is 26, "aa" is 27). */
module AliasCodec {

  import opened Wrappers

  const INT_MAX: int := 0x7fff_ffff

  /** The C type int: arithmetic outside the range does not verify. */
  newtype int32 = x: int | -0x8000_0000 <= x < 0x8000_0000

  predicate IsLower(c: char) { 'a' <= c <= 'z' }

  predicate AllLower(s: string) {
    forall k :: 0 <= k < |s| ==> IsLower(s[k])
  }

  predicate IsBlank(c: char) { c == ' ' || c == '\t' }

  predicate BlankFree(s: string) {
    forall k :: 0 <= k < |s| ==> !IsBlank(s[k])
  }

  function Letter(d: nat): (c: char)
    requires d < 26
    ensures IsLower(c) && c as int == 'a' as int + d
  {
    'a' + d as char
  }

  function Digit(c: char): (d: nat)
    requires IsLower(c)
    ensures d < 26 && Letter(d) == c
  {
    c as int - 'a' as int
  }

  /** The letters of an id. */
  function Suffix(id: nat): (s: string)
    ensures AllLower(s) && (s == "" <==> id == 0)
  {
    if id == 0 then "" else Suffix((id - 1) / 26) + [Letter((id - 1) % 26)]
  }

  lemma SuffixStep(id: nat)
    requires id > 0
    ensures Suffix(id) == Suffix((id - 1) / 26) + [Letter((id - 1) % 26)]
    ensures id <= 26 ==> Suffix(id) == [Letter((id - 1) % 26)]
  {
  }

  /** The id of a string of letters. */
  function Value(s: string): (id: nat)
    requires AllLower(s)
    ensures id == 0 <==> s == ""
  {
    if s == "" then 0 else
      var n := |s| - 1;
      Value(s[..n]) * 26 + Digit(s[n]) + 1
  }

  lemma {:induction false} ValueOfSuffix(id: nat)
    ensures Value(Suffix(id)) == id
  {
    if id > 0 {
      var front := Suffix((id - 1) / 26);
      ValueOfSuffix((id - 1) / 26);
      assert Suffix(id)[..|front|] == front;
    }
  }

  lemma {:induction false} SuffixOfValue(s: string)
    requires AllLower(s)
    ensures Suffix(Value(s)) == s
  {
    if s != "" {
      var n := |s| - 1;
      SuffixOfValue(s[..n]);
      assert s == s[..n] + [s[n]];
    }
  }

  /** The smallest id with `k` letters. */
  function Repunit(k: nat): nat {
    if k == 0 then 0 else Repunit(k - 1) * 26 + 1
  }

  lemma {:induction false} LongNamesAreLarge(s: string, k: nat)
    requires AllLower(s) && k <= |s|
    ensures Repunit(k) <= Value(s)
  {
    if k > 0 {
      LongNamesAreLarge(s[..|s| - 1], k - 1);
    }
  }

  /** Eight letters are beyond INT_MAX, whatever they are. */
  lemma EightLettersOverflow(s: string)
    requires AllLower(s) && |s| > 7
    ensures Value(s) > INT_MAX
  {
    LongNamesAreLarge(s, 8);
    assert Repunit(2) == 27 && Repunit(4) == 27 * 677 && Repunit(8) == 8353082583 by {
      assert Repunit(3) == 703 && Repunit(5) == 475255 && Repunit(6) == 12356631 && Repunit(7) == 321272407;
    }
  }

  // ------------------------------------------------------------------ format_devname

  /** A room of `len` bytes takes the prefix, the letters and the final zero. */
  predicate Fits(id: int, len: nat, prefix: string) {
    id > 0 && |prefix| + |Suffix(id)| + 1 <= len
  }

  /** format_devname: the letters are written backwards from the end of the buffer and then
      moved down to the prefix. */
  method FormatDevname(name: array<char>, id: int32, prefix: string) returns (r: int)
    modifies name
    ensures Fits(id as int, name.Length, prefix) ==>
              && r == |prefix| + |Suffix(id as int)| < name.Length
              && name[..r] == prefix + Suffix(id as int) && name[r] == '\0'
    ensures !Fits(id as int, name.Length, prefix) ==> r == -1
  {
    var len, prefix_len := name.Length, |prefix|;
    if len <= prefix_len + 1 || id <= 0 {
      return -1;
    }
    PutPrefix(name, prefix);
    var pos := WriteLetters(name, prefix_len, id);
    if pos < prefix_len {
      return -1;
    }
    MoveDown(name, prefix_len, pos, len - pos);
    r := prefix_len + len - pos - 1;
  }

  /** The loop of format_devname: digits from the end of the buffer down to the prefix. */
  method WriteLetters(name: array<char>, prefix_len: nat, id: int32) returns (pos: int)
    requires prefix_len + 1 < name.Length && id > 0 && name[name.Length - 1] == '\0'
    modifies name
    ensures name[name.Length - 1] == '\0' && name[..prefix_len] == old(name[..prefix_len])
    ensures prefix_len - 1 <= pos < name.Length - 1
    ensures prefix_len <= pos ==> name[pos..name.Length - 1] == Suffix(id as int)
    ensures pos < prefix_len ==> |Suffix(id as int)| >= name.Length - prefix_len
  {
    var len, n := name.Length, id;
    pos := len - 2;
    while pos >= prefix_len
      invariant prefix_len - 1 <= pos <= len - 2 && 0 < n
      invariant name[len - 1] == '\0' && name[..prefix_len] == old(name[..prefix_len])
      invariant Suffix(id as int) == Suffix(n as int) + name[pos + 1..len - 1]
    {
      ghost var before, letters := n as nat, name[pos + 1..len - 1];
      SuffixStep(before);
      hide Suffix;
      n := n - 1;
      name[pos] := Letter((n % 26) as nat);
      assert name[pos..len - 1] == [Letter((before - 1) % 26)] + letters;
      if n < 26 {
        return;
      }
      n := n / 26;
      pos := pos - 1;
    }
  }

  /** memset of the buffer to zero and strcpy of the prefix */
  method PutPrefix(name: array<char>, prefix: string)
    requires |prefix| < name.Length
    modifies name
    ensures name[..|prefix|] == prefix && forall k :: |prefix| <= k < name.Length ==> name[k] == '\0'
  {
    forall k | 0 <= k < name.Length {
      name[k] := if k < |prefix| then prefix[k] else '\0';
    }
  }

  /** memmove inside the buffer */
  method MoveDown(name: array<char>, dst: nat, src: nat, n: nat)
    requires dst <= src && src + n <= name.Length
    modifies name
    ensures name[..dst] == old(name[..dst]) && name[dst..dst + n] == old(name[src..src + n])
  {
    forall k | dst <= k < dst + n {
      name[k] := name[src - dst + k];
    }
  }

  // ------------------------------------------------------------------ scan_devname

  /** The part of `s` before its first blank. */
  function UpToBlank(s: string): (r: string)
    ensures r <= s && BlankFree(r) && (|r| < |s| ==> IsBlank(s[|r|]))
  {
    if s == "" || IsBlank(s[0]) then "" else
      var t := UpToBlank(s[1..]);
      assert s == [s[0]] + s[1..];
      [s[0]] + t
  }

  lemma {:induction false} UpToBlankOfBlankFree(s: string)
    requires BlankFree(s)
    ensures UpToBlank(s) == s
  {
    if s != "" {
      UpToBlankOfBlankFree(s[1..]);
    }
  }

  /** What an alias means under a prefix: its id, or -1 when it is no user-friendly name. */
  function Scan(alias: string, prefix: Option<string>): (id: int)
    ensures -1 <= id <= INT_MAX
  {
    if prefix == None || !(prefix.value <= alias) then -1 else
      var tail := alias[|prefix.value|..];
      var letters := UpToBlank(tail);
      if tail == "" || |tail| > 7 || !AllLower(letters) || Value(letters) > INT_MAX then -1
      else Value(letters)
  }

  const LAST_26: int32 := 0x7fff_ffff / 26

  /** scan_devname; every intermediate value is a C int. */
  method ScanDevname(alias: string, prefix: Option<string>) returns (r: int32)
    ensures r as int == Scan(alias, prefix)
  {
    if prefix == None || !(prefix.value <= alias) {
      return -1;
    }
    var tail := alias[|prefix.value|..];
    if |alias| == |prefix.value| {
      return -1;
    }
    if |alias| > |prefix.value| + 7 {
      return -1;
    }
    r := ScanLetters(tail);
  }

  /** The loop of scan_devname. */
  method ScanLetters(tail: string) returns (r: int32)
    ensures var letters := UpToBlank(tail);
            r as int == if AllLower(letters) && Value(letters) <= INT_MAX then Value(letters) else -1
  {
    ghost var letters := UpToBlank(tail);
    assert letters[..0] == "" && Value("") == 0;
    hide Value, UpToBlank;
    var c := 0;
    r := 0;
    while c < |tail| && !IsBlank(tail[c])
      invariant c <= |letters| && letters <= tail
      invariant AllLower(letters[..c]) && r as int == Value(letters[..c])
    {
      assert c < |letters| && tail[c] == letters[c];
      if tail[c] < 'a' || tail[c] > 'z' {
        return -1;
      }
      OneMoreLetter(letters, c);
      hide AllLower;
      var i := Digit(tail[c]) as int32;
      GuardIs(r, i);
      if r > LAST_26 || (r == LAST_26 && i >= 0x7fff_ffff % 26) {
        return -1;
      }
      r := r * 26 + i;
      c := c + 1;
      r := r + 1;
    }
    assert letters[..c] == letters;
  }

  /** The overflow test of the loop is exact. */
  lemma GuardIs(r: int32, i: int32)
    requires 0 <= r && 0 <= i < 26
    ensures r > LAST_26 || (r == LAST_26 && i >= 0x7fff_ffff % 26) <==> r as int * 26 + i as int + 1 > INT_MAX
  {
  }

  lemma OneMoreLetter(s: string, c: nat)
    requires c < |s| && AllLower(s[..c]) && IsLower(s[c])
    ensures AllLower(s[..c + 1]) && Value(s[..c + 1]) == Value(s[..c]) * 26 + Digit(s[c]) + 1
    ensures AllLower(s) ==> Value(s[..c + 1]) <= Value(s)
  {
    assert s[..c + 1] == s[..c] + [s[c]] && s[..c + 1][..c] == s[..c];
    if AllLower(s) {
      PrefixIsSmaller(s, c + 1);
    }
  }

  lemma {:induction false} PrefixIsSmaller(s: string, k: nat)
    requires AllLower(s) && k <= |s|
    ensures Value(s[..k]) <= Value(s)
    decreases |s|
  {
    if k < |s| {
      var n := |s| - 1;
      PrefixIsSmaller(s[..n], k);
      assert s[..n][..k] == s[..k];
    } else {
      assert s[..k] == s;
    }
  }

  // ------------------------------------------------------------------ the round trips

  /** scan_devname inverts format_devname for every id a C int can hold. */
  lemma ScanInvertsFormat(id: nat, prefix: string)
    requires 0 < id <= INT_MAX
    ensures Scan(prefix + Suffix(id), Some(prefix)) == id
  {
    ValueOfSuffix(id);
    assert (prefix + Suffix(id))[|prefix|..] == Suffix(id);
    UpToBlankOfBlankFree(Suffix(id));
    if |Suffix(id)| > 7 {
      EightLettersOverflow(Suffix(id));
    }
  }

  /** format_devname inverts scan_devname on a user-friendly name if and only if no blank
      follows the prefix. */
  lemma FormatInvertsScan(alias: string, prefix: string)
    requires Scan(alias, Some(prefix)) > 0
    ensures alias == prefix + Suffix(Scan(alias, Some(prefix))) <==> BlankFree(alias[|prefix|..])
  {
    var tail, id := alias[|prefix|..], Scan(alias, Some(prefix));
    assert alias == prefix + tail && (prefix + Suffix(id))[|prefix|..] == Suffix(id);
    if BlankFree(tail) {
      UpToBlankOfBlankFree(tail);
      SuffixOfValue(tail);
    }
  }

  /** The guards are exact: letters after the prefix are refused when and only when their
      id is larger than INT_MAX.  In particular the length limit refuses nothing else. */
  lemma GuardsAreExact(letters: string, prefix: string)
    requires AllLower(letters) && letters != ""
    ensures Scan(prefix + letters, Some(prefix)) == if Value(letters) <= INT_MAX then Value(letters) else -1
  {
    assert (prefix + letters)[|prefix|..] == letters;
    UpToBlankOfBlankFree(letters);
    if |letters| > 7 {
      EightLettersOverflow(letters);
    }
  }

  /** A blank ends the scan but not the alias, as here. */
  lemma ScanIgnoresWhatFollowsABlank()
    ensures Scan("mpatha b", Some("mpath")) == 1 && "mpatha b" != "mpath" + Suffix(1)
  {
    var tail := "mpatha b"[5..];
    assert tail == "a b" && tail[1..] == " b" && UpToBlank(tail[1..]) == "";
    assert UpToBlank(tail) == "a";
    assert "a"[..0] == "" && Value("a") == 1;
    assert IsBlank(tail[1]);
    FormatInvertsScan("mpatha b", "mpath");
  }
}
