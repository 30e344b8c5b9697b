/** Merging of duplicate configuration entries in libmultipath/config.c: factorize_hwtable for
    device entries and merge_mptable for multipath entries. */
module HwTable {

  import opened Wrappers

  /** An entry: what identifies it, its set strings by field name, and its numbers, where an
      absent field is 0, that is, not set. */
  datatype Row<K> = Row(key: K, strs: map<string, string>, nums: map<string, int>)

  datatype HweId = HweId(vendor: Option<string>, product: Option<string>, revision: Option<string>)

  function Str<K>(r: Row<K>, f: string): Option<string> {
    if f in r.strs then Some(r.strs[f]) else None
  }

  function Num<K>(r: Row<K>, f: string): int {
    if f in r.nums then r.nums[f] else 0
  }

  /** set_param_str makes NULL of an empty string, and so no entry has one. */
  predicate NoEmpty<K>(r: Row<K>) {
    forall f :: f in r.strs ==> r.strs[f] != ""
  }

  // ------------------------------------------------------------------ merging two entries

  const HWE_STRS := ["getuid", "uid_attribute", "features", "hwhandler", "selector", "checker_name", "prio_name",
                     "prio_args", "alias_prefix", "bl_product"]

  const HWE_NUMS := ["pgpolicy", "pgfailback", "rr_weight", "no_path_retry", "minio", "minio_rq", "flush_on_last_del",
                     "fast_io_fail", "dev_loss", "user_friendly_names", "retain_hwhandler", "detect_prio",
                     "detect_checker", "deferred_remove", "delay_watch_checks", "delay_wait_checks", "skip_kpartx",
                     "max_sectors_kb", "ghost_delay", "all_tg_pt", "vpd_vendor_id", "san_path_err_threshold",
                     "san_path_err_forget_rate", "san_path_err_recovery_time", "marginal_path_err_sample_time",
                     "marginal_path_err_rate_threshold", "marginal_path_err_recheck_gap_time",
                     "marginal_path_double_failed_time"]

  const MPE_STRS := ["alias", "uid_attribute", "getuid", "selector", "features", "prio_name", "prio_args"]

  const MPE_NUMS := ["pgpolicy", "pgfailback", "rr_weight", "no_path_retry", "minio", "minio_rq", "flush_on_last_del",
                     "attribute_flags", "user_friendly_names", "deferred_remove", "delay_watch_checks",
                     "delay_wait_checks", "san_path_err_threshold", "san_path_err_forget_rate",
                     "san_path_err_recovery_time", "marginal_path_err_sample_time",
                     "marginal_path_err_rate_threshold", "marginal_path_err_recheck_gap_time",
                     "marginal_path_double_failed_time", "skip_kpartx", "max_sectors_kb", "ghost_delay", "uid", "gid", "mode"]

  /** merge_str for each field: what `dst` lacks is taken from `src`; an empty string stops. */
  method MergeStrs<K>(dst: Row<K>, src: Row<K>, fields: seq<string>) returns (ok: bool, r: Row<K>)
    ensures r.key == dst.key && r.nums == dst.nums
    ensures NoEmpty(src) ==> ok
    ensures ok ==> forall f :: Str(r, f) == if Str(dst, f) == None && f in fields then Str(src, f) else Str(dst, f)
    ensures NoEmpty(src) && NoEmpty(dst) ==> NoEmpty(r)
  {
    r, ok := dst, true;
    for i := 0 to |fields|
      invariant ok && r.key == dst.key && r.nums == dst.nums
      invariant forall f :: Str(r, f) == if Str(dst, f) == None && f in fields[..i] then Str(src, f) else Str(dst, f)
      invariant NoEmpty(src) && NoEmpty(dst) ==> NoEmpty(r)
    {
      var s := fields[i];
      assert forall f :: f in fields[..i + 1] <==> f in fields[..i] || f == s;
      if s !in r.strs && s in src.strs {
        if src.strs[s] == "" {
          return false, r;
        }
        r := r.(strs := r.strs[s := src.strs[s]]);
      }
    }
    assert fields[..|fields|] == fields;
  }

  /** merge_num for each field. */
  method MergeNums<K>(dst: Row<K>, src: Row<K>, fields: seq<string>) returns (r: Row<K>)
    ensures r.key == dst.key && r.strs == dst.strs
    ensures forall f :: Num(r, f) == if Num(dst, f) == 0 && f in fields then Num(src, f) else Num(dst, f)
  {
    r := dst;
    for i := 0 to |fields|
      invariant r.key == dst.key && r.strs == dst.strs
      invariant forall f :: Num(r, f) == if Num(dst, f) == 0 && f in fields[..i] then Num(src, f) else Num(dst, f)
    {
      var s := fields[i];
      assert forall f :: f in fields[..i + 1] <==> f in fields[..i] || f == s;
      if Num(r, s) == 0 && Num(src, s) != 0 {
        r := r.(nums := r.nums[s := Num(src, s)]);
      }
    }
    assert fields[..|fields|] == fields;
  }

  /** reconcile_features_with_options as any function of the three fields it works on. */
  type Reconcile = (Option<string>, int, int) -> (Option<string>, int, int)

  ghost predicate Sound(fix: Reconcile) {
    forall f, n, r :: fix(f, n, r).0 != Some("")
  }

  function Reconciled<K>(r: Row<K>, fix: Reconcile): Row<K> {
    var (f, n, h) := fix(Str(r, "features"), Num(r, "no_path_retry"), Num(r, "retain_hwhandler"));
    Row(r.key, if f == None then r.strs - {"features"} else r.strs["features" := f.value],
        r.nums["no_path_retry" := n]["retain_hwhandler" := h])
  }

  /** The fields of device entries that are merged and then left alone. */
  predicate KeptStr(f: string) { f in HWE_STRS && f != "features" }

  predicate KeptNum(f: string) { f in HWE_NUMS && f != "no_path_retry" && f != "retain_hwhandler" }

  predicate MpeStr(f: string) { f in MPE_STRS }

  predicate MpeNum(f: string) { f in MPE_NUMS }

  type Fields = string -> bool

  /** `m` is the later entry `dst` with its gaps in some fields filled from the earlier `src`. */
  ghost predicate Fills<K(!new)>(m: Row<K>, dst: Row<K>, src: Row<K>, strs: Fields, nums: Fields) {
    m.key == dst.key &&
    (forall f :: strs(f) ==> Str(m, f) == if Str(dst, f) == None then Str(src, f) else Str(dst, f)) &&
    (forall f :: nums(f) ==> Num(m, f) == if Num(dst, f) == 0 then Num(src, f) else Num(dst, f))
  }

  /** merge_hwe. */
  method MergeHwe(dst: Row<HweId>, src: Row<HweId>, fix: Reconcile) returns (ret: int, r: Row<HweId>)
    ensures r.key == dst.key
    ensures NoEmpty(src) ==> ret == 0 && Fills(r, dst, src, KeptStr, KeptNum)
    ensures Sound(fix) && NoEmpty(src) && NoEmpty(dst) ==> NoEmpty(r)
  {
    var ok;
    ok, r := MergeStrs(dst, src, HWE_STRS);
    if !ok {
      return 1, r;
    }
    r := MergeNums(r, src, HWE_NUMS);
    ghost var before := r;
    r := Reconciled(r, fix);
    ret := 0;
    forall f | f != "features" && f != "no_path_retry" && f != "retain_hwhandler" ensures Str(r, f) == Str(before, f) && Num(r, f) == Num(before, f) {
    }
  }

  // ------------------------------------------------------------------ the last set value

  /** The value of a string field for a key: the last one set. */
  function LastStr<K(==)>(t: seq<Row<K>>, key: K, f: string): Option<string> {
    if t == [] then None
    else if t[|t| - 1].key == key && Str(t[|t| - 1], f).Some? then Str(t[|t| - 1], f)
    else LastStr(t[..|t| - 1], key, f)
  }

  function LastNum<K(==)>(t: seq<Row<K>>, key: K, f: string): int {
    if t == [] then 0
    else if t[|t| - 1].key == key && Num(t[|t| - 1], f) != 0 then Num(t[|t| - 1], f)
    else LastNum(t[..|t| - 1], key, f)
  }

  lemma {:induction false} LastConcat<K>(a: seq<Row<K>>, b: seq<Row<K>>, key: K, f: string)
    ensures LastStr(a + b, key, f) == if LastStr(b, key, f) == None then LastStr(a, key, f) else LastStr(b, key, f)
    ensures LastNum(a + b, key, f) == if LastNum(b, key, f) == 0 then LastNum(a, key, f) else LastNum(b, key, f)
  {
    if b == [] {
      assert a + b == a;
    } else {
      assert (a + b)[..|a + b| - 1] == a + b[..|b| - 1];
      LastConcat(a, b[..|b| - 1], key, f);
    }
  }

  lemma {:induction false} LastAbsent<K>(t: seq<Row<K>>, key: K, f: string)
    requires forall k :: 0 <= k < |t| ==> t[k].key != key
    ensures LastStr(t, key, f) == None && LastNum(t, key, f) == 0
  {
    if t != [] {
      LastAbsent(t[..|t| - 1], key, f);
    }
  }

  lemma LastOne<K>(r: Row<K>, key: K, f: string)
    ensures LastStr([r], key, f) == if r.key == key then Str(r, f) else None
    ensures LastNum([r], key, f) == if r.key == key then Num(r, f) else 0
  {
    assert [r][..0] == [];
  }

  /** Entry `i` goes into `m`, which takes the place of entry `j`. */
  function Merged<K>(t: seq<Row<K>>, i: nat, j: nat, m: Row<K>): seq<Row<K>>
    requires i < j < |t|
  {
    t[..i] + t[i + 1..j] + [m] + t[j + 1..]
  }

  lemma Parts<T>(t: seq<T>, i: nat, j: nat)
    requires i < j < |t|
    ensures t == t[..i] + [t[i]] + t[i + 1..j] + [t[j]] + t[j + 1..]
  {
  }

  lemma Between<K>(t: seq<Row<K>>, i: nat, j: nat, b: seq<Row<K>>)
    requires i < j < |t| && b == t[i + 1..j] && forall k :: i < k < j ==> t[k].key != t[i].key
    ensures forall k :: 0 <= k < |b| ==> b[k].key != t[i].key
  {
    forall k | 0 <= k < |b| ensures b[k].key != t[i].key {
      assert b[k] == t[i + 1 + k];
    }
  }

  /** Merging an entry into the next one of its key changes no last value. */
  lemma MergeKeepsLast<K(!new)>(t: seq<Row<K>>, i: nat, j: nat, m: Row<K>, key: K, f: string, strs: Fields, nums: Fields)
    requires i < j < |t| && t[i].key == t[j].key && Fills(m, t[j], t[i], strs, nums)
    requires forall k :: i < k < j ==> t[k].key != t[i].key
    ensures strs(f) ==> LastStr(Merged(t, i, j, m), key, f) == LastStr(t, key, f)
    ensures nums(f) ==> LastNum(Merged(t, i, j, m), key, f) == LastNum(t, key, f)
  {
    Parts(t, i, j);
    Between(t, i, j, t[i + 1..j]);
    MergePartsLast(t[..i], t[i], t[i + 1..j], t[j], t[j + 1..], m, key, f, strs, nums);
    hide LastStr, LastNum, Str, Num, Fills;
  }

  lemma MergePartsLast<K(!new)>(a: seq<Row<K>>, x: Row<K>, b: seq<Row<K>>, y: Row<K>, c: seq<Row<K>>, m: Row<K>,
                                key: K, f: string, strs: Fields, nums: Fields)
    requires x.key == y.key && Fills(m, y, x, strs, nums) && forall k :: 0 <= k < |b| ==> b[k].key != x.key
    ensures strs(f) ==> LastStr(a + b + [m] + c, key, f) == LastStr(a + [x] + b + [y] + c, key, f)
    ensures nums(f) ==> LastNum(a + b + [m] + c, key, f) == LastNum(a + [x] + b + [y] + c, key, f)
  {
    hide LastStr, LastNum, Str, Num;
    LastConcat(a + [x] + b + [y], c, key, f);
    LastConcat(a + [x] + b, [y], key, f);
    LastConcat(a + [x], b, key, f);
    LastConcat(a, [x], key, f);
    LastConcat(a + b + [m], c, key, f);
    LastConcat(a + b, [m], key, f);
    LastConcat(a, b, key, f);
    LastOne(x, key, f);
    LastOne(y, key, f);
    LastOne(m, key, f);
    if key == x.key {
      LastAbsent(b, key, f);
    }
  }

  /** Every last set value, for the keys that count and the fields that are kept, is as before. */
  ghost predicate SameLast<K(!new)>(t: seq<Row<K>>, u: seq<Row<K>>, counts: K -> bool, strs: Fields, nums: Fields) {
    (forall key, f :: counts(key) && strs(f) ==> LastStr(t, key, f) == LastStr(u, key, f)) &&
    (forall key, f :: counts(key) && nums(f) ==> LastNum(t, key, f) == LastNum(u, key, f))
  }

  predicate HasKey<K(==)>(t: seq<Row<K>>, key: K) {
    exists k :: 0 <= k < |t| && t[k].key == key
  }

  ghost predicate SameKeys<K(!new)>(t: seq<Row<K>>, u: seq<Row<K>>, counts: K -> bool) {
    forall key :: counts(key) ==> (HasKey(t, key) <==> HasKey(u, key))
  }

  predicate Distinct<K(==)>(t: seq<Row<K>>) {
    forall a, b :: 0 <= a < b < |t| ==> t[a].key != t[b].key
  }

  lemma MergeKeepsAll<K(!new)>(t: seq<Row<K>>, i: nat, j: nat, m: Row<K>, counts: K -> bool, strs: Fields, nums: Fields)
    requires i < j < |t| && t[i].key == t[j].key && Fills(m, t[j], t[i], strs, nums)
    requires forall k :: i < k < j ==> t[k].key != t[i].key
    ensures SameLast(Merged(t, i, j, m), t, counts, strs, nums) && SameKeys(Merged(t, i, j, m), t, counts)
  {
    var u := Merged(t, i, j, m);
    forall key, f
      ensures strs(f) ==> LastStr(u, key, f) == LastStr(t, key, f)
      ensures nums(f) ==> LastNum(u, key, f) == LastNum(t, key, f)
    {
      MergeKeepsLast(t, i, j, m, key, f, strs, nums);
    }
    hide LastStr, LastNum, Fills;
    assert m.key == t[j].key && u[j - 1] == m;
    forall key ensures HasKey(u, key) <==> HasKey(t, key) {
      MergedKeys(t, i, j, m, key);
    }
  }

  lemma MergedKeys<K>(t: seq<Row<K>>, i: nat, j: nat, m: Row<K>, key: K)
    requires i < j < |t| && t[i].key == t[j].key == m.key
    ensures HasKey(Merged(t, i, j, m), key) <==> HasKey(t, key)
  {
    var u := Merged(t, i, j, m);
    assert u[j - 1] == m;
    if k :| 0 <= k < |t| && t[k].key == key {
      if k < i || k > j {
        assert u[if k < i then k else k - 1].key == key;
      } else if i < k < j {
        assert u[k - 1].key == key;
      }
    }
    if k :| 0 <= k < |u| && u[k].key == key {
      assert u[k].key == (if k < i then t[k] else t[k + 1]).key;
    }
  }

  lemma MergedAt<K>(t: seq<Row<K>>, i: nat, j: nat, m: Row<K>, k: nat)
    requires i < j < |t| && m.key == t[j].key && k < |t| - 1
    ensures Merged(t, i, j, m)[k] == if k < i then t[k] else if k == j - 1 then m else t[k + 1]
  {
  }

  lemma RemoveKeepsAll<K(!new)>(t: seq<Row<K>>, i: nat, counts: K -> bool, strs: Fields, nums: Fields)
    requires i < |t| && !counts(t[i].key)
    ensures SameLast(t[..i] + t[i + 1..], t, counts, strs, nums) && SameKeys(t[..i] + t[i + 1..], t, counts)
  {
    var a, c := t[..i], t[i + 1..];
    assert t == a + [t[i]] + c;
    forall key, f | counts(key)
      ensures LastStr(a + c, key, f) == LastStr(t, key, f) && LastNum(a + c, key, f) == LastNum(t, key, f)
    {
      LastConcat(a + [t[i]], c, key, f);
      LastConcat(a, [t[i]], key, f);
      LastConcat(a, c, key, f);
      LastOne(t[i], key, f);
    }
    hide LastStr, LastNum;
    forall key | counts(key) ensures HasKey(a + c, key) <==> HasKey(t, key) {
      if k :| 0 <= k < |t| && t[k].key == key {
        assert (a + c)[if k < i then k else k - 1].key == key;
      }
      if k :| 0 <= k < |a + c| && (a + c)[k].key == key {
        assert (a + c)[k].key == (if k < i then t[k] else t[k + 1]).key;
      }
    }
  }

  /** In a table without duplicates the last set value is the entry's. */
  lemma LastOfDistinct<K>(t: seq<Row<K>>, k: nat, f: string)
    requires Distinct(t) && k < |t|
    ensures LastStr(t, t[k].key, f) == Str(t[k], f) && LastNum(t, t[k].key, f) == Num(t[k], f)
  {
    var a, c := t[..k], t[k + 1..];
    assert t == a + [t[k]] + c;
    LastConcat(a + [t[k]], c, t[k].key, f);
    LastConcat(a, [t[k]], t[k].key, f);
    LastAbsent(a, t[k].key, f);
    LastAbsent(c, t[k].key, f);
    LastOne(t[k], t[k].key, f);
    hide LastStr, LastNum;
  }

  // ------------------------------------------------------------------ factorize_hwtable

  /** hwe_strmatch: 0 when the strings agree, NULL only with NULL. */
  function HweStrmatch(h1: HweId, h2: HweId): int {
    if (h2.vendor.Some? && h1.vendor == None) ||
       (h1.vendor.Some? && (h2.vendor == None || h1.vendor.value != h2.vendor.value)) then 1
    else if (h2.product.Some? && h1.product == None) ||
            (h1.product.Some? && (h2.product == None || h1.product.value != h2.product.value)) then 1
    else if (h2.revision.Some? && h1.revision == None) ||
            (h1.revision.Some? && (h2.revision == None || h1.revision.value != h2.revision.value)) then 1
    else 0
  }

  lemma StrmatchIsEquality(a: HweId, b: HweId)
    ensures HweStrmatch(a, b) == 0 <==> a == b
  {
  }

  predicate Complete(id: HweId) { id.vendor.Some? && id.product.Some? }

  /** The first entry from `from` on that matches entry `i`, or the number of entries. */
  method FindDuplicate(hw: seq<Row<HweId>>, i: nat, from: nat) returns (j: nat)
    requires i < from && i < |hw|
    ensures from <= j && (j < |hw| ==> hw[j].key == hw[i].key)
    ensures forall k :: from <= k < j && k < |hw| ==> hw[k].key != hw[i].key
  {
    j := from;
    while j < |hw|
      invariant from <= j
      invariant forall k :: from <= k < j && k < |hw| ==> hw[k].key != hw[i].key
    {
      StrmatchIsEquality(hw[j].key, hw[i].key);
      if HweStrmatch(hw[j].key, hw[i].key) == 0 {
        return;
      }
      j := j + 1;
    }
  }

  /** No two of the first `n` entries have one key. */
  predicate DistinctUpTo(t: seq<Row<HweId>>, n: nat) {
    forall a, b :: 0 <= a < b < n && b < |t| ==> t[a].key != t[b].key
  }

  /** The pass is through with the first `i` entries. */
  predicate Settled(t: seq<Row<HweId>>, n: nat, i: nat) {
    (forall a, b :: 0 <= a < i && a < b < |t| && n <= b ==> t[a].key != t[b].key) &&
    (forall a :: n <= a < i && a < |t| ==> Complete(t[a].key))
  }

  predicate AllNoEmpty<K>(t: seq<Row<K>>) {
    forall k :: 0 <= k < |t| ==> NoEmpty(t[k])
  }

  /** What every step keeps with regard to the table at the start. */
  ghost predicate Keeps(t: seq<Row<HweId>>, n: nat, start: seq<Row<HweId>>) {
    n <= |t| && DistinctUpTo(t, n) && AllNoEmpty(t) &&
    SameLast(t, start, Complete, KeptStr, KeptNum) && SameKeys(t, start, Complete)
  }

  lemma SameTrans(t: seq<Row<HweId>>, u: seq<Row<HweId>>, v: seq<Row<HweId>>)
    requires SameLast(t, u, Complete, KeptStr, KeptNum) && SameKeys(t, u, Complete)
    requires SameLast(u, v, Complete, KeptStr, KeptNum) && SameKeys(u, v, Complete)
    ensures SameLast(t, v, Complete, KeptStr, KeptNum) && SameKeys(t, v, Complete)
  {
    hide LastStr, LastNum, HasKey, Complete;
  }

  lemma DropKeeps(hw: seq<Row<HweId>>, n: nat, i: nat, start: seq<Row<HweId>>)
    requires Keeps(hw, n, start) && n <= i < |hw| && !Complete(hw[i].key) && Settled(hw, n, i)
    ensures Keeps(hw[..i] + hw[i + 1..], n, start) && Settled(hw[..i] + hw[i + 1..], n, i)
  {
    RemoveKeepsAll(hw, i, Complete, KeptStr, KeptNum);
    SameTrans(hw[..i] + hw[i + 1..], hw, start);
    hide SameLast, SameKeys, Complete, NoEmpty;
  }

  lemma MergeKeeps(hw: seq<Row<HweId>>, n: nat, i: nat, j: nat, m: Row<HweId>, start: seq<Row<HweId>>)
    requires Keeps(hw, n, start) && i < j < |hw| && n <= j && hw[i].key == hw[j].key
    requires forall k :: i < k < j && n <= k ==> hw[k].key != hw[i].key
    requires Fills(m, hw[j], hw[i], KeptStr, KeptNum) && NoEmpty(m)
    ensures Keeps(Merged(hw, i, j, m), if i < n then n - 1 else n, start)
  {
    MergeKeepsAll(hw, i, j, m, Complete, KeptStr, KeptNum);
    SameTrans(Merged(hw, i, j, m), hw, start);
    hide SameLast, SameKeys, Complete, NoEmpty;
    forall k | 0 <= k < |hw| - 1
      ensures Merged(hw, i, j, m)[k] == if k < i then hw[k] else if k == j - 1 then m else hw[k + 1]
    {
      MergedAt(hw, i, j, m, k);
    }
    hide Merged;
  }

  /** One pass of the outer loop: until it has merged a duplicate, or to the end. */
  method Pass(table: seq<Row<HweId>>, count: nat, fix: Reconcile, ghost start: seq<Row<HweId>>)
    returns (again: bool, hw: seq<Row<HweId>>, n: nat)
    requires Sound(fix) && Keeps(table, count, start)
    ensures Keeps(hw, n, start) && n <= count
    ensures |hw| <= |table| && (again ==> |hw| < |table|)
    ensures !again ==> Settled(hw, n, |hw|)
  {
    hw, n, again := table, count, false;
    var i: nat := 0;
    hide SameLast, SameKeys;
    while i < |hw|
      invariant i <= |hw| <= |table| && n <= count
      invariant Keeps(hw, n, start) && Settled(hw, n, i)
      decreases |hw| - i
    {
      if i >= n && (hw[i].key.vendor == None || hw[i].key.product == None) {
        DropKeeps(hw, n, i, start);
        hw := hw[..i] + hw[i + 1..];
      } else {
        var from := if n > i + 1 then n else i + 1;
        var j := FindDuplicate(hw, i, from);
        if j < |hw| {
          var ret, m := MergeHwe(hw[j], hw[i], fix);
          MergeKeeps(hw, n, i, j, m, start);
          hw := Merged(hw, i, j, m);
          if i < n {
            n := n - 1;
          }
          return true, hw, n;
        }
        i := i + 1;
      }
    }
  }

  /** factorize_hwtable: start again after every merge, until no duplicate is left. */
  method FactorizeHwtable(table: seq<Row<HweId>>, count: nat, fix: Reconcile) returns (hw: seq<Row<HweId>>, n: nat)
    requires count <= |table| && DistinctUpTo(table, count) && AllNoEmpty(table) && Sound(fix)
    ensures n <= count && n <= |hw| && Distinct(hw)
    ensures forall k :: n <= k < |hw| ==> Complete(hw[k].key)
    ensures SameKeys(hw, table, Complete)
    ensures forall k, f :: 0 <= k < |hw| && Complete(hw[k].key) && KeptStr(f) ==> Str(hw[k], f) == LastStr(table, hw[k].key, f)
    ensures forall k, f :: 0 <= k < |hw| && Complete(hw[k].key) && KeptNum(f) ==> Num(hw[k], f) == LastNum(table, hw[k].key, f)
  {
    hw, n := table, count;
    var again := true;
    while again
      invariant Keeps(hw, n, table) && n <= count
      invariant !again ==> Settled(hw, n, |hw|)
      decreases |hw|, if again then 1 else 0
    {
      again, hw, n := Pass(hw, n, fix, table);
    }
    hide LastStr, LastNum, Complete, KeptStr, KeptNum, NoEmpty;
    forall k, f | 0 <= k < |hw|
      ensures LastStr(hw, hw[k].key, f) == Str(hw[k], f) && LastNum(hw, hw[k].key, f) == Num(hw[k], f)
    {
      LastOfDistinct(hw, k, f);
    }
  }

  // ------------------------------------------------------------------ merge_mptable

  predicate Always(wwid: string) { true }

  predicate Reservation(f: string) { f == "prkey_source" || f == "sa_flags" || f == "reservation_key" }

  lemma ReservationApart(f: string)
    requires MpeNum(f)
    ensures !Reservation(f)
  {
  }

  /** The reservation key and its flags are taken together with their source. */
  method MergeReservation(dst: Row<string>, src: Row<string>) returns (r: Row<string>)
    ensures r.key == dst.key && r.strs == dst.strs
    ensures forall f :: Num(r, f) == if Reservation(f) && Num(dst, "prkey_source") == 0 && Num(src, "prkey_source") != 0
                                     then Num(src, f) else Num(dst, f)
  {
    r := dst;
    if Num(dst, "prkey_source") == 0 && Num(src, "prkey_source") != 0 {
      r := r.(nums := r.nums["prkey_source" := Num(src, "prkey_source")]["sa_flags" := Num(src, "sa_flags")]
                            ["reservation_key" := Num(src, "reservation_key")]);
    }
  }

  /** The reservation of `dst`, or that of `src` when only `src` has a source. */
  ghost predicate TakesReservation(r: Row<string>, dst: Row<string>, src: Row<string>) {
    forall f :: Reservation(f) ==>
      Num(r, f) == if Num(dst, "prkey_source") == 0 && Num(src, "prkey_source") != 0 then Num(src, f) else Num(dst, f)
  }

  /** merge_mpe. */
  method MergeMpe(dst: Row<string>, src: Row<string>) returns (ret: int, r: Row<string>)
    ensures r.key == dst.key
    ensures NoEmpty(src) ==> ret == 0 && Fills(r, dst, src, MpeStr, MpeNum)
    ensures NoEmpty(src) ==> TakesReservation(r, dst, src)
    ensures NoEmpty(src) && NoEmpty(dst) ==> NoEmpty(r)
  {
    hide Reservation;
    var ok;
    ok, r := MergeStrs(dst, src, MPE_STRS);
    if !ok {
      return 1, r;
    }
    forall f | MpeNum(f) ensures !Reservation(f) {
      ReservationApart(f);
    }
    r := MergeReservation(r, src);
    r := MergeNums(r, src, MPE_NUMS);
    ret := 0;
  }

  /** Source, flags and key of a reservation. */
  datatype Reserved = Reserved(source: int, flags: int, key: int)

  function ReservedOf(r: Row<string>): Reserved {
    Reserved(Num(r, "prkey_source"), Num(r, "sa_flags"), Num(r, "reservation_key"))
  }

  /** Of an earlier and a later reservation the later one counts, unless it has no source. */
  function Later(x: Option<Reserved>, y: Option<Reserved>): Option<Reserved> {
    if x == None then y
    else if y == None then x
    else if y.value.source == 0 && x.value.source != 0 then x else y
  }

  /** The reservation of a wwid: that of its last section that has a source, or of its last
      section if none has. */
  function LastReserved(t: seq<Row<string>>, wwid: string): Option<Reserved> {
    if t == [] then None
    else
      var n := |t| - 1;
      Later(LastReserved(t[..n], wwid), if t[n].key == wwid then Some(ReservedOf(t[n])) else None)
  }

  lemma LaterAssociative(x: Option<Reserved>, y: Option<Reserved>, z: Option<Reserved>)
    ensures Later(x, Later(y, z)) == Later(Later(x, y), z) && Later(x, None) == x
  {
  }

  lemma {:induction false} LastReservedConcat(a: seq<Row<string>>, b: seq<Row<string>>, wwid: string)
    ensures LastReserved(a + b, wwid) == Later(LastReserved(a, wwid), LastReserved(b, wwid))
  {
    hide Later;
    if b == [] {
      assert a + b == a;
      LaterAssociative(LastReserved(a, wwid), None, None);
    } else {
      var f, l := b[..|b| - 1], b[|b| - 1];
      assert (a + b)[..|a + b| - 1] == a + f;
      LastReservedConcat(a, f, wwid);
      LaterAssociative(LastReserved(a, wwid), LastReserved(f, wwid), if l.key == wwid then Some(ReservedOf(l)) else None);
    }
  }

  lemma LastReservedOne(r: Row<string>, wwid: string)
    ensures LastReserved([r], wwid) == if r.key == wwid then Some(ReservedOf(r)) else None
  {
    assert [r][..0] == [];
  }

  lemma {:induction false} LastReservedAbsent(t: seq<Row<string>>, wwid: string)
    requires forall k :: 0 <= k < |t| ==> t[k].key != wwid
    ensures LastReserved(t, wwid) == None
  {
    if t != [] {
      LastReservedAbsent(t[..|t| - 1], wwid);
    }
  }

  /** What counts is the last section with a source, wherever it is. */
  lemma {:induction false} LastSourceCounts(t: seq<Row<string>>, k: nat)
    requires k < |t| && Num(t[k], "prkey_source") != 0
    requires forall l :: k < l < |t| && t[l].key == t[k].key ==> Num(t[l], "prkey_source") == 0
    ensures LastReserved(t, t[k].key) == Some(ReservedOf(t[k]))
  {
    hide Num;
    if k < |t| - 1 {
      LastSourceCounts(t[..|t| - 1], k);
    }
  }

  /** Merging a section into the next one of its wwid changes no reservation. */
  lemma MergeKeepsReserved(t: seq<Row<string>>, i: nat, j: nat, m: Row<string>, wwid: string)
    requires i < j < |t| && t[i].key == t[j].key == m.key && forall k :: i < k < j ==> t[k].key != t[i].key
    requires Some(ReservedOf(m)) == Later(Some(ReservedOf(t[i])), Some(ReservedOf(t[j])))
    ensures LastReserved(Merged(t, i, j, m), wwid) == LastReserved(t, wwid)
  {
    Parts(t, i, j);
    Between(t, i, j, t[i + 1..j]);
    MergePartsReserved(t[..i], t[i], t[i + 1..j], t[j], t[j + 1..], m, wwid);
    hide LastReserved, ReservedOf;
  }

  lemma MergePartsReserved(a: seq<Row<string>>, x: Row<string>, b: seq<Row<string>>, y: Row<string>, c: seq<Row<string>>,
                           m: Row<string>, wwid: string)
    requires x.key == y.key == m.key && forall k :: 0 <= k < |b| ==> b[k].key != x.key
    requires Some(ReservedOf(m)) == Later(Some(ReservedOf(x)), Some(ReservedOf(y)))
    ensures LastReserved(a + b + [m] + c, wwid) == LastReserved(a + [x] + b + [y] + c, wwid)
  {
    hide LastReserved, ReservedOf;
    LastReservedConcat(a + [x] + b + [y], c, wwid);
    LastReservedConcat(a + [x] + b, [y], wwid);
    LastReservedConcat(a + [x], b, wwid);
    LastReservedConcat(a, [x], wwid);
    LastReservedConcat(a + b + [m], c, wwid);
    LastReservedConcat(a + b, [m], wwid);
    LastReservedConcat(a, b, wwid);
    LastReservedOne(x, wwid);
    LastReservedOne(y, wwid);
    LastReservedOne(m, wwid);
    if wwid == x.key {
      LastReservedAbsent(b, wwid);
      LaterAssociative(LastReserved(a, wwid), Some(ReservedOf(x)), Some(ReservedOf(y)));
    }
  }

  /** In a table without duplicates the reservation that counts is the section's. */
  lemma LastReservedOfDistinct(t: seq<Row<string>>, k: nat)
    requires Distinct(t) && k < |t|
    ensures LastReserved(t, t[k].key) == Some(ReservedOf(t[k]))
  {
    hide LastReserved, ReservedOf;
    var a, c := t[..k], t[k + 1..];
    assert t == a + [t[k]] + c;
    LastReservedConcat(a + [t[k]], c, t[k].key);
    LastReservedConcat(a, [t[k]], t[k].key);
    LastReservedAbsent(a, t[k].key);
    LastReservedAbsent(c, t[k].key);
    LastReservedOne(t[k], t[k].key);
  }

  lemma ReservedMerged(m: Row<string>, dst: Row<string>, src: Row<string>)
    requires TakesReservation(m, dst, src)
    ensures Some(ReservedOf(m)) == Later(Some(ReservedOf(src)), Some(ReservedOf(dst)))
  {
    hide Num;
    assert Reservation("prkey_source") && Reservation("sa_flags") && Reservation("reservation_key");
  }

  ghost predicate SameReserved(t: seq<Row<string>>, u: seq<Row<string>>) {
    forall wwid :: LastReserved(t, wwid) == LastReserved(u, wwid)
  }

  /** What merging keeps with regard to the sections at the start. */
  ghost predicate KeepsSections(mp: seq<Row<string>>, table: seq<Row<string>>) {
    AllNoEmpty(mp) && SameLast(mp, table, Always, MpeStr, MpeNum) && SameKeys(mp, table, Always) && SameReserved(mp, table)
  }

  lemma MergeKeepsSections(mp: seq<Row<string>>, i: nat, j: nat, m: Row<string>, table: seq<Row<string>>)
    requires KeepsSections(mp, table) && i < j < |mp| && mp[i].key == mp[j].key
    requires forall k :: i < k < j ==> mp[k].key != mp[i].key
    requires Fills(m, mp[j], mp[i], MpeStr, MpeNum) && TakesReservation(m, mp[j], mp[i]) && NoEmpty(m)
    ensures KeepsSections(Merged(mp, i, j, m), table)
  {
    MergeKeepsAll(mp, i, j, m, Always, MpeStr, MpeNum);
    ReservedMerged(m, mp[j], mp[i]);
    forall wwid ensures LastReserved(Merged(mp, i, j, m), wwid) == LastReserved(mp, wwid) {
      MergeKeepsReserved(mp, i, j, m, wwid);
    }
    hide NoEmpty, LastStr, LastNum, LastReserved, HasKey;
  }

  lemma SectionsAreLast(mp: seq<Row<string>>, table: seq<Row<string>>)
    requires KeepsSections(mp, table) && Distinct(mp)
    ensures forall k, f :: 0 <= k < |mp| && MpeStr(f) ==> Str(mp[k], f) == LastStr(table, mp[k].key, f)
    ensures forall k, f :: 0 <= k < |mp| && MpeNum(f) ==> Num(mp[k], f) == LastNum(table, mp[k].key, f)
    ensures forall k :: 0 <= k < |mp| ==> Some(ReservedOf(mp[k])) == LastReserved(table, mp[k].key)
  {
    hide LastStr, LastNum, MpeStr, MpeNum, NoEmpty, LastReserved, ReservedOf;
    forall k | 0 <= k < |mp| ensures LastReserved(mp, mp[k].key) == Some(ReservedOf(mp[k])) {
      LastReservedOfDistinct(mp, k);
    }
    forall k, f | 0 <= k < |mp|
      ensures LastStr(mp, mp[k].key, f) == Str(mp[k], f) && LastNum(mp, mp[k].key, f) == Num(mp[k], f)
    {
      LastOfDistinct(mp, k, f);
    }
  }

  /** merge_mptable: the earlier of two sections for one wwid goes into the later.  What is left
      has, for every field, the last set value, and the reservation that counts. */
  method MergeMptable(table: seq<Row<string>>) returns (mp: seq<Row<string>>)
    requires AllNoEmpty(table)
    ensures Distinct(mp) && SameKeys(mp, table, Always)
    ensures forall k, f :: 0 <= k < |mp| && MpeStr(f) ==> Str(mp[k], f) == LastStr(table, mp[k].key, f)
    ensures forall k, f :: 0 <= k < |mp| && MpeNum(f) ==> Num(mp[k], f) == LastNum(table, mp[k].key, f)
    ensures forall k :: 0 <= k < |mp| ==> Some(ReservedOf(mp[k])) == LastReserved(table, mp[k].key)
  {
    mp := table;
    var i: nat := 0;
    hide SameLast, SameKeys, SameReserved, NoEmpty, TakesReservation, Fills;
    while i < |mp|
      invariant i <= |mp| && KeepsSections(mp, table)
      invariant forall a, b :: 0 <= a < i && a < b < |mp| ==> mp[a].key != mp[b].key
      decreases |mp| - i
    {
      var j := i + 1;
      while j < |mp| && mp[i].key != mp[j].key
        invariant i < j <= |mp| && forall k :: i < k < j ==> mp[k].key != mp[i].key
      {
        j := j + 1;
      }
      if j < |mp| {
        var ret, m := MergeMpe(mp[j], mp[i]);
        MergeKeepsSections(mp, i, j, m, table);
        mp := Merged(mp, i, j, m);
      } else {
        i := i + 1;
      }
    }
    SectionsAreLast(mp, table);
  }
}
