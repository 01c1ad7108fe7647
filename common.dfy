/** Shared vocabulary of the backend model: optional values, handler
    responses, the string operations the route handlers rely on (JavaScript
    `trim`, `toLowerCase`, `startsWith`, `replace`, `split`, `join`, SQL
    `LIKE '%x%'` and `CAST(id AS INTEGER)`), and two generic sequence
    searches that stand for `Array.prototype.filter`/`findIndex` and SQL
    `WHERE` scans. */
module Common {

  datatype Option<T> = None | Some(value: T)

  /** What a route handler replies. `Success` and `Failure` carry the HTTP
      status code; `Unhandled` is a handler that threw outside any
      `try` block, so the framework, not the route, decides the reply. */
  datatype Response<T> =
    | Success(code: int, value: T)
    | Failure(code: int, message: string)
    | Unhandled

  /** JavaScript truthiness of a text field: absent, `null` and "" are all
      modelled as "" and are falsy. */
  predicate Truthy(s: string)
  {
    s != ""
  }

  /** `a || b` on text fields. */
  function Or(a: string, b: string): string
  {
    if Truthy(a) then a else b
  }

  /** Truthiness of a numeric field: absent, `null` and 0 are falsy. */
  predicate TruthyNum(n: Option<int>)
  {
    n.Some? && n.value != 0
  }

  /** `a || b` on numeric fields. */
  function OrNum(a: Option<int>, b: Option<int>): Option<int>
  {
    if TruthyNum(a) then a else b
  }

  // ---------------------------------------------------------------------
  // Generic scans

  /** The elements of `s` that satisfy `p`, in their original order
      (`Array.prototype.filter`, or the rows a `WHERE` clause keeps). */
  function Filter<T(!new)>(s: seq<T>, p: T -> bool): (r: seq<T>)
    ensures |r| <= |s|
  {
    if s == [] then [] else (if p(s[0]) then [s[0]] else []) + Filter(s[1..], p)
  }

  /** `s.map(f)`. */
  function Map<A, B>(s: seq<A>, f: A -> B): (r: seq<B>)
    ensures |r| == |s|
    ensures forall i :: 0 <= i < |s| ==> r[i] == f(s[i])
  {
    seq(|s|, i requires 0 <= i < |s| => f(s[i]))
  }

  lemma MapAppend<A, B>(x: seq<A>, y: seq<A>, f: A -> B)
    ensures Map(x + y, f) == Map(x, f) + Map(y, f)
  {
    var whole, parts := Map(x + y, f), Map(x, f) + Map(y, f);
    forall i | 0 <= i < |whole|
      ensures whole[i] == parts[i]
    {
      if i < |x| {
        assert (x + y)[i] == x[i];
      } else {
        assert (x + y)[i] == y[i - |x|];
      }
    }
  }

  /** An element is kept exactly when it is in `s` and satisfies `p`. */
  lemma {:induction false} FilterMembers<T(!new)>(s: seq<T>, p: T -> bool)
    ensures forall x :: x in Filter(s, p) <==> x in s && p(x)
    decreases |s|
  {
    if s != [] {
      FilterMembers(s[1..], p);
      assert forall x :: x in s <==> x == s[0] || x in s[1..];
    }
  }

  /** When every element satisfies `p`, nothing is filtered out. */
  lemma {:induction false} FilterAll<T(!new)>(s: seq<T>, p: T -> bool)
    requires forall i :: 0 <= i < |s| ==> p(s[i])
    ensures Filter(s, p) == s
    decreases |s|
  {
    if s != [] {
      FilterAll(s[1..], p);
      assert [s[0]] + s[1..] == s;
    }
  }

  /** Filtering distributes over concatenation, so appending a row and then
      filtering only adds that row's own contribution at the end. */
  lemma {:induction false} FilterAppend<T(!new)>(s: seq<T>, t: seq<T>, p: T -> bool)
    ensures Filter(s + t, p) == Filter(s, p) + Filter(t, p)
    decreases |s|
  {
    if s == [] {
      assert s + t == t;
    } else {
      var st := s + t;
      assert st[0] == s[0] && st[1..] == s[1..] + t;
      FilterAppend(s[1..], t, p);
      var head := if p(s[0]) then [s[0]] else [];
      assert Filter(st, p) == head + Filter(st[1..], p);
      assert Filter(s, p) == head + Filter(s[1..], p);
      assert head + (Filter(s[1..], p) + Filter(t, p)) == (head + Filter(s[1..], p)) + Filter(t, p);
    }
  }

  /** Filtering with a test that only the element at `k` fails removes
      exactly that element. */
  lemma {:induction false} FilterRemovesOne<T(!new)>(s: seq<T>, k: nat, p: T -> bool)
    requires k < |s| && !p(s[k])
    requires forall i :: 0 <= i < |s| && i != k ==> p(s[i])
    ensures Filter(s, p) == s[..k] + s[k + 1..]
    decreases k
  {
    if k == 0 {
      FilterAll(s[1..], p);
    } else {
      FilterRemovesOne(s[1..], k - 1, p);
      assert s[1..][..k - 1] + s[1..][k..] == s[1..k] + s[k + 1..];
      assert s[..k] + s[k + 1..] == [s[0]] + (s[1..k] + s[k + 1..]);
    }
  }

  /** The first index whose element satisfies `p` (`findIndex`, `find`, or
      the row a single-row SQL `get` returns), searching from `from`. */
  function FirstIndexFrom<T>(s: seq<T>, p: T -> bool, from: nat): (r: Option<nat>)
    requires from <= |s|
    ensures r.Some? ==> from <= r.value < |s| && p(s[r.value])
                        && forall j :: from <= j < r.value ==> !p(s[j])
    ensures r.None? ==> forall j :: from <= j < |s| ==> !p(s[j])
    decreases |s| - from
  {
    if from == |s| then None
    else if p(s[from]) then Some(from)
    else FirstIndexFrom(s, p, from + 1)
  }

  function FirstIndex<T>(s: seq<T>, p: T -> bool): (r: Option<nat>)
    ensures r.Some? ==> r.value < |s| && p(s[r.value])
                        && forall j :: 0 <= j < r.value ==> !p(s[j])
    ensures r.None? ==> forall j :: 0 <= j < |s| ==> !p(s[j])
  {
    FirstIndexFrom(s, p, 0)
  }

  /** Two tests that agree on every element find the same first index. */
  lemma FirstIndexSame<T>(s: seq<T>, p: T -> bool, q: T -> bool)
    requires forall i :: 0 <= i < |s| ==> p(s[i]) == q(s[i])
    ensures FirstIndex(s, p) == FirstIndex(s, q)
  {
    var a, b := FirstIndex(s, p), FirstIndex(s, q);
    if a.Some? && b.Some? {
      assert !(a.value < b.value) && !(b.value < a.value);
    }
  }

  // ---------------------------------------------------------------------
  // Characters and text

  /** The characters `String.prototype.trim` removes: ECMAScript WhiteSpace
      and LineTerminator code points. */
  predicate IsSpace(c: char)
  {
    var n := c as int;
    n == 0x20 || 0x09 <= n <= 0x0D || n == 0xA0 || n == 0x1680
    || 0x2000 <= n <= 0x200A || n == 0x2028 || n == 0x2029 || n == 0x202F
    || n == 0x205F || n == 0x3000 || n == 0xFEFF
  }

  predicate AllSpace(s: string)
  {
    forall i :: 0 <= i < |s| ==> IsSpace(s[i])
  }

  function TrimStart(s: string): (r: string)
    ensures |r| <= |s| && r == s[|s| - |r|..]
    ensures AllSpace(s[..|s| - |r|])
    ensures r != [] ==> !IsSpace(r[0])
  {
    if s != [] && IsSpace(s[0]) then
      var t := s[1..];
      var r := TrimStart(t);
      var n := |s| - |r|;
      assert t[|t| - |r|..] == s[n..];
      forall j | 0 <= j < n
        ensures IsSpace(s[..n][j])
      {
        if j > 0 {
          assert s[..n][j] == t[..n - 1][j - 1];
        }
      }
      r
    else s
  }

  function TrimEnd(s: string): (r: string)
    ensures |r| <= |s| && r == s[..|r|]
    ensures AllSpace(s[|r|..])
    ensures r != [] ==> !IsSpace(r[|r| - 1])
  {
    if s != [] && IsSpace(s[|s| - 1]) then
      var t := s[..|s| - 1];
      var r := TrimEnd(t);
      assert t[..|r|] == s[..|r|];
      assert s[|r|..] == t[|r|..] + [s[|s| - 1]];
      r
    else s
  }

  /** `String.prototype.trim`: `s` with its leading and trailing white space
      removed, and nothing else. */
  function Trim(s: string): (r: string)
    ensures exists a, b :: 0 <= a <= b <= |s| && r == s[a..b]
                           && AllSpace(s[..a]) && AllSpace(s[b..])
    ensures r != [] ==> !IsSpace(r[0]) && !IsSpace(r[|r| - 1])
  {
    var e := TrimEnd(s);
    var r := TrimStart(e);
    var a, b := |e| - |r|, |e|;
    assert r == s[a..b];
    assert s[..a] == e[..a];
    r
  }

  /** Trimming is idempotent. */
  lemma TrimIdempotent(s: string)
    ensures Trim(Trim(s)) == Trim(s)
  {
    var t := Trim(s);
    if t != [] {
      assert !IsSpace(t[|t| - 1]);
      assert TrimEnd(t) == t;
      assert !IsSpace(t[0]);
      assert TrimStart(t) == t;
    }
  }

  /** ASCII upper-case letters to lower case (SQLite's built-in `lower`). */
  function LowerChar(c: char): char
  {
    if 'A' <= c <= 'Z' then (c as int + 32) as char else c
  }

  function ToLower(s: string): (r: string)
    ensures |r| == |s|
    ensures forall i :: 0 <= i < |s| ==> r[i] == LowerChar(s[i])
  {
    seq(|s|, i requires 0 <= i < |s| => LowerChar(s[i]))
  }

  /** Lower-casing twice is lower-casing once. */
  lemma ToLowerIdempotent(s: string)
    ensures ToLower(ToLower(s)) == ToLower(s)
  {
    assert forall i :: 0 <= i < |s| ==> LowerChar(LowerChar(s[i])) == LowerChar(s[i]);
  }

  predicate StartsWith(s: string, prefix: string)
  {
    |prefix| <= |s| && s[..|prefix|] == prefix
  }

  predicate OccursAt(s: string, sub: string, i: nat)
  {
    i + |sub| <= |s| && s[i..i + |sub|] == sub
  }

  /** `s` has `sub` as a contiguous substring (SQL `LIKE '%sub%'`, with the
      pattern's wildcard characters taken literally). */
  predicate Contains(s: string, sub: string)
  {
    exists i :: 0 <= i <= |s| && OccursAt(s, sub, i)
  }

  /** The first position at or after `from` where `pat` occurs in `s`. */
  function FindFrom(s: string, pat: string, from: nat): (r: Option<nat>)
    requires from <= |s|
    ensures r.Some? ==> from <= r.value && OccursAt(s, pat, r.value)
                        && forall j :: from <= j < r.value ==> !OccursAt(s, pat, j)
    ensures r.None? ==> forall j :: from <= j ==> !OccursAt(s, pat, j)
    decreases |s| - from
  {
    if OccursAt(s, pat, from) then Some(from)
    else if from == |s| then None
    else FindFrom(s, pat, from + 1)
  }

  /** `s.replace(pat, rep)` with a string pattern: only the first occurrence
      is replaced. */
  function ReplaceFirst(s: string, pat: string, rep: string): string
  {
    match FindFrom(s, pat, 0)
    case None => s
    case Some(i) => s[..i] + rep + s[i + |pat|..]
  }

  /** When `s` starts with `pat`, replacing the first occurrence of `pat` by
      nothing removes exactly that prefix. */
  lemma ReplacePrefix(s: string, pat: string)
    requires StartsWith(s, pat)
    ensures ReplaceFirst(s, pat, "") == s[|pat|..]
  {
    assert OccursAt(s, pat, 0);
  }

  /** `parts.join(sep)`. */
  function JoinWith(parts: seq<string>, sep: string): string
  {
    if parts == [] then ""
    else if |parts| == 1 then parts[0]
    else parts[0] + sep + JoinWith(parts[1..], sep)
  }

  /** Each part of a join occurs in the joined text. */
  lemma {:induction false} JoinContainsParts(parts: seq<string>, sep: string, k: nat)
    requires k < |parts|
    ensures Contains(JoinWith(parts, sep), parts[k])
    decreases |parts|
  {
    var j := JoinWith(parts, sep);
    if |parts| == 1 {
      assert OccursAt(j, parts[0], 0);
    } else if k == 0 {
      assert OccursAt(j, parts[0], 0);
    } else {
      var rest := JoinWith(parts[1..], sep);
      JoinContainsParts(parts[1..], sep, k - 1);
      var i :| 0 <= i <= |rest| && OccursAt(rest, parts[k], i);
      var off := |parts[0] + sep|;
      assert j == (parts[0] + sep) + rest;
      assert j[off + i..off + i + |parts[k]|] == rest[i..i + |parts[k]|];
      assert OccursAt(j, parts[k], off + i);
    }
  }

  function IndexOfChar(s: string, c: char): (k: nat)
    requires c in s
    ensures k < |s| && s[k] == c && c !in s[..k]
  {
    if s[0] == c then 0 else 1 + IndexOfChar(s[1..], c)
  }

  /** `s.split(sep)` for a one-character separator: the pieces between
      separators, including empty ones, so that joining them back with the
      separator gives `s` again. */
  function Split(s: string, sep: char): (r: seq<string>)
    ensures |r| >= 1
    ensures forall k :: 0 <= k < |r| ==> sep !in r[k]
    ensures JoinWith(r, [sep]) == s
    decreases |s|
  {
    if sep !in s then [s]
    else
      var k := IndexOfChar(s, sep);
      var rest := Split(s[k + 1..], sep);
      var r := [s[..k]] + rest;
      assert r[1..] == rest;
      assert s == s[..k] + [sep] + s[k + 1..];
      r
  }

  /** Splitting around one separator splits the two sides independently, so
      the pieces keep the order of the input. */
  lemma {:induction false} SplitAppend(a: string, b: string, sep: char)
    ensures Split(a + [sep] + b, sep) == Split(a, sep) + Split(b, sep)
    decreases |a|
  {
    var s := a + [sep] + b;
    if sep !in a {
      IndexOfCharAfter(a, b, sep);
      assert s[..|a|] == a && s[|a| + 1..] == b;
      assert Split(s, sep) == [a] + Split(b, sep);
    } else {
      var k := IndexOfChar(a, sep);
      assert s == a + ([sep] + b);
      IndexOfCharIn(a, [sep] + b, sep);
      assert s[..k] == a[..k];
      assert s[k + 1..] == a[k + 1..] + [sep] + b;
      SplitAppend(a[k + 1..], b, sep);
      var left, right := Split(a[k + 1..], sep), Split(b, sep);
      assert Split(a, sep) == [a[..k]] + left;
      assert Split(s, sep) == [a[..k]] + (left + right);
      ConcatAssoc([a[..k]], left, right);
    }
  }

  /** The first occurrence in `a` is the first occurrence in `a + t`. */
  lemma {:induction false} IndexOfCharIn(a: string, t: string, c: char)
    requires c in a
    ensures IndexOfChar(a + t, c) == IndexOfChar(a, c)
  {
    if a[0] != c {
      assert (a + t)[1..] == a[1..] + t;
      IndexOfCharIn(a[1..], t, c);
    }
  }

  /** Without `c` in `a`, the first `c` of `a + [c] + b` is the one after `a`. */
  lemma {:induction false} IndexOfCharAfter(a: string, b: string, c: char)
    requires c !in a
    ensures IndexOfChar(a + [c] + b, c) == |a|
  {
    if a != [] {
      assert (a + [c] + b)[1..] == a[1..] + [c] + b;
      IndexOfCharAfter(a[1..], b, c);
    }
  }

  lemma ConcatAssoc<T>(x: seq<T>, y: seq<T>, z: seq<T>)
    ensures x + (y + z) == (x + y) + z
  {
  }

  // ---------------------------------------------------------------------
  // Decimal text and numeric ids

  predicate IsDigit(c: char)
  {
    '0' <= c <= '9'
  }

  predicate AllDigits(s: string)
  {
    forall i :: 0 <= i < |s| ==> IsDigit(s[i])
  }

  /** Matches the regular expression `^\d+$`. */
  predicate IsDecimal(s: string)
  {
    |s| > 0 && AllDigits(s)
  }

  function DigitChar(d: nat): (c: char)
    requires d < 10
    ensures IsDigit(c) && c as int - '0' as int == d
  {
    ('0' as int + d) as char
  }

  /** `n.toString()` for a non-negative integer: canonical decimal text. */
  function NatToString(n: nat): (r: string)
    ensures IsDecimal(r)
    ensures r[0] == '0' ==> n == 0
    decreases n
  {
    if n < 10 then [DigitChar(n)] else NatToString(n / 10) + [DigitChar(n % 10)]
  }

  /** `String(i)` for an integer. */
  function IntToString(i: int): string
  {
    if i < 0 then "-" + NatToString(-i) else NatToString(i)
  }

  function DigitsValue(s: string): nat
    requires AllDigits(s)
  {
    if s == [] then 0
    else DigitsValue(s[..|s| - 1]) * 10 + (s[|s| - 1] as int - '0' as int)
  }

  /** The longest prefix of `s` made of digits. */
  function LeadingDigits(s: string): (r: string)
    ensures |r| <= |s| && r == s[..|r|] && AllDigits(r)
    ensures |r| < |s| ==> !IsDigit(s[|r|])
  {
    if s != [] && IsDigit(s[0]) then [s[0]] + LeadingDigits(s[1..]) else []
  }

  /** SQLite's `CAST(id AS INTEGER)` on an id: the value of its leading
      digits, 0 when there are none. */
  function CastInt(s: string): nat
  {
    DigitsValue(LeadingDigits(s))
  }

  /** Reading back the decimal text of `n` gives `n`. */
  lemma {:induction false} NatToStringValue(n: nat)
    ensures LeadingDigits(NatToString(n)) == NatToString(n)
    ensures CastInt(NatToString(n)) == n
    decreases n
  {
    var s := NatToString(n);
    assert |LeadingDigits(s)| == |s|;
    assert LeadingDigits(s) == s[..|s|] == s;
    if n >= 10 {
      NatToStringValue(n / 10);
      assert s[..|s| - 1] == NatToString(n / 10);
      assert DigitsValue(NatToString(n / 10)) == n / 10;
      assert DigitsValue(s) == (n / 10) * 10 + n % 10 == n;
    } else {
      assert s[..0] == [];
      assert DigitsValue(s) == n;
    }
    assert CastInt(s) == DigitsValue(s);
  }

  /** `String(i)` of a non-negative integer is decimal text that reads back
      as `i`. */
  lemma IntToStringValue(i: int)
    ensures i >= 0 ==> IsDecimal(IntToString(i)) && CastInt(IntToString(i)) == i
  {
    if i >= 0 {
      NatToStringValue(i);
    }
  }

  /** Different numbers have different decimal texts. */
  lemma NatToStringInjective(a: nat, b: nat)
    requires NatToString(a) == NatToString(b)
    ensures a == b
  {
    NatToStringValue(a);
    NatToStringValue(b);
  }

  /** The largest `CastInt` value among `ids` (`MAX(CAST(id AS INTEGER))`),
      0 for none. */
  function MaxId(ids: seq<string>): (m: nat)
    ensures forall i :: 0 <= i < |ids| ==> CastInt(ids[i]) <= m
    ensures ids != [] ==> exists i :: 0 <= i < |ids| && CastInt(ids[i]) == m
    ensures ids == [] ==> m == 0
  {
    if ids == [] then 0
    else
      var rest := MaxId(ids[1..]);
      assert forall i :: 1 <= i < |ids| ==> ids[i] == ids[1..][i - 1];
      if CastInt(ids[0]) >= rest then CastInt(ids[0]) else rest
  }

  /** The id the SQLite handlers give a new row:
      `maxId ? (parseInt(maxId, 10) + 1).toString() : "1"`. An empty table
      (MAX is NULL) and a maximum of 0 both give "1". */
  function NextId(ids: seq<string>): (r: string)
    ensures IsDecimal(r)
    ensures CastInt(r) == MaxId(ids) + 1
    ensures r == NatToString(MaxId(ids) + 1)
    ensures r !in ids
  {
    var m := MaxId(ids);
    var r := if ids == [] || m == 0 then "1" else NatToString(m + 1);
    assert r == NatToString(m + 1);
    NatToStringValue(m + 1);
    assert forall i :: 0 <= i < |ids| ==> ids[i] != r;
    r
  }
}
