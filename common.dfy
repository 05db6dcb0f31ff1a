/**
 * Shared vocabulary of the activity analytics: the activity record, an
 * optional value, left folds and filters over sequences, a stable sort by an
 * integer key, and the small amount of text handling the hooks do (splitting
 * on a separator, decimal digits, string prefixes).
 */
module Common {

  datatype Option<T> = None | Some(value: T)

  /** One recorded activity as the hooks read it. A numeric field that the
      record lacks is stored as 0.0, which is what every `x || 0` and every
      truthiness test in the hooks makes of it. `timestamp` is
      `start_date_local` read as a date, in milliseconds. */
  datatype Activity = Activity(
    runId: int,
    name: string,
    kind: string,
    startDateLocal: string,
    timestamp: int,
    distance: real,
    movingTime: string,
    averageSpeed: real,
    averageHeartrate: real,
    elevationGain: real,
    streak: nat)

  // ---------------------------------------------------------------------
  // Folds over real numbers (sums, minimum, maximum, mean)
  // ---------------------------------------------------------------------

  /** Left-to-right sum starting from zero. */
  function Sum(xs: seq<real>): real
  {
    if xs == [] then 0.0 else Sum(xs[..|xs| - 1]) + xs[|xs| - 1]
  }

  lemma {:induction false} SumAppend(xs: seq<real>, ys: seq<real>)
    ensures Sum(xs + ys) == Sum(xs) + Sum(ys)
    decreases |ys|
  {
    if ys == [] {
      assert xs + ys == xs;
    } else {
      var init := ys[..|ys| - 1];
      assert (xs + ys)[..|xs + ys| - 1] == xs + init;
      SumAppend(xs, init);
    }
  }

  lemma {:induction false} SumNonNegative(xs: seq<real>)
    requires forall i :: 0 <= i < |xs| ==> 0.0 <= xs[i]
    ensures 0.0 <= Sum(xs)
  {
    if xs != [] {
      SumNonNegative(xs[..|xs| - 1]);
    }
  }

  lemma {:induction false} SumBounds(xs: seq<real>, lo: real, hi: real)
    requires forall i :: 0 <= i < |xs| ==> lo <= xs[i] <= hi
    ensures |xs| as real * lo <= Sum(xs) <= |xs| as real * hi
  {
    if xs != [] {
      SumBounds(xs[..|xs| - 1], lo, hi);
    }
  }

  /** The running total after the first `n` entries. */
  function PrefixSum(xs: seq<real>, n: nat): real
    requires n <= |xs|
  {
    if n == 0 then 0.0 else PrefixSum(xs, n - 1) + xs[n - 1]
  }

  lemma {:induction false} PrefixSumIsSum(xs: seq<real>, n: nat)
    requires n <= |xs|
    ensures PrefixSum(xs, n) == Sum(xs[..n])
  {
    if n > 0 {
      PrefixSumIsSum(xs, n - 1);
      assert xs[..n][..n - 1] == xs[..n - 1];
    }
  }

  lemma {:induction false} PrefixSumGrows(xs: seq<real>, i: nat, j: nat)
    requires i <= j <= |xs|
    requires forall k :: 0 <= k < |xs| ==> 0.0 <= xs[k]
    ensures PrefixSum(xs, i) <= PrefixSum(xs, j)
    decreases j - i
  {
    if i < j {
      PrefixSumGrows(xs, i, j - 1);
    }
  }

  /** Smallest element of a non-empty list. */
  function Min(xs: seq<real>): (m: real)
    requires xs != []
    ensures m in xs
    ensures forall i :: 0 <= i < |xs| ==> m <= xs[i]
  {
    if |xs| == 1 then xs[0]
    else
      var rest := Min(xs[..|xs| - 1]);
      assert forall i :: 0 <= i < |xs| - 1 ==> xs[..|xs| - 1][i] == xs[i];
      if xs[|xs| - 1] < rest then xs[|xs| - 1] else rest
  }

  /** Largest element of a non-empty list. */
  function Max(xs: seq<real>): (m: real)
    requires xs != []
    ensures m in xs
    ensures forall i :: 0 <= i < |xs| ==> xs[i] <= m
  {
    if |xs| == 1 then xs[0]
    else
      var rest := Max(xs[..|xs| - 1]);
      assert forall i :: 0 <= i < |xs| - 1 ==> xs[..|xs| - 1][i] == xs[i];
      if rest < xs[|xs| - 1] then xs[|xs| - 1] else rest
  }

  /** Arithmetic mean: the sum divided by the count. */
  function Mean(xs: seq<real>): real
    requires xs != []
  {
    Sum(xs) / |xs| as real
  }

  lemma DivideBounds(total: real, n: real, lo: real, hi: real)
    requires 0.0 < n && n * lo <= total <= n * hi
    ensures lo <= total / n <= hi
  {
    assert total == n * (total / n);
  }

  lemma MeanBetweenMinAndMax(xs: seq<real>)
    requires xs != []
    ensures Min(xs) <= Mean(xs) <= Max(xs)
  {
    SumBounds(xs, Min(xs), Max(xs));
    DivideBounds(Sum(xs), |xs| as real, Min(xs), Max(xs));
  }

  // ---------------------------------------------------------------------
  // Filter
  // ---------------------------------------------------------------------

  /** The elements satisfying `p`, in their original order. */
  function Filter<T>(s: seq<T>, p: T -> bool): (r: seq<T>)
    ensures |r| <= |s|
    ensures forall i :: 0 <= i < |r| ==> r[i] in s && p(r[i])
    ensures forall i :: 0 <= i < |s| && p(s[i]) ==> s[i] in r
  {
    if s == [] then []
    else
      var init, last := s[..|s| - 1], s[|s| - 1];
      assert s == init + [last];
      Filter(init, p) + (if p(last) then [last] else [])
  }

  lemma {:induction false} FilterAppend<T>(a: seq<T>, b: seq<T>, p: T -> bool)
    ensures Filter(a + b, p) == Filter(a, p) + Filter(b, p)
    decreases |b|
  {
    if b == [] {
      assert a + b == a;
    } else {
      var init := b[..|b| - 1];
      assert (a + b)[..|a + b| - 1] == a + init;
      FilterAppend(a, init, p);
    }
  }

  lemma FilterNone<T>(s: seq<T>, p: T -> bool)
    requires forall i :: 0 <= i < |s| ==> !p(s[i])
    ensures Filter(s, p) == []
  {
  }

  lemma FilterEmptyIff<T>(s: seq<T>, p: T -> bool)
    ensures Filter(s, p) == [] <==> forall i :: 0 <= i < |s| ==> !p(s[i])
  {
    if forall i :: 0 <= i < |s| ==> !p(s[i]) {
      FilterNone(s, p);
    }
  }

  lemma FilterSingleton<T>(x: T, p: T -> bool)
    ensures Filter([x], p) == if p(x) then [x] else []
  {
    assert [x][..0] == [];
  }

  // ---------------------------------------------------------------------
  // Stable sort by an integer key (`Array.prototype.sort` is stable)
  // ---------------------------------------------------------------------

  predicate SortedBy<T>(s: seq<T>, key: T -> int)
  {
    forall i, j :: 0 <= i < j < |s| ==> key(s[i]) <= key(s[j])
  }

  /** Inserts `x` into sorted `s` after every element whose key is not larger. */
  function InsertBy<T>(x: T, s: seq<T>, key: T -> int): (r: seq<T>)
    requires SortedBy(s, key)
    ensures |r| == |s| + 1
    ensures multiset(r) == multiset(s) + multiset{x}
    ensures SortedBy(r, key)
  {
    if s == [] then [x]
    else if key(x) < key(s[0]) then [x] + s
    else
      var tail := InsertBy(x, s[1..], key);
      assert s == [s[0]] + s[1..];
      HeadBelowTail(s[0], x, s[1..], tail, key);
      [s[0]] + tail
  }

  /** A head no larger than `x` and the rest of a sorted list stays below
      any sorted arrangement of that rest with `x`. */
  lemma HeadBelowTail<T>(h: T, x: T, rest: seq<T>, tail: seq<T>, key: T -> int)
    requires SortedBy([h] + rest, key) && key(h) <= key(x)
    requires multiset(tail) == multiset(rest) + multiset{x}
    requires SortedBy(tail, key)
    ensures SortedBy([h] + tail, key)
  {
    forall i | 0 <= i < |tail|
      ensures key(h) <= key(tail[i])
    {
      assert tail[i] in multiset(tail);
      if tail[i] != x {
        assert tail[i] in multiset(rest);
        var j :| 0 <= j < |rest| && rest[j] == tail[i];
        assert ([h] + rest)[0] == h && ([h] + rest)[j + 1] == rest[j];
        assert key(([h] + rest)[0]) <= key(([h] + rest)[j + 1]);
      }
    }
  }

  /** The list ordered by `key`, elements with equal keys in input order. */
  function SortBy<T>(s: seq<T>, key: T -> int): (r: seq<T>)
    ensures |r| == |s|
    ensures multiset(r) == multiset(s)
    ensures SortedBy(r, key)
  {
    if s == [] then []
    else
      var init := s[..|s| - 1];
      assert s == init + [s[|s| - 1]];
      InsertBy(s[|s| - 1], SortBy(init, key), key)
  }

  function KeyIs<T>(key: T -> int, k: int): T -> bool
  {
    x => key(x) == k
  }

  /** Inserting `x` in front of a sorted list whose keys all exceed `key(x)`. */
  lemma InsertInFrontKeepsTies<T>(x: T, s: seq<T>, key: T -> int, k: int)
    requires SortedBy(s, key) && s != [] && key(x) < key(s[0])
    ensures Filter([x] + s, KeyIs(key, k))
         == Filter(s, KeyIs(key, k)) + (if key(x) == k then [x] else [])
  {
    var p := KeyIs(key, k);
    FilterSingleton(x, p);
    FilterAppend([x], s, p);
    if key(x) == k {
      assert forall i :: 0 <= i < |s| ==> key(s[0]) <= key(s[i]);
      FilterNone(s, p);
    }
  }

  lemma {:induction false} InsertByKeepsTies<T>(x: T, s: seq<T>, key: T -> int, k: int)
    requires SortedBy(s, key)
    ensures Filter(InsertBy(x, s, key), KeyIs(key, k))
         == Filter(s, KeyIs(key, k)) + (if key(x) == k then [x] else [])
    decreases |s|
  {
    var p := KeyIs(key, k);
    if s == [] {
      FilterSingleton(x, p);
    } else if key(x) < key(s[0]) {
      InsertInFrontKeepsTies(x, s, key, k);
    } else {
      var tail := s[1..];
      assert s == [s[0]] + tail;
      InsertByKeepsTies(x, tail, key, k);
      var ins := InsertBy(x, tail, key);
      assert InsertBy(x, s, key) == [s[0]] + ins;
      FilterAppend([s[0]], ins, p);
      FilterAppend([s[0]], tail, p);
    }
  }

  /** Stability: for each key value, the elements carrying it appear in the
      sorted list in the same order as in the input. */
  lemma {:induction false} SortByIsStable<T>(s: seq<T>, key: T -> int, k: int)
    ensures Filter(SortBy(s, key), KeyIs(key, k)) == Filter(s, KeyIs(key, k))
    decreases |s|
  {
    if s != [] {
      var init := s[..|s| - 1];
      SortByIsStable(init, key, k);
      InsertByKeepsTies(s[|s| - 1], SortBy(init, key), key, k);
    }
  }

  // ---------------------------------------------------------------------
  // Text
  // ---------------------------------------------------------------------

  function Occurrences(s: string, c: char): nat
  {
    if s == [] then 0 else (if s[0] == c then 1 else 0) + Occurrences(s[1..], c)
  }

  /** The pieces between occurrences of a one-character separator. */
  function Split(s: string, sep: char): (parts: seq<string>)
    ensures |parts| == Occurrences(s, sep) + 1
    ensures forall i :: 0 <= i < |parts| ==> sep !in parts[i]
    ensures parts[0] <= s && (parts[0] == s || s[|parts[0]|] == sep)
  {
    if s == [] then [""]
    else
      var rest := Split(s[1..], sep);
      if s[0] == sep then [""] + rest
      else [[s[0]] + rest[0]] + rest[1..]
  }

  /** The pieces glued back together with the separator. */
  function Join(parts: seq<string>, sep: char): string
    requires parts != []
  {
    if |parts| == 1 then parts[0] else parts[0] + [sep] + Join(parts[1..], sep)
  }

  lemma {:induction false} JoinSplit(s: string, sep: char)
    ensures Join(Split(s, sep), sep) == s
  {
    if s != [] {
      var rest := Split(s[1..], sep);
      JoinSplit(s[1..], sep);
      if s[0] != sep && |rest| > 1 {
        assert Join(rest, sep) == rest[0] + [sep] + Join(rest[1..], sep);
        assert ([[s[0]] + rest[0]] + rest[1..])[1..] == rest[1..];
      }
    }
  }

  lemma {:induction false} SplitWithoutSeparator(a: string, sep: char)
    requires sep !in a
    ensures Split(a, sep) == [a]
  {
    if a != [] {
      SplitWithoutSeparator(a[1..], sep);
    }
  }

  lemma {:induction false} SplitAtSeparator(a: string, b: string, sep: char)
    requires sep !in a
    ensures Split(a + [sep] + b, sep) == [a] + Split(b, sep)
  {
    if a == [] {
      assert (a + [sep] + b)[1..] == b;
    } else {
      var s := a + [sep] + b;
      assert s[0] == a[0] && s[1..] == a[1..] + [sep] + b;
      SplitAtSeparator(a[1..], b, sep);
      assert [a[0]] + a[1..] == a;
    }
  }

  lemma {:induction false} SplitJoin(parts: seq<string>, sep: char)
    requires parts != []
    requires forall i :: 0 <= i < |parts| ==> sep !in parts[i]
    ensures Split(Join(parts, sep), sep) == parts
  {
    if |parts| == 1 {
      SplitWithoutSeparator(parts[0], sep);
    } else {
      SplitJoin(parts[1..], sep);
      SplitAtSeparator(parts[0], Join(parts[1..], sep), sep);
    }
  }

  /** The first `n` characters, or all of them when there are fewer. */
  function Prefix(s: string, n: nat): (r: string)
    ensures r <= s && |r| == if |s| < n then |s| else n
  {
    if |s| <= n then s else s[..n]
  }

  predicate IsDigit(c: char)
  {
    '0' <= c <= '9'
  }

  predicate AllDigits(s: string)
  {
    forall i :: 0 <= i < |s| ==> IsDigit(s[i])
  }

  /** A non-empty run of decimal digits. */
  predicate IsDigits(s: string)
  {
    |s| > 0 && AllDigits(s)
  }

  function DigitChar(d: nat): (c: char)
    requires d < 10
    ensures IsDigit(c) && c as int - '0' as int == d
  {
    ('0' as int + d) as char
  }

  /** The number a run of decimal digits denotes (leading zeros allowed). */
  function DigitsValue(s: string): nat
    requires AllDigits(s)
  {
    if s == [] then 0 else DigitsValue(s[..|s| - 1]) * 10 + (s[|s| - 1] as int - '0' as int)
  }

  /** Decimal rendering of a natural number, without leading zeros. */
  function NatToString(n: nat): (s: string)
    ensures IsDigits(s)
    ensures |s| == 1 <==> n < 10
  {
    if n < 10 then [DigitChar(n)] else NatToString(n / 10) + [DigitChar(n % 10)]
  }

  lemma {:induction false} NatToStringRoundTrip(n: nat)
    ensures DigitsValue(NatToString(n)) == n
  {
    if n >= 10 {
      var s := NatToString(n);
      NatToStringRoundTrip(n / 10);
      assert s[..|s| - 1] == NatToString(n / 10);
    }
  }

  lemma NatToStringInjective(a: nat, b: nat)
    requires NatToString(a) == NatToString(b)
    ensures a == b
  {
    NatToStringRoundTrip(a);
    NatToStringRoundTrip(b);
  }

  function Pow10(n: nat): (p: nat)
    ensures p > 0
  {
    if n == 0 then 1 else 10 * Pow10(n - 1)
  }

  lemma {:induction false} DigitsValueBelowPow10(s: string)
    requires AllDigits(s)
    ensures DigitsValue(s) < Pow10(|s|)
  {
    if s != [] {
      DigitsValueBelowPow10(s[..|s| - 1]);
    }
  }

  lemma {:induction false} LeadingZeroIgnored(s: string)
    requires AllDigits(s)
    ensures AllDigits("0" + s) && DigitsValue("0" + s) == DigitsValue(s)
    decreases |s|
  {
    if s != [] {
      var init := s[..|s| - 1];
      assert ("0" + s)[..|"0" + s| - 1] == "0" + init;
      LeadingZeroIgnored(init);
    }
  }

  /** `label + n` in a template literal, for labels such as `W3` and `R10`. */
  function Label(prefix: string, n: nat): string
  {
    prefix + NatToString(n)
  }

  lemma LabelInjective(prefix: string, a: nat, b: nat)
    requires Label(prefix, a) == Label(prefix, b)
    ensures a == b
  {
    assert Label(prefix, a)[|prefix|..] == NatToString(a);
    assert Label(prefix, b)[|prefix|..] == NatToString(b);
    NatToStringInjective(a, b);
  }
}
