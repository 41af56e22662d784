/**
 * The two helpers of the logger utilities: the listener-id allocator
 * `unique_integer_key` (src/logger/utils.py:1-7) and the duration formatter
 * `expand` (src/logger/utils.py:10-22), taken after its float step, i.e. on
 * the integer number of milliseconds `int(clock * 1000)`.
 */
module Utils {

  datatype Option<T> = None | Some(value: T)

  // ---------------------------------------------------------------------
  // unique_integer_key
  // ---------------------------------------------------------------------

  /** Strictly ascending, hence without repetitions. */
  predicate Increasing(s: seq<int>) {
    forall j, k :: 0 <= j < k < |s| ==> s[j] < s[k]
  }

  lemma {:induction false} LeastExists(s: set<int>)
    requires s != {}
    ensures exists m :: m in s && forall x :: x in s ==> m <= x
    decreases |s|
  {
    assert exists y :: y in s by {
      if forall y :: y !in s {
        assert false;
      }
    }
    var y :| y in s;
    if s != {y} {
      var rest := s - {y};
      LeastExists(rest);
      var m :| m in rest && forall x :: x in rest ==> m <= x;
      var least := if y < m then y else m;
      forall x | x in s
        ensures least <= x
      {
        if x != y {
          assert x in rest;
        }
      }
    } else {
      assert forall x :: x in s ==> y <= x;
    }
  }

  /** The smallest element of a non-empty finite set. */
  function Least(s: set<int>): (m: int)
    requires s != {}
    ensures m in s && forall x :: x in s ==> m <= x
  {
    LeastExists(s);
    var m :| m in s && forall x :: x in s ==> m <= x;
    m
  }

  /** `sorted(dictionary.keys())`: the keys in ascending order. */
  function SortedKeys(keys: set<int>): (r: seq<int>)
    ensures |r| == |keys|
    decreases |keys|
  {
    if keys == {} then []
    else
      var m := Least(keys);
      [m] + SortedKeys(keys - {m})
  }

  /** The sorted keys are strictly ascending and hold exactly the keys. */
  lemma {:induction false} SortedKeysSpec(keys: set<int>)
    ensures Increasing(SortedKeys(keys))
    ensures forall x :: x in SortedKeys(keys) <==> x in keys
    decreases |keys|
  {
    if keys != {} {
      var m := Least(keys);
      var rest := SortedKeys(keys - {m});
      SortedKeysSpec(keys - {m});
      SortedKeysFirst(keys);
      assert forall x :: x in rest ==> m < x;
      ConsIncreasing(m, rest);
      forall x
        ensures x in SortedKeys(keys) <==> x in keys
      {
        assert x in [m] + rest <==> x == m || x in rest;
      }
    } else {
      assert SortedKeys(keys) == [];
    }
  }

  /**
   * The scan of the allocator over ascending keys: `prev` is the last key of
   * the unit-step chain that started at 0. The first key that does not
   * continue the chain yields the id just below it; a chain that runs to the
   * end yields the id just above its last key.
   */
  function Scan(ks: seq<int>, prev: int): int
  {
    if ks == [] then prev + 1
    else if ks[0] - prev != 1 then ks[0] - 1
    else Scan(ks[1..], ks[0])
  }

  /** The id `unique_integer_key` returns for a dictionary with these keys. */
  function UniqueKey(keys: set<int>): int
  {
    Scan(SortedKeys(keys), 0)
  }

  /** The predecessor the scan compares the key at index `j` with. */
  function Before(ks: seq<int>, j: nat): int
    requires j <= |ks|
  {
    if j == 0 then 0 else ks[j - 1]
  }

  /** `unique_integer_key`: the loop over the sorted keys with an early return. */
  method UniqueIntegerKey(keys: set<int>) returns (uid: int)
    ensures uid == UniqueKey(keys)
    ensures uid !in keys
    ensures (forall k :: k in keys ==> k >= 1) ==> uid >= 1
  {
    UniqueKeyFresh(keys);
    if forall k :: k in keys ==> k >= 1 {
      UniqueKeyPositive(keys);
    }
    var sorted := SortedKeys(keys);
    var prev := 0;
    for i := 0 to |sorted|
      invariant Scan(sorted[i..], prev) == UniqueKey(keys)
    {
      if sorted[i] - prev != 1 {
        return sorted[i] - 1;
      }
      assert sorted[i..][1..] == sorted[i + 1..];
      prev := sorted[i];
    }
    return prev + 1;
  }

  lemma {:induction false} ScanAbove(ks: seq<int>, prev: int)
    requires Increasing(ks)
    requires ks != [] ==> prev < ks[0]
    ensures Scan(ks, prev) > prev
    decreases |ks|
  {
    if ks != [] && ks[0] - prev == 1 {
      ScanAbove(ks[1..], ks[0]);
    }
  }

  lemma {:induction false} ScanFresh(ks: seq<int>, prev: int)
    requires Increasing(ks)
    ensures Scan(ks, prev) !in ks
    decreases |ks|
  {
    if ks != [] && ks[0] - prev == 1 {
      ScanFresh(ks[1..], ks[0]);
      ScanAbove(ks[1..], ks[0]);
      assert ks == [ks[0]] + ks[1..];
    }
  }

  /** The id handed out is never one already in use. */
  lemma UniqueKeyFresh(keys: set<int>)
    ensures UniqueKey(keys) !in keys
  {
    SortedKeysSpec(keys);
    ScanFresh(SortedKeys(keys), 0);
  }

  /** When every key is positive the new id is positive too. */
  lemma UniqueKeyPositive(keys: set<int>)
    requires forall k :: k in keys ==> k >= 1
    ensures UniqueKey(keys) >= 1
  {
    var ks := SortedKeys(keys);
    SortedKeysSpec(keys);
    if ks != [] {
      assert ks[0] in keys;
    }
    ScanAbove(ks, 0);
  }

  /** An empty dictionary gets id 1. */
  lemma UniqueKeyEmpty()
    ensures UniqueKey({}) == 1
  {
  }

  /** An ascending enumeration of a set is the one `sorted` produces. */
  lemma {:induction false} SortedKeysUnique(keys: set<int>, r: seq<int>)
    requires Increasing(r)
    requires forall x :: x in r <==> x in keys
    ensures r == SortedKeys(keys)
    decreases |r|
  {
    if r == [] {
      var none: set<int> := {};
      assert forall x :: x in keys <==> x in none;
    } else {
      TailLists(keys, r);
      SortedKeysUnique(keys - {r[0]}, r[1..]);
      SortedKeysFirst(keys);
      SplitFirst(r);
    }
  }

  lemma SplitFirst<T>(s: seq<T>)
    requires s != []
    ensures s == [s[0]] + s[1..]
  {
  }

  lemma SplitLast<T>(s: seq<T>)
    requires s != []
    ensures s == s[..|s| - 1] + [s[|s| - 1]]
  {
  }

  /** A key below every element of an ascending sequence can be put in front of it. */
  lemma ConsIncreasing(m: int, rest: seq<int>)
    requires Increasing(rest) && forall x :: x in rest ==> m < x
    ensures Increasing([m] + rest)
  {
    var r := [m] + rest;
    forall j, k | 0 <= j < k < |r|
      ensures r[j] < r[k]
    {
      assert r[k] == rest[k - 1] && r[k] in rest;
      if j > 0 {
        assert r[j] == rest[j - 1];
      }
    }
  }

  lemma SortedKeysFirst(keys: set<int>)
    requires keys != {}
    ensures SortedKeys(keys) == [Least(keys)] + SortedKeys(keys - {Least(keys)})
  {
  }

  /** The head of an ascending enumeration is the least key; its tail lists the others. */
  lemma TailLists(keys: set<int>, r: seq<int>)
    requires Increasing(r) && r != []
    requires forall x :: x in r <==> x in keys
    ensures keys != {} && r[0] == Least(keys)
    ensures Increasing(r[1..])
    ensures forall x :: x in r[1..] <==> x in keys - {r[0]}
  {
    assert r[0] in r;
    var m := Least(keys);
    assert m in r;
    var j :| 0 <= j < |r| && r[j] == m;
    assert r[0] <= r[j];
    var rest := r[1..];
    forall x
      ensures x in rest <==> x in keys - {m}
    {
      if x in rest {
        var i :| 0 <= i < |rest| && rest[i] == x;
        assert r[0] < r[i + 1];
      }
      if x in keys - {m} {
        assert x in r;
        var i :| 0 <= i < |r| && r[i] == x;
        assert r[0] <= r[i];
        assert rest[i - 1] == x;
      }
    }
  }

  /** The ids 1..n, in order. */
  function IdRange(lo: int, n: nat): (r: seq<int>)
    ensures |r| == n
    ensures forall j :: 0 <= j < n ==> r[j] == lo + j
  {
    seq(n, j => lo + j)
  }

  lemma {:induction false} ScanRange(lo: int, n: nat)
    ensures Scan(IdRange(lo, n), lo - 1) == lo + n
    decreases n
  {
    if n > 0 {
      assert IdRange(lo, n)[1..] == IdRange(lo + 1, n - 1);
      ScanRange(lo + 1, n - 1);
    }
  }

  /** Keys exactly 1..n: the chain never breaks and the new id is n + 1. */
  lemma UniqueKeyDense(keys: set<int>, n: nat)
    requires forall k :: k in keys <==> 1 <= k <= n
    ensures UniqueKey(keys) == n + 1
  {
    var r := IdRange(1, n);
    forall x
      ensures x in r <==> x in keys
    {
      if x in keys {
        assert r[x - 1] == x;
      }
    }
    SortedKeysUnique(keys, r);
    ScanRange(1, n);
  }

  lemma {:induction false} ScanSkipsChain(ks: seq<int>, j: nat)
    requires j <= |ks|
    requires forall i :: 0 <= i < j ==> ks[i] - Before(ks, i) == 1
    ensures Scan(ks[j..], Before(ks, j)) == Scan(ks, 0)
    decreases j
  {
    if j > 0 {
      ScanSkipsChain(ks, j - 1);
      assert ks[j - 1..][1..] == ks[j..];
    }
  }

  /**
   * With a gap, the new id is one below the first key that breaks the
   * unit-step chain from 0: the top of the first gap.
   */
  lemma UniqueKeyGap(keys: set<int>, g: nat)
    requires g < |keys|
    requires forall i :: 0 <= i < g ==> SortedKeys(keys)[i] - Before(SortedKeys(keys), i) == 1
    requires SortedKeys(keys)[g] - Before(SortedKeys(keys), g) != 1
    ensures UniqueKey(keys) == SortedKeys(keys)[g] - 1
  {
    var ks := SortedKeys(keys);
    ScanSkipsChain(ks, g);
  }

  /** Without a gap, the new id is one above the largest key (1 when there is none). */
  lemma UniqueKeyNoGap(keys: set<int>)
    requires forall i :: 0 <= i < |keys| ==> SortedKeys(keys)[i] - Before(SortedKeys(keys), i) == 1
    ensures UniqueKey(keys) == Before(SortedKeys(keys), |keys|) + 1
  {
    var ks := SortedKeys(keys);
    ScanSkipsChain(ks, |ks|);
    assert ks[|ks|..] == [];
  }

  /** Worked cases: {1,3} gives 2, {2,3} gives 1, {1,4} gives 3 (not the smallest free id 2). */
  lemma UniqueKeyExamples()
    ensures UniqueKey({1, 3}) == 2
    ensures UniqueKey({2, 3}) == 1
    ensures UniqueKey({1, 4}) == 3
  {
    SortedKeysUnique({1, 3}, [1, 3]);
    SortedKeysUnique({2, 3}, [2, 3]);
    SortedKeysUnique({1, 4}, [1, 4]);
  }

  // ---------------------------------------------------------------------
  // expand
  // ---------------------------------------------------------------------

  predicate IsDigit(c: char) {
    '0' <= c <= '9'
  }

  predicate AllDigits(s: string) {
    forall k :: 0 <= k < |s| ==> IsDigit(s[k])
  }

  function DigitChar(d: nat): (c: char)
    requires d < 10
    ensures IsDigit(c) && c as int - '0' as int == d
  {
    (d + '0' as int) as char
  }

  /** The number a string of decimal digits denotes. */
  function ValueOf(s: string): nat
    requires AllDigits(s)
  {
    if s == [] then 0 else ValueOf(s[..|s| - 1]) * 10 + (s[|s| - 1] as int - '0' as int)
  }

  /** Python's `str(n)` for a natural number: no leading zeros. */
  function Decimal(n: nat): (r: string)
    ensures 1 <= |r| && AllDigits(r)
    ensures ValueOf(r) == n
    ensures n >= 10 ==> r[0] != '0'
    decreases n
  {
    if n < 10 then [DigitChar(n)]
    else
      var r := Decimal(n / 10) + [DigitChar(n % 10)];
      assert r[..|r| - 1] == Decimal(n / 10);
      r
  }

  function Zeros(k: nat): (r: string)
    ensures |r| == k && forall j :: 0 <= j < k ==> r[j] == '0'
  {
    seq(k, _ => '0')
  }

  lemma {:induction false} LeadingZeros(k: nat, s: string)
    requires AllDigits(s)
    ensures AllDigits(Zeros(k) + s) && ValueOf(Zeros(k) + s) == ValueOf(s)
    decreases |s|
  {
    if s == [] {
      assert Zeros(k) + s == Zeros(k);
      ZerosValue(k);
    } else {
      var z := Zeros(k) + s;
      assert z[..|z| - 1] == Zeros(k) + s[..|s| - 1];
      LeadingZeros(k, s[..|s| - 1]);
    }
  }

  lemma {:induction false} ZerosValue(k: nat)
    ensures ValueOf(Zeros(k)) == 0
    decreases k
  {
    if k > 0 {
      assert Zeros(k)[..k - 1] == Zeros(k - 1);
      ZerosValue(k - 1);
    }
  }

  /** `n` in decimal, padded on the left with zeros to at least `width` characters. */
  function ZeroPad(n: nat, width: nat): (r: string)
    ensures |r| == if |Decimal(n)| < width then width else |Decimal(n)|
    ensures AllDigits(r) && ValueOf(r) == n
  {
    var d := Decimal(n);
    var r := Zeros(if |d| < width then width - |d| else 0) + d;
    LeadingZeros(if |d| < width then width - |d| else 0, d);
    r
  }

  /**
   * Python's `"{:0<width>d}".format(n)`: the sign counts towards the width
   * and the zeros go between the sign and the digits.
   */
  function Format(n: int, width: nat): string
  {
    if n < 0 then "-" + ZeroPad(-n, if width > 0 then width - 1 else 0)
    else ZeroPad(n, width)
  }

  /**
   * What `{:0<width>d}` produces: a `-` exactly for a negative number, then
   * the digits of its magnitude, zero-padded so that the whole is at least
   * `width` long.
   */
  lemma FormatSigned(n: int, width: nat)
    ensures var r, sign, magnitude := Format(n, width), if n < 0 then 1 else 0, if n < 0 then -n else n;
      && |r| == (if sign + |Decimal(magnitude)| < width then width else sign + |Decimal(magnitude)|)
      && (r[0] == '-' <==> n < 0)
      && AllDigits(r[sign..]) && ValueOf(r[sign..]) == magnitude
  {
    var r := Format(n, width);
    if n < 0 {
      assert r[1..] == ZeroPad(-n, if width > 0 then width - 1 else 0);
    } else {
      assert IsDigit(r[0]);
      assert r[0..] == r;
    }
  }

  /** The fields `expand` computes by its three floor divisions. */
  datatype Duration = Duration(h: int, m: nat, s: nat, ms: nat)

  function TotalMs(d: Duration): int {
    d.h * 3600000 + d.m * 60000 + d.s * 1000 + d.ms
  }

  /** Python's `divmod(a, b)` for `b > 0`, written out as floor division. */
  lemma DivModFloor(a: int, b: int)
    requires b > 0
    ensures a == (a / b) * b + a % b && 0 <= a % b < b
  {
  }

  lemma MulAtLeast(k: int, b: int)
    requires k >= 1 && b > 0
    ensures k * b >= b
  {
  }

  lemma DivModUnique(a: int, b: int, q: int, r: int)
    requires b > 0 && 0 <= r < b && a == q * b + r
    ensures q == a / b && r == a % b
  {
    DivModFloor(a, b);
    var q', r' := a / b, a % b;
    var k := q - q';
    assert k * b == r' - r by {
      assert q * b - q' * b == (q - q') * b;
    }
    if k >= 1 {
      MulAtLeast(k, b);
    } else if k <= -1 {
      MulAtLeast(-k, b);
    }
  }

  /** The three floor divisions of `expand`: milliseconds by 1000, seconds by 60, minutes by 60. */
  function Split(clockMs: int): (d: Duration)
    ensures d.ms < 1000 && d.s < 60 && d.m < 60
    ensures TotalMs(d) == clockMs
    ensures d.h >= 0 <==> clockMs >= 0
  {
    var secs, ms := clockMs / 1000, clockMs % 1000;
    var mins, s := secs / 60, secs % 60;
    var h, m := mins / 60, mins % 60;
    DivModFloor(clockMs, 1000);
    DivModFloor(secs, 60);
    DivModFloor(mins, 60);
    var d := Duration(h, m, s, ms);
    assert clockMs == (h * 60 + m) * 60000 + s * 1000 + ms by {
      assert clockMs == secs * 1000 + ms;
      assert secs == mins * 60 + s;
      assert mins == h * 60 + m;
    }
    d
  }

  /** The decomposition is the only one with fields in range. */
  lemma SplitUnique(clockMs: int, d: Duration)
    requires d.ms < 1000 && d.s < 60 && d.m < 60
    requires TotalMs(d) == clockMs
    ensures d == Split(clockMs)
  {
    var secs := d.h * 3600 + d.m * 60 + d.s;
    assert clockMs == secs * 1000 + d.ms;
    DivModUnique(clockMs, 1000, secs, d.ms);
    var mins := d.h * 60 + d.m;
    assert secs == mins * 60 + d.s;
    DivModUnique(secs, 60, mins, d.s);
    DivModUnique(mins, 60, d.h, d.m);
  }

  /** The if/elif chain of `expand`: the leading fields that are zero are left out. */
  function Render(d: Duration): (r: string)
    ensures |r| >= 5 && r[|r| - 2..] == "ms"
  {
    var tail := Format(d.ms, 3) + "ms";
    var r :=
      if d.h != 0 then
        Format(d.h, 2) + "h " + Format(d.m, 2) + "m " + Format(d.s, 2) + "s " + tail
      else if d.m != 0 then
        Format(d.m, 2) + "m " + Format(d.s, 2) + "s " + tail
      else if d.s != 0 then
        Format(d.s, 2) + "s " + tail
      else
        tail;
    assert r[|r| - |tail|..] == tail;
    r
  }

  /** `expand(clock)` with `clockMs == int(clock * 1000)`; every result ends in "ms". */
  function Expand(clockMs: int): (r: string)
    ensures |r| >= 5 && r[|r| - 2..] == "ms"
  {
    Render(Split(clockMs))
  }

  /** `s.split(" ")`. */
  function Words(s: string): (w: seq<string>)
    ensures |w| >= 1
    decreases |s|
  {
    if s == [] then [""]
    else
      var rest := Words(s[1..]);
      if s[0] == ' ' then [""] + rest else [[s[0]] + rest[0]] + rest[1..]
  }

  lemma {:induction false} WordsNoSpace(a: string, b: string)
    requires ' ' !in a
    ensures Words(a + " " + b) == [a] + Words(b)
    ensures Words(a) == [a]
    decreases |a|
  {
    if a == [] {
      assert a + " " + b == [' '] + b;
      assert (a + " " + b)[1..] == b;
    } else {
      assert (a + " " + b)[1..] == a[1..] + " " + b;
      WordsNoSpace(a[1..], b);
      assert [a[0]] + a[1..] == a;
    }
  }

  /** A token of the output: at least `width` digits denoting `value`, then `unit`. */
  predicate IsField(t: string, unit: string, width: nat, value: nat) {
    && |t| >= width + |unit|
    && t[|t| - |unit|..] == unit
    && AllDigits(t[..|t| - |unit|])
    && ValueOf(t[..|t| - |unit|]) == value
  }

  /** Reads `<digits><unit>` back into a number. */
  function ReadField(t: string, unit: string): Option<nat> {
    if |t| > |unit| && t[|t| - |unit|..] == unit && AllDigits(t[..|t| - |unit|])
    then Some(ValueOf(t[..|t| - |unit|]))
    else None
  }

  /** Reads an `expand` string back into milliseconds; the inverse of `Expand` on `clockMs >= 0`. */
  function Parse(s: string): Option<int> {
    ParseWords(Words(s))
  }

  /** The tokens of an `expand` string read back into milliseconds. */
  function ParseWords(w: seq<string>): Option<int> {
    if |w| == 1 then
      match ReadField(w[0], "ms")
      case Some(ms) => Some(ms)
      case None => None
    else if |w| == 2 then
      match (ReadField(w[0], "s"), ReadField(w[1], "ms"))
      case (Some(sec), Some(ms)) => Some(sec * 1000 + ms)
      case _ => None
    else if |w| == 3 then
      match (ReadField(w[0], "m"), ReadField(w[1], "s"), ReadField(w[2], "ms"))
      case (Some(min), Some(sec), Some(ms)) => Some(min * 60000 + sec * 1000 + ms)
      case _ => None
    else if |w| == 4 then
      match (ReadField(w[0], "h"), ReadField(w[1], "m"), ReadField(w[2], "s"), ReadField(w[3], "ms"))
      case (Some(hr), Some(min), Some(sec), Some(ms)) => Some(hr * 3600000 + min * 60000 + sec * 1000 + ms)
      case _ => None
    else None
  }

  lemma DigitsNoSpace(s: string)
    requires AllDigits(s)
    ensures ' ' !in s
  {
    forall k | 0 <= k < |s|
      ensures s[k] != ' '
    {
      assert IsDigit(s[k]);
    }
  }

  /** A field of a non-negative value renders as a space-free token that reads back. */
  lemma FieldToken(n: nat, width: nat, unit: string)
    requires ' ' !in unit && |unit| >= 1
    ensures ' ' !in Format(n, width) + unit
    ensures IsField(Format(n, width) + unit, unit, width, n)
    ensures ReadField(Format(n, width) + unit, unit) == Some(n)
  {
    var t := Format(n, width) + unit;
    assert t[|t| - |unit|..] == unit;
    assert t[..|t| - |unit|] == ZeroPad(n, width);
    DigitsNoSpace(ZeroPad(n, width));
  }

  /** A last word without a space is split off as the last element. */
  lemma {:induction false} WordsLast(a: string, b: string)
    requires ' ' !in b
    ensures Words(a + " " + b) == Words(a) + [b]
    decreases |a|
  {
    if a == [] {
      assert a + " " + b == [' '] + b;
      assert (a + " " + b)[1..] == b;
      WordsNoSpace(b, "");
    } else {
      var s := a + " " + b;
      assert s[0] == a[0] && s[1..] == a[1..] + " " + b;
      WordsLast(a[1..], b);
      var rest := Words(a[1..]);
      if a[0] != ' ' {
        assert (rest + [b])[1..] == rest[1..] + [b];
      }
    }
  }

  lemma Words2(a: string, b: string)
    requires ' ' !in a && ' ' !in b
    ensures Words(a + " " + b) == [a, b]
  {
    WordsNoSpace(a, "");
    WordsLast(a, b);
  }

  lemma Words3(a: string, b: string, c: string)
    requires ' ' !in a && ' ' !in b && ' ' !in c
    ensures Words(a + " " + b + " " + c) == [a, b, c]
  {
    Words2(a, b);
    WordsLast(a + " " + b, c);
  }

  lemma Words4(a: string, b: string, c: string, d: string)
    requires ' ' !in a && ' ' !in b && ' ' !in c && ' ' !in d
    ensures Words(a + " " + b + " " + c + " " + d) == [a, b, c, d]
  {
    Words3(a, b, c);
    WordsLast(a + " " + b + " " + c, d);
  }

  lemma MillisWidth(ms: nat)
    requires ms < 1000
    ensures |Format(ms, 3)| == 3
  {
    if ms >= 10 {
      assert Decimal(ms) == Decimal(ms / 10) + [DigitChar(ms % 10)];
      if ms >= 100 {
        assert Decimal(ms / 10) == Decimal(ms / 100) + [DigitChar(ms / 10 % 10)];
      }
    }
  }

  /** The token list of the rendering, case by case. */
  lemma RenderWords(d: Duration)
    requires d.h >= 0
    ensures var hs, mins, secs, tail := Format(d.h, 2) + "h", Format(d.m, 2) + "m", Format(d.s, 2) + "s", Format(d.ms, 3) + "ms";
      Words(Render(d)) ==
        if d.h != 0 then [hs, mins, secs, tail]
        else if d.m != 0 then [mins, secs, tail]
        else if d.s != 0 then [secs, tail]
        else [tail]
  {
    FieldToken(d.ms, 3, "ms");
    FieldToken(d.s, 2, "s");
    FieldToken(d.m, 2, "m");
    FieldToken(d.h, 2, "h");
    if d.h != 0 {
      RenderHours(d);
    } else if d.m != 0 {
      RenderMinutes(d);
    } else if d.s != 0 {
      RenderSeconds(d);
    } else {
      WordsNoSpace(Format(d.ms, 3) + "ms", "");
    }
  }

  lemma Regroup4(h: string, m: string, s: string, ms: string)
    ensures h + "h " + m + "m " + s + "s " + (ms + "ms") == (h + "h") + " " + (m + "m") + " " + (s + "s") + " " + (ms + "ms")
  {
  }

  lemma Regroup3(m: string, s: string, ms: string)
    ensures m + "m " + s + "s " + (ms + "ms") == (m + "m") + " " + (s + "s") + " " + (ms + "ms")
  {
  }

  lemma RenderHours(d: Duration)
    requires d.h > 0
    ensures var hs, mins, secs, tail := Format(d.h, 2) + "h", Format(d.m, 2) + "m", Format(d.s, 2) + "s", Format(d.ms, 3) + "ms";
      Words(Render(d)) == [hs, mins, secs, tail]
  {
    var hs, mins, secs, tail := Format(d.h, 2) + "h", Format(d.m, 2) + "m", Format(d.s, 2) + "s", Format(d.ms, 3) + "ms";
    FieldToken(d.ms, 3, "ms");
    FieldToken(d.s, 2, "s");
    FieldToken(d.m, 2, "m");
    FieldToken(d.h, 2, "h");
    assert Render(d) == Format(d.h, 2) + "h " + Format(d.m, 2) + "m " + Format(d.s, 2) + "s " + (Format(d.ms, 3) + "ms");
    Regroup4(Format(d.h, 2), Format(d.m, 2), Format(d.s, 2), Format(d.ms, 3));
    Words4(hs, mins, secs, tail);
  }

  lemma RenderMinutes(d: Duration)
    requires d.h == 0 && d.m != 0
    ensures var mins, secs, tail := Format(d.m, 2) + "m", Format(d.s, 2) + "s", Format(d.ms, 3) + "ms";
      Words(Render(d)) == [mins, secs, tail]
  {
    var mins, secs, tail := Format(d.m, 2) + "m", Format(d.s, 2) + "s", Format(d.ms, 3) + "ms";
    FieldToken(d.ms, 3, "ms");
    FieldToken(d.s, 2, "s");
    FieldToken(d.m, 2, "m");
    assert Render(d) == Format(d.m, 2) + "m " + Format(d.s, 2) + "s " + (Format(d.ms, 3) + "ms");
    Regroup3(Format(d.m, 2), Format(d.s, 2), Format(d.ms, 3));
    Words3(mins, secs, tail);
  }

  lemma RenderSeconds(d: Duration)
    requires d.h == 0 && d.m == 0 && d.s != 0
    ensures var secs, tail := Format(d.s, 2) + "s", Format(d.ms, 3) + "ms";
      Words(Render(d)) == [secs, tail]
  {
    var secs, tail := Format(d.s, 2) + "s", Format(d.ms, 3) + "ms";
    FieldToken(d.ms, 3, "ms");
    FieldToken(d.s, 2, "s");
    assert Render(d) == secs + " " + tail;
    Words2(secs, tail);
  }

  /**
   * The shape of the rendering of a non-negative duration: hours appear iff
   * h != 0, minutes iff h or m is nonzero, seconds iff any of h, m, s is
   * nonzero, milliseconds always; the milliseconds are exactly three digits
   * followed by "ms"; every other field is at least two digits followed by
   * its unit, and each field carries its value.
   */
  lemma RenderShape(d: Duration)
    requires d.h >= 0 && d.ms < 1000
    ensures var w := Words(Render(d));
      && ((|w| == 4) <==> d.h != 0)
      && ((|w| >= 3) <==> (d.h != 0 || d.m != 0))
      && ((|w| >= 2) <==> (d.h != 0 || d.m != 0 || d.s != 0))
      && 1 <= |w| <= 4
      && |w[|w| - 1]| == 5 && IsField(w[|w| - 1], "ms", 3, d.ms)
      && (|w| >= 2 ==> IsField(w[|w| - 2], "s", 2, d.s))
      && (|w| >= 3 ==> IsField(w[|w| - 3], "m", 2, d.m))
      && (|w| == 4 ==> IsField(w[0], "h", 2, d.h))
  {
    RenderWords(d);
    FieldToken(d.ms, 3, "ms");
    FieldToken(d.s, 2, "s");
    FieldToken(d.m, 2, "m");
    FieldToken(d.h, 2, "h");
    MillisWidth(d.ms);
  }

  /** The shape of `expand`'s output for a non-negative clock, in terms of its fields. */
  lemma ExpandShape(clockMs: int)
    requires clockMs >= 0
    ensures var w, d := Words(Expand(clockMs)), Split(clockMs);
      && ((|w| == 4) <==> d.h != 0)
      && ((|w| >= 3) <==> (d.h != 0 || d.m != 0))
      && ((|w| >= 2) <==> (d.h != 0 || d.m != 0 || d.s != 0))
      && 1 <= |w| <= 4
      && |w[|w| - 1]| == 5 && IsField(w[|w| - 1], "ms", 3, d.ms)
      && (|w| >= 2 ==> IsField(w[|w| - 2], "s", 2, d.s))
      && (|w| >= 3 ==> IsField(w[|w| - 3], "m", 2, d.m))
      && (|w| == 4 ==> IsField(w[0], "h", 2, d.h))
  {
    RenderShape(Split(clockMs));
  }

  lemma ReadBack(t: string, unit: string, width: nat, value: nat)
    requires width >= 1 && IsField(t, unit, width, value)
    ensures ReadField(t, unit) == Some(value)
  {
  }

  /** Tokens of the shape `expand` produces read back to the total of their fields. */
  lemma ParseFields(w: seq<string>, d: Duration)
    requires d.h >= 0
    requires (|w| == 4) <==> d.h != 0
    requires (|w| >= 3) <==> (d.h != 0 || d.m != 0)
    requires (|w| >= 2) <==> (d.h != 0 || d.m != 0 || d.s != 0)
    requires 1 <= |w| <= 4
    requires IsField(w[|w| - 1], "ms", 3, d.ms)
    requires |w| >= 2 ==> IsField(w[|w| - 2], "s", 2, d.s)
    requires |w| >= 3 ==> IsField(w[|w| - 3], "m", 2, d.m)
    requires |w| == 4 ==> IsField(w[0], "h", 2, d.h)
    ensures ParseWords(w) == Some(TotalMs(d))
  {
    ReadBack(w[|w| - 1], "ms", 3, d.ms);
    if |w| >= 2 {
      ReadBack(w[|w| - 2], "s", 2, d.s);
    }
    if |w| >= 3 {
      ReadBack(w[|w| - 3], "m", 2, d.m);
    }
    if |w| == 4 {
      ReadBack(w[0], "h", 2, d.h);
    }
  }

  /** Reading the output back gives the clock: nothing is lost by formatting. */
  lemma ParseExpand(clockMs: int)
    requires clockMs >= 0
    ensures Parse(Expand(clockMs)) == Some(clockMs)
  {
    ExpandShape(clockMs);
    ParseFields(Words(Expand(clockMs)), Split(clockMs));
  }
}
