/**
 * The handful of Python string and integer operations the bridge relies on:
 * `str(i)` for an int, `int(s)`, `s.split(sep, maxsplit)`, `s.strip()`, `s.upper()`
 * and the substring test `sub in s`.
 */
module Text {
  import opened Wrappers

  // ---------------------------------------------------------------------------
  // Decimal digits

  predicate IsDigit(c: char) { '0' <= c <= '9' }

  function DigitValue(c: char): nat
    requires IsDigit(c)
  {
    (c as int) - ('0' as int)
  }

  function DigitChar(d: nat): (c: char)
    requires d < 10
    ensures IsDigit(c) && DigitValue(c) == d
  {
    (('0' as int) + d) as char
  }

  predicate AllDigits(s: string) {
    forall k | 0 <= k < |s| :: IsDigit(s[k])
  }

  /** `str(n)` for a non-negative int: its decimal digits, most significant first. */
  function NatToString(n: nat): (s: string)
    ensures |s| > 0 && AllDigits(s)
    decreases n
  {
    if n < 10 then [DigitChar(n)] else NatToString(n / 10) + [DigitChar(n % 10)]
  }

  /** `str(i)` (and `f"{i}"`) for an int: a minus sign for negative values, then the digits. */
  function IntToString(i: int): (s: string)
    ensures |s| > 0
    ensures forall k | 0 <= k < |s| :: s[k] == '-' || IsDigit(s[k])
  {
    if i < 0 then "-" + NatToString(-i) else NatToString(i)
  }

  /** The value of a run of decimal digits. */
  function DigitsValue(s: string): nat
    requires AllDigits(s)
    decreases |s|
  {
    if s == [] then 0 else DigitsValue(s[..|s| - 1]) * 10 + DigitValue(s[|s| - 1])
  }

  /**
   * `int(s)` on a string: an optional sign followed by at least one decimal digit;
   * anything else raises `ValueError`, modelled as `None`.
   */
  function ParseInt(s: string): (r: Option<int>)
    ensures r.Some? ==> |s| > 0 && IsDigit(s[|s| - 1])
    ensures r.Some? ==> forall k | 0 < k < |s| :: IsDigit(s[k])
  {
    if |s| > 0 && (s[0] == '-' || s[0] == '+') then
      var digits := s[1..];
      if |digits| > 0 && AllDigits(digits) then
        var v: int := DigitsValue(digits);
        Some(if s[0] == '-' then -v else v)
      else
        None
    else if |s| > 0 && AllDigits(s) then
      Some(DigitsValue(s))
    else
      None
  }

  lemma {:induction false} DigitsValueOfNatToString(n: nat)
    ensures DigitsValue(NatToString(n)) == n
    decreases n
  {
    if n >= 10 {
      DigitsValueOfNatToString(n / 10);
      var s := NatToString(n / 10) + [DigitChar(n % 10)];
      assert s[..|s| - 1] == NatToString(n / 10);
    }
  }

  /** Reading back what `str` printed gives the same integer. */
  lemma ParseIntOfIntToString(i: int)
    ensures ParseInt(IntToString(i)) == Some(i)
  {
    if i < 0 {
      DigitsValueOfNatToString(-i);
      assert IntToString(i)[1..] == NatToString(-i);
    } else {
      DigitsValueOfNatToString(i);
    }
  }

  lemma IntToStringInjective(i: int, j: int)
    ensures IntToString(i) == IntToString(j) ==> i == j
  {
    ParseIntOfIntToString(i);
    ParseIntOfIntToString(j);
  }

  // ---------------------------------------------------------------------------
  // Splitting on a one-character separator

  /** Index of the first occurrence of `c` in `s`. */
  function IndexOf(s: string, c: char): (k: nat)
    requires c in s
    ensures k < |s| && s[k] == c && c !in s[..k]
  {
    if s[0] == c then 0
    else
      var k := IndexOf(s[1..], c) + 1;
      assert s[..k] == [s[0]] + s[1..][..k - 1];
      k
  }

  /**
   * `s.split(sep, maxsplit)`: cut at the first `maxsplit` occurrences of `sep`
   * (at every occurrence when `maxsplit` is negative, Python's default of -1).
   */
  function Split(s: string, sep: char, maxsplit: int): (parts: seq<string>)
    ensures 1 <= |parts|
    ensures maxsplit >= 0 ==> |parts| <= maxsplit + 1
    decreases |s|
  {
    if maxsplit == 0 || sep !in s then [s]
    else
      var k := IndexOf(s, sep);
      [s[..k]] + Split(s[k + 1..], sep, if maxsplit < 0 then maxsplit else maxsplit - 1)
  }

  /** `sep.join(parts)`. */
  function Join(parts: seq<string>, sep: char): string
    requires |parts| > 0
  {
    if |parts| == 1 then parts[0] else parts[0] + [sep] + Join(parts[1..], sep)
  }

  /** Number of occurrences of `c` in `s`. */
  function Count(s: string, c: char): nat {
    if s == [] then 0 else (if s[0] == c then 1 else 0) + Count(s[1..], c)
  }

  lemma IndexOfAfterPrefix(p: string, sep: char, rest: string)
    requires sep !in p
    ensures sep in p + [sep] + rest && IndexOf(p + [sep] + rest, sep) == |p|
  {
    var s := p + [sep] + rest;
    assert s[|p|] == sep;
  }

  /** A cut at the first separator, when one is still allowed. */
  lemma SplitCons(p: string, sep: char, rest: string, maxsplit: int)
    requires sep !in p && maxsplit != 0
    ensures Split(p + [sep] + rest, sep, maxsplit)
         == [p] + Split(rest, sep, if maxsplit < 0 then maxsplit else maxsplit - 1)
  {
    var s := p + [sep] + rest;
    IndexOfAfterPrefix(p, sep, rest);
    assert s[..|p|] == p;
    assert s[|p| + 1..] == rest;
  }

  /** Splitting a joined sequence gives the pieces back when none holds the separator. */
  lemma {:induction false} SplitOfJoin(parts: seq<string>, sep: char, maxsplit: int)
    requires |parts| > 0
    requires forall i | 0 <= i < |parts| :: sep !in parts[i]
    requires maxsplit < 0 || |parts| - 1 <= maxsplit
    ensures Split(Join(parts, sep), sep, maxsplit) == parts
    decreases |parts|
  {
    if |parts| > 1 {
      SplitCons(parts[0], sep, Join(parts[1..], sep), maxsplit);
      SplitOfJoin(parts[1..], sep, if maxsplit < 0 then maxsplit else maxsplit - 1);
      assert parts == [parts[0]] + parts[1..];
    }
  }

  lemma JoinCons(p: string, rest: seq<string>, sep: char)
    requires |rest| > 0
    ensures Join([p] + rest, sep) == p + [sep] + Join(rest, sep)
  {
    assert ([p] + rest)[1..] == rest;
  }

  /** Joining the pieces of a split restores the string. */
  lemma {:induction false} JoinOfSplit(s: string, sep: char, maxsplit: int)
    ensures Join(Split(s, sep, maxsplit), sep) == s
    decreases |s|
  {
    if maxsplit != 0 && sep in s {
      var k := IndexOf(s, sep);
      var m := if maxsplit < 0 then maxsplit else maxsplit - 1;
      var rest := Split(s[k + 1..], sep, m);
      JoinOfSplit(s[k + 1..], sep, m);
      JoinCons(s[..k], rest, sep);
      assert s == s[..k] + [sep] + s[k + 1..];
    }
  }

  /** A split on every separator leaves no separator in any piece. */
  lemma {:induction false} SplitPiecesAvoidSep(s: string, sep: char)
    ensures forall i | 0 <= i < |Split(s, sep, -1)| :: sep !in Split(s, sep, -1)[i]
    decreases |s|
  {
    if sep in s {
      var k := IndexOf(s, sep);
      SplitPiecesAvoidSep(s[k + 1..], sep);
      var parts := Split(s, sep, -1);
      assert parts[1..] == Split(s[k + 1..], sep, -1);
      forall i | 0 <= i < |parts| ensures sep !in parts[i] {
        if i > 0 { assert parts[i] == parts[1..][i - 1]; }
      }
    }
  }

  lemma {:induction false} CountAppend(a: string, b: string, c: char)
    ensures Count(a + b, c) == Count(a, c) + Count(b, c)
    decreases |a|
  {
    if a == [] {
      assert a + b == b;
    } else {
      assert (a + b)[0] == a[0];
      assert (a + b)[1..] == a[1..] + b;
      CountAppend(a[1..], b, c);
    }
  }

  lemma {:induction false} CountAbsent(s: string, c: char)
    requires c !in s
    ensures Count(s, c) == 0
    decreases |s|
  {
    if s != [] {
      CountAbsent(s[1..], c);
    }
  }

  /** Every cut consumes one separator, so there are at most `Count + 1` pieces. */
  lemma {:induction false} SplitLength(s: string, sep: char, maxsplit: int)
    ensures |Split(s, sep, maxsplit)| <= Count(s, sep) + 1
    decreases |s|
  {
    if maxsplit != 0 && sep in s {
      var k := IndexOf(s, sep);
      assert s == s[..k] + ([sep] + s[k + 1..]);
      CountAppend(s[..k], [sep] + s[k + 1..], sep);
      CountAbsent(s[..k], sep);
      assert ([sep] + s[k + 1..])[1..] == s[k + 1..];
      SplitLength(s[k + 1..], sep, if maxsplit < 0 then maxsplit else maxsplit - 1);
    }
  }

  // ---------------------------------------------------------------------------
  // strip() and upper()

  /** `c.isspace()`: the characters Python's `str.strip()` removes by default. */
  predicate IsSpace(c: char) {
    var n := c as int;
    n == 32 || 9 <= n <= 13 || 28 <= n <= 31 || n == 0x85 || n == 0xA0 || n == 0x1680
    || 0x2000 <= n <= 0x200A || n == 0x2028 || n == 0x2029 || n == 0x202F
    || n == 0x205F || n == 0x3000
  }

  predicate AllSpace(s: string) {
    forall k | 0 <= k < |s| :: IsSpace(s[k])
  }

  function StripLeft(s: string): (r: string)
    ensures r == [] || !IsSpace(r[0])
    ensures |r| <= |s| && r == s[|s| - |r|..]
    decreases |s|
  {
    if s != [] && IsSpace(s[0]) then StripLeft(s[1..]) else s
  }

  function StripRight(s: string): (r: string)
    ensures r == [] || !IsSpace(r[|r| - 1])
    ensures |r| <= |s| && r == s[..|r|]
    decreases |s|
  {
    if s != [] && IsSpace(s[|s| - 1]) then StripRight(s[..|s| - 1]) else s
  }

  /** `s.strip()`: leading and trailing whitespace removed. */
  function Strip(s: string): (r: string)
    ensures r == [] || (!IsSpace(r[0]) && !IsSpace(r[|r| - 1]))
  {
    StripRight(StripLeft(s))
  }

  /** `c.upper()` for ASCII letters; other characters are left as they are. */
  function UpperChar(c: char): char {
    if 'a' <= c <= 'z' then (c as int - 32) as char else c
  }

  /** `s.upper()`, letter by letter. */
  function Upper(s: string): (r: string)
    ensures |r| == |s|
  {
    seq(|s|, k requires 0 <= k < |s| => UpperChar(s[k]))
  }

  lemma {:induction false} StripLeftOfSpaces(w: string, x: string)
    requires AllSpace(w)
    ensures StripLeft(w + x) == StripLeft(x)
    decreases |w|
  {
    if w == [] {
      assert w + x == x;
    } else {
      assert (w + x)[0] == w[0];
      assert (w + x)[1..] == w[1..] + x;
      assert AllSpace(w[1..]) by {
        forall k | 0 <= k < |w| - 1 ensures IsSpace(w[1..][k]) {
          assert w[1..][k] == w[k + 1];
        }
      }
      StripLeftOfSpaces(w[1..], x);
    }
  }

  lemma {:induction false} StripRightOfSpaces(x: string, w: string)
    requires AllSpace(w)
    ensures StripRight(x + w) == StripRight(x)
    decreases |w|
  {
    if w == [] {
      assert x + w == x;
    } else {
      var s := x + w;
      assert s[|s| - 1] == w[|w| - 1];
      assert s[..|s| - 1] == x + w[..|w| - 1];
      var w' := w[..|w| - 1];
      assert AllSpace(w') by {
        forall k | 0 <= k < |w'| ensures IsSpace(w'[k]) {
          assert w'[k] == w[k];
        }
      }
      StripRightOfSpaces(x, w');
    }
  }

  lemma {:induction false} StripLeftAppend(p: string, w: string)
    ensures StripLeft(p + w) == if AllSpace(p) then StripLeft(w) else StripLeft(p) + w
    decreases |p|
  {
    if p == [] {
      assert p + w == w;
    } else {
      assert (p + w)[0] == p[0];
      assert (p + w)[1..] == p[1..] + w;
      StripLeftAppend(p[1..], w);
      AllSpaceCons(p);
    }
  }

  lemma AllSpaceCons(p: string)
    requires p != []
    ensures AllSpace(p) <==> IsSpace(p[0]) && AllSpace(p[1..])
  {
    if IsSpace(p[0]) && AllSpace(p[1..]) {
      forall k | 0 <= k < |p| ensures IsSpace(p[k]) {
        if k > 0 { assert p[k] == p[1..][k - 1]; }
      }
    }
  }

  lemma StripLeftAllSpace(s: string)
    requires AllSpace(s)
    ensures StripLeft(s) == []
  {
    StripLeftOfSpaces(s, []);
    assert s + [] == s;
  }

  /** Whitespace padding on either side does not change the stripped text. */
  lemma StripIgnoresPadding(w1: string, p: string, w2: string)
    requires AllSpace(w1) && AllSpace(w2)
    ensures Strip(w1 + p + w2) == Strip(p)
  {
    assert w1 + p + w2 == w1 + (p + w2);
    StripLeftOfSpaces(w1, p + w2);
    StripLeftAppend(p, w2);
    if AllSpace(p) {
      StripLeftAllSpace(w2);
      StripLeftAllSpace(p);
    } else {
      StripRightOfSpaces(StripLeft(p), w2);
    }
  }

  lemma {:induction false} StripLeftUpper(s: string)
    ensures StripLeft(Upper(s)) == Upper(StripLeft(s))
    decreases |s|
  {
    if s != [] {
      var u := Upper(s);
      assert u[0] == UpperChar(s[0]);
      UpperCharSpace(s[0]);
      assert u[1..] == Upper(s[1..]);
      StripLeftUpper(s[1..]);
    }
  }

  /** Upper-casing neither creates nor removes whitespace. */
  lemma UpperCharSpace(c: char)
    ensures IsSpace(UpperChar(c)) <==> IsSpace(c)
  {
  }

  lemma {:induction false} StripRightUpper(s: string)
    ensures StripRight(Upper(s)) == Upper(StripRight(s))
    decreases |s|
  {
    if s != [] {
      var u := Upper(s);
      assert u[|s| - 1] == UpperChar(s[|s| - 1]);
      UpperCharSpace(s[|s| - 1]);
      assert u[..|s| - 1] == Upper(s[..|s| - 1]);
      StripRightUpper(s[..|s| - 1]);
    }
  }

  /** A string with no whitespace at either end is its own strip. */
  lemma StripUnpadded(s: string)
    requires s == [] || (!IsSpace(s[0]) && !IsSpace(s[|s| - 1]))
    ensures Strip(s) == s
  {
  }

  /** Upper-casing twice is upper-casing once. */
  lemma UpperIdempotent(s: string)
    ensures Upper(Upper(s)) == Upper(s)
  {
  }

  /** Upper-casing and stripping commute: no letter is whitespace. */
  lemma UpperStripCommute(s: string)
    ensures Upper(Strip(s)) == Strip(Upper(s))
  {
    StripLeftUpper(s);
    StripRightUpper(StripLeft(s));
  }

  // ---------------------------------------------------------------------------
  // Substrings

  /** `sub in s`. */
  predicate Contains(s: string, sub: string)
    decreases |s|
  {
    |sub| <= |s| && (s[..|sub|] == sub || Contains(s[1..], sub))
  }

  lemma {:induction false} ContainsAt(s: string, sub: string, i: nat)
    requires i + |sub| <= |s| && s[i..i + |sub|] == sub
    ensures Contains(s, sub)
    decreases i
  {
    if i > 0 {
      assert s[1..][i - 1..i - 1 + |sub|] == s[i..i + |sub|];
      ContainsAt(s[1..], sub, i - 1);
    }
  }

  lemma {:induction false} ContainsWitness(s: string, sub: string) returns (i: nat)
    requires Contains(s, sub)
    ensures i + |sub| <= |s| && s[i..i + |sub|] == sub
    decreases |s|
  {
    if s[..|sub|] == sub {
      i := 0;
    } else {
      var j := ContainsWitness(s[1..], sub);
      i := j + 1;
      assert s[i..i + |sub|] == s[1..][j..j + |sub|];
    }
  }

  /** Between strings of one length, containment is equality. */
  lemma ContainsSameLength(s: string, sub: string)
    requires |s| == |sub|
    ensures Contains(s, sub) <==> s == sub
  {
    if s != [] {
      assert !Contains(s[1..], sub);
    }
    assert s[..|sub|] == s;
  }

  /** A string that contains `a` contains everything `a` contains. */
  lemma ContainsTransitive(s: string, a: string, b: string)
    requires Contains(s, a) && Contains(a, b)
    ensures Contains(s, b)
  {
    var i := ContainsWitness(s, a);
    var j := ContainsWitness(a, b);
    forall k | 0 <= k < |b| ensures s[i + j + k] == b[k] {
      assert s[i..i + |a|][j + k] == a[j + k];
      assert a[j..j + |b|][k] == a[j + k];
    }
    assert s[i + j..i + j + |b|] == b;
    ContainsAt(s, b, i + j);
  }

  lemma ContainsSuffix(x: string, y: string)
    ensures Contains(x + y, y)
  {
    assert (x + y)[|x|..|x| + |y|] == y;
    ContainsAt(x + y, y, |x|);
  }
}
