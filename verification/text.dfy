/** String operations the forwarder borrows from Python's `str`: lower-casing,
    the `in` substring test, `strip()`, slicing with a possibly negative stop,
    `startswith`, `' '.join` and `str()` of an integer.  Case mapping and the
    whitespace class are parameters, one character at a time. */
module Text {

  /** `s.lower()`, given a per-character case mapping. */
  function Lower(s: string, lc: char -> char): (r: string)
    ensures |r| == |s|
    ensures forall i :: 0 <= i < |s| ==> r[i] == lc(s[i])
  {
    seq(|s|, i requires 0 <= i < |s| => lc(s[i]))
  }

  predicate IsPrefix(p: string, s: string) {
    |p| <= |s| && s[..|p|] == p
  }

  /** Python's `needle in hay`: a scan from the left (the empty needle is in every string). */
  function IsSubstring(needle: string, hay: string): (r: bool)
    ensures IsPrefix(needle, hay) ==> r
    ensures |needle| > |hay| ==> !r
    decreases |hay|
  {
    IsPrefix(needle, hay) || (hay != [] && IsSubstring(needle, hay[1..]))
  }

  /** The reference meaning of `needle in hay`: it occurs at some offset. */
  ghost predicate OccursAt(needle: string, hay: string, k: int) {
    0 <= k && k + |needle| <= |hay| && hay[k..k + |needle|] == needle
  }

  lemma {:induction false} IsSubstringMeans(needle: string, hay: string)
    ensures IsSubstring(needle, hay) <==> exists k :: OccursAt(needle, hay, k)
    decreases |hay|
  {
    if IsPrefix(needle, hay) {
      assert OccursAt(needle, hay, 0);
    } else if hay == [] {
    } else {
      IsSubstringMeans(needle, hay[1..]);
      if IsSubstring(needle, hay[1..]) {
        var k :| OccursAt(needle, hay[1..], k);
        assert hay[k + 1..k + 1 + |needle|] == hay[1..][k..k + |needle|];
        assert OccursAt(needle, hay, k + 1);
      }
      if exists k :: OccursAt(needle, hay, k) {
        var k :| OccursAt(needle, hay, k);
        if k == 0 {
          assert false;
        }
        assert hay[1..][k - 1..k - 1 + |needle|] == hay[k..k + |needle|];
        assert OccursAt(needle, hay[1..], k - 1);
      }
    }
  }

  /** A needle inside a part of a concatenation is inside the whole. */
  lemma SubstringOfPart(needle: string, a: string, part: string, b: string)
    requires IsSubstring(needle, part)
    ensures IsSubstring(needle, a + part + b)
  {
    IsSubstringMeans(needle, part);
    var k :| OccursAt(needle, part, k);
    assert (a + part + b)[|a| + k..|a| + k + |needle|] == part[k..k + |needle|];
    assert OccursAt(needle, a + part + b, |a| + k);
    IsSubstringMeans(needle, a + part + b);
  }

  lemma SubstringOfRight(needle: string, a: string, part: string)
    requires IsSubstring(needle, part)
    ensures IsSubstring(needle, a + part)
  {
    SubstringOfPart(needle, a, part, "");
    assert a + part + "" == a + part;
  }

  lemma SubstringOfLeft(needle: string, part: string, b: string)
    requires IsSubstring(needle, part)
    ensures IsSubstring(needle, part + b)
  {
    SubstringOfPart(needle, "", part, b);
    assert "" + part + b == part + b;
  }

  lemma AppendAssoc<T>(a: seq<T>, b: seq<T>, c: seq<T>)
    ensures (a + b) + c == a + (b + c)
  {
  }

  /** `s.startswith(p)`. */
  function StartsWith(s: string, p: string): (r: bool)
    ensures r <==> exists t :: s == p + t
  {
    if IsPrefix(p, s) then
      assert s == p + s[|p|..];
      true
    else
      false
  }

  /** `s.lstrip()`, whitespace given by `isSpace`. */
  function TrimStart(s: string, isSpace: char -> bool): (r: string)
    ensures |r| <= |s| && r == s[|s| - |r|..]
    ensures forall i :: 0 <= i < |s| - |r| ==> isSpace(s[i])
    ensures r != [] ==> !isSpace(r[0])
  {
    if s != [] && isSpace(s[0]) then
      var r := TrimStart(s[1..], isSpace);
      assert s[1..][|s| - 1 - |r|..] == s[|s| - |r|..];
      assert forall i :: 1 <= i < |s| ==> s[i] == s[1..][i - 1];
      r
    else s
  }

  /** `s.rstrip()`. */
  function TrimEnd(s: string, isSpace: char -> bool): (r: string)
    ensures |r| <= |s| && r == s[..|r|]
    ensures forall i :: |r| <= i < |s| ==> isSpace(s[i])
    ensures r != [] ==> !isSpace(r[|r| - 1])
  {
    if s != [] && isSpace(s[|s| - 1]) then
      var r := TrimEnd(s[..|s| - 1], isSpace);
      assert s[..|s| - 1][..|r|] == s[..|r|];
      r
    else s
  }

  /** `r` is the run of `s` starting at `lo`, and everything outside it is whitespace. */
  ghost predicate TrimmedAt(s: string, r: string, lo: int, isSpace: char -> bool) {
    && 0 <= lo && lo + |r| <= |s| && r == s[lo..lo + |r|]
    && (forall i :: 0 <= i < lo ==> isSpace(s[i]))
    && (forall i :: lo + |r| <= i < |s| ==> isSpace(s[i]))
  }

  /** `s.strip()`: the result is a run of `s` that neither starts nor ends with
      whitespace, and only whitespace was cut away on either side. */
  function Strip(s: string, isSpace: char -> bool): (r: string)
    ensures exists lo :: TrimmedAt(s, r, lo, isSpace)
    ensures r != [] ==> !isSpace(r[0]) && !isSpace(r[|r| - 1])
  {
    var t := TrimStart(s, isSpace);
    var r := TrimEnd(t, isSpace);
    StripWitness(s, t, r, isSpace);
    r
  }

  lemma StripWitness(s: string, t: string, r: string, isSpace: char -> bool)
    requires |t| <= |s| && t == s[|s| - |t|..] && forall i :: 0 <= i < |s| - |t| ==> isSpace(s[i])
    requires |r| <= |t| && r == t[..|r|] && forall i :: |r| <= i < |t| ==> isSpace(t[i])
    ensures TrimmedAt(s, r, |s| - |t|, isSpace)
  {
    var lo := |s| - |t|;
    assert r == s[lo..lo + |r|];
    forall i | lo + |r| <= i < |s|
      ensures isSpace(s[i])
    {
      assert s[i] == t[i - lo];
    }
  }

  /** A text without whitespace is left as it is. */
  lemma StripNoSpace(s: string, isSpace: char -> bool)
    requires forall i :: 0 <= i < |s| ==> !isSpace(s[i])
    ensures Strip(s, isSpace) == s
  {
    var r := Strip(s, isSpace);
    var lo :| TrimmedAt(s, r, lo, isSpace);
    if s != [] {
      assert !isSpace(s[0]) && !isSpace(s[|s| - 1]);
    }
    assert s[0..|s|] == s;
  }

  /** Stripping only removes characters. */
  lemma StripKeepsAbsent(s: string, c: char, isSpace: char -> bool)
    requires c !in s
    ensures c !in Strip(s, isSpace)
  {
    var r := Strip(s, isSpace);
    var lo :| TrimmedAt(s, r, lo, isSpace);
    forall i | 0 <= i < |r| ensures r[i] != c {
      assert r[i] == s[lo + i];
    }
  }

  /** Python's `s[:n]` for any integer `n`: a negative stop counts from the end. */
  function PySlice(s: string, n: int): (r: string)
    ensures |r| <= |s| && r == s[..|r|]
    ensures 0 <= n ==> |r| == if n < |s| then n else |s|
    ensures n < 0 ==> |r| == if |s| + n > 0 then |s| + n else 0
  {
    if 0 <= n then
      if n < |s| then s[..n] else s
    else
      if |s| + n > 0 then s[..|s| + n] else []
  }

  /** A slice only removes characters. */
  lemma PySliceKeepsAbsent(s: string, n: int, c: char)
    requires c !in s
    ensures c !in PySlice(s, n)
  {
    var r := PySlice(s, n);
    forall i | 0 <= i < |r| ensures r[i] != c {
      assert r[i] == s[i];
    }
  }

  /** `sep.join(items)`. */
  function Join(sep: string, items: seq<string>): (r: string)
    ensures items == [] ==> r == ""
    ensures |items| == 1 ==> r == items[0]
    ensures items != [] ==> IsPrefix(items[0], r)
    ensures items != [] ==> |r| == TotalLength(items) + (|items| - 1) * |sep|
  {
    if items == [] then ""
    else if |items| == 1 then items[0]
    else
      var rest := Join(sep, items[1..]);
      assert (|items| - 1) * |sep| == |sep| + (|items| - 2) * |sep|;
      items[0] + sep + rest
  }

  /** The summed length of the items. */
  function TotalLength(items: seq<string>): nat {
    if items == [] then 0 else |items[0]| + TotalLength(items[1..])
  }

  /** Every item of a join is a substring of it. */
  lemma {:induction false} JoinContainsItems(sep: string, items: seq<string>, i: nat)
    requires i < |items|
    ensures IsSubstring(items[i], Join(sep, items))
  {
    if |items| == 1 {
      SubstringOfPart(items[0], "", items[0], "");
      assert "" + items[0] + "" == items[0];
    } else if i == 0 {
      SubstringOfPart(items[0], "", items[0], sep + Join(sep, items[1..]));
      assert "" + items[0] + (sep + Join(sep, items[1..])) == Join(sep, items);
    } else {
      JoinContainsItems(sep, items[1..], i - 1);
      SubstringOfPart(items[i], items[0] + sep, Join(sep, items[1..]), "");
      assert items[0] + sep + Join(sep, items[1..]) + "" == Join(sep, items);
    }
  }

  /** `s.replace(c, rep)` for a one-character pattern: every occurrence of `c`
      is replaced, left to right. */
  function ReplaceChar(s: string, c: char, rep: string): (r: string)
    ensures c !in s ==> r == s
    ensures c !in rep ==> c !in r
    ensures forall d :: d in r ==> (d in s && d != c) || d in rep
    ensures rep == [] ==> |r| <= |s|
  {
    if s == [] then []
    else (if s[0] == c then rep else [s[0]]) + ReplaceChar(s[1..], c, rep)
  }

  lemma {:induction false} ReplaceCharAppend(a: string, b: string, c: char, rep: string)
    ensures ReplaceChar(a + b, c, rep) == ReplaceChar(a, c, rep) + ReplaceChar(b, c, rep)
  {
    if a == [] {
      assert a + b == b;
    } else {
      assert (a + b)[0] == a[0] && (a + b)[1..] == a[1..] + b;
      ReplaceCharAppend(a[1..], b, c, rep);
      AppendAssoc(if a[0] == c then rep else [a[0]], ReplaceChar(a[1..], c, rep), ReplaceChar(b, c, rep));
    }
  }

  predicate IsDigit(c: char) {
    '0' <= c <= '9'
  }

  /** The value of a decimal digit. */
  function DigitValue(c: char): int {
    c as int - '0' as int
  }

  function DigitChar(d: nat): (c: char)
    requires d < 10
    ensures IsDigit(c) && DigitValue(c) == d
  {
    ('0' as int + d) as char
  }

  /** The number a string of decimal digits stands for, read from the left. */
  function DecimalValue(s: string): int {
    if s == [] then 0 else 10 * DecimalValue(s[..|s| - 1]) + DigitValue(s[|s| - 1])
  }

  /** The number a decimal numeral with an optional leading `-` stands for. */
  function SignedValue(s: string): int {
    if s != [] && s[0] == '-' then -DecimalValue(s[1..]) else DecimalValue(s)
  }

  /** `str(n)` for a natural number: decimal digits, no leading zero, and they
      stand for `n`. */
  function NatToString(n: nat): (r: string)
    ensures r != [] && (forall i :: 0 <= i < |r| ==> IsDigit(r[i]))
    ensures |r| > 1 ==> r[0] != '0'
    ensures DecimalValue(r) == n
  {
    if n < 10 then [DigitChar(n)]
    else
      var r := NatToString(n / 10) + [DigitChar(n % 10)];
      assert r[..|r| - 1] == NatToString(n / 10);
      r
  }

  /** `str(n)` for any integer: reading the numeral back gives `n`. */
  function IntToString(n: int): (r: string)
    ensures r != []
    ensures n < 0 <==> r[0] == '-'
    ensures SignedValue(r) == n
  {
    if n < 0 then
      var digits := NatToString(-n);
      assert ("-" + digits)[1..] == digits;
      "-" + digits
    else NatToString(n)
  }

  /** Different integers are written differently. */
  lemma IntToStringInjective(a: int, b: int)
    requires IntToString(a) == IntToString(b)
    ensures a == b
  {
    assert SignedValue(IntToString(a)) == SignedValue(IntToString(b));
  }
}
