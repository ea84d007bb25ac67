/** String operations of JavaScript that the modelled code relies on, over `seq<char>`. */
module Text {

  /** `s.startsWith(t)` */
  predicate IsPrefix(t: string, s: string) {
    |t| <= |s| && s[..|t|] == t
  }

  /** `s.includes(t)`: `t` occurs in `s` as a contiguous block. */
  predicate Contains(s: string, t: string)
    decreases |s|
  {
    IsPrefix(t, s) || (|s| > 0 && Contains(s[1..], t))
  }

  /** An occurrence at any position makes `Contains` true. */
  lemma {:induction false} ContainsAt(s: string, t: string, i: nat)
    requires i <= |s| && IsPrefix(t, s[i..])
    ensures Contains(s, t)
    decreases i
  {
    if i > 0 {
      assert s[1..][i - 1..] == s[i..];
      ContainsAt(s[1..], t, i - 1);
    }
  }

  /** `Contains` always has a witnessing position. */
  lemma {:induction false} ContainsWitness(s: string, t: string) returns (i: nat)
    requires Contains(s, t)
    ensures i <= |s| && IsPrefix(t, s[i..])
    decreases |s|
  {
    if IsPrefix(t, s) {
      i := 0;
    } else {
      var k := ContainsWitness(s[1..], t);
      assert s[1..][k..] == s[k + 1..];
      i := k + 1;
    }
  }

  lemma ContainsEmpty(s: string)
    ensures Contains(s, "")
  {
  }

  lemma ContainsSelf(s: string)
    ensures Contains(s, s)
  {
    assert IsPrefix(s, s);
  }

  /** A block of a block of `a` is a block of `a`. */
  lemma ContainsTransitive(a: string, b: string, c: string)
    requires Contains(a, b) && Contains(b, c)
    ensures Contains(a, c)
  {
    var i := ContainsWitness(a, b);
    var j := ContainsWitness(b, c);
    assert a[i..][j..] == a[i + j..];
    assert a[i + j..][..|c|] == b[j..][..|c|];
    ContainsAt(a, c, i + j);
  }

  /** A string only contains strings no longer than itself, so a shorter one contains no longer one. */
  lemma ContainsShorter(s: string, t: string)
    requires Contains(s, t)
    ensures |t| <= |s|
  {
    var i := ContainsWitness(s, t);
  }

  /** The characters `String.prototype.trim` removes (WhiteSpace and LineTerminator of ECMAScript). */
  predicate IsJsSpace(c: char) {
    c == '\t' || c == '\n' || c == '\U{000B}' || c == '\U{000C}' || c == '\r' || c == ' '
    || c == '\U{00A0}' || c == '\U{1680}' || ('\U{2000}' <= c <= '\U{200A}')
    || c == '\U{2028}' || c == '\U{2029}' || c == '\U{202F}' || c == '\U{205F}'
    || c == '\U{3000}' || c == '\U{FEFF}'
  }

  /** `!text || text.trim().length === 0` */
  predicate IsBlank(s: string) {
    forall i :: 0 <= i < |s| ==> IsJsSpace(s[i])
  }

  /** `s.trimStart()` */
  function TrimStart(s: string): (r: string)
    ensures r == [] || !IsJsSpace(r[0])
    decreases |s|
  {
    if s != [] && IsJsSpace(s[0]) then TrimStart(s[1..]) else s
  }

  /** `trimStart` removes a blank prefix and nothing else. */
  lemma {:induction false} TrimStartDropsSpaces(s: string)
    ensures DropsLeadingSpaces(TrimStart(s), s)
    decreases |s|
  {
    if s != [] && IsJsSpace(s[0]) {
      TrimStartDropsSpaces(s[1..]);
      DropsLeadingSpacesCons(s[0], s[1..], TrimStart(s[1..]));
      assert [s[0]] + s[1..] == s;
    } else {
      assert s[..0] == [];
    }
  }

  /** One more leading space in front of the input is one more space dropped. */
  lemma DropsLeadingSpacesCons(c: char, t: string, r: string)
    requires IsJsSpace(c) && DropsLeadingSpaces(r, t)
    ensures DropsLeadingSpaces(r, [c] + t)
  {
    var k := |t| - |r|;
    var s := [c] + t;
    assert s[k + 1..] == t[k..];
    assert s[..k + 1] == [c] + t[..k];
    BlankCons(c, t[..k]);
  }

  lemma BlankCons(c: char, t: string)
    requires IsJsSpace(c) && IsBlank(t)
    ensures IsBlank([c] + t)
  {
    forall i | 0 <= i < |[c] + t| ensures IsJsSpace(([c] + t)[i]) {
      if i > 0 {
        assert ([c] + t)[i] == t[i - 1];
      }
    }
  }

  /** `r` is what remains of `s` after dropping some leading characters, all of them spaces. */
  predicate DropsLeadingSpaces(r: string, s: string) {
    |r| <= |s| && r == s[|s| - |r|..] && IsBlank(s[..|s| - |r|])
  }

  /** The ASCII digits `\d` matches in a regular expression without the `u` flag. */
  predicate IsDigit(c: char) {
    '0' <= c <= '9'
  }

  function DigitValue(c: char): (d: nat)
    requires IsDigit(c)
    ensures d < 10
  {
    (c as int) - ('0' as int)
  }

  function DigitChar(d: nat): (c: char)
    requires d < 10
    ensures IsDigit(c) && DigitValue(c) == d
  {
    ((('0' as int) + d) as char)
  }

  predicate AllDigits(s: string) {
    forall i :: 0 <= i < |s| ==> IsDigit(s[i])
  }

  /** The number written by a string of decimal digits. */
  function DecimalValue(s: string): nat
    requires AllDigits(s)
    decreases |s|
  {
    if s == [] then 0 else DecimalValue(s[..|s| - 1]) * 10 + DigitValue(s[|s| - 1])
  }

  /** `n.toString()` for a non-negative integer. */
  function NatToString(n: nat): (r: string)
    ensures AllDigits(r) && 1 <= |r|
    ensures DecimalValue(r) == n
    ensures |r| == 1 <==> n < 10
    decreases n
  {
    if n < 10 then [DigitChar(n)]
    else
      var r := NatToString(n / 10) + [DigitChar(n % 10)];
      assert r[..|r| - 1] == NatToString(n / 10);
      r
  }

  /** Four-digit numbers print as four digits. */
  lemma {:induction false} NatToStringLength(n: nat, k: nat)
    requires 1 <= k
    requires Pow10(k - 1) <= n < Pow10(k) || (k == 1 && n < 10)
    ensures |NatToString(n)| == k
    decreases k
  {
    if k > 1 {
      NatToStringLength(n / 10, k - 1);
    }
  }

  function Pow10(k: nat): (p: nat)
    ensures p >= 1
  {
    if k == 0 then 1 else 10 * Pow10(k - 1)
  }

  /** `i.toString()` for any integer. */
  function IntToString(i: int): (r: string)
    ensures 1 <= |r|
    ensures i >= 0 ==> r == NatToString(i)
    ensures i < 0 ==> r[0] == '-' && r[1..] == NatToString(-i)
  {
    if i < 0 then "-" + NatToString(-i) else NatToString(i)
  }

  /** Leading zeros do not change the value of a digit string. */
  lemma {:induction false} LeadingZero(s: string)
    requires AllDigits(s)
    ensures AllDigits("0" + s) && DecimalValue("0" + s) == DecimalValue(s)
    decreases |s|
  {
    if s != [] {
      var t := "0" + s;
      assert t[..|t| - 1] == "0" + s[..|s| - 1];
      LeadingZero(s[..|s| - 1]);
    }
  }

  /** `s.padStart(2, '0')` */
  function PadStart2(s: string): (r: string)
    ensures |s| <= 2 ==> |r| == 2
    ensures |s| >= 2 ==> r == s
  {
    if |s| == 0 then "00" else if |s| == 1 then "0" + s else s
  }

  /** Different integers print differently. */
  lemma IntToStringInjective(i: int, j: int)
    requires IntToString(i) == IntToString(j)
    ensures i == j
  {
    var r := IntToString(i);
    assert r[0] == '-' <==> i < 0;
    assert r[0] == '-' <==> j < 0;
    if i < 0 {
      assert NatToString(-i) == NatToString(-j);
    }
  }

  /** A printed integer has no character outside digits and the minus sign. */
  lemma IntToStringChars(i: int)
    ensures forall c :: c in IntToString(i) ==> IsDigit(c) || c == '-'
  {
    var r := IntToString(i);
    forall c | c in r ensures IsDigit(c) || c == '-' {
      var k :| 0 <= k < |r| && r[k] == c;
      if i < 0 && k > 0 {
        assert r[k] == NatToString(-i)[k - 1];
      }
    }
  }

  /** The index of the first `c` in `s`, or its length when there is none. */
  function IndexOf(s: string, c: char): (j: nat)
    ensures j <= |s| && (j < |s| ==> s[j] == c)
  {
    IndexFrom(s, c, 0)
  }

  /** The index of the first `c` at or after `k`, or the length when there is none. */
  function IndexFrom(s: string, c: char, k: nat): (j: nat)
    requires k <= |s|
    ensures k <= j <= |s| && (j < |s| ==> s[j] == c)
    decreases |s| - k
  {
    if k == |s| || s[k] == c then k else IndexFrom(s, c, k + 1)
  }

  /** No `c` comes between `k` and the first one after it. */
  lemma {:induction false} IndexFromFirst(s: string, c: char, k: nat)
    requires k <= |s|
    ensures forall i :: k <= i < IndexFrom(s, c, k) ==> s[i] != c
    decreases |s| - k
  {
    if k < |s| && s[k] != c {
      IndexFromFirst(s, c, k + 1);
    }
  }

  /** No `c` comes before the first one. */
  lemma IndexOfFirst(s: string, c: char)
    ensures forall k :: 0 <= k < IndexOf(s, c) ==> s[k] != c
  {
    IndexFromFirst(s, c, 0);
  }

  /** The first `c` is wherever `c` occurs with none before it. */
  lemma IndexOfIs(s: string, c: char, j: nat)
    requires j <= |s| && (j < |s| ==> s[j] == c)
    requires forall k :: 0 <= k < j ==> s[k] != c
    ensures IndexOf(s, c) == j
  {
    var r := IndexOf(s, c);
    IndexOfFirst(s, c);
    assert !(r < j) by {
      assert r < |s| ==> s[r] == c;
    }
  }

  /** The part of `s` before its first `sep` and the part after it. */
  function SplitFirst(s: string, sep: char): (string, string)
    decreases |s|
  {
    if s == [] then ([], [])
    else if s[0] == sep then ([], s[1..])
    else
      var (a, b) := SplitFirst(s[1..], sep);
      ([s[0]] + a, b)
  }

  /** The part of `s` before its last `sep` and the part after it. */
  function SplitLast(s: string, sep: char): (string, string)
    decreases |s|
  {
    if s == [] then ([], [])
    else if s[|s| - 1] == sep then (s[..|s| - 1], [])
    else
      var (a, b) := SplitLast(s[..|s| - 1], sep);
      (a, b + [s[|s| - 1]])
  }

  lemma {:induction false} SplitFirstOfJoin(p: string, sep: char, r: string)
    requires sep !in p
    ensures SplitFirst(p + [sep] + r, sep) == (p, r)
    decreases |p|
  {
    var s := p + [sep] + r;
    if p == [] {
      assert s[1..] == r;
    } else {
      assert s[1..] == p[1..] + [sep] + r;
      SplitFirstOfJoin(p[1..], sep, r);
      assert [p[0]] + p[1..] == p;
    }
  }

  lemma {:induction false} SplitLastOfJoin(r: string, sep: char, c: string)
    requires sep !in c
    ensures SplitLast(r + [sep] + c, sep) == (r, c)
    decreases |c|
  {
    var s := r + [sep] + c;
    if c == [] {
      assert s[..|s| - 1] == r;
    } else {
      assert s[..|s| - 1] == r + [sep] + c[..|c| - 1];
      SplitLastOfJoin(r, sep, c[..|c| - 1]);
      assert c[..|c| - 1] + [c[|c| - 1]] == c;
    }
  }

  /** No occurrence at any position means no occurrence. */
  lemma {:induction false} NotContains(s: string, t: string)
    requires forall i :: 0 <= i <= |s| ==> !IsPrefix(t, s[i..])
    ensures !Contains(s, t)
    decreases |s|
  {
    assert s[0..] == s;
    if |s| > 0 {
      forall i | 0 <= i <= |s[1..]| ensures !IsPrefix(t, s[1..][i..]) {
        assert s[1..][i..] == s[i + 1..];
      }
      NotContains(s[1..], t);
    }
  }

  /** `items.join(",")`, which is also how an array turns into a string. */
  function JoinComma(items: seq<string>): string {
    if items == [] then ""
    else if |items| == 1 then items[0]
    else items[0] + "," + JoinComma(items[1..])
  }
}
