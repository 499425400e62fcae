/** Strings as the program uses them: order, search, splitting, joining and decimal numerals. */
module Strings {

  // ---------- Order ----------

  /** Array.prototype.sort compares strings by code unit. */
  predicate LexLess(a: string, b: string)
    decreases |a|
  {
    if a == "" then b != ""
    else if b == "" then false
    else a[0] < b[0] || (a[0] == b[0] && LexLess(a[1..], b[1..]))
  }

  lemma {:induction false} LexTotal(a: string, b: string)
    ensures LexLess(a, b) || a == b || LexLess(b, a)
    ensures !(LexLess(a, b) && LexLess(b, a)) && !LexLess(a, a)
    decreases |a|
  {
    if a != "" {
      LexTotal(a[1..], a[1..]);
      if b != "" {
        LexTotal(a[1..], b[1..]);
        if a[0] == b[0] && a[1..] == b[1..] {
          assert a == [a[0]] + a[1..] && b == [b[0]] + b[1..];
        }
      }
    }
  }

  lemma {:induction false} LexTransitive(a: string, b: string, c: string)
    requires LexLess(a, b) && LexLess(b, c)
    ensures LexLess(a, c)
    decreases |a|
  {
    if a != "" && a[0] == b[0] == c[0] {
      LexTransitive(a[1..], b[1..], c[1..]);
    }
  }

  /** The order of dictionaries: at the first place where they differ, or where one ends. */
  lemma {:induction false} LexLessExactlyWhen(a: string, b: string)
    ensures LexLess(a, b) <==>
      exists i: nat :: i <= |a| && i < |b| && a[..i] == b[..i] && (i == |a| || a[i] < b[i])
    decreases |a|
  {
    if a == "" {
      assert b != "" ==> a[..0] == b[..0];
    } else if b != "" && a[0] == b[0] {
      LexLessExactlyWhen(a[1..], b[1..]);
      if LexLess(a[1..], b[1..]) {
        var i: nat :| i <= |a| - 1 && i < |b| - 1 && a[1..][..i] == b[1..][..i] && (i == |a| - 1 || a[1..][i] < b[1..][i]);
        assert a[..i + 1] == [a[0]] + a[1..][..i] && b[..i + 1] == [b[0]] + b[1..][..i];
      }
      if i: nat :| i <= |a| && i < |b| && a[..i] == b[..i] && (i == |a| || a[i] < b[i]) {
        assert i > 0;
        assert a[1..][..i - 1] == a[..i][1..] && b[1..][..i - 1] == b[..i][1..];
      }
    } else if b != "" {
      assert a[..0] == b[..0];
      forall i: nat | 0 < i <= |a| && i < |b| ensures a[..i] != b[..i] {
        assert a[..i][0] == a[0] && b[..i][0] == b[0];
      }
    }
  }

  // ---------- Search ----------

  predicate StartsWith(s: string, prefix: string) {
    |prefix| <= |s| && s[..|prefix|] == prefix
  }

  predicate EndsWith(s: string, suffix: string) {
    |suffix| <= |s| && s[|s| - |suffix|..] == suffix
  }

  predicate IncludesAt(s: string, part: string, i: nat) {
    i + |part| <= |s| && s[i..i + |part|] == part
  }

  predicate Includes(s: string, part: string) {
    exists i: nat :: i <= |s| && IncludesAt(s, part, i)
  }

  lemma StartsWithExactlyWhen(s: string, prefix: string)
    ensures StartsWith(s, prefix) <==> exists rest :: s == prefix + rest
  {
    if StartsWith(s, prefix) {
      assert s == prefix + s[|prefix|..];
    }
    if rest :| s == prefix + rest {
      assert s[..|prefix|] == prefix;
    }
  }

  lemma EndsWithExactlyWhen(s: string, suffix: string)
    ensures EndsWith(s, suffix) <==> exists rest :: s == rest + suffix
  {
    if EndsWith(s, suffix) {
      assert s == s[..|s| - |suffix|] + suffix;
    }
    if rest :| s == rest + suffix {
      assert s[|rest|..] == suffix;
    }
  }

  /** The text holds the part somewhere. */
  ghost predicate HasSlice(s: string, part: string) {
    exists before, after :: s == before + part + after
  }

  lemma IncludesExactlyWhen(s: string, part: string)
    ensures Includes(s, part) <==> HasSlice(s, part)
  {
    if Includes(s, part) {
      var i: nat :| i <= |s| && IncludesAt(s, part, i);
      assert s == s[..i] + part + s[i + |part|..];
    }
    if HasSlice(s, part) {
      var before, after :| s == before + part + after;
      assert s[|before|..|before| + |part|] == part;
      assert IncludesAt(s, part, |before|);
    }
  }

  function ToLowerChar(c: char): char {
    if 'A' <= c <= 'Z' then ((c as int) + 32) as char else c
  }

  function ToUpperChar(c: char): char {
    if 'a' <= c <= 'z' then ((c as int) - 32) as char else c
  }

  /** Case mapping on ASCII letters. */
  function ToLower(s: string): string {
    seq(|s|, i requires 0 <= i < |s| => ToLowerChar(s[i]))
  }

  function ToUpper(s: string): string {
    seq(|s|, i requires 0 <= i < |s| => ToUpperChar(s[i]))
  }

  /** The same text up to the case of ASCII letters. */
  ghost predicate SameButCase(a: string, b: string) {
    |a| == |b| && forall i :: 0 <= i < |a| ==> a[i] == b[i] || OtherCase(a[i], b[i]) || OtherCase(b[i], a[i])
  }

  ghost predicate OtherCase(upper: char, lower: char) {
    exists i :: 0 <= i < 26 && upper == "ABCDEFGHIJKLMNOPQRSTUVWXYZ"[i] && lower == "abcdefghijklmnopqrstuvwxyz"[i]
  }

  lemma OtherCaseIs(upper: char, lower: char)
    ensures OtherCase(upper, lower) <==> 'A' <= upper <= 'Z' && lower as int == upper as int + 32
  {
    if 'A' <= upper <= 'Z' && lower as int == upper as int + 32 {
      var i := upper as int - 65;
      AlphabetAt(i);
      assert OtherCase(upper, lower);
    }
    if OtherCase(upper, lower) {
      var i :| 0 <= i < 26 && upper == "ABCDEFGHIJKLMNOPQRSTUVWXYZ"[i] && lower == "abcdefghijklmnopqrstuvwxyz"[i];
      AlphabetAt(i);
    }
  }

  lemma AlphabetAt(i: nat)
    requires i < 26
    ensures "ABCDEFGHIJKLMNOPQRSTUVWXYZ"[i] as int == 65 + i && "abcdefghijklmnopqrstuvwxyz"[i] as int == 97 + i
  {
  }

  lemma CharCase(x: char, y: char)
    ensures ToLowerChar(x) == ToLowerChar(y) <==> x == y || OtherCase(x, y) || OtherCase(y, x)
    ensures ToUpperChar(x) == ToUpperChar(y) <==> x == y || OtherCase(x, y) || OtherCase(y, x)
    ensures x == ToLowerChar(x) || OtherCase(x, ToLowerChar(x))
    ensures x == ToUpperChar(x) || OtherCase(ToUpperChar(x), x)
  {
    OtherCaseIs(x, y);
    OtherCaseIs(y, x);
    OtherCaseIs(x, ToLowerChar(x));
    OtherCaseIs(ToUpperChar(x), x);
    hide OtherCase;
  }

  /** Lower case is the same text without a capital, and two texts have one lower case exactly when they are the same
      up to case. */
  lemma LowerCaseIs(a: string, b: string)
    ensures SameButCase(a, ToLower(a)) && forall c :: c in ToLower(a) ==> c !in "ABCDEFGHIJKLMNOPQRSTUVWXYZ"
    ensures ToLower(a) == ToLower(b) <==> SameButCase(a, b)
  {
    CaseByChar(a, b);
    Recased(a);
    hide OtherCase, ToLowerChar, ToUpperChar, ToLower, ToUpper;
    if |a| == |b| {
      forall i | 0 <= i < |a|
        ensures ToLowerChar(a[i]) == ToLowerChar(b[i]) <==> a[i] == b[i] || OtherCase(a[i], b[i]) || OtherCase(b[i], a[i])
      {
        CharCase(a[i], b[i]);
      }
    }
  }

  lemma UpperCaseIs(a: string, b: string)
    ensures SameButCase(a, ToUpper(a)) && forall c :: c in ToUpper(a) ==> c !in "abcdefghijklmnopqrstuvwxyz"
    ensures ToUpper(a) == ToUpper(b) <==> SameButCase(a, b)
  {
    CaseByChar(a, b);
    Recased(a);
    hide OtherCase, ToLowerChar, ToUpperChar, ToLower, ToUpper;
    if |a| == |b| {
      forall i | 0 <= i < |a|
        ensures ToUpperChar(a[i]) == ToUpperChar(b[i]) <==> a[i] == b[i] || OtherCase(a[i], b[i]) || OtherCase(b[i], a[i])
      {
        CharCase(a[i], b[i]);
      }
    }
  }

  lemma Recased(a: string)
    ensures SameButCase(a, ToLower(a)) && forall c :: c in ToLower(a) ==> c !in "ABCDEFGHIJKLMNOPQRSTUVWXYZ"
    ensures SameButCase(a, ToUpper(a)) && forall c :: c in ToUpper(a) ==> c !in "abcdefghijklmnopqrstuvwxyz"
  {
    NoneBetween();
    hide OtherCase;
    forall i | 0 <= i < |a|
      ensures a[i] == ToLower(a)[i] || OtherCase(a[i], ToLower(a)[i])
      ensures a[i] == ToUpper(a)[i] || OtherCase(ToUpper(a)[i], a[i])
    {
      CharCase(a[i], a[i]);
    }
  }

  lemma NoneBetween()
    ensures forall c :: c in "ABCDEFGHIJKLMNOPQRSTUVWXYZ" ==> 'A' <= c <= 'Z'
    ensures forall c :: c in "abcdefghijklmnopqrstuvwxyz" ==> 'a' <= c <= 'z'
  {
    forall i | 0 <= i < 26
      ensures "ABCDEFGHIJKLMNOPQRSTUVWXYZ"[i] as int == 65 + i && "abcdefghijklmnopqrstuvwxyz"[i] as int == 97 + i
    {
      AlphabetAt(i);
    }
  }

  lemma CaseByChar(a: string, b: string)
    ensures ToLower(a) == ToLower(b) <==> |a| == |b| && forall i :: 0 <= i < |a| ==> ToLowerChar(a[i]) == ToLowerChar(b[i])
    ensures ToUpper(a) == ToUpper(b) <==> |a| == |b| && forall i :: 0 <= i < |a| ==> ToUpperChar(a[i]) == ToUpperChar(b[i])
  {
    hide ToLowerChar, ToUpperChar;
    var l, m, u, v := ToLower(a), ToLower(b), ToUpper(a), ToUpper(b);
    assert forall i :: 0 <= i < |a| ==> l[i] == ToLowerChar(a[i]) && u[i] == ToUpperChar(a[i]);
    assert forall i :: 0 <= i < |b| ==> m[i] == ToLowerChar(b[i]) && v[i] == ToUpperChar(b[i]);
    assert |l| == |u| == |a| && |m| == |v| == |b|;
    hide ToLower, ToUpper;
    if |a| == |b| && forall i :: 0 <= i < |a| ==> ToLowerChar(a[i]) == ToLowerChar(b[i]) {
      assert forall i :: 0 <= i < |a| ==> l[i] == m[i];
    }
    if |a| == |b| && forall i :: 0 <= i < |a| ==> ToUpperChar(a[i]) == ToUpperChar(b[i]) {
      assert forall i :: 0 <= i < |a| ==> u[i] == v[i];
    }
  }

  // ---------- Splitting ----------

  /** split on one character. */
  function Split(s: string, sep: char): seq<string> {
    if s == "" then [""]
    else if s[0] == sep then [""] + Split(s[1..], sep)
    else
      var rest := Split(s[1..], sep);
      [[s[0]] + rest[0]] + rest[1..]
  }

  function Join(parts: seq<string>, sep: char): string {
    if parts == [] then ""
    else if |parts| == 1 then parts[0]
    else parts[0] + [sep] + Join(parts[1..], sep)
  }

  predicate FreeOf(s: string, c: char) {
    c !in s
  }

  lemma {:induction false} SplitPrefix(a: string, b: string, sep: char)
    requires FreeOf(a, sep)
    ensures Split(a, sep) == [a]
    ensures Split(a + [sep] + b, sep) == [a] + Split(b, sep)
  {
    if a == "" {
      assert a + [sep] + b == [sep] + b;
    } else {
      SplitPrefix(a[1..], b, sep);
      assert (a + [sep] + b)[1..] == a[1..] + [sep] + b;
      assert [a[0]] + a[1..] == a;
    }
  }

  /** Splitting undoes joining when no part holds the separator. */
  lemma {:induction false} SplitJoin(parts: seq<string>, sep: char)
    requires parts != [] && forall i :: 0 <= i < |parts| ==> FreeOf(parts[i], sep)
    ensures Split(Join(parts, sep), sep) == parts
  {
    if |parts| == 1 {
      SplitPrefix(parts[0], "", sep);
    } else {
      SplitJoin(parts[1..], sep);
      SplitPrefix(parts[0], Join(parts[1..], sep), sep);
    }
  }

  /** And joining undoes splitting. */
  lemma {:induction false} JoinSplit(s: string, sep: char)
    ensures Join(Split(s, sep), sep) == s
  {
    if s != "" {
      JoinSplit(s[1..], sep);
      var rest := Split(s[1..], sep);
      assert s == [s[0]] + s[1..];
      if s[0] == sep {
        assert Split(s, sep)[1..] == rest;
      } else {
        assert Split(s, sep)[1..] == rest[1..];
      }
    }
  }

  lemma {:induction false} SplitFree(s: string, sep: char)
    ensures forall i :: 0 <= i < |Split(s, sep)| ==> FreeOf(Split(s, sep)[i], sep) && forall c :: c in Split(s, sep)[i] ==> c in s
  {
    if s != "" {
      SplitFree(s[1..], sep);
      var rest := Split(s[1..], sep);
      forall i | 0 <= i < |Split(s, sep)|
        ensures FreeOf(Split(s, sep)[i], sep) && forall c :: c in Split(s, sep)[i] ==> c in s
      {
        if i > 0 {
          assert Split(s, sep)[i] == if s[0] == sep then rest[i - 1] else rest[i];
        }
      }
    }
  }

  /** What follows the last separator is determined, and so is what precedes it. */
  lemma LastPart(a: string, b: string, c: string, d: string, sep: char)
    requires FreeOf(b, sep) && FreeOf(d, sep) && a + [sep] + b == c + [sep] + d
    ensures a == c && b == d
  {
    var s := a + [sep] + b;
    assert s[|a|] == sep && s[|c|] == sep;
    assert forall i :: |a| < i < |s| ==> s[i] == b[i - |a| - 1];
    assert forall i :: |c| < i < |s| ==> s[i] == d[i - |c| - 1];
    assert |a| == |c|;
    assert s[..|a|] == a && s[..|c|] == c && s[|a| + 1..] == b && s[|c| + 1..] == d;
  }

  // ---------- Numerals ----------

  function Digit(n: nat): char
    requires n < 10
  {
    '0' + n as char
  }

  function Decimal(n: nat): string {
    if n < 10 then [Digit(n)] else Decimal(n / 10) + [Digit(n % 10)]
  }

  lemma {:induction false} DecimalInjective(m: nat, n: nat)
    requires Decimal(m) == Decimal(n)
    ensures m == n
    decreases m
  {
    var a, b := Decimal(m), Decimal(n);
    assert a[|a| - 1] == Digit(m % 10) && b[|b| - 1] == Digit(n % 10);
    assert m % 10 == n % 10;
    if m >= 10 && n >= 10 {
      assert a[..|a| - 1] == Decimal(m / 10) && b[..|b| - 1] == Decimal(n / 10);
      DecimalInjective(m / 10, n / 10);
    } else {
      DecimalNotEmpty(m / 10);
      DecimalNotEmpty(n / 10);
    }
  }

  lemma DecimalNotEmpty(n: nat)
    ensures |Decimal(n)| >= 1
  {
  }

  lemma {:induction false} DecimalFreeOf(n: nat, c: char)
    requires c < '0' || c > '9'
    ensures FreeOf(Decimal(n), c)
  {
    if n >= 10 {
      DecimalFreeOf(n / 10, c);
    }
  }

  /** What a numeral stands for. */
  function ValueOf(numeral: string): int {
    if numeral == "" then 0 else 10 * ValueOf(numeral[..|numeral| - 1]) + (numeral[|numeral| - 1] as int - 48)
  }

  /** The numeral of a number: digits without a leading zero, of that value. */
  lemma {:induction false} DecimalIs(n: nat)
    ensures ValueOf(Decimal(n)) == n && forall c :: c in Decimal(n) ==> c in "0123456789"
    ensures Decimal(n) != "" && (Decimal(n)[0] == '0' ==> n == 0)
  {
    DigitIs(n % 10);
    if n >= 10 {
      DecimalIs(n / 10);
      assert Decimal(n)[..|Decimal(n)| - 1] == Decimal(n / 10);
    } else {
      assert [Digit(n)][..0] == "";
    }
  }

  lemma DigitIs(n: nat)
    requires n < 10
    ensures Digit(n) == "0123456789"[n] && Digit(n) as int == 48 + n
  {
  }
}
