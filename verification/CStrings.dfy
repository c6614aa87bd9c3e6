/** The C string functions the parsers are written with, on strings that hold no NUL. */
module CStrings {
  import opened Common

  /** The character at an offset; the terminator just after the last one. */
  function CharAt(b: string, i: nat): char {
    if i < |b| then b[i] else NUL
  }

  lemma EndsAt(b: string, i: nat)
    requires IsCString(b)
    ensures CharAt(b, i) == NUL <==> i >= |b|
  {
    if i < |b| {
      assert b[i] in b;
    }
  }

  /** strchr from an offset, None for NULL. */
  function StrChr(b: string, from: nat, c: char): (r: Option<nat>)
    ensures r.Some? ==> from <= r.value < |b| && b[r.value] == c && c !in b[from..r.value]
    ensures r.None? && from <= |b| ==> c !in b[from..]
    decreases |b| - from
  {
    if from >= |b| then None
    else if b[from] == c then Some(from)
    else StrChr(b, from + 1, c)
  }

  lemma {:induction false} StrChrIs(b: string, from: nat, c: char, i: nat)
    requires from <= i < |b| && b[i] == c && c !in b[from..i]
    ensures StrChr(b, from, c) == Some(i)
    decreases i - from
  {
    if from < i {
      assert b[from..i][0] == b[from] && b[from + 1..i] == b[from..i][1..];
      StrChrIs(b, from + 1, c, i);
    }
  }

  predicate StartsAt(b: string, i: nat, pat: string) {
    i + |pat| <= |b| && b[i..i + |pat|] == pat
  }

  /** strstr from an offset, None for NULL. */
  function StrStr(b: string, from: nat, pat: string): (r: Option<nat>)
    ensures r.Some? ==> from <= r.value <= |b| && StartsAt(b, r.value, pat)
    decreases |b| - from
  {
    if from > |b| then None
    else if StartsAt(b, from, pat) then Some(from)
    else StrStr(b, from + 1, pat)
  }

  lemma {:induction false} StrStrIs(b: string, from: nat, pat: string, i: nat)
    requires pat != [] && from <= i && StartsAt(b, i, pat) && pat[0] !in b[from..i]
    ensures StrStr(b, from, pat) == Some(i)
    decreases i - from
  {
    if from < i {
      assert b[from..i][0] != pat[0] && b[from..i][1..] == b[from + 1..i];
      assert b[from] != pat[0];
      assert from + |pat| <= |b| ==> b[from..from + |pat|][0] == b[from];
      StrStrIs(b, from + 1, pat, i);
    }
  }

  lemma {:induction false} StrStrNowhere(b: string, from: nat, pat: string)
    requires pat != [] && from <= |b| && pat[0] !in b[from..]
    ensures StrStr(b, from, pat) == None
    decreases |b| - from
  {
    if from < |b| {
      assert b[from..][0] == b[from] && b[from + 1..] == b[from..][1..];
      assert StartsAt(b, from, pat) ==> b[from..from + |pat|][0] == pat[0];
      StrStrNowhere(b, from + 1, pat);
    }
  }

  /** strncmp of the text at an offset with another string, equal or not. */
  predicate StrNCmp(b: string, i: nat, s: string, j: nat, n: nat)
    decreases n
  {
    if n == 0 then true
    else if CharAt(b, i) != CharAt(s, j) then false
    else if CharAt(b, i) == NUL then true
    else StrNCmp(b, i + 1, s, j + 1, n - 1)
  }

  lemma {:induction false} StrNCmpSame(b: string, i: nat, s: string, j: nat, n: nat)
    requires i + n <= |b| && j + n <= |s| && b[i..i + n] == s[j..j + n]
    ensures StrNCmp(b, i, s, j, n)
    decreases n
  {
    if n > 0 {
      assert b[i..i + n][0] == b[i] && s[j..j + n][0] == s[j];
      assert b[i + 1..i + n] == b[i..i + n][1..] && s[j + 1..j + n] == s[j..j + n][1..];
      StrNCmpSame(b, i + 1, s, j + 1, n - 1);
    }
  }

  /** What strncmp finds equal is the same text, as far as the other string goes. */
  lemma {:induction false} StrNCmpText(b: string, i: nat, s: string, j: nat, n: nat, m: nat)
    requires IsCString(b) && IsCString(s) && j <= |s| && StrNCmp(b, i, s, j, n) && m <= n && i + m <= |b|
    ensures j + m <= |s| && b[i..i + m] == s[j..j + m]
    decreases m
  {
    if m > 0 {
      assert b[i] in b;
      StrNCmpText(b, i + 1, s, j + 1, n - 1, m - 1);
      assert b[i..i + m] == [b[i]] + b[i + 1..i + m] && s[j..j + m] == [s[j]] + s[j + 1..j + m];
    }
  }

  /** Comparing no more characters than the text has accepts exactly the prefixes of the other string. */
  lemma StrNCmpIsPrefix(b: string, i: nat, s: string, n: nat)
    requires IsCString(b) && IsCString(s) && i + n <= |b|
    ensures StrNCmp(b, i, s, 0, n) <==> b[i..i + n] <= s
  {
    if StrNCmp(b, i, s, 0, n) {
      StrNCmpText(b, i, s, 0, n, n);
    }
    if b[i..i + n] <= s {
      StrNCmpSame(b, i, s, 0, n);
    }
  }

  /** A whole string is found equal only where it stands. */
  lemma {:induction false} StrNCmpWhole(b: string, i: nat, s: string, j: nat)
    requires IsCString(b) && IsCString(s) && j <= |s| && i <= |b|
    ensures StrNCmp(b, i, s, j, |s| - j) <==> StartsAt(b, i, s[j..])
    decreases |s| - j
  {
    if j < |s| {
      EndsAt(b, i);
      EndsAt(s, j);
      if i < |b| {
        StrNCmpWhole(b, i + 1, s, j + 1);
        var n := |s| - j;
        assert s[j..] == [s[j]] + s[j + 1..];
        if i + n <= |b| {
          assert b[i..i + n] == [b[i]] + b[i + 1..i + 1 + (n - 1)];
        }
      }
    }
  }

  // ----- numbers

  predicate IsDigit(c: char) {
    '0' <= c <= '9'
  }

  function DigitValue(c: char): nat
    requires IsDigit(c)
  {
    c as int - '0' as int
  }

  function Digits(n: nat): (s: string)
    ensures s != [] && forall i :: 0 <= i < |s| ==> IsDigit(s[i])
  {
    if n < 10 then [('0' as int + n) as char] else Digits(n / 10) + [('0' as int + n % 10) as char]
  }

  /** sprintf with %d. */
  function Decimal(n: int): string {
    if n < 0 then "-" + Digits(-n) else Digits(n)
  }

  /** Decimal notation, digit by digit. */
  lemma DecimalNotation(n: nat, d: nat)
    requires d < 10
    ensures Digits(d) == ["0123456789"[d]]
    ensures n > 0 ==> Digits(10 * n + d) == Digits(n) + ["0123456789"[d]]
  {
    assert (10 * n + d) / 10 == n && (10 * n + d) % 10 == d;
    DigitChar(d);
  }

  lemma DigitChar(d: nat)
    requires d < 10
    ensures "0123456789"[d] == ('0' as int + d) as char
  {
  }

  /** Where the digits that start at an offset end. */
  function DigitsEnd(b: string, i: nat): (e: nat)
    requires i <= |b|
    ensures i <= e <= |b| && forall j :: i <= j < e ==> IsDigit(b[j])
    decreases |b| - i
  {
    if i < |b| && IsDigit(b[i]) then DigitsEnd(b, i + 1) else i
  }

  function DigitsValue(b: string, i: nat, e: nat): nat
    requires i <= e <= |b| && forall j :: i <= j < e ==> IsDigit(b[j])
  {
    if i == e then 0 else 10 * DigitsValue(b, i, e - 1) + DigitValue(b[e - 1])
  }

  predicate IsSpace(c: char) {
    c == ' ' || c == '\t' || c == '\n' || c == '\U{000B}' || c == '\U{000C}' || c == '\r'
  }

  function SkipSpaces(b: string, i: nat): (e: nat)
    requires i <= |b|
    ensures i <= e <= |b|
    decreases |b| - i
  {
    if i < |b| && IsSpace(b[i]) then SkipSpaces(b, i + 1) else i
  }

  /** strtol in base ten: the value, and where it ends; where it began if there are no digits. */
  function Strtol(b: string, i: nat): (r: (int, nat))
    requires i <= |b|
    ensures i <= r.1 <= |b|
  {
    var start := SkipSpaces(b, i);
    var negative := CharAt(b, start) == '-';
    var first := if negative || CharAt(b, start) == '+' then start + 1 else start;
    var e := DigitsEnd(b, first);
    var value: int := DigitsValue(b, first, e);
    if e == first then (0, i) else if negative then (-value, e) else (value, e)
  }

  /** atoi. */
  function Atoi(s: string): int {
    Strtol(s, 0).0
  }

  lemma {:induction false} DigitsEndIs(b: string, i: nat, e: nat)
    requires i <= e <= |b| && (forall j :: i <= j < e ==> IsDigit(b[j])) && !IsDigit(CharAt(b, e))
    ensures DigitsEnd(b, i) == e
    decreases e - i
  {
    if i < e {
      DigitsEndIs(b, i + 1, e);
    }
  }

  lemma {:induction false} DigitsValueIs(b: string, i: nat, n: nat)
    requires StartsAt(b, i, Digits(n))
    ensures forall j :: i <= j < i + |Digits(n)| ==> IsDigit(b[j])
    ensures DigitsValue(b, i, i + |Digits(n)|) == n
    decreases n
  {
    var d := Digits(n);
    forall j | i <= j < i + |d| ensures IsDigit(b[j]) {
      assert b[j] == d[j - i];
    }
    assert b[i + |d| - 1] == d[|d| - 1];
    if n >= 10 {
      assert d[..|d| - 1] == Digits(n / 10);
      assert b[i..i + |d| - 1] == b[i..i + |d|][..|d| - 1];
      DigitsValueIs(b, i, n / 10);
    } else {
      assert DigitsValue(b, i, i) == 0;
    }
  }

  /** strtol reads what sprintf wrote and stops behind it. */
  lemma StrtolDecimal(b: string, i: nat, n: int)
    requires StartsAt(b, i, Decimal(n)) && !IsDigit(CharAt(b, i + |Decimal(n)|))
    ensures Strtol(b, i) == (n, i + |Decimal(n)|)
  {
    var d := Decimal(n);
    var first := if n < 0 then i + 1 else i;
    var m := if n < 0 then -n else n;
    assert b[i] == d[0];
    assert d == (if n < 0 then "-" else "") + Digits(m);
    assert b[first..first + |Digits(m)|] == b[i..i + |d|][first - i..];
    DigitsValueIs(b, first, m);
    DigitsEndIs(b, first, first + |Digits(m)|);
  }

  lemma AtoiDecimal(n: int)
    ensures Atoi(Decimal(n)) == n
  {
    assert Decimal(n)[0..|Decimal(n)|] == Decimal(n);
    StrtolDecimal(Decimal(n), 0, n);
  }

  /** Blanks in front, a sign, and whatever stands behind the digits. */
  lemma {:induction false} SpacesSkipped(b: string, i: nat, e: nat)
    requires i <= e <= |b| && (forall j :: i <= j < e ==> b[j] in " \t\n\r") && (e < |b| ==> b[e] !in " \t\n\r\U{000B}\U{000C}")
    ensures SkipSpaces(b, i) == e
    decreases e - i
  {
    if i < e {
      assert b[i] in " \t\n\r";
      SpacesSkipped(b, i + 1, e);
    }
  }

  lemma StrtolForms(b: string, i: nat, at: nat, n: nat, sign: string)
    requires i <= at && StartsAt(b, at, sign + Digits(n)) && !IsDigit(CharAt(b, at + |sign| + |Digits(n)|))
    requires forall j :: i <= j < at ==> b[j] in " \t\n\r"
    requires sign == "" || sign == "+" || sign == "-"
    ensures Strtol(b, i).0 == (if sign == "-" then 0 - n else n) && Strtol(b, i).1 == at + |sign| + |Digits(n)|
  {
    var d, first := Digits(n), at + |sign|;
    hide *;
    SignThenDigits(b, at, sign, d);
    SpacesSkipped(b, i, at);
    DigitsValueIs(b, first, n);
    DigitsEndIs(b, first, first + |d|);
    StrtolIs(b, i, at, sign, first + |d|);
  }

  lemma SignThenDigits(b: string, at: nat, sign: string, d: string)
    requires StartsAt(b, at, sign + d) && d != [] && forall i :: 0 <= i < |d| ==> IsDigit(d[i])
    requires sign == "" || sign == "+" || sign == "-"
    ensures StartsAt(b, at + |sign|, d) && at < |b| && b[at] !in " \t\n\r\U{000B}\U{000C}"
    ensures sign == "" <==> CharAt(b, at) != '+' && CharAt(b, at) != '-'
    ensures sign == "-" <==> CharAt(b, at) == '-'
  {
    var text := sign + d;
    assert b[at] == b[at..at + |text|][0] == text[0];
    assert b[at + |sign|..at + |text|] == b[at..at + |text|][|sign|..] == d;
    assert IsDigit(d[0]);
  }

  lemma StrtolIs(b: string, i: nat, at: nat, sign: string, e: nat)
    requires i <= at < |b| && SkipSpaces(b, i) == at && (sign == "" || sign == "+" || sign == "-")
    requires sign == "" <==> CharAt(b, at) != '+' && CharAt(b, at) != '-'
    requires sign == "-" <==> CharAt(b, at) == '-'
    requires at + |sign| < e <= |b| && DigitsEnd(b, at + |sign|) == e
    ensures Strtol(b, i).1 == e
    ensures var value := DigitsValue(b, at + |sign|, e); Strtol(b, i).0 == if sign == "-" then 0 - value else value
  {
    hide SkipSpaces, DigitsEnd, DigitsValue;
  }
}
