/**
 * The java.lang.String operations the core relies on: trim, isEmpty after
 * trim, Integer.parseInt, Integer.toString / %d / %02d, indexOf, split on
 * one character, String.join and equalsIgnoreCase.
 */
module Text {
  import opened Wrappers

  // ---------------------------------------------------------------- trim

  /** String.trim() strips every leading and trailing char whose code is at most U+0020. */
  predicate IsTrimmable(c: char) {
    c <= ' '
  }

  function TrimStart(s: string): (r: string)
    ensures |r| <= |s|
    ensures r != [] ==> !IsTrimmable(r[0])
  {
    if s != [] && IsTrimmable(s[0]) then TrimStart(s[1..]) else s
  }

  /** TrimStart drops a prefix of trimmable chars. */
  lemma {:induction false} TrimStartDrops(s: string)
    ensures var r := TrimStart(s);
      && r == s[|s| - |r|..]
      && forall i :: 0 <= i < |s| - |r| ==> IsTrimmable(s[i])
  {
    if s != [] && IsTrimmable(s[0]) {
      TrimStartDrops(s[1..]);
      var r := TrimStart(s);
      assert s[1..][|s| - 1 - |r|..] == s[|s| - |r|..];
      forall i | 0 <= i < |s| - |r| ensures IsTrimmable(s[i]) {
        if i > 0 {
          assert s[i] == s[1..][i - 1];
        }
      }
    }
  }

  function TrimEnd(s: string): (r: string)
    ensures |r| <= |s|
    ensures r != [] ==> !IsTrimmable(r[|r| - 1])
  {
    if s != [] && IsTrimmable(s[|s| - 1]) then TrimEnd(s[..|s| - 1]) else s
  }

  /** TrimEnd takes a prefix, dropping a suffix of trimmable chars. */
  lemma {:induction false} TrimEndTakes(s: string)
    ensures var r := TrimEnd(s);
      && r == s[..|r|]
      && forall i :: |r| <= i < |s| ==> IsTrimmable(s[i])
  {
    if s != [] && IsTrimmable(s[|s| - 1]) {
      var t := s[..|s| - 1];
      TrimEndTakes(t);
      var r := TrimEnd(s);
      assert t[..|r|] == s[..|r|];
      forall i | |r| <= i < |s| ensures IsTrimmable(s[i]) {
        if i < |s| - 1 {
          assert s[i] == t[i];
        }
      }
    }
  }

  /** String.trim(): the longest infix of s that neither starts nor ends with a trimmable char. */
  function Trim(s: string): (r: string)
    ensures r != [] ==> !IsTrimmable(r[0]) && !IsTrimmable(r[|r| - 1])
    ensures |r| <= |s|
  {
    var t := TrimStart(s);
    TrimEndTakes(t);
    TrimEnd(t)
  }

  /** `s.trim().isEmpty()`. */
  predicate IsBlank(s: string) {
    Trim(s) == []
  }

  lemma BlankIffAllTrimmable(s: string)
    ensures IsBlank(s) <==> forall i :: 0 <= i < |s| ==> IsTrimmable(s[i])
  {
    var t := TrimStart(s);
    TrimStartDrops(s);
    TrimEndTakes(t);
    if t != [] {
      assert !IsTrimmable(t[0]) && t[0] == s[|s| - |t|];
      assert TrimEnd(t) != [];
    }
  }

  lemma TrimOfTrimmed(s: string)
    requires s == [] || (!IsTrimmable(s[0]) && !IsTrimmable(s[|s| - 1]))
    ensures Trim(s) == s
  {
  }

  // ------------------------------------------------------- decimal digits

  predicate IsDigit(c: char) {
    '0' <= c <= '9'
  }

  predicate AllDigits(s: string) {
    forall i :: 0 <= i < |s| ==> IsDigit(s[i])
  }

  function DigitValue(c: char): (d: nat)
    requires IsDigit(c)
    ensures d < 10
  {
    (c as int) - ('0' as int)
  }

  function DigitChar(d: nat): (c: char)
    requires d < 10
    ensures IsDigit(c) && DigitValue(c) == d
  {
    ((d + '0' as int) as char)
  }

  /** The value of a string of decimal digits read most significant first. */
  function DigitsValue(ds: string): nat
    requires AllDigits(ds)
  {
    if ds == [] then 0 else DigitsValue(ds[..|ds| - 1]) * 10 + DigitValue(ds[|ds| - 1])
  }

  /** Integer.toString / "%d" of a non-negative number: shortest decimal, most significant digit first. */
  function NatToString(n: nat): (r: string)
    ensures r != [] && AllDigits(r) && DigitsValue(r) == n
    ensures |r| > 1 ==> r[0] != '0'
    ensures n < 10 <==> |r| == 1
  {
    if n < 10 then [DigitChar(n)]
    else
      var p := NatToString(n / 10);
      var r := p + [DigitChar(n % 10)];
      assert r[..|r| - 1] == p;
      r
  }

  /** Integer.toString / "%d". */
  function IntToString(n: int): (r: string)
    ensures r != []
    ensures n >= 0 ==> AllDigits(r) && DigitsValue(r) == n
    ensures n < 0 ==> r[0] == '-' && AllDigits(r[1..]) && DigitsValue(r[1..]) == -n
  {
    if n < 0 then "-" + NatToString(-n) else NatToString(n)
  }

  /** Integer.toString writes only digits and a leading minus sign. */
  lemma IntToStringHasNo(n: int, c: char)
    requires !IsDigit(c) && c != '-'
    ensures c !in IntToString(n)
  {
    var r := IntToString(n);
    if n < 0 {
      assert r == [r[0]] + r[1..];
      assert forall k :: 0 <= k < |r[1..]| ==> IsDigit(r[1..][k]);
    }
  }

  /** "%02d": two digits below 100, the plain decimal from 100 on. */
  function Pad2(n: nat): string {
    if n < 100 then [DigitChar(n / 10), DigitChar(n % 10)] else NatToString(n)
  }

  /** "%02d" writes at least two digits, exactly two below 100, and they read back as the number. */
  lemma Pad2Digits(n: nat)
    ensures |Pad2(n)| >= 2 && AllDigits(Pad2(n)) && DigitsValue(Pad2(n)) == n
    ensures n < 100 ==> |Pad2(n)| == 2
  {
    if n < 100 {
      var hi, lo := DigitChar(n / 10), DigitChar(n % 10);
      var r := [hi, lo];
      assert r[..1] == [hi] && [hi][..0] == [];
      assert DigitsValue([hi]) == n / 10;
      assert DigitsValue(r) == (n / 10) * 10 + n % 10;
    }
  }

  // ------------------------------------------------------ Integer.parseInt

  const IntMin: int := -0x8000_0000
  const IntMax: int := 0x7fff_ffff

  predicate InInt32(v: int) {
    IntMin <= v <= IntMax
  }

  /**
   * An optional '+' or '-' and one or more decimal digits, whose value
   * lies in lo..hi; anything else throws NumberFormatException (None).
   */
  function ParseInRange(s: string, lo: int, hi: int): (r: Option<int>)
    ensures r.Some? ==> lo <= r.value <= hi && s != []
  {
    if s == [] then None
    else
      var signed := s[0] == '-' || s[0] == '+';
      var digits := if signed then s[1..] else s;
      if digits == [] || !AllDigits(digits) then None
      else
        var v: int := if s[0] == '-' then -(DigitsValue(digits) as int) else DigitsValue(digits);
        if lo <= v <= hi then Some(v) else None
  }

  /** Integer.parseInt(s): the signed decimal, which must fit in 32 bits. */
  function ParseInt(s: string): (r: Option<int>)
    ensures r.Some? ==> InInt32(r.value) && s != []
  {
    ParseInRange(s, IntMin, IntMax)
  }

  const LongMin: int := -0x8000_0000_0000_0000
  const LongMax: int := 0x7fff_ffff_ffff_ffff

  predicate InInt64(v: int) {
    LongMin <= v <= LongMax
  }

  /** Long.parseLong(s): the signed decimal, which must fit in 64 bits. */
  function ParseLong(s: string): (r: Option<int>)
    ensures r.Some? ==> InInt64(r.value) && s != []
  {
    ParseInRange(s, LongMin, LongMax)
  }

  /** Integer.parseInt undoes Integer.toString on every 32-bit int. */
  lemma ParseIntOfIntToString(n: int)
    requires InInt32(n)
    ensures ParseInt(IntToString(n)) == Some(n)
  {
    ParseInRangeOfIntToString(n, IntMin, IntMax);
  }

  /** Long.parseLong undoes Long.toString on every 64-bit long. */
  lemma ParseLongOfIntToString(n: int)
    requires InInt64(n)
    ensures ParseLong(IntToString(n)) == Some(n)
  {
    ParseInRangeOfIntToString(n, LongMin, LongMax);
  }

  /** The decimal rendering of a number in range parses back to it. */
  lemma ParseInRangeOfIntToString(n: int, lo: int, hi: int)
    requires lo <= n <= hi
    ensures ParseInRange(IntToString(n), lo, hi) == Some(n)
  {
    var r := IntToString(n);
    if n >= 0 {
      assert r[0] != '-' && r[0] != '+' by {
        assert IsDigit(r[0]);
      }
    } else {
      assert r[1..] == NatToString(-n);
    }
  }

  /** A number with a surrounding blank does not parse: the trim before parsing matters. */
  lemma ParseIntRejectsPadding(s: string)
    requires s != [] && (IsTrimmable(s[0]) || IsTrimmable(s[|s| - 1]))
    ensures ParseInt(s) == None
  {
    ParseIntNoBlank(s);
  }

  /** What parses holds no blank. */
  lemma ParseIntNoBlank(s: string)
    ensures ParseInt(s).Some? ==> forall i :: 0 <= i < |s| ==> !IsTrimmable(s[i])
  {
    ParseInRangeNoBlank(s, IntMin, IntMax);
  }

  /** What parses in any range holds no blank. */
  lemma ParseInRangeNoBlank(s: string, lo: int, hi: int)
    ensures ParseInRange(s, lo, hi).Some? ==> forall i :: 0 <= i < |s| ==> !IsTrimmable(s[i])
  {
    if ParseInRange(s, lo, hi).Some? {
      var digits := if s[0] == '-' || s[0] == '+' then s[1..] else s;
      forall i | 0 <= i < |s| ensures !IsTrimmable(s[i]) {
        if (s[0] != '-' && s[0] != '+') || i > 0 {
          assert s[i] == digits[if s[0] == '-' || s[0] == '+' then i - 1 else i];
        }
      }
    }
  }

  // ------------------------------------------------------------ indexOf

  /** s.indexOf(c): the first position holding c, or None (-1). */
  function IndexOf(s: string, c: char): (r: Option<nat>)
    ensures r.None? <==> c !in s
    ensures r.Some? ==> r.value < |s| && s[r.value] == c && c !in s[..r.value]
  {
    if s == [] then None
    else if s[0] == c then Some(0)
    else
      match IndexOf(s[1..], c)
      case None => None
      case Some(k) =>
        assert s[..k + 1] == [s[0]] + s[1..][..k];
        Some(k + 1)
  }

  // ------------------------------------------------------- split and join

  /** Every segment of s between occurrences of sep, empty segments included. */
  function SplitOn(s: string, sep: char): (r: seq<string>)
    ensures |r| >= 1
    ensures forall i :: 0 <= i < |r| ==> sep !in r[i]
  {
    if s == [] then [[]]
    else
      var t := SplitOn(s[1..], sep);
      if s[0] == sep then [[]] + t else [[s[0]] + t[0]] + t[1..]
  }

  /** String.join(sep, parts). */
  function Join(parts: seq<string>, sep: char): string {
    if parts == [] then []
    else if |parts| == 1 then parts[0]
    else parts[0] + [sep] + Join(parts[1..], sep)
  }

  /** Joining the segments gives back the text. */
  lemma {:induction false} JoinSplitOn(s: string, sep: char)
    ensures Join(SplitOn(s, sep), sep) == s
  {
    if s != [] {
      JoinSplitOn(s[1..], sep);
      var t := SplitOn(s[1..], sep);
      if s[0] != sep {
        if |t| > 1 {
          assert t == [t[0]] + t[1..];
          assert Join(t, sep) == t[0] + [sep] + Join(t[1..], sep);
        }
      }
    }
  }

  /** Splitting a join of separator-free parts gives back the parts. */
  lemma {:induction false} SplitOnJoin(parts: seq<string>, sep: char)
    requires |parts| >= 1
    requires forall i :: 0 <= i < |parts| ==> sep !in parts[i]
    ensures SplitOn(Join(parts, sep), sep) == parts
  {
    if |parts| == 1 {
      SplitOnFree(parts[0], sep);
    } else {
      SplitOnJoin(parts[1..], sep);
      SplitOnPrefix(parts[0], Join(parts[1..], sep), sep);
      assert parts == [parts[0]] + parts[1..];
    }
  }

  lemma {:induction false} SplitOnFree(s: string, sep: char)
    requires sep !in s
    ensures SplitOn(s, sep) == [s]
  {
    if s != [] {
      SplitOnFree(s[1..], sep);
      assert [s[0]] + s[1..] == s;
    }
  }

  lemma {:induction false} SplitOnPrefix(p: string, rest: string, sep: char)
    requires sep !in p
    ensures SplitOn(p + [sep] + rest, sep) == [p] + SplitOn(rest, sep)
  {
    if p == [] {
      assert p + [sep] + rest == [sep] + rest;
      assert ([sep] + rest)[1..] == rest;
    } else {
      SplitOnPrefix(p[1..], rest, sep);
      assert (p + [sep] + rest)[1..] == p[1..] + [sep] + rest;
      assert [p[0]] + p[1..] == p;
    }
  }

  /** The stream filter `line -> !line.trim().isEmpty()`. */
  function NonBlank(lines: seq<string>): (r: seq<string>)
    ensures |r| <= |lines|
    ensures forall i :: 0 <= i < |r| ==> !IsBlank(r[i])
  {
    if lines == [] then []
    else if IsBlank(lines[0]) then NonBlank(lines[1..])
    else [lines[0]] + NonBlank(lines[1..])
  }

  /** The kept lines are among the given ones: a char no line holds is in no kept line. */
  lemma {:induction false} NonBlankKeepsFree(lines: seq<string>, c: char)
    requires forall i :: 0 <= i < |lines| ==> c !in lines[i]
    ensures forall i :: 0 <= i < |NonBlank(lines)| ==> c !in NonBlank(lines)[i]
  {
    if lines != [] {
      NonBlankKeepsFree(lines[1..], c);
    }
  }

  /** Nothing is kept exactly when every line is blank. */
  lemma {:induction false} NonBlankEmpty(lines: seq<string>)
    ensures NonBlank(lines) == [] <==> forall i :: 0 <= i < |lines| ==> IsBlank(lines[i])
  {
    if lines != [] {
      var rest := lines[1..];
      NonBlankEmpty(rest);
      if IsBlank(lines[0]) {
        assert NonBlank(lines) == NonBlank(rest);
        if forall i :: 0 <= i < |rest| ==> IsBlank(rest[i]) {
          forall i | 0 <= i < |lines|
            ensures IsBlank(lines[i])
          {
            if i > 0 {
              assert lines[i] == rest[i - 1];
            }
          }
        }
      } else {
        assert NonBlank(lines) == [lines[0]] + NonBlank(rest);
      }
    }
  }

  lemma {:induction false} NonBlankKeepsNonBlank(lines: seq<string>)
    requires forall i :: 0 <= i < |lines| ==> !IsBlank(lines[i])
    ensures NonBlank(lines) == lines
  {
    if lines != [] {
      NonBlankKeepsNonBlank(lines[1..]);
    }
  }

  // --------------------------------------------------- counting characters

  function CountChar(s: string, c: char): (n: nat)
    ensures n <= |s|
    ensures n == 0 <==> c !in s
  {
    if s == [] then 0 else (if s[0] == c then 1 else 0) + CountChar(s[1..], c)
  }

  lemma {:induction false} CountCharAppend(a: string, b: string, c: char)
    ensures CountChar(a + b, c) == CountChar(a, c) + CountChar(b, c)
  {
    if a != [] {
      assert (a + b)[1..] == a[1..] + b;
      CountCharAppend(a[1..], b, c);
    } else {
      assert a + b == b;
    }
  }

  // ----------------------------------------------------- equalsIgnoreCase

  /** Folds ASCII upper-case letters to lower case; every other char is itself. */
  function AsciiLower(c: char): (r: char)
    ensures 'A' <= c <= 'Z' ==> 'a' <= r <= 'z'
    ensures !('A' <= c <= 'Z') ==> r == c
  {
    if 'A' <= c <= 'Z' then (c as int + 32) as char else c
  }

  /** String.equalsIgnoreCase, restricted to ASCII case folding. */
  predicate EqualsIgnoreCase(a: string, b: string) {
    |a| == |b| && forall i :: 0 <= i < |a| ==> AsciiLower(a[i]) == AsciiLower(b[i])
  }
}
