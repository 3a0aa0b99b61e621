/**
 Decimal text as fmt's %d writes it and strconv.ParseUint reads it, lists of
 texts joined by a separator, and the dotted paths built from indexes.
 */
module Text {
  import opened Basics

  const MAX_UINT64: nat := 0xFFFF_FFFF_FFFF_FFFF

  predicate IsDigit(c: char) {
    '0' <= c <= '9'
  }

  function DigitValue(c: char): nat
    requires IsDigit(c)
  {
    c as int - '0' as int
  }

  function DigitOf(d: nat): char
    requires d < 10
  {
    ('0' as int + d) as char
  }

  /** %d of a non-negative number. */
  function Dec(n: nat): string {
    if n < 10 then [DigitOf(n)] else Dec(n / 10) + [DigitOf(n % 10)]
  }

  predicate Free(s: string, sep: char) {
    forall i :: 0 <= i < |s| ==> s[i] != sep
  }

  lemma {:induction false} DecIsDigits(n: nat)
    ensures |Dec(n)| > 0
    ensures forall i :: 0 <= i < |Dec(n)| ==> IsDigit(Dec(n)[i])
  {
    if n >= 10 {
      DecIsDigits(n / 10);
    }
  }

  lemma DecFree(n: nat, sep: char)
    requires !IsDigit(sep)
    ensures Free(Dec(n), sep)
  {
    DecIsDigits(n);
  }

  /**
   The character loop of strconv.ParseUint in base 10, its error dropped: a
   character that is no digit gives 0, a value that outgrows 64 bits gives the
   largest one at the character where that happens.
   */
  function ScanUint(s: string, acc: nat): nat {
    if s == "" then acc
    else if !IsDigit(s[0]) then 0
    else if acc * 10 + DigitValue(s[0]) > MAX_UINT64 then MAX_UINT64
    else ScanUint(s[1..], acc * 10 + DigitValue(s[0]))
  }

  function ParseUint(s: string): nat {
    ScanUint(s, 0)
  }

  lemma {:induction false} ScanDec(n: nat, rest: string)
    requires n <= MAX_UINT64
    ensures ScanUint(Dec(n) + rest, 0) == ScanUint(rest, n)
  {
    if n < 10 {
      assert (Dec(n) + rest)[1..] == rest;
    } else {
      var tail := [DigitOf(n % 10)] + rest;
      assert Dec(n) + rest == Dec(n / 10) + tail;
      ScanDec(n / 10, tail);
      assert tail[1..] == rest;
    }
  }

  /** Parsing undoes %d on every 64-bit value. */
  lemma ParseDec(n: nat)
    requires n <= MAX_UINT64
    ensures ParseUint(Dec(n)) == n
  {
    ScanDec(n, "");
    assert Dec(n) + "" == Dec(n);
  }

  /** A number that is followed by anything else is no number, and one above 64 bits is cut to the largest. */
  lemma ParseBad(n: nat, c: char, rest: string)
    requires n <= MAX_UINT64
    ensures !IsDigit(c) ==> ParseUint(Dec(n) + [c] + rest) == 0
    ensures IsDigit(c) && n * 10 + DigitValue(c) > MAX_UINT64 ==> ParseUint(Dec(n) + [c] + rest) == MAX_UINT64
  {
    ScanDec(n, [c] + rest);
    assert Dec(n) + [c] + rest == Dec(n) + ([c] + rest);
  }

  function DecValue(s: string): nat {
    if s == "" then 0
    else DecValue(s[..|s| - 1]) * 10 + (if IsDigit(s[|s| - 1]) then DigitValue(s[|s| - 1]) else 0)
  }

  lemma {:induction false} DecValueOfDec(n: nat)
    ensures DecValue(Dec(n)) == n
  {
    if n < 10 {
      assert Dec(n)[..0] == "";
    } else {
      DecValueOfDec(n / 10);
      assert Dec(n)[..|Dec(n)| - 1] == Dec(n / 10);
    }
  }

  lemma DecInjective(m: nat, n: nat)
    requires Dec(m) == Dec(n)
    ensures m == n
  {
    DecValueOfDec(m);
    DecValueOfDec(n);
  }

  /** A field that holds no separator ends at the first separator. */
  lemma CutPrefix(a: string, b: string, sep: char, x: string, y: string)
    requires Free(a, sep) && Free(b, sep)
    requires a + [sep] + x <= b + [sep] + y
    ensures a == b && x <= y
  {
    var l, r := a + [sep] + x, b + [sep] + y;
    assert l[|a|] == sep && r[|b|] == sep;
    assert l[|a|] == r[|a|];
    assert forall i :: 0 <= i < |a| ==> l[i] == a[i];
    assert forall i :: 0 <= i < |b| ==> r[i] == b[i];
    assert |a| == |b|;
    assert forall i :: 0 <= i < |a| ==> a[i] == l[i] && b[i] == r[i];
    assert forall i :: 0 <= i < |x| ==> x[i] == l[|a| + 1 + i] && y[i] == r[|a| + 1 + i];
  }

  lemma CutUnique(a: string, b: string, sep: char, x: string, y: string)
    requires Free(a, sep) && Free(b, sep)
    requires a + [sep] + x == b + [sep] + y
    ensures a == b && x == y
  {
    CutPrefix(a, b, sep, x, y);
  }

  /** The same from the other end: a field that holds no separator begins after the last one. */
  lemma CutLast(x: string, y: string, sep: char, a: string, b: string)
    requires Free(a, sep) && Free(b, sep)
    requires x + [sep] + a == y + [sep] + b
    ensures a == b && x == y
  {
    var l, r := x + [sep] + a, y + [sep] + b;
    assert l[|x|] == sep && r[|y|] == sep;
    assert forall i :: 0 <= i < |a| ==> l[|x| + 1 + i] == a[i];
    assert forall i :: 0 <= i < |b| ==> r[|y| + 1 + i] == b[i];
    assert forall i :: |x| < i < |l| ==> l[i] == a[i - |x| - 1];
    assert forall i :: |y| < i < |r| ==> r[i] == b[i - |y| - 1];
    assert |x| == |y|;
    assert x == l[..|x|] && y == r[..|y|];
  }

  // ---------------------------------------------------------------- lists

  /** strings.Split on a one-character separator. */
  function Split(s: string, sep: char): (parts: seq<string>)
    ensures |parts| > 0
  {
    if s == "" then [""]
    else
      var rest := Split(s[1..], sep);
      if s[0] == sep then [""] + rest else [[s[0]] + rest[0]] + rest[1..]
  }

  function Join(parts: seq<string>, sep: char): string
    requires |parts| > 0
  {
    if |parts| == 1 then parts[0] else parts[0] + [sep] + Join(parts[1..], sep)
  }

  lemma {:induction false} SplitField(a: string, sep: char, rest: string)
    requires Free(a, sep)
    ensures Split(a + [sep] + rest, sep) == [a] + Split(rest, sep)
  {
    var s := a + [sep] + rest;
    if a == "" {
      assert s[1..] == rest;
    } else {
      assert s[1..] == a[1..] + [sep] + rest;
      SplitField(a[1..], sep, rest);
      assert [a[0]] + a[1..] == a;
    }
  }

  /** No part of a split text holds the separator. */
  lemma {:induction false} SplitFree(s: string, sep: char)
    ensures forall i :: 0 <= i < |Split(s, sep)| ==> Free(Split(s, sep)[i], sep)
  {
    if s != "" {
      SplitFree(s[1..], sep);
    }
  }

  lemma {:induction false} SplitPlain(a: string, sep: char)
    requires Free(a, sep)
    ensures Split(a, sep) == [a]
  {
    if a != "" {
      SplitPlain(a[1..], sep);
      assert [a[0]] + a[1..] == a;
    }
  }

  /** Splitting undoes joining when no part holds the separator. */
  lemma {:induction false} SplitJoin(parts: seq<string>, sep: char)
    requires |parts| > 0
    requires forall i :: 0 <= i < |parts| ==> Free(parts[i], sep)
    ensures Split(Join(parts, sep), sep) == parts
  {
    if |parts| == 1 {
      SplitPlain(parts[0], sep);
    } else {
      SplitJoin(parts[1..], sep);
      SplitField(parts[0], sep, Join(parts[1..], sep));
    }
  }

  // ---------------------------------------------------------------- dotted paths

  /** The text "i.j.k." of a list of indexes. */
  function Dotted(ix: seq<nat>): string {
    if ix == [] then "" else Dec(ix[0]) + "." + Dotted(ix[1..])
  }

  lemma {:induction false} DottedAppend(a: seq<nat>, b: seq<nat>)
    ensures Dotted(a + b) == Dotted(a) + Dotted(b)
  {
    if a == [] {
      assert a + b == b;
    } else {
      DottedAppend(a[1..], b);
      DottedFirst(a, b);
      Regroup(Dec(a[0]) + ".", Dotted(a[1..]), Dotted(b));
    }
  }

  lemma DottedFirst(a: seq<nat>, b: seq<nat>)
    requires a != []
    ensures Dotted(a + b) == Dec(a[0]) + "." + Dotted(a[1..] + b)
  {
    assert (a + b)[1..] == a[1..] + b;
  }

  /** Adding one index to a path is appending "i." to its text. */
  lemma DottedSnoc(a: seq<nat>, i: nat)
    ensures Dotted(a + [i]) == Dotted(a) + Dec(i) + "."
  {
    DottedAppend(a, [i]);
    assert [i][1..] == [];
  }

  /** One path text is a prefix of another exactly when one index list is. */
  lemma {:induction false} DottedPrefix(a: seq<nat>, b: seq<nat>)
    ensures Dotted(a) <= Dotted(b) <==> a <= b
  {
    if a == [] {
    } else if b == [] {
      DecIsDigits(a[0]);
    } else {
      DottedPrefix(a[1..], b[1..]);
      DecFree(a[0], '.');
      DecFree(b[0], '.');
      if Dotted(a) <= Dotted(b) {
        CutPrefix(Dec(a[0]), Dec(b[0]), '.', Dotted(a[1..]), Dotted(b[1..]));
        DecInjective(a[0], b[0]);
        assert a == [a[0]] + a[1..] && b == [b[0]] + b[1..];
      }
      if a <= b {
        assert b == a + b[|a|..];
        DottedAppend(a, b[|a|..]);
      }
    }
  }

  lemma DottedInjective(a: seq<nat>, b: seq<nat>)
    requires Dotted(a) == Dotted(b)
    ensures a == b
  {
    DottedPrefix(a, b);
    DottedPrefix(b, a);
  }

  function Count(s: string, c: char): nat {
    if s == "" then 0 else (if s[0] == c then 1 else 0) + Count(s[1..], c)
  }

  lemma {:induction false} CountAppend(s: string, t: string, c: char)
    ensures Count(s + t, c) == Count(s, c) + Count(t, c)
  {
    if s == "" {
      assert s + t == t;
    } else {
      assert (s + t)[1..] == s[1..] + t;
      CountAppend(s[1..], t, c);
    }
  }

  lemma {:induction false} CountZero(s: string, c: char)
    ensures Count(s, c) == 0 <==> Free(s, c)
  {
    if s != "" {
      CountZero(s[1..], c);
      assert Free(s, c) <==> s[0] != c && Free(s[1..], c) by {
        assert forall i :: 0 < i < |s| ==> s[i] == s[1..][i - 1];
      }
    }
  }

  /** A path text has as many dots as the path has indexes. */
  lemma {:induction false} DottedDots(ix: seq<nat>)
    ensures Count(Dotted(ix), '.') == |ix|
  {
    if ix != [] {
      DottedDots(ix[1..]);
      DecFree(ix[0], '.');
      CountZero(Dec(ix[0]), '.');
      CountAppend(Dec(ix[0]) + ".", Dotted(ix[1..]), '.');
      CountAppend(Dec(ix[0]), ".", '.');
    }
  }
}
