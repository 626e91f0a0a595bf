/** The string operations the de-identification code leans on: splitting and
    joining on a separator character (Python's `str.split(sep)` and
    `sep.join(parts)`), decimal rendering of integers (`str(n)` and the
    `:03` format specification) and hexadecimal parsing (`int(s, 16)`). */
module Strings {

  import opened Results

  /* ---------------------------------------------------------------------
     Split and Join
     --------------------------------------------------------------------- */

  /** Python's `s.split(sep)` for a one-character separator: the pieces
      between separators, always at least one (`"".split(",") == [""]`). */
  function Split(s: string, sep: char): (parts: seq<string>)
    ensures |parts| >= 1
    ensures forall i :: 0 <= i < |parts| ==> sep !in parts[i]
  {
    if |s| == 0 then [""]
    else
      var rest := Split(s[1..], sep);
      if s[0] == sep then [""] + rest
      else [[s[0]] + rest[0]] + rest[1..]
  }

  /** Python's `sep.join(parts)`. */
  function Join(parts: seq<string>, sep: char): string
  {
    if |parts| == 0 then ""
    else if |parts| == 1 then parts[0]
    else parts[0] + [sep] + Join(parts[1..], sep)
  }

  /** No piece contains the separator. */
  predicate SeparatorFree(parts: seq<string>, sep: char)
  {
    forall i :: 0 <= i < |parts| ==> sep !in parts[i]
  }

  /** Joining the pieces of a split restores the original string. */
  lemma {:induction false} JoinSplit(s: string, sep: char)
    ensures Join(Split(s, sep), sep) == s
  {
    if |s| > 0 {
      var rest := Split(s[1..], sep);
      JoinSplit(s[1..], sep);
      if s[0] == sep {
        assert Split(s, sep) == [""] + rest;
        assert ([""] + rest)[1..] == rest;
      } else {
        var parts := [[s[0]] + rest[0]] + rest[1..];
        assert Split(s, sep) == parts;
        if |rest| == 1 {
          assert s == [s[0]] + s[1..];
        } else {
          assert parts[1..] == rest[1..];
          assert Join(rest, sep) == rest[0] + [sep] + Join(rest[1..], sep);
          assert s == [s[0]] + s[1..];
        }
      }
    }
  }

  /** A string without the separator splits into itself alone. */
  lemma {:induction false} SplitWithoutSeparator(s: string, sep: char)
    requires sep !in s
    ensures Split(s, sep) == [s]
  {
    if |s| > 0 {
      assert sep !in s[1..] by {
        forall k | 0 <= k < |s[1..]| ensures s[1..][k] != sep {
          assert s[1..][k] == s[k + 1];
        }
      }
      SplitWithoutSeparator(s[1..], sep);
      assert s == [s[0]] + s[1..];
    }
  }

  /** A leading separator-free piece followed by the separator splits off as
      exactly one part. */
  lemma {:induction false} SplitAfterPiece(a: string, sep: char, b: string)
    requires sep !in a
    ensures Split(a + [sep] + b, sep) == [a] + Split(b, sep)
  {
    if |a| == 0 {
      assert a + [sep] + b == [sep] + b;
      assert ([sep] + b)[1..] == b;
    } else {
      var s := a + [sep] + b;
      assert s[1..] == a[1..] + [sep] + b;
      assert sep !in a[1..] by {
        forall k | 0 <= k < |a[1..]| ensures a[1..][k] != sep {
          assert a[1..][k] == a[k + 1];
        }
      }
      SplitAfterPiece(a[1..], sep, b);
      assert s[0] == a[0];
      assert [a[0]] + a[1..] == a;
    }
  }

  /** Splitting a join of separator-free pieces recovers the pieces. */
  lemma {:induction false} SplitJoin(parts: seq<string>, sep: char)
    requires |parts| >= 1
    requires SeparatorFree(parts, sep)
    ensures Split(Join(parts, sep), sep) == parts
  {
    if |parts| == 1 {
      SplitWithoutSeparator(parts[0], sep);
    } else {
      SplitAfterPiece(parts[0], sep, Join(parts[1..], sep));
      SplitJoin(parts[1..], sep);
      assert [parts[0]] + parts[1..] == parts;
    }
  }

  /** A join of two or more pieces starts with the first piece and a
      separator. */
  lemma JoinFirst(parts: seq<string>, sep: char)
    requires |parts| >= 2
    ensures Join(parts, sep) == parts[0] + ([sep] + Join(parts[1..], sep))
  {
  }

  /** Dropping a prefix of the left operand of a concatenation. */
  lemma SliceOfConcat(a: string, b: string, k: nat)
    requires k <= |a|
    ensures (a + b)[k..] == a[k..] + b
  {
  }

  /** Joining a non-empty list with one more piece appends the separator and
      the piece. */
  lemma {:induction false} JoinSnoc(parts: seq<string>, last: string, sep: char)
    requires |parts| >= 1
    ensures Join(parts + [last], sep) == Join(parts, sep) + [sep] + last
  {
    if |parts| == 1 {
      assert (parts + [last])[1..] == [last];
    } else {
      assert (parts + [last])[1..] == parts[1..] + [last];
      JoinSnoc(parts[1..], last, sep);
    }
  }

  /* ---------------------------------------------------------------------
     Decimal rendering
     --------------------------------------------------------------------- */

  predicate IsDigit(c: char)
  {
    '0' <= c <= '9'
  }

  predicate AllDigits(s: string)
  {
    forall i :: 0 <= i < |s| ==> IsDigit(s[i])
  }

  function DigitChar(d: nat): (c: char)
    requires d < 10
  {
    ['0', '1', '2', '3', '4', '5', '6', '7', '8', '9'][d]
  }

  function DigitValue(c: char): nat
    requires IsDigit(c)
  {
    (c as int - '0' as int) as nat
  }

  /** The decimal digits of `n`, most significant first, without leading
      zeros (Python's `str(n)` for `n >= 0`). */
  function Digits(n: nat): (s: string)
    ensures |s| >= 1 && AllDigits(s)
    ensures s[0] != '0' || n == 0
    ensures n == 0 ==> s == "0"
  {
    if n < 10 then [DigitChar(n)]
    else
      var front := Digits(n / 10);
      assert (front + [DigitChar(n % 10)])[0] == front[0];
      front + [DigitChar(n % 10)]
  }

  /** The number a string of decimal digits denotes. */
  function DecimalValue(s: string): nat
    requires AllDigits(s)
  {
    if |s| == 0 then 0
    else DecimalValue(s[..|s| - 1]) * 10 + DigitValue(s[|s| - 1])
  }

  lemma {:induction false} DigitCharValue(d: nat)
    requires d < 10
    ensures IsDigit(DigitChar(d)) && DigitValue(DigitChar(d)) == d
  {
  }

  /** Reading back the rendered digits gives the number. */
  lemma {:induction false} DecimalValueOfDigits(n: nat)
    ensures DecimalValue(Digits(n)) == n
  {
    DigitCharValue(n % 10);
    if n >= 10 {
      var s := Digits(n);
      assert s[..|s| - 1] == Digits(n / 10);
      DecimalValueOfDigits(n / 10);
    }
  }

  /** `k` zero characters (none when `k <= 0`). */
  function Zeros(k: int): (z: string)
    ensures |z| == if k <= 0 then 0 else k
    ensures forall i :: 0 <= i < |z| ==> z[i] == '0'
    decreases k
  {
    if k <= 0 then "" else "0" + Zeros(k - 1)
  }

  /** Leading zeros do not change the value of a digit string. */
  lemma {:induction false} LeadingZerosIgnored(z: string, s: string)
    requires forall i :: 0 <= i < |z| ==> z[i] == '0'
    requires AllDigits(s)
    ensures AllDigits(z + s)
    ensures DecimalValue(z + s) == DecimalValue(s)
    decreases |s|
  {
    if |s| == 0 {
      assert z + s == z;
      AllZerosValue(z);
    } else {
      var t := z + s;
      assert t[..|t| - 1] == z + s[..|s| - 1];
      assert t[|t| - 1] == s[|s| - 1];
      LeadingZerosIgnored(z, s[..|s| - 1]);
    }
  }

  lemma {:induction false} AllZerosValue(z: string)
    requires forall i :: 0 <= i < |z| ==> z[i] == '0'
    ensures AllDigits(z) && DecimalValue(z) == 0
  {
    if |z| > 0 {
      AllZerosValue(z[..|z| - 1]);
    }
  }

  /** Python's `str(n)` for an integer: a minus sign and the digits of the
      magnitude for a negative number. */
  function IntToString(n: int): string
  {
    if n < 0 then "-" + Digits(-n) else Digits(n)
  }

  /** The digits of `m` preceded by enough zeros to fill `width` characters;
      a number wider than `width` is kept whole. */
  function PadDigits(m: nat, width: int): (r: string)
    ensures |r| == if |Digits(m)| < width then width else |Digits(m)|
    ensures AllDigits(r) && DecimalValue(r) == m
    ensures r[|r| - |Digits(m)|..] == Digits(m)
    ensures forall i :: 0 <= i < |r| - |Digits(m)| ==> r[i] == '0'
  {
    var d := Digits(m);
    LeadingZerosIgnored(Zeros(width - |d|), d);
    DecimalValueOfDigits(m);
    Zeros(width - |d|) + d
  }

  /** Python's `format(n, "03")` for an integer: zero padding after the sign
      up to a total width of three characters; wider numbers are kept whole. */
  function Pad3(n: int): (r: string)
    ensures |r| == if |IntToString(n)| < 3 then 3 else |IntToString(n)|
    ensures n >= 0 ==> AllDigits(r) && DecimalValue(r) == n
    ensures n < 0 ==> r[0] == '-' && AllDigits(r[1..]) && DecimalValue(r[1..]) == -n
    ensures n >= 0 ==> r[|r| - |Digits(n)|..] == Digits(n)
    ensures n < 0 ==> r[|r| - |Digits(-n)|..] == Digits(-n)
  {
    if n < 0 then
      var p := PadDigits(-n, 2);
      assert ("-" + p)[1..] == p;
      "-" + p
    else
      PadDigits(n, 3)
  }

  /* ---------------------------------------------------------------------
     Hexadecimal
     --------------------------------------------------------------------- */

  predicate IsHexDigit(c: char)
  {
    '0' <= c <= '9' || 'a' <= c <= 'f' || 'A' <= c <= 'F'
  }

  function HexDigitValue(c: char): (d: nat)
    requires IsHexDigit(c)
    ensures d < 16
  {
    if '0' <= c <= '9' then (c as int - '0' as int) as nat
    else if 'a' <= c <= 'f' then (c as int - 'a' as int + 10) as nat
    else (c as int - 'A' as int + 10) as nat
  }

  predicate AllHexDigits(s: string)
  {
    forall i :: 0 <= i < |s| ==> IsHexDigit(s[i])
  }

  function HexValue(s: string): nat
    requires AllHexDigits(s)
  {
    if |s| == 0 then 0
    else HexValue(s[..|s| - 1]) * 16 + HexDigitValue(s[|s| - 1])
  }

  /** `int(s, 16)` restricted to its plain form: one or more hexadecimal
      digits, either case; anything else is `None` (a `ValueError`). */
  function ParseHex(s: string): (r: Option<nat>)
    ensures r.Some? <==> |s| >= 1 && AllHexDigits(s)
  {
    if |s| >= 1 && AllHexDigits(s) then Some(HexValue(s)) else None
  }

  function HexDigitChar(d: nat): (c: char)
    requires d < 16
    ensures IsHexDigit(c) && HexDigitValue(c) == d
  {
    ['0', '1', '2', '3', '4', '5', '6', '7', '8', '9',
     'A', 'B', 'C', 'D', 'E', 'F'][d]
  }

  /** Appending a digit shifts the value one place. */
  lemma HexValueSnoc(s: string, c: char)
    requires AllHexDigits(s) && IsHexDigit(c)
    ensures AllHexDigits(s + [c])
    ensures HexValue(s + [c]) == HexValue(s) * 16 + HexDigitValue(c)
  {
    assert (s + [c])[..|s|] == s;
  }

  /** Four upper-case hexadecimal digits, as in the `"gggg"` half of a
      `"gggg,eeee"` configuration key. */
  function Hex4(n: nat): (s: string)
    requires n < 0x1_0000
    ensures |s| == 4 && AllHexDigits(s)
    ensures ParseHex(s) == Some(n)
  {
    var q1 := n / 16;
    var q2 := q1 / 16;
    var q3 := q2 / 16;
    var s1 := [HexDigitChar(q3)];
    assert HexValue(s1) == q3 by {
      assert s1[..0] == [];
    }
    var s2 := s1 + [HexDigitChar(q2 % 16)];
    HexValueSnoc(s1, HexDigitChar(q2 % 16));
    var s3 := s2 + [HexDigitChar(q1 % 16)];
    HexValueSnoc(s2, HexDigitChar(q1 % 16));
    var s4 := s3 + [HexDigitChar(n % 16)];
    HexValueSnoc(s3, HexDigitChar(n % 16));
    assert HexValue(s2) == q2 && HexValue(s3) == q1 && HexValue(s4) == n;
    s4
  }

  /** A number below 0x100 gets two leading zeros. */
  lemma Hex4OfByte(n: nat)
    requires n < 0x100
    ensures Hex4(n) == ['0', '0', HexDigitChar(n / 16), HexDigitChar(n % 16)]
  {
    assert n / 16 / 16 == 0;
    assert n / 16 / 16 / 16 == 0;
  }
}
