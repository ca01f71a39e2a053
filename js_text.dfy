/**
  The built-in readings of text that getShifts applies to the month
  picker's value: String.prototype.split on one character, parseInt with
  radix 10, and the Number conversion Date.UTC applies to a string.
*/
module JsText {
  import opened Results
  import opened IsoText

  /** s.split(sep): the pieces between the separators, in order; never none. */
  function Split(s: string, sep: char): (parts: seq<string>)
    ensures |parts| >= 1
  {
    if s == [] then [[]]
    else
      var rest := Split(s[1..], sep);
      if s[0] == sep then [[]] + rest
      else [[s[0]] + rest[0]] + rest[1..]
  }

  /** parts.join(sep). */
  function Join(parts: seq<string>, sep: char): string
    requires |parts| >= 1
  {
    if |parts| == 1 then parts[0] else parts[0] + [sep] + Join(parts[1..], sep)
  }

  /** Splitting loses nothing but the separators: joining the pieces gives the text back. */
  lemma {:induction false} SplitJoin(s: string, sep: char)
    ensures Join(Split(s, sep), sep) == s
    ensures forall i :: 0 <= i < |Split(s, sep)| ==> sep !in Split(s, sep)[i]
    decreases |s|
  {
    if s != [] {
      var rest := Split(s[1..], sep);
      SplitJoin(s[1..], sep);
      var parts := Split(s, sep);
      if s[0] == sep {
        assert parts[1..] == rest;
      } else {
        assert parts[1..] == rest[1..];
        assert parts[0] == [s[0]] + rest[0];
        if |rest| > 1 {
          assert Join(rest, sep) == rest[0] + [sep] + Join(rest[1..], sep);
        }
        forall i | 0 <= i < |parts|
          ensures sep !in parts[i]
        {
          if i == 0 {
            assert sep !in rest[0];
          } else {
            assert parts[i] == rest[i];
          }
        }
      }
    }
  }

  /** A text without the separator is one piece. */
  lemma {:induction false} SplitWhole(s: string, sep: char)
    requires sep !in s
    ensures Split(s, sep) == [s]
    decreases |s|
  {
    if s != [] {
      assert s[0] in s;
      assert forall j :: 0 <= j < |s[1..]| ==> s[1..][j] == s[j + 1];
      SplitWhole(s[1..], sep);
      assert [s[0]] + s[1..] == s;
    }
  }

  /** The first piece ends at the first separator; the rest of the text is split on. */
  lemma {:induction false} SplitFirst(a: string, sep: char, b: string)
    requires sep !in a
    ensures Split(a + [sep] + b, sep) == [a] + Split(b, sep)
    decreases |a|
  {
    if a == [] {
      assert a + [sep] + b == [sep] + b;
    } else {
      assert a[0] in a;
      assert forall j :: 0 <= j < |a[1..]| ==> a[1..][j] == a[j + 1];
      SplitFirst(a[1..], sep, b);
      assert (a + [sep] + b)[1..] == a[1..] + [sep] + b;
      assert [a[0]] + a[1..] == a;
    }
  }

  /** The characters JS counts as white space or line terminators when it reads a number. */
  predicate IsSpace(ch: char) {
    var c := ch as int;
    c == 0x09 || c == 0x0A || c == 0x0B || c == 0x0C || c == 0x0D || c == 0x20 || c == 0xA0
    || c == 0x1680 || 0x2000 <= c <= 0x200A || c == 0x2028 || c == 0x2029 || c == 0x202F
    || c == 0x205F || c == 0x3000 || c == 0xFEFF
  }

  predicate IsDigit(ch: char) {
    '0' <= ch <= '9'
  }

  /** The length of the longest prefix of s whose characters all satisfy p. */
  function Run(s: string, p: char -> bool): (k: nat)
    ensures k <= |s|
    ensures forall i :: 0 <= i < k ==> p(s[i])
    ensures k < |s| ==> !p(s[k])
  {
    if s != [] && p(s[0]) then 1 + Run(s[1..], p) else 0
  }

  /** The value of a decimal digit string, most significant digit first. */
  function DigitsValue(s: string): nat
    requires forall i :: 0 <= i < |s| ==> IsDigit(s[i])
  {
    if s == [] then 0
    else
      assert IsDigit(s[|s| - 1]);
      10 * DigitsValue(s[..|s| - 1]) + (s[|s| - 1] as int - '0' as int)
  }

  /**
    parseInt(s, 10): leading white space is skipped, a sign is read, then
    the longest run of digits; the rest of the text is ignored. No digit at
    all is NaN (None).
  */
  function ParseInt(s: string): (r: Option<int>)
    ensures '-' !in s && r.Some? ==> r.value >= 0
  {
    var t := s[Run(s, IsSpace)..];
    var negative := t != [] && t[0] == '-';
    var u := if t != [] && (t[0] == '+' || t[0] == '-') then t[1..] else t;
    var k := Run(u, IsDigit);
    if k == 0 then None
    else
      var n: int := DigitsValue(u[..k]);
      assert negative ==> t[0] in s;
      Some(if negative then -n else n)
  }

  /**
    Number(s) for a text that is white space, an optional plus sign, a run
    of digits and white space again: the digits' value. A text of white
    space only is 0. Every other text reads as NaN (None) here.
  */
  function ToNumber(s: string): Option<nat> {
    var u := s[Run(s, IsSpace)..];
    var v := if u != [] && u[0] == '+' then u[1..] else u;
    var k := Run(v, IsDigit);
    if u == [] then Some(0)
    else if k > 0 && Run(v[k..], IsSpace) == |v[k..]| then Some(DigitsValue(v[..k]))
    else None
  }

  lemma PadDigits(n: int)
    requires 0 <= n < 100
    ensures forall i :: 0 <= i < 2 ==> IsDigit(Pad2(n)[i])
    ensures DigitsValue(Pad2(n)) == n
  {
    var s := Pad2(n);
    assert s[..1] == [s[0]] && [s[0]][..0] == [];
    assert s[0] as int - '0' as int == n / 10 && s[1] as int - '0' as int == n % 10;
    assert DigitsValue([s[0]]) == n / 10;
  }

  lemma DigitsAppendTwo(a: string, b: string)
    requires forall i :: 0 <= i < |a| ==> IsDigit(a[i])
    requires |b| == 2 && IsDigit(b[0]) && IsDigit(b[1])
    ensures forall i :: 0 <= i < |a + b| ==> IsDigit((a + b)[i])
    ensures DigitsValue(a + b) == 100 * DigitsValue(a) + DigitsValue(b)
  {
    var s := a + b;
    assert s[..|s| - 1] == a + [b[0]];
    assert (a + [b[0]])[..|a|] == a;
    assert DigitsValue(a + [b[0]]) == 10 * DigitsValue(a) + (b[0] as int - '0' as int);
    assert b[..1] == [b[0]] && [b[0]][..0] == [];
    assert DigitsValue([b[0]]) == b[0] as int - '0' as int;
  }

  /** A zero-padded two-digit text is read back as its number by parseInt. */
  lemma ParseIntPad2(n: int)
    requires 0 <= n < 100
    ensures ParseInt(Pad2(n)) == Some(n)
  {
    PadDigits(n);
    var s := Pad2(n);
    assert s[..2] == s;
  }

  /** Number reads a non-empty run of digits as its value. */
  lemma ToNumberDigits(s: string)
    requires |s| >= 1 && forall i :: 0 <= i < |s| ==> IsDigit(s[i])
    ensures ToNumber(s) == Some(DigitsValue(s))
  {
    assert !IsSpace(s[0]) && s[0] != '+';
    assert Run(s, IsSpace) == 0 && s[0..] == s;
    assert Run(s, IsDigit) == |s|;
    assert s[..|s|] == s && s[|s|..] == [];
  }

  lemma Pad4Digits(n: int)
    requires 0 <= n < 10000
    ensures |Pad4(n)| >= 1 && forall i :: 0 <= i < |Pad4(n)| ==> IsDigit(Pad4(n)[i])
    ensures DigitsValue(Pad4(n)) == n
  {
    PadDigits(n / 100);
    PadDigits(n % 100);
    var hi, lo := Pad2(n / 100), Pad2(n % 100);
    assert Pad4(n) == hi + lo;
    DigitsAppendTwo(hi, lo);
  }

  /** A zero-padded four-digit text is read back as its number by Number. */
  lemma ToNumberPad4(n: int)
    requires 0 <= n < 10000
    ensures ToNumber(Pad4(n)) == Some(n)
  {
    Pad4Digits(n);
    ToNumberDigits(Pad4(n));
  }

  /** A single digit is read back as its value by parseInt: an unpadded month. */
  lemma ParseIntDigit(d: int)
    requires 0 <= d <= 9
    ensures ParseInt([DigitChar(d)]) == Some(d)
  {
    var s := [DigitChar(d)];
    assert s[..1] == s && s[..0] == [];
    assert DigitsValue(s) == d;
  }
}
