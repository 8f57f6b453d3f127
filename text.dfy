/** String operations of Python's `str` that the formatter relies on. */
module Text {

  /** Python's `sep.join(parts)`. */
  function Join(parts: seq<string>, sep: string): string
  {
    if |parts| == 0 then ""
    else if |parts| == 1 then parts[0]
    else parts[0] + sep + Join(parts[1..], sep)
  }

  /** `s[i:i+|p|] == p` in Python's terms. */
  predicate OccursAt(s: string, p: string, i: int)
  {
    0 <= i && i + |p| <= |s| && s[i..i + |p|] == p
  }

  ghost predicate Occurs(s: string, p: string)
  {
    exists i :: OccursAt(s, p, i)
  }

  /**
   * Python's `s.replace(pat, rep)` for a non-empty `pat`: scans left to right and
   * replaces every non-overlapping occurrence of `pat`.
   */
  function Replace(s: string, pat: string, rep: string): string
    requires pat != []
    decreases |s|
  {
    if |pat| <= |s| && s[..|pat|] == pat then rep + Replace(s[|pat|..], pat, rep)
    else if s == [] then []
    else [s[0]] + Replace(s[1..], pat, rep)
  }

  lemma {:induction false} ReplaceSameLength(s: string, pat: string, rep: string)
    requires pat != [] && |rep| == |pat|
    ensures |Replace(s, pat, rep)| == |s|
    decreases |s|
  {
    if |pat| <= |s| && s[..|pat|] == pat {
      ReplaceSameLength(s[|pat|..], pat, rep);
    } else if s != [] {
      ReplaceSameLength(s[1..], pat, rep);
    }
  }

  /** Replacing a pattern that does not occur changes nothing. */
  lemma {:induction false} ReplaceAbsent(s: string, pat: string, rep: string)
    requires pat != [] && !Occurs(s, pat)
    ensures Replace(s, pat, rep) == s
    decreases |s|
  {
    assert !OccursAt(s, pat, 0);
    if s != [] {
      forall i ensures !OccursAt(s[1..], pat, i) {
        if 0 <= i && i + |pat| <= |s| - 1 {
          assert s[1..][i..i + |pat|] == s[i + 1..i + 1 + |pat|];
          assert !OccursAt(s, pat, i + 1);
        }
      }
      ReplaceAbsent(s[1..], pat, rep);
    }
  }

  /** A one-character pattern occurs exactly where that character does. */
  lemma AbsentChar(s: string, c: char)
    requires c !in s
    ensures !Occurs(s, [c])
  {
    forall i ensures !OccursAt(s, [c], i) {
      if 0 <= i < |s| {
        assert s[i..i + 1] == [s[i]];
      }
    }
  }

  /** Replacing one character by another acts position by position. */
  lemma {:induction false} ReplaceCharAt(s: string, a: char, b: char, i: int)
    requires 0 <= i < |s|
    ensures |Replace(s, [a], [b])| == |s|
    ensures Replace(s, [a], [b])[i] == if s[i] == a then b else s[i]
    decreases |s|
  {
    ReplaceSameLength(s, [a], [b]);
    var r := Replace(s[1..], [a], [b]);
    assert Replace(s, [a], [b]) == [if s[0] == a then b else s[0]] + r;
    if i > 0 {
      ReplaceCharAt(s[1..], a, b, i - 1);
    }
  }

  /** Decimal digits of a natural number, most significant first. */
  function NatToString(n: nat): (r: string)
    ensures r != [] && forall i :: 0 <= i < |r| ==> '0' <= r[i] <= '9'
  {
    if n < 10 then [Digit(n)] else NatToString(n / 10) + [Digit(n % 10)]
  }

  function Digit(d: nat): (c: char)
    requires d < 10
    ensures '0' <= c <= '9'
  {
    (d + '0' as int) as char
  }

  /** The number a string of decimal digits stands for, read left to right from `acc`. */
  function DigitsFrom(acc: int, s: string): int
    decreases |s|
  {
    if s == [] then acc else DigitsFrom(acc * 10 + (s[0] as int - '0' as int), s[1..])
  }

  function DigitsValue(s: string): int
  {
    DigitsFrom(0, s)
  }

  lemma {:induction false} DigitsFromSnoc(acc: int, s: string, c: char)
    ensures DigitsFrom(acc, s + [c]) == DigitsFrom(acc, s) * 10 + (c as int - '0' as int)
    decreases |s|
  {
    if s == [] {
      assert [c][1..] == [];
    } else {
      assert (s + [c])[0] == s[0] && (s + [c])[1..] == s[1..] + [c];
      DigitsFromSnoc(acc * 10 + (s[0] as int - '0' as int), s[1..], c);
    }
  }

  /** The decimal digits of `n` stand for `n`. */
  lemma {:induction false} NatToStringValue(n: nat)
    ensures DigitsValue(NatToString(n)) == n
  {
    if n >= 10 {
      NatToStringValue(n / 10);
      DigitsFromSnoc(0, NatToString(n / 10), Digit(n % 10));
    } else {
      assert [Digit(n)][1..] == [];
      assert Digit(n) as int == n + '0' as int;
      assert DigitsValue([Digit(n)]) == DigitsFrom(Digit(n) as int - '0' as int, []);
    }
  }

  /**
   * `str(n)` is the numeral of `n`: a minus sign exactly for a negative number,
   * then decimal digits that stand for its magnitude, with no leading zero;
   * zero is the single digit `0`.
   */
  lemma IntToStringValue(n: int)
    ensures var r := IntToString(n);
      (n >= 0 ==> DigitsValue(r) == n) &&
      (n < 0 ==> r[0] == '-' && DigitsValue(r[1..]) == -n) &&
      (forall i :: (if n < 0 then 1 else 0) <= i < |r| ==> '0' <= r[i] <= '9') &&
      (r[if n < 0 then 1 else 0] == '0' ==> n == 0) &&
      (n == 0 ==> r == "0")
  {
    if n < 0 {
      assert IntToString(n)[1..] == NatToString(-n);
      NatToStringValue(-n);
      NatToStringNoLeadingZero(-n);
    } else {
      NatToStringValue(n);
      NatToStringNoLeadingZero(n);
      if n == 0 {
        assert Digit(0) == '0';
      }
    }
  }

  /** Only zero is written with a leading `0`. */
  lemma {:induction false} NatToStringNoLeadingZero(n: nat)
    ensures NatToString(n)[0] == '0' ==> n == 0
  {
    if n >= 10 {
      assert NatToString(n)[0] == NatToString(n / 10)[0];
      NatToStringNoLeadingZero(n / 10);
    } else {
      assert Digit(n) as int == n + '0' as int;
    }
  }

  /** Python's `str(n)` for an `int`. */
  function IntToString(n: int): (r: string)
    ensures r != []
    ensures (r[0] == '-') <==> n < 0
  {
    if n < 0 then "-" + NatToString(-n) else NatToString(n)
  }

  /** The `width` lowest hexadecimal digits of `n`, lower case, as Python's `%0*x`. */
  function Hex(n: nat, width: nat): (r: string)
    ensures |r| == width
  {
    if width == 0 then "" else Hex(n / 16, width - 1) + ["0123456789abcdef"[n % 16]]
  }

  /**
   * Characters Python's `str.isprintable` rejects. Exact on ASCII and on Latin-1
   * (C0 and C1 controls, DEL, the no-break space and the soft hyphen); other
   * code points are treated as printable.
   */
  predicate Unprintable(c: char)
  {
    c as int < 0x20 || (0x7f <= c as int <= 0xa0) || c as int == 0xad
  }

  /** One character of a Python string literal quoted with `q`, escaped as `repr` does. */
  function EscapeChar(c: char, q: char): string
  {
    if c == q || c == '\\' then ['\\', c]
    else if c == '\t' then "\\t"
    else if c == '\n' then "\\n"
    else if c == '\r' then "\\r"
    else if !Unprintable(c) then [c]
    else if c as int <= 0xff then "\\x" + Hex(c as int, 2)
    else if c as int <= 0xffff then "\\u" + Hex(c as int, 4)
    else "\\U" + Hex(c as int, 8)
  }

  function EscapeAll(s: string, q: char): string
  {
    if s == [] then "" else EscapeChar(s[0], q) + EscapeAll(s[1..], q)
  }

  /**
   * Python's `repr` of a string: single quotes unless the string holds a single
   * quote and no double quote.
   */
  function StrRepr(s: string): (r: string)
    ensures |r| >= 2 && r[0] == r[|r| - 1] && (r[0] == '\'' || r[0] == '"')
  {
    var q := if '\'' in s && '"' !in s then '"' else '\'';
    [q] + EscapeAll(s, q) + [q]
  }

  /**
   * Strings `repr` shows as themselves between single quotes: no single quote,
   * no backslash, and only printable characters (so no tab, newline or carriage
   * return). Printable non-ASCII letters, as in "José", are allowed.
   */
  predicate PlainText(s: string)
  {
    forall i :: 0 <= i < |s| ==> s[i] != '\'' && s[i] != '\\' && !Unprintable(s[i])
  }

  /** A string made of characters `repr` leaves alone is shown between single quotes. */
  lemma StrReprPlain(s: string)
    requires PlainText(s)
    ensures StrRepr(s) == "'" + s + "'"
  {
    assert '\'' !in s;
    EscapeAllPlain(s, '\'');
  }

  lemma {:induction false} EscapeAllPlain(s: string, q: char)
    requires q == '\'' && PlainText(s)
    ensures EscapeAll(s, q) == s
  {
    if s != [] {
      assert PlainText(s[1..]);
      EscapeAllPlain(s[1..], q);
    }
  }
}
