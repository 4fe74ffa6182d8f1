/** The JavaScript string operations the planner relies on, written out over
    `seq<char>`: `split` on one separator character, `trim`, `padStart`,
    `String(n)` for integers, `parseInt(s, 10)`, `replace(/c/g, rep)` and the
    `<`/`>=` comparison of strings. */
module Text {
  import opened Common

  // ---------------------------------------------------------------------
  // split / join
  // ---------------------------------------------------------------------

  /** `s.split(sep)`: the pieces between separators. Like JavaScript it
      always yields at least one piece (`"".split(",")` is `[""]`), and
      adjacent separators yield empty pieces. */
  function Split(s: string, sep: char): (r: seq<string>)
    ensures |r| >= 1
    ensures forall i :: 0 <= i < |r| ==> sep !in r[i]
  {
    if s == [] then [[]]
    else
      var rest := Split(s[1..], sep);
      if s[0] == sep then [[]] + rest
      else [[s[0]] + rest[0]] + rest[1..]
  }

  /** `parts.join(sep)`. */
  function Join(parts: seq<string>, sep: char): string
    requires |parts| >= 1
  {
    if |parts| == 1 then parts[0] else parts[0] + [sep] + Join(parts[1..], sep)
  }

  /** Splitting loses nothing: joining the pieces back gives the input. */
  lemma {:induction false} JoinSplit(s: string, sep: char)
    ensures Join(Split(s, sep), sep) == s
  {
    if s != [] {
      var rest := Split(s[1..], sep);
      JoinSplit(s[1..], sep);
      if s[0] == sep {
        assert ([[]] + rest)[1..] == rest;
      } else {
        if |rest| == 1 {
        } else {
          var r := [[s[0]] + rest[0]] + rest[1..];
          assert r[1..] == rest[1..];
          assert Join(rest, sep) == rest[0] + [sep] + Join(rest[1..], sep);
        }
      }
    }
  }

  /** A piece free of the separator followed by anything: the piece comes
      out first, glued to the first piece of the remainder. */
  lemma {:induction false} SplitPrefix(a: string, t: string, sep: char)
    requires sep !in a
    ensures Split(a + t, sep) == [a + Split(t, sep)[0]] + Split(t, sep)[1..]
  {
    if a != [] {
      assert (a + t)[0] == a[0];
      assert (a + t)[1..] == a[1..] + t;
      SplitPrefix(a[1..], t, sep);
      assert [a[0]] + (a[1..] + Split(t, sep)[0]) == a + Split(t, sep)[0];
    } else {
      var p := Split(t, sep);
      assert a + t == t;
      assert a + p[0] == p[0];
      assert p == [p[0]] + p[1..];
    }
  }

  /** A string without the separator is one piece. */
  lemma SplitNone(a: string, sep: char)
    requires sep !in a
    ensures Split(a, sep) == [a]
  {
    SplitPrefix(a, [], sep);
    assert a + [] == a;
  }

  /** The piece before the first separator, then the pieces of the rest. */
  lemma SplitAt(a: string, b: string, sep: char)
    requires sep !in a
    ensures Split(a + [sep] + b, sep) == [a] + Split(b, sep)
  {
    assert ([sep] + b)[0] == sep && ([sep] + b)[1..] == b;
    assert Split([sep] + b, sep) == [[]] + Split(b, sep);
    SplitPrefix(a, [sep] + b, sep);
    assert a + [sep] + b == a + ([sep] + b);
    assert a + [] == a;
  }

  /** Two separator-free pieces joined by the separator split back apart. */
  lemma SplitTwo(a: string, b: string, sep: char, s: string)
    requires sep !in a && sep !in b && s == a + [sep] + b
    ensures Split(s, sep) == [a, b]
  {
    SplitAt(a, b, sep);
    SplitNone(b, sep);
  }

  /** Joining separator-free pieces and splitting again gives the pieces. */
  lemma {:induction false} SplitJoin(parts: seq<string>, sep: char)
    requires |parts| >= 1
    requires forall i :: 0 <= i < |parts| ==> sep !in parts[i]
    ensures Split(Join(parts, sep), sep) == parts
  {
    if |parts| == 1 {
      SplitNone(parts[0], sep);
    } else {
      SplitJoin(parts[1..], sep);
      SplitAt(parts[0], Join(parts[1..], sep), sep);
      assert [parts[0]] + parts[1..] == parts;
    }
  }

  // ---------------------------------------------------------------------
  // trim
  // ---------------------------------------------------------------------

  /** The white space `String.prototype.trim` removes, restricted to the
      ASCII and Latin-1 characters (tab, line feed, vertical tab, form feed,
      carriage return, space, no-break space) and the byte-order mark. */
  predicate IsSpace(c: char)
  {
    c == ' ' || c == '\t' || c == '\n' || c == '\r'
    || c == 11 as char || c == 12 as char || c == 0xA0 as char || c == 0xFEFF as char
  }

  function TrimStart(s: string): (r: string)
    ensures |r| <= |s| && r == s[|s| - |r|..]
    ensures forall i :: 0 <= i < |s| - |r| ==> IsSpace(s[i])
    ensures r == [] || !IsSpace(r[0])
  {
    if s != [] && IsSpace(s[0]) then
      var r := TrimStart(s[1..]);
      TrimStartStep(s, r);
      r
    else s
  }

  lemma TrimStartStep(s: string, r: string)
    requires s != [] && IsSpace(s[0]) && |r| <= |s| - 1 && r == s[1..][|s| - 1 - |r|..]
    requires forall i :: 0 <= i < |s| - 1 - |r| ==> IsSpace(s[1..][i])
    ensures r == s[|s| - |r|..]
    ensures forall i :: 0 <= i < |s| - |r| ==> IsSpace(s[i])
  {
    forall i | 0 <= i < |s| - |r|
      ensures IsSpace(s[i])
    {
      if i > 0 {
        assert s[i] == s[1..][i - 1];
      }
    }
  }

  function TrimEnd(s: string): (r: string)
    ensures |r| <= |s| && r == s[..|r|]
    ensures forall i :: |r| <= i < |s| ==> IsSpace(s[i])
    ensures r == [] || !IsSpace(r[|r| - 1])
  {
    if s != [] && IsSpace(s[|s| - 1]) then TrimEnd(s[..|s| - 1]) else s
  }

  /** `s.trim()`: white space cut from both ends (each cut is described
      by `TrimStart` and `TrimEnd`); what is left neither starts nor ends
      with white space, and it is empty exactly when `s` is all white space. */
  function Trim(s: string): (r: string)
    ensures |r| <= |s|
    ensures r == [] || (!IsSpace(r[0]) && !IsSpace(r[|r| - 1]))
    ensures r == [] <==> forall k :: 0 <= k < |s| ==> IsSpace(s[k])
  {
    var t := TrimStart(s);
    var r := TrimEnd(t);
    assert r != [] ==> r[0] == t[0];
    assert t != [] ==> t[0] == s[|s| - |t|];
    r
  }

  /** `parts.map(p => p.trim())`. */
  function TrimAll(parts: seq<string>): (r: seq<string>)
    ensures |r| == |parts|
    ensures forall i :: 0 <= i < |r| ==> r[i] == Trim(parts[i])
  {
    seq(|parts|, i requires 0 <= i < |parts| => Trim(parts[i]))
  }

  // ---------------------------------------------------------------------
  // decimal numerals
  // ---------------------------------------------------------------------

  predicate IsDigit(c: char) { '0' <= c <= '9' }

  predicate AllDigits(s: string) { forall i :: 0 <= i < |s| ==> IsDigit(s[i]) }

  function DigitChar(d: nat): (c: char)
    requires d < 10
    ensures IsDigit(c) && c as int - '0' as int == d
  {
    ('0' as int + d) as char
  }

  function DigitValue(c: char): (d: nat)
    requires IsDigit(c)
    ensures d < 10 && DigitChar(d) == c
  {
    c as int - '0' as int
  }

  /** `String(n)` for a natural number: decimal, no leading zeros. */
  function NatToString(n: nat): (r: string)
    ensures |r| >= 1 && AllDigits(r)
    ensures |r| > 1 ==> r[0] != '0'
    ensures n < 10 <==> |r| == 1
  {
    if n < 10 then [DigitChar(n)] else NatToString(n / 10) + [DigitChar(n % 10)]
  }

  /** The number a string of decimal digits denotes. */
  function DecimalValue(s: string): nat
    requires AllDigits(s)
  {
    if s == [] then 0 else DecimalValue(s[..|s| - 1]) * 10 + DigitValue(s[|s| - 1])
  }

  /** Printing a natural number in decimal and reading it back gives it. */
  lemma {:induction false} DecimalRoundTrip(n: nat)
    ensures DecimalValue(NatToString(n)) == n
  {
    if n >= 10 {
      var s := NatToString(n);
      DecimalRoundTrip(n / 10);
      assert s[..|s| - 1] == NatToString(n / 10);
    }
  }

  /** `String(i)` for an integer. */
  function IntToString(i: int): (r: string)
    ensures i >= 0 ==> r == NatToString(i)
    ensures i < 0 ==> r == "-" + NatToString(-i)
  {
    if i < 0 then "-" + NatToString(-i) else NatToString(i)
  }

  /** `s.padStart(width, fill)` with a one-character fill. */
  function PadStart(s: string, width: nat, fill: char): (r: string)
    ensures |r| == if |s| >= width then |s| else width
  {
    if |s| >= width then s else seq(width - |s|, _ => fill) + s
  }

  /** The padded string ends with the original and starts with fill. */
  lemma PadStartShape(s: string, width: nat, fill: char, r: string)
    requires r == PadStart(s, width, fill)
    ensures r[|r| - |s|..] == s
    ensures forall i :: 0 <= i < |r| - |s| ==> r[i] == fill
  {
  }

  /** Leading zeros do not change the value of a numeral. */
  lemma {:induction false} LeadingZeros(z: string, s: string)
    requires forall i :: 0 <= i < |z| ==> z[i] == '0'
    requires AllDigits(s)
    ensures AllDigits(z + s) && DecimalValue(z + s) == DecimalValue(s)
  {
    assert AllDigits(z + s) by {
      forall i | 0 <= i < |z + s| ensures IsDigit((z + s)[i]) {
        if i < |z| { assert (z + s)[i] == z[i]; } else { assert (z + s)[i] == s[i - |z|]; }
      }
    }
    if s == [] {
      assert z + s == z;
      if z != [] {
        LeadingZeros(z[..|z| - 1], s);
        assert z[..|z| - 1] + s == z[..|z| - 1];
      }
    } else {
      var s' := s[..|s| - 1];
      assert (z + s)[..|z + s| - 1] == z + s';
      LeadingZeros(z, s');
    }
  }

  /** `String(n).padStart(2, '0')` reads back as `n`. */
  lemma PadDecimal(n: nat, width: nat)
    ensures AllDigits(PadStart(NatToString(n), width, '0'))
    ensures DecimalValue(PadStart(NatToString(n), width, '0')) == n
  {
    var s := NatToString(n);
    var r := PadStart(s, width, '0');
    PadStartShape(s, width, '0', r);
    var z := r[..|r| - |s|];
    assert r == z + s;
    LeadingZeros(z, s);
    DecimalRoundTrip(n);
  }

  /** `String(n).padStart(2, '0')`: for `n < 100`, two digits reading `n`. */
  function TwoDigits(n: nat): string
  {
    PadStart(NatToString(n), 2, '0')
  }

  /** Below 100 the padded numeral has two digits and reads back as `n`. */
  lemma TwoDigitsValue(n: nat)
    requires n < 100
    ensures |TwoDigits(n)| == 2 && AllDigits(TwoDigits(n)) && DecimalValue(TwoDigits(n)) == n
  {
    assert n >= 10 ==> NatToString(n) == NatToString(n / 10) + [DigitChar(n % 10)];
    PadDecimal(n, 2);
  }

  /** Quotient and remainder by ten, from a decomposition. */
  lemma DivTen(n: nat, q: nat, r: nat)
    requires n == 10 * q + r && r < 10
    ensures n / 10 == q && n % 10 == r
  {
  }

  /** The two digits of a number below 100: tens, then units. */
  lemma TwoDigitsChars(n: nat)
    requires n < 100
    ensures TwoDigits(n) == [DigitChar(n / 10), DigitChar(n % 10)]
  {
    PadStartShape(NatToString(n), 2, '0', TwoDigits(n));
    if n < 10 {
      assert NatToString(n) == [DigitChar(n)];
      assert PadStart(NatToString(n), 2, '0') == ['0'] + NatToString(n);
    } else {
      assert NatToString(n / 10) == [DigitChar(n / 10)];
    }
  }

  /** A wall-clock minute written `HH:MM`, each field padded to two digits. */
  function Clock(hours: nat, minutes: nat): string
    requires hours < 24 && minutes < 60
  {
    TwoDigits(hours) + ":" + TwoDigits(minutes)
  }

  /** A clock reading is five characters, the colon in the middle, and its
      two fields read back as the hours and the minutes. */
  lemma ClockFields(hours: nat, minutes: nat, c: string)
    requires hours < 24 && minutes < 60 && c == Clock(hours, minutes)
    ensures |c| == 5 && c[2] == ':' && AllDigits(c[..2]) && AllDigits(c[3..])
    ensures DecimalValue(c[..2]) == hours && DecimalValue(c[3..]) == minutes
  {
    TwoDigitsValue(hours);
    TwoDigitsValue(minutes);
    ColonSlices(TwoDigits(hours), TwoDigits(minutes), c);
  }

  /** The five characters of a clock reading. */
  lemma ClockChars(hours: nat, minutes: nat, c: string)
    requires hours < 24 && minutes < 60 && c == Clock(hours, minutes)
    ensures c == [DigitChar(hours / 10), DigitChar(hours % 10), ':', DigitChar(minutes / 10), DigitChar(minutes % 10)]
  {
    TwoDigitsChars(hours);
    TwoDigitsChars(minutes);
    Colon(TwoDigits(hours), TwoDigits(minutes), c);
  }

  lemma ColonSlices(a: string, b: string, c: string)
    requires |a| == 2 && |b| == 2 && c == a + ":" + b
    ensures |c| == 5 && c[2] == ':' && c[..2] == a && c[3..] == b
  {
  }

  lemma Colon(a: string, b: string, c: string)
    requires |a| == 2 && |b| == 2 && c == a + ":" + b
    ensures c == [a[0], a[1], ':', b[0], b[1]]
  {
  }

  /** The longest prefix of `s` made of digits. */
  function DigitPrefix(s: string): (r: string)
    ensures |r| <= |s| && r == s[..|r|] && AllDigits(r)
    ensures |r| < |s| ==> !IsDigit(s[|r|])
  {
    if s != [] && IsDigit(s[0]) then [s[0]] + DigitPrefix(s[1..]) else []
  }

  /** `parseInt(s, 10)`: leading white space, an optional sign, then the
      longest run of digits; `None` stands for `NaN` (no digits). */
  function ParseInt(s: string): Option<int>
  {
    var t := TrimStart(s);
    var negative := t != [] && t[0] == '-';
    var body := if t != [] && (t[0] == '-' || t[0] == '+') then t[1..] else t;
    var digits := DigitPrefix(body);
    var value: int := DecimalValue(digits);
    if digits == [] then None
    else if negative then Some(-value)
    else Some(value)
  }

  /** A non-empty numeral parses to the number it denotes. */
  lemma ParseIntDigits(s: string)
    requires s != [] && AllDigits(s)
    ensures ParseInt(s) == Some(DecimalValue(s))
  {
    assert !IsSpace(s[0]);
    assert TrimStart(s) == s;
    DigitPrefixAll(s);
  }

  /** `parseInt(String(i), 10)` gives back `i`, for either sign. */
  lemma {:induction false} IntToStringRoundTrip(i: int)
    ensures ParseInt(IntToString(i)) == Some(i)
  {
    var d := NatToString(if i < 0 then -i else i);
    assert DecimalValue(d) == if i < 0 then -i else i by {
      DecimalRoundTrip(if i < 0 then -i else i);
    }
    if i >= 0 {
      ParseIntDigits(d);
    } else {
      ParseIntNegative(d, IntToString(i));
    }
  }

  /** A minus sign followed by a numeral parses to the negated value. */
  lemma ParseIntNegative(d: string, s: string)
    requires d != [] && AllDigits(d) && s == "-" + d
    ensures ParseInt(s) == Some(0 - DecimalValue(d) as int)
  {
    assert !IsSpace(s[0]);
    assert TrimStart(s) == s;
    assert s[1..] == d;
    DigitPrefixAll(d);
  }

  /** The characters of `String(i)`: a minus sign exactly when `i` is
      negative, then digits with no leading zero that denote `|i|`. */
  lemma {:induction false} IntToStringShape(i: int, s: string)
    requires s == IntToString(i)
    ensures (s[0] == '-') <==> i < 0
    ensures var digits := if i < 0 then s[1..] else s;
            && digits != [] && AllDigits(digits) && (|digits| > 1 ==> digits[0] != '0')
            && DecimalValue(digits) == if i < 0 then -i else i
  {
    if i < 0 {
      assert s[1..] == NatToString(-i);
      DecimalRoundTrip(-i);
    } else {
      DecimalRoundTrip(i);
    }
  }

  /** A run of zeros parses as 0. */
  lemma ParseIntZeros(z: string)
    requires z != [] && forall i :: 0 <= i < |z| ==> z[i] == '0'
    ensures ParseInt(z) == Some(0)
  {
    LeadingZeros(z, []);
    assert z + [] == z;
    ParseIntDigits(z);
  }

  lemma ParseIntTwoZeros(z: string)
    requires |z| == 2 && z[0] == '0' && z[1] == '0'
    ensures ParseInt(z) == Some(0)
  {
    ParseIntZeros(z);
  }

  /** A numeral is its own longest digit prefix. */
  lemma {:induction false} DigitPrefixAll(s: string)
    requires AllDigits(s)
    ensures DigitPrefix(s) == s
  {
    if s != [] {
      DigitPrefixAll(s[1..]);
      assert [s[0]] + s[1..] == s;
    }
  }

  // ---------------------------------------------------------------------
  // global replace of one character
  // ---------------------------------------------------------------------

  /** `s.replace(/c/g, rep)` for a pattern that is a single character. */
  function ReplaceChar(s: string, c: char, rep: string): (r: string)
    ensures c !in s ==> r == s
  {
    if s == [] then [] else (if s[0] == c then rep else [s[0]]) + ReplaceChar(s[1..], c, rep)
  }

  lemma ReplaceCharSingle(x: char, c: char, rep: string)
    ensures ReplaceChar([x], c, rep) == if x == c then rep else [x]
  {
    assert [x][1..] == [];
  }

  lemma {:induction false} ReplaceCharConcat(a: string, b: string, c: char, rep: string)
    ensures ReplaceChar(a + b, c, rep) == ReplaceChar(a, c, rep) + ReplaceChar(b, c, rep)
  {
    if a == [] {
      assert a + b == b;
    } else {
      assert (a + b)[0] == a[0];
      assert (a + b)[1..] == a[1..] + b;
      ReplaceCharConcat(a[1..], b, c, rep);
    }
  }

  // ---------------------------------------------------------------------
  // string comparison
  // ---------------------------------------------------------------------

  /** `a <= b` on JavaScript strings: lexicographic order of characters. */
  predicate LexLe(a: string, b: string)
  {
    if a == [] then true
    else if b == [] then false
    else if a[0] != b[0] then a[0] < b[0]
    else LexLe(a[1..], b[1..])
  }

  /** Strings that start alike compare as their rests. */
  lemma LexLeCons(x: char, y: char, a: string, b: string)
    ensures LexLe([x] + a, [y] + b) == if x != y then x < y else LexLe(a, b)
  {
    assert ([x] + a)[1..] == a && ([y] + b)[1..] == b;
  }

  /** Digit characters are ordered as their values. */
  lemma DigitCharOrder(a: nat, b: nat)
    requires a < 10 && b < 10
    ensures (DigitChar(a) == DigitChar(b)) == (a == b)
    ensures (DigitChar(a) < DigitChar(b)) == (a < b)
  {
  }

  /** Two `DD:DD` strings compare as the numbers `(10a + b) * 60 + 10c + d`
      when the minutes' tens digit is below 6. */
  lemma LexLeDigits5(a1: nat, b1: nat, c1: nat, d1: nat, a2: nat, b2: nat, c2: nat, d2: nat)
    requires a1 < 10 && b1 < 10 && c1 < 6 && d1 < 10 && a2 < 10 && b2 < 10 && c2 < 6 && d2 < 10
    ensures LexLe([DigitChar(a1), DigitChar(b1), ':', DigitChar(c1), DigitChar(d1)],
                  [DigitChar(a2), DigitChar(b2), ':', DigitChar(c2), DigitChar(d2)])
            <==> (10 * a1 + b1) * 60 + 10 * c1 + d1 <= (10 * a2 + b2) * 60 + 10 * c2 + d2
  {
    DigitCharOrder(a1, a2);
    DigitCharOrder(b1, b2);
    DigitCharOrder(c1, c2);
    DigitCharOrder(d1, d2);
    var t1, t2 := [DigitChar(d1)], [DigitChar(d2)];
    var s1, s2 := [DigitChar(c1)] + t1, [DigitChar(c2)] + t2;
    var r1, r2 := [':'] + s1, [':'] + s2;
    var q1, q2 := [DigitChar(b1)] + r1, [DigitChar(b2)] + r2;
    LexLeCons(DigitChar(a1), DigitChar(a2), q1, q2);
    LexLeCons(DigitChar(b1), DigitChar(b2), r1, r2);
    LexLeCons(':', ':', s1, s2);
    LexLeCons(DigitChar(c1), DigitChar(c2), t1, t2);
    LexLeCons(DigitChar(d1), DigitChar(d2), [], []);
    assert [DigitChar(d1)] + [] == t1 && [DigitChar(d2)] + [] == t2;
    assert [DigitChar(a1), DigitChar(b1), ':', DigitChar(c1), DigitChar(d1)] == [DigitChar(a1)] + q1;
    assert [DigitChar(a2), DigitChar(b2), ':', DigitChar(c2), DigitChar(d2)] == [DigitChar(a2)] + q2;
  }
}
