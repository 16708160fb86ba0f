/**
 * String vocabulary shared by the handlers and the store: Python's `str.split` on one
 * separator character, the byte-wise order in which the document store compares two
 * strings, zero-padded decimal fields, and Python's `str(int)` and `int(str)`.
 */
module Text {
  import opened Base

  // ---------------------------------------------------------------------------
  // Splitting on a one-character separator
  // ---------------------------------------------------------------------------

  /** Number of occurrences of `c` in `s`. */
  function Count(s: string, c: char): nat
  {
    if s == [] then 0 else (if s[0] == c then 1 else 0) + Count(s[1..], c)
  }

  /**
   * Python's `s.split(sep)`: the pieces between separators, an empty piece wherever two
   * separators touch or a separator opens or closes `s`; `"".split(sep)` is `[""]`.
   */
  function Split(s: string, sep: char): (parts: seq<string>)
    ensures |parts| == Count(s, sep) + 1
    ensures forall i :: 0 <= i < |parts| ==> sep !in parts[i]
    ensures parts[0] <= s
    ensures |parts[0]| < |s| ==> s[|parts[0]|] == sep
  {
    if s == [] then [""]
    else
      var rest := Split(s[1..], sep);
      if s[0] == sep then [""] + rest
      else [[s[0]] + rest[0]] + rest[1..]
  }

  /** Python's `sep.join(parts)`, the inverse of `Split`. */
  function Join(parts: seq<string>, sep: char): string
  {
    if parts == [] then ""
    else if |parts| == 1 then parts[0]
    else parts[0] + [sep] + Join(parts[1..], sep)
  }

  lemma {:induction false} JoinSplit(s: string, sep: char)
    ensures Join(Split(s, sep), sep) == s
  {
    if s != [] {
      var rest := Split(s[1..], sep);
      JoinSplit(s[1..], sep);
      assert s == [s[0]] + s[1..];
      if s[0] == sep {
        assert Split(s, sep) == [""] + rest;
        assert ([""] + rest)[1..] == rest;
      } else {
        var parts := [[s[0]] + rest[0]] + rest[1..];
        assert Split(s, sep) == parts;
        if |rest| == 1 {
          assert Join(parts, sep) == [s[0]] + rest[0];
        } else {
          assert parts[1..] == rest[1..];
          assert Join(parts, sep) == [s[0]] + rest[0] + [sep] + Join(rest[1..], sep);
          assert Join(rest, sep) == rest[0] + [sep] + Join(rest[1..], sep);
        }
      }
    }
  }

  lemma {:induction false} SplitNoSeparator(a: string, sep: char)
    requires sep !in a
    ensures Split(a, sep) == [a]
  {
    if a != [] {
      assert sep !in a[1..];
      SplitNoSeparator(a[1..], sep);
      assert a == [a[0]] + a[1..];
    }
  }

  lemma {:induction false} SplitAtFirst(a: string, b: string, sep: char)
    requires sep !in a
    ensures Split(a + [sep] + b, sep) == [a] + Split(b, sep)
  {
    var s := a + [sep] + b;
    if a == [] {
      assert s[1..] == b;
    } else {
      assert s[1..] == a[1..] + [sep] + b;
      assert sep !in a[1..];
      SplitAtFirst(a[1..], b, sep);
      assert a == [a[0]] + a[1..];
    }
  }

  /** A separator closing the string adds one empty piece at the end. */
  lemma {:induction false} SplitTrailing(a: string, sep: char)
    ensures Split(a + [sep], sep) == Split(a, sep) + [""]
  {
    var s := a + [sep];
    if a == [] {
      assert s[1..] == [];
    } else {
      assert s[0] == a[0] && s[1..] == a[1..] + [sep];
      SplitTrailing(a[1..], sep);
      var rest := Split(a[1..], sep);
      if a[0] != sep {
        var longer := rest + [""];
        assert longer[0] == rest[0] && longer[1..] == rest[1..] + [""];
        calc {
          Split(s, sep);
          [[a[0]] + longer[0]] + longer[1..];
          ([[a[0]] + rest[0]] + rest[1..]) + [""];
        }
      }
    }
  }

  lemma {:induction false} SplitJoin(parts: seq<string>, sep: char)
    requires |parts| >= 1
    requires forall i :: 0 <= i < |parts| ==> sep !in parts[i]
    ensures Split(Join(parts, sep), sep) == parts
  {
    if |parts| == 1 {
      SplitNoSeparator(parts[0], sep);
    } else {
      SplitJoin(parts[1..], sep);
      SplitAtFirst(parts[0], Join(parts[1..], sep), sep);
      assert parts == [parts[0]] + parts[1..];
    }
  }

  // ---------------------------------------------------------------------------
  // Byte-wise string order (the store's comparison of two string values)
  // ---------------------------------------------------------------------------

  /** `a` sorts at or before `b`: character by character, a proper prefix first. */
  predicate LexLe(a: string, b: string)
  {
    if a == [] then true
    else if b == [] then false
    else if a[0] != b[0] then a[0] < b[0]
    else LexLe(a[1..], b[1..])
  }

  lemma {:induction false} LexLeReflexive(a: string)
    ensures LexLe(a, a)
  {
    if a != [] { LexLeReflexive(a[1..]); }
  }

  lemma {:induction false} LexLeTransitive(a: string, b: string, c: string)
    requires LexLe(a, b) && LexLe(b, c)
    ensures LexLe(a, c)
  {
    if a != [] && b != [] && c != [] && a[0] == b[0] && b[0] == c[0] {
      LexLeTransitive(a[1..], b[1..], c[1..]);
    }
  }

  lemma {:induction false} LexLeTotal(a: string, b: string)
    ensures LexLe(a, b) || LexLe(b, a)
  {
    if a != [] && b != [] && a[0] == b[0] {
      LexLeTotal(a[1..], b[1..]);
    }
  }

  lemma {:induction false} LexLeAntisymmetric(a: string, b: string)
    requires LexLe(a, b) && LexLe(b, a)
    ensures a == b
  {
    if a != [] && b != [] {
      LexLeAntisymmetric(a[1..], b[1..]);
      assert a == [a[0]] + a[1..] && b == [b[0]] + b[1..];
    }
  }

  /** Comparing two strings that open with blocks of one length: the blocks decide unless equal. */
  lemma {:induction false} LexAppend(x1: string, y1: string, x2: string, y2: string)
    requires |x1| == |x2|
    ensures LexLe(x1 + y1, x2 + y2) <==> if x1 == x2 then LexLe(y1, y2) else LexLe(x1, x2)
    decreases |x1|
  {
    if |x1| == 0 {
      assert x1 + y1 == y1 && x2 + y2 == y2;
    } else {
      assert (x1 + y1)[0] == x1[0] && (x2 + y2)[0] == x2[0];
      assert (x1 + y1)[1..] == x1[1..] + y1;
      assert (x2 + y2)[1..] == x2[1..] + y2;
      LexAppend(x1[1..], y1, x2[1..], y2);
      assert x1 == [x1[0]] + x1[1..] && x2 == [x2[0]] + x2[1..];
    }
  }

  // ---------------------------------------------------------------------------
  // Decimal digits
  // ---------------------------------------------------------------------------

  predicate IsDigit(c: char) { '0' <= c <= '9' }

  function DigitChar(d: nat): (c: char)
    requires d < 10
    ensures IsDigit(c)
  {
    ('0' as int + d) as char
  }

  function Pow10(n: nat): (p: nat)
    ensures p >= 1
  {
    if n == 0 then 1 else 10 * Pow10(n - 1)
  }

  /** `v` written in exactly `width` decimal digits, zero-padded on the left (`%0<width>d`). */
  function Pad(v: nat, width: nat): (s: string)
    ensures |s| == width
    ensures forall i :: 0 <= i < |s| ==> IsDigit(s[i])
  {
    if width == 0 then "" else Pad(v / 10, width - 1) + [DigitChar(v % 10)]
  }

  lemma LastDigitSplit(a: nat, b: nat)
    ensures a == b <==> a / 10 == b / 10 && a % 10 == b % 10
    ensures a <= b <==> a / 10 < b / 10 || (a / 10 == b / 10 && a % 10 <= b % 10)
  {
  }

  /** Zero-padded fields of one width sort as the numbers they spell. */
  lemma {:induction false} PadOrder(a: nat, b: nat, w: nat)
    requires a < Pow10(w) && b < Pow10(w)
    ensures Pad(a, w) == Pad(b, w) <==> a == b
    ensures LexLe(Pad(a, w), Pad(b, w)) <==> a <= b
  {
    if w == 0 {
      LexLeReflexive("");
    } else {
      var x1, x2 := Pad(a / 10, w - 1), Pad(b / 10, w - 1);
      var c1, c2 := DigitChar(a % 10), DigitChar(b % 10);
      PadOrder(a / 10, b / 10, w - 1);
      LexAppend(x1, [c1], x2, [c2]);
      LastDigitSplit(a, b);
      assert LexLe([c1], [c2]) <==> c1 <= c2 by {
        assert [c1][1..] == [] && [c2][1..] == [];
        LexLeReflexive([]);
      }
      assert Pad(a, w) == x1 + [c1] && Pad(b, w) == x2 + [c2];
      assert x1 + [c1] == x2 + [c2] ==> x1 == x2 && c1 == c2 by {
        if x1 + [c1] == x2 + [c2] {
          assert (x1 + [c1])[..w - 1] == x1 && (x2 + [c2])[..w - 1] == x2;
          assert (x1 + [c1])[w - 1] == c1 && (x2 + [c2])[w - 1] == c2;
        }
      }
    }
  }

  // ---------------------------------------------------------------------------
  // Python's str(int) and int(str)
  // ---------------------------------------------------------------------------

  /** The shortest decimal spelling of a natural number. */
  function DecimalDigits(n: nat): (s: string)
    ensures |s| >= 1
    ensures forall i :: 0 <= i < |s| ==> IsDigit(s[i])
    ensures s[0] == '0' <==> n == 0
    ensures n == 0 ==> s == "0"
  {
    if n < 10 then [DigitChar(n)] else DecimalDigits(n / 10) + [DigitChar(n % 10)]
  }

  /** `str(n)` for a Python int: a minus sign, then the digits of the magnitude. */
  function FormatInt(n: int): string
  {
    if n < 0 then "-" + DecimalDigits(-n) else DecimalDigits(n)
  }

  /** The characters `int()` strips from both ends: space, tab, line feed, vertical tab, form feed, carriage return. */
  predicate IsSpace(c: char)
  {
    c == ' ' || 9 <= c as int <= 13
  }

  function TrimStart(s: string): (t: string)
    ensures t == [] || !IsSpace(t[0])
  {
    if s != [] && IsSpace(s[0]) then TrimStart(s[1..]) else s
  }

  function TrimEnd(s: string): (t: string)
    ensures t == [] || !IsSpace(t[|t| - 1])
  {
    if s != [] && IsSpace(s[|s| - 1]) then TrimEnd(s[..|s| - 1]) else s
  }

  function Strip(s: string): string
  {
    TrimEnd(TrimStart(s))
  }

  /** What `TrimStart` removes is exactly the run of whitespace opening `s`: the rest is kept as it was. */
  lemma {:induction false} TrimStartDropsLeadingSpace(s: string)
    ensures var t := TrimStart(s);
      && |t| <= |s| && t == s[|s| - |t|..]
      && forall i :: 0 <= i < |s| - |t| ==> IsSpace(s[i])
  {
    if s != [] && IsSpace(s[0]) {
      var rest := s[1..];
      TrimStartDropsLeadingSpace(rest);
      var t := TrimStart(rest);
      assert rest[|rest| - |t|..] == s[|s| - |t|..];
      forall i | 0 < i < |s| - |t|
        ensures IsSpace(s[i])
      {
        assert s[i] == rest[i - 1];
      }
    }
  }

  /** What `TrimEnd` removes is exactly the run of whitespace closing `s`: the rest is kept as it was. */
  lemma {:induction false} TrimEndDropsTrailingSpace(s: string)
    ensures var t := TrimEnd(s);
      && |t| <= |s| && t == s[..|t|]
      && forall i :: |t| <= i < |s| ==> IsSpace(s[i])
  {
    if s != [] && IsSpace(s[|s| - 1]) {
      var rest := s[..|s| - 1];
      TrimEndDropsTrailingSpace(rest);
      var t := TrimEnd(rest);
      assert rest[..|t|] == s[..|t|];
      forall i | |t| <= i < |s| - 1
        ensures IsSpace(s[i])
      {
        assert s[i] == rest[i];
      }
    }
  }

  /**
   * What `int()` accepts after the sign: digits in groups joined by single underscores,
   * beginning and ending with a digit.
   */
  predicate DigitGroups(s: string)
  {
    && |s| > 0
    && IsDigit(s[|s| - 1])
    && (|s| == 1
        || DigitGroups(s[..|s| - 1])
        || (|s| >= 3 && s[|s| - 2] == '_' && DigitGroups(s[..|s| - 2])))
  }

  /** The number the digits of `s` spell, underscores skipped. */
  function DigitsValue(s: string): nat
  {
    if s == [] then 0
    else
      var c := s[|s| - 1];
      if IsDigit(c) then 10 * DigitsValue(s[..|s| - 1]) + (c as int - '0' as int)
      else DigitsValue(s[..|s| - 1])
  }

  /**
   * Python's `int(s)` in base 10: surrounding whitespace stripped, an optional sign, then
   * digit groups; anything else raises, modelled as `None`.
   */
  function ParseInt(s: string): Option<int>
  {
    ParseStripped(Strip(s))
  }

  /** `int()` once the whitespace is gone: an optional sign, then digit groups. */
  function ParseStripped(t: string): Option<int>
  {
    var body := if |t| > 0 && (t[0] == '+' || t[0] == '-') then t[1..] else t;
    if !DigitGroups(body) then None
    else
      var magnitude: int := DigitsValue(body);
      Some(if |t| > 0 && t[0] == '-' then -magnitude else magnitude)
  }

  lemma {:induction false} DecimalDigitsValue(n: nat)
    ensures DigitGroups(DecimalDigits(n))
    ensures DigitsValue(DecimalDigits(n)) == n
  {
    var s := DecimalDigits(n);
    if n >= 10 {
      DecimalDigitsValue(n / 10);
      var x := DecimalDigits(n / 10);
      assert s == x + [DigitChar(n % 10)];
      assert s[..|s| - 1] == x;
    }
  }

  /** A string that neither starts nor ends with whitespace is left alone by the stripping. */
  lemma NothingToStrip(s: string)
    requires |s| > 0 && !IsSpace(s[0]) && !IsSpace(s[|s| - 1])
    ensures Strip(s) == s
  {
    assert TrimStart(s) == s;
  }

  /** `int()` of an optional minus sign followed by digit groups: nothing to strip, the sign applied to their value. */
  lemma ParseSigned(body: string, negative: bool)
    requires DigitGroups(body)
    ensures ParseInt((if negative then "-" else "") + body)
      == Some(if negative then -(DigitsValue(body) as int) else DigitsValue(body))
  {
    DigitGroupsStart(body);
    var s := (if negative then "-" else "") + body;
    assert s[|s| - 1] == body[|body| - 1];
    NothingToStrip(s);
    SignedDigits(body, negative);
  }

  lemma SignedDigits(body: string, negative: bool)
    requires DigitGroups(body) && IsDigit(body[0])
    ensures ParseStripped((if negative then "-" else "") + body)
      == Some(if negative then -(DigitsValue(body) as int) else DigitsValue(body))
  {
    var s := (if negative then "-" else "") + body;
    if negative {
      assert s[0] == '-' && s[1..] == body;
    } else {
      assert s == body;
    }
  }

  lemma {:induction false} DigitGroupsStart(s: string)
    requires DigitGroups(s)
    ensures IsDigit(s[0])
  {
    if |s| > 1 {
      if DigitGroups(s[..|s| - 1]) {
        DigitGroupsStart(s[..|s| - 1]);
      } else {
        DigitGroupsStart(s[..|s| - 2]);
      }
    }
  }

  /** `int(str(n)) == n`: Python's formatting and parsing of integers are inverse. */
  lemma ParseFormat(n: int)
    ensures ParseInt(FormatInt(n)) == Some(n)
  {
    var m: nat := if n < 0 then -n else n;
    var digits := DecimalDigits(m);
    var spelled := (if n < 0 then "-" else "") + digits;
    assert ParseInt(spelled) == Some(n) by {
      DecimalDigitsValue(m);
      ParseSigned(digits, n < 0);
    }
    assert FormatInt(n) == spelled;
  }

  lemma EmptyIsNotAnInt()
    ensures ParseInt("") == None
  {
  }

  /** A string opening with a character that is neither whitespace, a sign nor a digit is no integer. */
  lemma NoIntStartingWith(s: string)
    requires |s| > 0 && !IsSpace(s[0]) && s[0] != '+' && s[0] != '-' && !IsDigit(s[0])
    ensures ParseInt(s) == None
  {
    assert TrimStart(s) == s;
    TrimEndDropsTrailingSpace(s);
    var t := TrimEnd(s);
    if |t| > 0 {
      assert t[0] == s[0];
    }
    if DigitGroups(t) {
      DigitGroupsStart(t);
      assert false;
    }
  }
}
