/** String routines the modelled code relies on: Python slicing, `str.split`
    on one character, `','.join`, `int()` on decimal text, `'%02d'`, padding,
    centring and substring search. */
module Text {
  import opened Base

  // ---------------------------------------------------------------------
  // Characters and digits
  // ---------------------------------------------------------------------

  predicate IsDigit(c: char) {
    '0' <= c <= '9'
  }

  function DigitValue(c: char): (d: nat)
    requires IsDigit(c)
    ensures d < 10
  {
    (c as int) - ('0' as int)
  }

  function DigitChar(d: nat): (c: char)
    requires d < 10
    ensures IsDigit(c) && DigitValue(c) == d
  {
    (('0' as int) + d) as char
  }

  predicate AllDigits(s: string) {
    forall i :: 0 <= i < |s| ==> IsDigit(s[i])
  }

  /** The ASCII characters `str.isspace` accepts: a blank, '\t' to '\r', and
      the four separators 0x1C to 0x1F. `str.strip()`, `float()` and `int()`
      (which maps every such character to a blank first) skip exactly these,
      and `\s` in a `re` pattern on text matches exactly these. */
  predicate IsSpace(c: char) {
    c == ' ' || ('\t' <= c <= '\r') || (28 <= c as int <= 31)
  }

  /** Value of a run of decimal digits, most significant first. */
  function DigitsValue(s: string): nat
    requires AllDigits(s)
    decreases |s|
  {
    if |s| == 0 then 0 else DigitsValue(s[..|s| - 1]) * 10 + DigitValue(s[|s| - 1])
  }

  // ---------------------------------------------------------------------
  // Slicing, stripping, searching
  // ---------------------------------------------------------------------

  /** Python `s[a:b]` for non-negative bounds: out-of-range bounds are
      clamped, so a short string yields a short (possibly empty) slice. */
  function Slice(s: string, a: nat, b: nat): (r: string)
    ensures |r| <= |s|
    ensures a <= b && b <= |s| ==> r == s[a..b]
  {
    var lo := if a <= |s| then a else |s|;
    var hi := if b <= |s| then b else |s|;
    if lo <= hi then s[lo..hi] else ""
  }

  function StripLeft(s: string): (r: string)
    ensures |r| <= |s|
    ensures |r| > 0 ==> !IsSpace(r[0])
    decreases |s|
  {
    if |s| > 0 && IsSpace(s[0]) then StripLeft(s[1..]) else s
  }

  function StripRight(s: string): (r: string)
    ensures |r| <= |s|
    ensures |r| > 0 ==> !IsSpace(r[|r| - 1])
    decreases |s|
  {
    if |s| > 0 && IsSpace(s[|s| - 1]) then StripRight(s[..|s| - 1]) else s
  }

  function Strip(s: string): string {
    StripRight(StripLeft(s))
  }

  /** `sub in s` for strings. */
  predicate Contains(s: string, sub: string)
    decreases |s|
  {
    (|sub| <= |s| && s[..|sub|] == sub) || (|s| > 0 && Contains(s[1..], sub))
  }

  function Repeat(c: char, n: nat): (r: string)
    ensures |r| == n
    ensures forall i :: 0 <= i < n ==> r[i] == c
  {
    if n == 0 then "" else [c] + Repeat(c, n - 1)
  }

  function Reverse<T>(s: seq<T>): (r: seq<T>)
    ensures |r| == |s|
    ensures forall i :: 0 <= i < |s| ==> r[i] == s[|s| - 1 - i]
  {
    if |s| == 0 then [] else Reverse(s[1..]) + [s[0]]
  }

  // ---------------------------------------------------------------------
  // int() and decimal rendering
  // ---------------------------------------------------------------------

  /** Python `int(s)` on base-10 text: surrounding whitespace is ignored,
      one optional sign, then at least one digit; anything else raises
      ValueError, including the underscores between digits that Python
      accepts. */
  function ParseInt(s: string): Result<int> {
    var t := Strip(s);
    var neg := |t| > 0 && t[0] == '-';
    var body := if |t| > 0 && (t[0] == '-' || t[0] == '+') then t[1..] else t;
    match DigitRun(body)
    case Some(v) => Ok(if neg then -(v as int) else v)
    case None => Raise(ValueError("invalid literal for int() with base 10: '" + s + "'"))
  }

  /** The value of a non-empty run of digits, None for anything else. */
  function DigitRun(s: string): (r: Option<nat>)
    decreases |s|
  {
    if |s| == 0 || !IsDigit(s[|s| - 1]) then None
    else if |s| == 1 then Some(DigitValue(s[0]))
    else
      match DigitRun(s[..|s| - 1])
      case None => None
      case Some(v) => Some(v * 10 + DigitValue(s[|s| - 1]))
  }

  /** Decimal text of a natural number, no leading zeros. */
  function NatToString(n: nat): (r: string)
    ensures |r| > 0 && AllDigits(r)
    ensures |r| > 1 ==> r[0] != '0'
    decreases n
  {
    if n < 10 then [DigitChar(n)] else NatToString(n / 10) + [DigitChar(n % 10)]
  }

  /** Python `str(i)` for an int. */
  function IntToString(i: int): string {
    if i < 0 then "-" + NatToString(-i) else NatToString(i)
  }

  /** Python `'%02d' % n` for a natural number. */
  function Pad2(n: nat): (r: string)
    ensures |r| >= 2 && AllDigits(r)
  {
    if n < 10 then "0" + NatToString(n) else NatToString(n)
  }

  function Pow10(w: nat): (p: nat)
    ensures p >= 1
  {
    if w == 0 then 1 else 10 * Pow10(w - 1)
  }

  /** `'%0*d' % (w, n)` for a fixed-width numeric field such as the four-digit
      year of an identifier: the w lowest decimal digits of n, zero-padded. */
  function Digits(n: nat, w: nat): (r: string)
    ensures |r| == w && AllDigits(r)
  {
    if w == 0 then "" else Digits(n / 10, w - 1) + [DigitChar(n % 10)]
  }

  // ---------------------------------------------------------------------
  // Padding and alignment (str.format with '<' and '^')
  // ---------------------------------------------------------------------

  /** `'{:<w}'.format(s)`: left-aligned, padded with spaces to width w. */
  function PadRight(s: string, w: nat): (r: string)
    ensures |r| == if |s| < w then w else |s|
    ensures r[..|s|] == s
  {
    if |s| < w then s + Repeat(' ', w - |s|) else s
  }

  /** `'{:^w}'.format(s)`: centred, the odd space going to the right. */
  function Center(s: string, w: nat): (r: string)
    ensures |r| == if |s| < w then w else |s|
  {
    if |s| < w then
      var pad := w - |s|;
      Repeat(' ', pad / 2) + s + Repeat(' ', pad - pad / 2)
    else s
  }

  // ---------------------------------------------------------------------
  // split / join
  // ---------------------------------------------------------------------

  /** Python `s.split(sep)` for a one-character separator: one piece more
      than there are separators, empty pieces kept. */
  function Split(s: string, sep: char): (r: seq<string>)
    ensures |r| > 0
    decreases |s|
  {
    if |s| == 0 then [""]
    else if s[0] == sep then [""] + Split(s[1..], sep)
    else
      var rest := Split(s[1..], sep);
      [[s[0]] + rest[0]] + rest[1..]
  }

  /** Python `sep.join(parts)`. */
  function Join(parts: seq<string>, sep: string): string
    decreases |parts|
  {
    if |parts| == 0 then ""
    else if |parts| == 1 then parts[0]
    else parts[0] + sep + Join(parts[1..], sep)
  }

  predicate NoChar(s: string, c: char) {
    forall i :: 0 <= i < |s| ==> s[i] != c
  }

  // ---------------------------------------------------------------------
  // Lemmas
  // ---------------------------------------------------------------------

  lemma {:induction false} DigitsValueAppend(s: string, c: char)
    requires AllDigits(s) && IsDigit(c)
    ensures AllDigits(s + [c])
    ensures DigitsValue(s + [c]) == DigitsValue(s) * 10 + DigitValue(c)
  {
    assert (s + [c])[..|s|] == s;
  }

  /** Rendering a natural number and reading it back gives the number. */
  lemma {:induction false} NatToStringValue(n: nat)
    ensures DigitsValue(NatToString(n)) == n
    decreases n
  {
    if n < 10 {
      assert NatToString(n)[..0] == "";
    } else {
      NatToStringValue(n / 10);
      DigitsValueAppend(NatToString(n / 10), DigitChar(n % 10));
    }
  }

  /** Leading zeros do not change the value of a digit run. */
  lemma {:induction false} LeadingZeroValue(s: string)
    requires AllDigits(s)
    ensures AllDigits("0" + s) && DigitsValue("0" + s) == DigitsValue(s)
    decreases |s|
  {
    if |s| > 0 {
      var p := s[..|s| - 1];
      LeadingZeroValue(p);
      assert ("0" + s)[..|"0" + s| - 1] == "0" + p;
      assert ("0" + s)[|"0" + s| - 1] == s[|s| - 1];
    } else {
      assert ("0" + s)[..0] == "";
    }
  }

  /** DigitRun accepts exactly the non-empty digit runs, with their value. */
  lemma {:induction false} DigitRunValue(s: string)
    ensures DigitRun(s) == if |s| > 0 && AllDigits(s) then Some(DigitsValue(s)) else None
    decreases |s|
  {
    if |s| > 1 {
      var p := s[..|s| - 1];
      DigitRunValue(p);
      if AllDigits(s) {
        assert AllDigits(p);
      } else if AllDigits(p) && IsDigit(s[|s| - 1]) {
        forall i | 0 <= i < |s|
          ensures IsDigit(s[i])
        {
          if i < |s| - 1 {
            assert s[i] == p[i];
          }
        }
      }
    } else if |s| == 1 {
      assert s[..0] == "";
    }
  }

  /** Text that neither starts nor ends with whitespace strips to itself. */
  lemma StripPlain(s: string)
    requires |s| > 0 && !IsSpace(s[0]) && !IsSpace(s[|s| - 1])
    ensures Strip(s) == s
  {
    assert StripLeft(s) == s;
  }

  lemma StripDigits(s: string)
    requires |s| > 0 && AllDigits(s)
    ensures Strip(s) == s
  {
    assert !IsSpace(s[0]);
    assert StripLeft(s) == s;
    assert !IsSpace(s[|s| - 1]);
  }

  /** Stripping on the left removes a prefix. */
  lemma {:induction false} StripLeftSuffix(s: string)
    ensures StripLeft(s) == s[|s| - |StripLeft(s)|..]
    decreases |s|
  {
    if |s| > 0 && IsSpace(s[0]) {
      StripLeftSuffix(s[1..]);
    }
  }

  /** Stripping on the right removes a suffix. */
  lemma {:induction false} StripRightPrefix(s: string)
    ensures StripRight(s) == s[..|StripRight(s)|]
    decreases |s|
  {
    if |s| > 0 && IsSpace(s[|s| - 1]) {
      StripRightPrefix(s[..|s| - 1]);
    }
  }

  /** Stripping only removes characters. */
  lemma StripKeeps(s: string, c: char)
    requires NoChar(s, c)
    ensures NoChar(Strip(s), c)
  {
    var l := StripLeft(s);
    var r := StripRight(l);
    StripLeftSuffix(s);
    StripRightPrefix(l);
    forall i | 0 <= i < |r|
      ensures r[i] != c
    {
      assert r[i] == l[i] == s[|s| - |l| + i];
    }
  }

  /** Different numbers have different decimal texts. */
  lemma NatToStringInjective(a: nat, b: nat)
    requires a != b
    ensures NatToString(a) != NatToString(b)
  {
    NatToStringValue(a);
    NatToStringValue(b);
  }

  /** `int()` reads back what `str()` renders for a natural number. */
  lemma ParseNatToString(n: nat)
    ensures ParseInt(NatToString(n)) == Ok(n)
  {
    NatToStringValue(n);
    ParseDigitRun(NatToString(n));
  }

  /** `int()` reads a plain run of digits as its value. */
  lemma ParseDigitRun(s: string)
    requires |s| > 0 && AllDigits(s)
    ensures ParseInt(s) == Ok(DigitsValue(s))
  {
    StripDigits(s);
    assert IsDigit(s[0]);
    DigitRunValue(s);
  }

  /** What `int()` accepts and what it answers: after the surrounding
      whitespace and one optional sign, a non-empty run of digits, read
      positionally and negated after a '-'; anything else is ValueError
      quoting the whole text. */
  lemma ParseIntReads(s: string)
    ensures var t := Strip(s);
            var body := if |t| > 0 && (t[0] == '-' || t[0] == '+') then t[1..] else t;
            && (ParseInt(s).Ok? <==> |body| > 0 && AllDigits(body))
            && (ParseInt(s).Ok? ==>
                  ParseInt(s).value == if t[0] == '-' then -(DigitsValue(body) as int) else DigitsValue(body))
            && (ParseInt(s).Raise? ==> ParseInt(s).exc == ValueError("invalid literal for int() with base 10: '" + s + "'"))
  {
    var t := Strip(s);
    DigitRunValue(if |t| > 0 && (t[0] == '-' || t[0] == '+') then t[1..] else t);
  }

  /** `int()` reads back what `'%02d'` renders. */
  lemma ParsePad2(n: nat)
    ensures ParseInt(Pad2(n)) == Ok(n)
  {
    var s := Pad2(n);
    StripDigits(s);
    DigitRunValue(s);
    NatToStringValue(n);
    if n < 10 {
      LeadingZeroValue(NatToString(n));
    }
  }

  lemma ModUnique(n: int, m: int, a: int, c: int)
    requires m > 0 && n == m * a + c && 0 <= c < m
    ensures n / m == a && n % m == c
  {
    var k := a - n / m;
    assert m * k == n % m - c;
  }

  lemma ModStep(n: nat, p: nat)
    requires p >= 1
    ensures (n / 10 % p) * 10 + n % 10 == n % (10 * p)
  {
    var q, r := n / 10, n % 10;
    var a, b := q / p, q % p;
    assert n == (10 * p) * a + (10 * b + r);
    ModUnique(n, 10 * p, a, 10 * b + r);
  }

  /** The digits of a fixed-width field read back as the number modulo 10^w. */
  lemma {:induction false} DigitsValueOf(n: nat, w: nat)
    ensures DigitsValue(Digits(n, w)) == n % Pow10(w)
    decreases w
  {
    if w == 0 {
    } else {
      DigitsValueOf(n / 10, w - 1);
      DigitsValueAppend(Digits(n / 10, w - 1), DigitChar(n % 10));
      ModStep(n, Pow10(w - 1));
    }
  }

  lemma ShiftDigit(a: int, b: int, v: int, d: int)
    ensures (a * b + v) * 10 + d == a * (10 * b) + (v * 10 + d)
  {
  }

  /** The value of two digit runs written one after the other. */
  lemma {:induction false} DigitsValueConcat(p: string, s: string)
    requires AllDigits(p) && AllDigits(s)
    ensures AllDigits(p + s)
    ensures DigitsValue(p + s) == DigitsValue(p) * Pow10(|s|) + DigitsValue(s)
    decreases |s|
  {
    if |s| == 0 {
      assert p + s == p;
    } else {
      var s', c := s[..|s| - 1], s[|s| - 1];
      assert s == s' + [c];
      assert p + s == (p + s') + [c];
      DigitsValueConcat(p, s');
      DigitsValueAppend(p + s', c);
      DigitsValueAppend(s', c);
      ShiftDigit(DigitsValue(p), Pow10(|s'|), DigitsValue(s'), DigitValue(c));
    }
  }

  /** `int()` reads back a fixed-width field whose number fits the width. */
  lemma ParseDigits(n: nat, w: nat)
    requires w > 0 && n < Pow10(w)
    ensures ParseInt(Digits(n, w)) == Ok(n)
  {
    DigitsValueOf(n, w);
    ModUnique(n, Pow10(w), 0, n);
    ParseDigitRun(Digits(n, w));
  }

  /** Joining the pieces of a split with the separator restores the text. */
  lemma {:induction false} JoinSplit(s: string, sep: char)
    ensures Join(Split(s, sep), [sep]) == s
    decreases |s|
  {
    if |s| > 0 {
      JoinSplit(s[1..], sep);
      assert s == [s[0]] + s[1..];
      if s[0] == sep {
        JoinCons("", Split(s[1..], sep), [sep]);
      } else {
        JoinPrepend(s[0], Split(s[1..], sep), [sep]);
      }
    }
  }

  lemma JoinCons(a: string, rest: seq<string>, sep: string)
    requires |rest| > 0
    ensures Join([a] + rest, sep) == a + sep + Join(rest, sep)
  {
    assert ([a] + rest)[1..] == rest;
  }

  /** Extending the first piece extends the join. */
  lemma JoinPrepend(c: char, rest: seq<string>, sep: string)
    requires |rest| > 0
    ensures Join([[c] + rest[0]] + rest[1..], sep) == [c] + Join(rest, sep)
  {
    if |rest| > 1 {
      JoinCons([c] + rest[0], rest[1..], sep);
      JoinCons(rest[0], rest[1..], sep);
      assert rest == [rest[0]] + rest[1..];
    }
  }

  /** No piece of a split contains the separator. */
  lemma {:induction false} SplitPiecesFree(s: string, sep: char)
    ensures forall i :: 0 <= i < |Split(s, sep)| ==> NoChar(Split(s, sep)[i], sep)
    decreases |s|
  {
    if |s| > 0 {
      SplitPiecesFree(s[1..], sep);
    }
  }

  /** Splitting a join of separator-free pieces gives the pieces back. */
  lemma {:induction false} SplitJoin(parts: seq<string>, sep: char)
    requires |parts| > 0
    requires forall i :: 0 <= i < |parts| ==> NoChar(parts[i], sep)
    ensures Split(Join(parts, [sep]), sep) == parts
    decreases |parts|, |parts[0]|
  {
    var p := parts[0];
    if |p| == 0 {
      if |parts| == 1 {
      } else {
        SplitJoin(parts[1..], sep);
        var j := Join(parts, [sep]);
        assert j == [sep] + Join(parts[1..], [sep]);
        assert j[1..] == Join(parts[1..], [sep]);
        assert parts == [""] + parts[1..];
      }
    } else {
      var tail := [p[1..]] + parts[1..];
      assert forall i :: 0 <= i < |tail| ==> NoChar(tail[i], sep) by {
        forall i | 0 <= i < |tail|
          ensures NoChar(tail[i], sep)
        {
          if i > 0 {
            assert tail[i] == parts[i];
          }
        }
      }
      SplitJoin(tail, sep);
      SplitJoinHead(parts, tail, sep);
    }
  }

  /** The step of SplitJoin that moves the first character of the first piece. */
  lemma SplitJoinHead(parts: seq<string>, tail: seq<string>, sep: char)
    requires |parts| > 0 && |parts[0]| > 0 && parts[0][0] != sep
    requires tail == [parts[0][1..]] + parts[1..]
    requires Split(Join(tail, [sep]), sep) == tail
    ensures Split(Join(parts, [sep]), sep) == parts
  {
    var p := parts[0];
    var j := Join(parts, [sep]);
    var jt := Join(tail, [sep]);
    if |parts| == 1 {
      assert j == p;
      assert jt == p[1..];
    } else {
      assert j == p + [sep] + Join(parts[1..], [sep]);
      assert jt == p[1..] + [sep] + Join(parts[1..], [sep]);
    }
    assert j == [p[0]] + jt;
    SplitCons(p[0], jt, sep);
    assert [p[0]] + p[1..] == p;
    assert tail[1..] == parts[1..];
    assert parts == [p] + parts[1..];
  }

  /** A separator between two texts splits them apart: the pieces of the
      whole are the pieces of each side. */
  lemma {:induction false} SplitAround(a: string, b: string, sep: char)
    ensures Split(a + [sep] + b, sep) == Split(a, sep) + Split(b, sep)
    decreases |a|
  {
    if |a| == 0 {
      SplitCons(sep, b, sep);
      assert a + [sep] + b == [sep] + b;
    } else {
      SplitAround(a[1..], b, sep);
      SplitAroundStep(a, b, sep);
    }
  }

  /** The inductive step of SplitAround: one more leading character. */
  lemma SplitAroundStep(a: string, b: string, sep: char)
    requires |a| > 0
    requires Split(a[1..] + [sep] + b, sep) == Split(a[1..], sep) + Split(b, sep)
    ensures Split(a + [sep] + b, sep) == Split(a, sep) + Split(b, sep)
  {
    var c, t := a[0], a[1..] + [sep] + b;
    assert a + [sep] + b == [c] + t;
    assert a == [c] + a[1..];
    SplitConsConcat(c, a[1..], Split(b, sep), t, sep);
  }

  /** A leading character splits the same way whatever pieces follow. */
  lemma SplitConsConcat(c: char, u: string, rb: seq<string>, t: string, sep: char)
    requires Split(t, sep) == Split(u, sep) + rb
    ensures Split([c] + t, sep) == Split([c] + u, sep) + rb
  {
    if c == sep {
      SplitConsSep(c, u, rb, t, sep);
    } else {
      SplitConsPiece(c, u, rb, t, sep);
    }
  }

  /** The case of SplitConsConcat where the new character is the separator. */
  lemma SplitConsSep(c: char, u: string, rb: seq<string>, t: string, sep: char)
    requires c == sep
    requires Split(t, sep) == Split(u, sep) + rb
    ensures Split([c] + t, sep) == Split([c] + u, sep) + rb
  {
    calc {
      Split([c] + t, sep);
      { SplitCons(c, t, sep); }
      [""] + Split(t, sep);
      [""] + (Split(u, sep) + rb);
      ([""] + Split(u, sep)) + rb;
      { SplitCons(c, u, sep); }
      Split([c] + u, sep) + rb;
    }
  }

  /** The case of SplitConsConcat where the new character joins the first piece. */
  lemma SplitConsPiece(c: char, u: string, rb: seq<string>, t: string, sep: char)
    requires c != sep
    requires Split(t, sep) == Split(u, sep) + rb
    ensures Split([c] + t, sep) == Split([c] + u, sep) + rb
  {
    var ra := Split(u, sep);
    calc {
      Split([c] + t, sep);
      { SplitCons(c, t, sep); }
      [[c] + Split(t, sep)[0]] + Split(t, sep)[1..];
      [[c] + (ra + rb)[0]] + (ra + rb)[1..];
      { PrefixFirstPiece([c], ra, rb); }
      ([[c] + ra[0]] + ra[1..]) + rb;
      { SplitCons(c, u, sep); }
      Split([c] + u, sep) + rb;
    }
  }

  /** Extending the first piece commutes with appending further pieces. */
  lemma PrefixFirstPiece(x: string, ra: seq<string>, rb: seq<string>)
    requires |ra| > 0
    ensures [x + (ra + rb)[0]] + (ra + rb)[1..] == ([x + ra[0]] + ra[1..]) + rb
  {
    assert (ra + rb)[0] == ra[0] && (ra + rb)[1..] == ra[1..] + rb;
  }

  /** Split of a text given its first character. */
  lemma SplitCons(c: char, t: string, sep: char)
    ensures Split([c] + t, sep) ==
            if c == sep then [""] + Split(t, sep) else [[c] + Split(t, sep)[0]] + Split(t, sep)[1..]
  {
    assert ([c] + t)[0] == c && ([c] + t)[1..] == t;
  }

  lemma {:induction false} SplitFree(a: string, sep: char)
    requires NoChar(a, sep)
    ensures Split(a, sep) == [a]
    decreases |a|
  {
    if |a| > 0 {
      SplitFree(a[1..], sep);
      assert [a[0]] + a[1..] == a;
    }
  }

  /** Joining pieces free of a character with a separator free of it gives
      text free of it. */
  lemma {:induction false} JoinFree(parts: seq<string>, sep: string, c: char)
    requires forall i :: 0 <= i < |parts| ==> NoChar(parts[i], c)
    requires NoChar(sep, c)
    ensures NoChar(Join(parts, sep), c)
    decreases |parts|
  {
    if |parts| > 1 {
      JoinFree(parts[1..], sep, c);
    }
  }
  /** The first piece of a split is the text up to the first separator:
      a prefix free of it, followed by the separator when shorter. */
  lemma {:induction false} SplitFirstPiece(s: string, sep: char)
    ensures var t := Split(s, sep)[0];
            |t| <= |s| && s[..|t|] == t && NoChar(t, sep) && (|t| < |s| ==> s[|t|] == sep)
    decreases |s|
  {
    if |s| > 0 && s[0] != sep {
      SplitFirstPiece(s[1..], sep);
    }
  }
}
