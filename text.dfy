/** Python string operations used by the site, over Dafny strings.

    Only what the code relies on is modelled: `split` on a one-character
    separator, `strip()` / `strip(chars)`, `', '.join`, `replace` of a single
    character, `str(n)` of an integer, Python 2 `int()` on a decimal string,
    and ASCII `lower()`.
 */
module Text {

  datatype Option<T> = None | Some(value: T)

  /** The ASCII whitespace characters that `strip()` removes: space, \t,
      \n, \v, \f and \r. */
  const Whitespace: set<char> := {' ', 9 as char, 10 as char, 11 as char, 12 as char, 13 as char}

  /** Python's `str.isspace()` on the ASCII range. */
  predicate IsSpace(c: char) {
    c in Whitespace
  }

  predicate IsDigit(c: char) {
    '0' <= c <= '9'
  }

  /** Number of occurrences of `c` in `s`. */
  function Count(s: string, c: char): (n: nat)
    ensures n <= |s|
    ensures n == 0 <==> c !in s
  {
    if s == [] then 0 else (if s[0] == c then 1 else 0) + Count(s[1..], c)
  }

  lemma CountConcat(a: string, b: string, c: char)
    ensures Count(a + b, c) == Count(a, c) + Count(b, c)
  {
    if a == [] {
      assert a + b == b;
    } else {
      assert (a + b)[0] == a[0] && (a + b)[1..] == a[1..] + b;
      CountConcat(a[1..], b, c);
    }
  }

  // ---------------------------------------------------------------------
  // s.split(sep) and sep.join(pieces)
  // ---------------------------------------------------------------------

  /** `s.split(sep)` for a one-character separator: the empty string gives
      one empty piece, and adjacent separators give empty pieces. */
  function Split(s: string, sep: char): (r: seq<string>)
    ensures |r| >= 1
  {
    if s == [] then [""]
    else
      var rest := Split(s[1..], sep);
      if s[0] == sep then [""] + rest else [[s[0]] + rest[0]] + rest[1..]
  }

  /** `sep.join(pieces)`. */
  function Join(pieces: seq<string>, sep: string): string {
    if |pieces| == 0 then ""
    else if |pieces| == 1 then pieces[0]
    else pieces[0] + sep + Join(pieces[1..], sep)
  }

  /** No piece of a split contains the separator, and there is one piece more
      than there are separators. */
  lemma {:induction false} SplitPieces(s: string, sep: char)
    ensures |Split(s, sep)| == Count(s, sep) + 1
    ensures forall i :: 0 <= i < |Split(s, sep)| ==> sep !in Split(s, sep)[i]
  {
    if s != [] {
      SplitPieces(s[1..], sep);
      var rest := Split(s[1..], sep);
      if s[0] != sep {
        assert sep !in rest[0];
        assert forall i :: 1 <= i < |rest| ==> sep !in rest[i];
      }
    }
  }

  /** Joining the pieces of a split with the separator gives back the string. */
  lemma {:induction false} JoinSplit(s: string, sep: char)
    ensures Join(Split(s, sep), [sep]) == s
  {
    if s != [] {
      JoinSplit(s[1..], sep);
      if s[0] == sep {
        JoinSplitAtSep(s, sep);
      } else {
        JoinSplitAtChar(s, sep);
      }
    }
  }

  lemma JoinSplitAtSep(s: string, sep: char)
    requires s != [] && s[0] == sep
    requires Join(Split(s[1..], sep), [sep]) == s[1..]
    ensures Join(Split(s, sep), [sep]) == s
  {
    var rest := Split(s[1..], sep);
    assert Split(s, sep) == [""] + rest;
    JoinCons("", rest, [sep]);
    assert "" + [sep] + s[1..] == s;
  }

  /** Joining one more piece in front. */
  lemma JoinCons(x: string, rest: seq<string>, sep: string)
    requires |rest| >= 1
    ensures Join([x] + rest, sep) == x + sep + Join(rest, sep)
  {
    assert ([x] + rest)[1..] == rest;
  }

  lemma JoinSplitAtChar(s: string, sep: char)
    requires s != [] && s[0] != sep
    requires Join(Split(s[1..], sep), [sep]) == s[1..]
    ensures Join(Split(s, sep), [sep]) == s
  {
    var rest := Split(s[1..], sep);
    assert Split(s, sep) == [[s[0]] + rest[0]] + rest[1..];
    JoinExtendFirst([s[0]], rest, [sep]);
    assert s == [s[0]] + s[1..];
  }

  /** Putting `c` in front of the first piece puts it in front of the join. */
  lemma JoinExtendFirst(c: string, r: seq<string>, sep: string)
    requires |r| >= 1
    ensures Join([c + r[0]] + r[1..], sep) == c + Join(r, sep)
  {
    var t := [c + r[0]] + r[1..];
    assert t[0] == c + r[0] && t[1..] == r[1..];
    if |r| > 1 {
      assert Join(t, sep) == (c + r[0]) + sep + Join(r[1..], sep);
      assert Join(r, sep) == r[0] + sep + Join(r[1..], sep);
      assert (c + r[0]) + sep + Join(r[1..], sep) == c + (r[0] + sep + Join(r[1..], sep));
    }
  }

  /** Splitting a join gives back the pieces when none holds the separator. */
  lemma {:induction false} SplitJoin(pieces: seq<string>, sep: char)
    requires |pieces| >= 1
    requires forall i :: 0 <= i < |pieces| ==> sep !in pieces[i]
    ensures Split(Join(pieces, [sep]), sep) == pieces
  {
    if |pieces| == 1 {
      SplitNoSep(pieces[0], sep);
    } else {
      SplitJoin(pieces[1..], sep);
      SplitAppend(pieces[0], Join(pieces[1..], [sep]), sep);
      assert pieces == [pieces[0]] + pieces[1..];
    }
  }

  lemma {:induction false} SplitNoSep(s: string, sep: char)
    requires sep !in s
    ensures Split(s, sep) == [s]
  {
    if s != [] {
      SplitNoSep(s[1..], sep);
      assert s == [s[0]] + s[1..];
    }
  }

  /** Splitting `a + sep + b` where `a` holds no separator. */
  lemma {:induction false} SplitAppend(a: string, b: string, sep: char)
    requires sep !in a
    ensures Split(a + [sep] + b, sep) == [a] + Split(b, sep)
  {
    if a == [] {
      assert [sep] + b == a + [sep] + b;
      assert ([sep] + b)[1..] == b;
    } else {
      SplitAppend(a[1..], b, sep);
      assert (a + [sep] + b)[1..] == a[1..] + [sep] + b;
      assert [a[0]] + a[1..] == a;
    }
  }

  // ---------------------------------------------------------------------
  // s.strip() and s.strip(chars)
  // ---------------------------------------------------------------------

  function StripLeft(s: string, chars: set<char>): (r: string)
    ensures |r| <= |s| && r == s[|s| - |r|..]
    ensures r == [] || r[0] !in chars
    ensures forall i :: 0 <= i < |s| - |r| ==> s[i] in chars
  {
    if s != [] && s[0] in chars then StripLeft(s[1..], chars) else s
  }

  function StripRight(s: string, chars: set<char>): (r: string)
    ensures |r| <= |s| && r == s[..|r|]
    ensures r == [] || r[|r| - 1] !in chars
    ensures forall i :: |r| <= i < |s| ==> s[i] in chars
  {
    if s != [] && s[|s| - 1] in chars then StripRight(s[..|s| - 1], chars) else s
  }

  /** `s.strip(chars)`: drop leading and trailing characters of `chars`. */
  function StripChars(s: string, chars: set<char>): (r: string)
    ensures r == [] || (r[0] !in chars && r[|r| - 1] !in chars)
  {
    StripRight(StripLeft(s, chars), chars)
  }

  /** `s.strip()`. */
  function Strip(s: string): string {
    StripChars(s, Whitespace)
  }

  /** Stripping a string whose ends are not whitespace changes nothing. */
  lemma {:induction false} StripTrimmed(s: string)
    requires s == [] || (!IsSpace(s[0]) && !IsSpace(s[|s| - 1]))
    ensures Strip(s) == s
  {
  }

  /** Leading and trailing whitespace is what `strip()` removes. */
  lemma {:induction false} StripPadded(pre: string, s: string, post: string)
    requires forall i :: 0 <= i < |pre| ==> IsSpace(pre[i])
    requires forall i :: 0 <= i < |post| ==> IsSpace(post[i])
    requires s == [] || (!IsSpace(s[0]) && !IsSpace(s[|s| - 1]))
    requires s != [] || post == []
    ensures Strip(pre + s + post) == s
  {
    assert pre + s + post == pre + (s + post);
    StripLeftPrefix(pre, s + post, Whitespace);
    assert StripLeft(pre + s + post, Whitespace) == s + post;
    StripRightSuffix(s, post, Whitespace);
  }

  lemma {:induction false} StripLeftPrefix(pre: string, s: string, chars: set<char>)
    requires forall i :: 0 <= i < |pre| ==> pre[i] in chars
    requires s == [] || s[0] !in chars
    ensures StripLeft(pre + s, chars) == s
  {
    if pre == [] {
      assert pre + s == s;
    } else {
      assert (pre + s)[1..] == pre[1..] + s;
      StripLeftPrefix(pre[1..], s, chars);
    }
  }

  lemma {:induction false} StripRightSuffix(s: string, post: string, chars: set<char>)
    requires forall i :: 0 <= i < |post| ==> post[i] in chars
    requires s == [] || s[|s| - 1] !in chars
    requires s != [] || post == []
    ensures StripRight(s + post, chars) == s
  {
    if post == [] {
      assert s + post == s;
    } else {
      assert (s + post)[..|s + post| - 1] == s + post[..|post| - 1];
      StripRightSuffix(s, post[..|post| - 1], chars);
    }
  }

  // ---------------------------------------------------------------------
  // s.replace(c, w) for a single character c
  // ---------------------------------------------------------------------

  /** `s.replace(c, w)`: every occurrence of `c`, left to right. */
  function ReplaceChar(s: string, c: char, w: string): string {
    if s == [] then [] else (if s[0] == c then w else [s[0]]) + ReplaceChar(s[1..], c, w)
  }

  /** Replacement distributes over concatenation, so the characters it does
      not replace keep their order. */
  lemma {:induction false} ReplaceCharConcat(a: string, b: string, c: char, w: string)
    ensures ReplaceChar(a + b, c, w) == ReplaceChar(a, c, w) + ReplaceChar(b, c, w)
  {
    if a == [] {
      assert a + b == b;
    } else {
      assert (a + b)[0] == a[0] && (a + b)[1..] == a[1..] + b;
      ReplaceCharConcat(a[1..], b, c, w);
    }
  }

  /** A character other than `c` is absent from the result exactly when it
      is absent from both the input and the replacement. */
  lemma {:induction false} ReplaceCharMembers(s: string, c: char, w: string, d: char)
    ensures c !in w ==> c !in ReplaceChar(s, c, w)
    ensures d != c && d !in w ==> (d in ReplaceChar(s, c, w) <==> d in s)
    ensures d != c && c in s && d in w ==> d in ReplaceChar(s, c, w)
  {
    if s != [] {
      ReplaceCharMembers(s[1..], c, w, d);
      assert s == [s[0]] + s[1..];
    }
  }

  lemma {:induction false} ReplaceCharAbsent(s: string, c: char, w: string)
    requires c !in s
    ensures ReplaceChar(s, c, w) == s
  {
    if s != [] {
      ReplaceCharAbsent(s[1..], c, w);
      assert s == [s[0]] + s[1..];
    }
  }

  lemma {:induction false} ReplaceCharLength(s: string, c: char, w: string)
    ensures |ReplaceChar(s, c, w)| == |s| + (|w| - 1) * Count(s, c)
  {
    if s != [] {
      ReplaceCharLength(s[1..], c, w);
      var k := Count(s[1..], c);
      var m := |w| - 1;
      var l := |ReplaceChar(s[1..], c, w)|;
      assert l == |s| - 1 + m * k;
      if s[0] == c {
        assert Count(s, c) == k + 1;
        assert |ReplaceChar(s, c, w)| == |w| + l;
        MulSucc(m, k);
      } else {
        assert Count(s, c) == k;
        assert |ReplaceChar(s, c, w)| == 1 + l;
      }
    }
  }

  lemma MulSucc(m: int, k: int)
    ensures m * (k + 1) == m * k + m
  {
  }

  /** Replacing `c` by a text without `d` keeps the number of `d`s. */
  lemma {:induction false} ReplaceCharCount(s: string, c: char, w: string, d: char)
    requires d != c && d !in w
    ensures Count(ReplaceChar(s, c, w), d) == Count(s, d)
  {
    if s != [] {
      ReplaceCharCount(s[1..], c, w, d);
      var head := if s[0] == c then w else [s[0]];
      CountConcat(head, ReplaceChar(s[1..], c, w), d);
      assert Count(head, d) == (if s[0] == d then 1 else 0);
    }
  }

  /** Two replacements commute when neither replacement text holds the
      other's character. */
  lemma {:induction false} ReplaceCharCommute(s: string, c1: char, w1: string, c2: char, w2: string)
    requires c1 != c2 && c1 !in w2 && c2 !in w1
    ensures ReplaceChar(ReplaceChar(s, c1, w1), c2, w2) == ReplaceChar(ReplaceChar(s, c2, w2), c1, w1)
  {
    if s != [] {
      var head1 := if s[0] == c1 then w1 else [s[0]];
      var head2 := if s[0] == c2 then w2 else [s[0]];
      ReplaceCharConcat(head1, ReplaceChar(s[1..], c1, w1), c2, w2);
      ReplaceCharConcat(head2, ReplaceChar(s[1..], c2, w2), c1, w1);
      ReplaceCharCommute(s[1..], c1, w1, c2, w2);
      if s[0] == c1 {
        ReplaceCharAbsent(w1, c2, w2);
        assert ReplaceChar([s[0]], c1, w1) == w1;
      } else if s[0] == c2 {
        ReplaceCharAbsent(w2, c1, w1);
        assert ReplaceChar([s[0]], c2, w2) == w2;
      } else {
        assert ReplaceChar([s[0]], c1, w1) == [s[0]];
        assert ReplaceChar([s[0]], c2, w2) == [s[0]];
      }
    }
  }

  // ---------------------------------------------------------------------
  // str(n) and int(s)
  // ---------------------------------------------------------------------

  function DigitChar(d: nat): (c: char)
    requires d < 10
    ensures IsDigit(c)
  {
    ('0' as int + d) as char
  }

  function DigitValue(c: char): (d: nat)
    requires IsDigit(c)
    ensures d < 10 && DigitChar(d) == c
  {
    c as int - '0' as int
  }

  /** `str(n)` for a natural number: decimal, no leading zeros. */
  function NatToString(n: nat): (s: string)
    ensures |s| >= 1
    ensures forall i :: 0 <= i < |s| ==> IsDigit(s[i])
  {
    if n < 10 then [DigitChar(n)] else NatToString(n / 10) + [DigitChar(n % 10)]
  }

  /** `str(i)` for an integer: a minus sign for negative values. */
  function IntToString(i: int): string {
    if i < 0 then "-" + NatToString(-i) else NatToString(i)
  }

  /** The value of a string of decimal digits. */
  function DigitsValue(s: string): nat
    requires forall i :: 0 <= i < |s| ==> IsDigit(s[i])
  {
    if s == [] then 0 else DigitsValue(s[..|s| - 1]) * 10 + DigitValue(s[|s| - 1])
  }

  predicate AllDigits(s: string) {
    forall i :: 0 <= i < |s| ==> IsDigit(s[i])
  }

  /** Python 2 `int(s)`: surrounding whitespace, an optional sign, then one or
      more decimal digits; anything else is a ValueError (None). */
  function ParseInt(s: string): (r: Option<int>)
  {
    var t := Strip(s);
    if t == [] then None
    else if t[0] == '-' || t[0] == '+' then
      var digits := t[1..];
      if digits != [] && AllDigits(digits) then
        var v: int := DigitsValue(digits);
        Some(if t[0] == '-' then -v else v)
      else None
    else if AllDigits(t) then Some(DigitsValue(t))
    else None
  }

  lemma {:induction false} NatToStringValue(n: nat)
    ensures DigitsValue(NatToString(n)) == n
  {
    var s := NatToString(n);
    if n >= 10 {
      NatToStringValue(n / 10);
      assert s[..|s| - 1] == NatToString(n / 10);
    }
  }

  /** `int(str(i)) == i` for every integer. */
  lemma ParseIntToString(i: int)
    ensures ParseInt(IntToString(i)) == Some(i)
  {
    var n: nat := if i < 0 then -i else i;
    NatToStringValue(n);
    if i < 0 {
      ParseNegativeDigits(NatToString(n));
    } else {
      ParseDigits(NatToString(n));
    }
  }

  /** A string of digits reads as its value. */
  lemma ParseDigits(d: string)
    requires d != [] && AllDigits(d)
    ensures ParseInt(d) == Some(DigitsValue(d))
  {
    assert !IsSpace(d[0]) && !IsSpace(d[|d| - 1]);
    StripTrimmed(d);
  }

  /** A minus sign and a string of digits read as minus its value. */
  lemma ParseNegativeDigits(d: string)
    requires d != [] && AllDigits(d)
    ensures ParseInt("-" + d) == Some(-(DigitsValue(d) as int))
  {
    var s := "-" + d;
    assert s[0] == '-' && s[1..] == d;
    assert s[|s| - 1] == d[|d| - 1];
    StripTrimmed(s);
  }

  /** `int(str(n)) == n` for a natural number. */
  lemma ParseNatToString(n: nat)
    ensures ParseInt(NatToString(n)) == Some(n)
  {
    ParseIntToString(n);
  }

  /** Distinct numbers have distinct decimal strings. */
  lemma IntToStringInjective(i: int, j: int)
    requires IntToString(i) == IntToString(j)
    ensures i == j
  {
    ParseIntToString(i);
    ParseIntToString(j);
  }

  // ---------------------------------------------------------------------
  // s.lower()
  // ---------------------------------------------------------------------

  function LowerChar(c: char): char {
    if 'A' <= c <= 'Z' then (c as int + 32) as char else c
  }

  /** `s.lower()` on the ASCII letters. */
  function ToLower(s: string): (r: string)
    ensures |r| == |s|
    ensures forall i :: 0 <= i < |s| ==> r[i] == LowerChar(s[i])
  {
    if s == [] then [] else [LowerChar(s[0])] + ToLower(s[1..])
  }

  /** Lower-casing twice is lower-casing once, and the result has no ASCII
      capital left. */
  lemma ToLowerIdempotent(s: string)
    ensures ToLower(ToLower(s)) == ToLower(s)
    ensures forall i :: 0 <= i < |s| ==> !('A' <= ToLower(s)[i] <= 'Z')
  {
    var t := ToLower(s);
    var u := ToLower(t);
    forall i | 0 <= i < |t| ensures u[i] == t[i] {
      assert t[i] == LowerChar(s[i]);
    }
    assert u == t;
  }

  // ---------------------------------------------------------------------
  // a < b on strings
  // ---------------------------------------------------------------------

  /** Python's `a < b` on strings: the first differing character decides,
      and a proper prefix comes first. */
  predicate StrLess(a: string, b: string) {
    if a == [] then b != []
    else if b == [] then false
    else if a[0] != b[0] then a[0] < b[0]
    else StrLess(a[1..], b[1..])
  }

  /** The order is strict and total: exactly one of `a < b`, `a == b` and
      `b < a` holds. */
  lemma {:induction false} StrLessTotal(a: string, b: string)
    ensures a == b || StrLess(a, b) || StrLess(b, a)
    ensures !(StrLess(a, b) && StrLess(b, a))
    ensures !StrLess(a, a)
  {
    if a != [] && b != [] {
      StrLessTotal(a[1..], b[1..]);
      if a[0] == b[0] && a[1..] == b[1..] {
        assert a == [a[0]] + a[1..] && b == [b[0]] + b[1..];
      }
      StrLessTotal(a[1..], a[1..]);
    } else if a != [] {
      StrLessTotal(a[1..], a[1..]);
    }
  }

  lemma {:induction false} StrLessTransitive(a: string, b: string, c: string)
    requires StrLess(a, b) && StrLess(b, c)
    ensures StrLess(a, c)
  {
    if a != [] && a[0] == b[0] && b[0] == c[0] {
      StrLessTransitive(a[1..], b[1..], c[1..]);
    }
  }
}
