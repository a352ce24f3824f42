/**
 * String helpers shared by the services and the code generator: ASCII case
 * tests and mappings (`Character.isLowerCase` and friends restricted to
 * ASCII), splitting on and joining with one separator character, Java's
 * `String.split` rule for trailing empty pieces, and decimal rendering of
 * naturals (Kotlin's `"$n"`).
 */
module Text {

  // ---------------------------------------------------------------------
  // ASCII case

  predicate IsLower(c: char) {
    'a' <= c <= 'z'
  }

  predicate IsUpper(c: char) {
    'A' <= c <= 'Z'
  }

  /** `Character.toUpperCase` on ASCII: lower-case letters map to upper case, all else is kept. */
  function ToUpper(c: char): (u: char)
    ensures !IsLower(u)
    ensures IsLower(c) ==> IsUpper(u) && u as int == c as int - 32
    ensures !IsLower(c) ==> u == c
  {
    if IsLower(c) then (c as int - 32) as char else c
  }

  /** `Character.toLowerCase` on ASCII: upper-case letters map to lower case, all else is kept. */
  function ToLower(c: char): (l: char)
    ensures !IsUpper(l)
    ensures IsUpper(c) ==> IsLower(l) && l as int == c as int + 32
    ensures !IsUpper(c) ==> l == c
  {
    if IsUpper(c) then (c as int + 32) as char else c
  }

  /** Upper-casing undoes lower-casing exactly on the characters that are not lower-case letters. */
  lemma ToUpperToLower(c: char)
    ensures ToUpper(ToLower(c)) == c <==> !IsLower(c)
  {
  }

  /** Every character upper-cased. */
  function Upper(s: string): (u: string)
    ensures |u| == |s| && forall i :: 0 <= i < |s| ==> u[i] == ToUpper(s[i])
  {
    seq(|s|, i requires 0 <= i < |s| => ToUpper(s[i]))
  }

  // ---------------------------------------------------------------------
  // Splitting and joining on one separator character

  /** Position of the first occurrence of `c`. */
  function IndexOf(s: string, c: char): (i: nat)
    requires c in s
    ensures i < |s| && s[i] == c && c !in s[..i]
  {
    if s[0] == c then 0 else 1 + IndexOf(s[1..], c)
  }

  /** The pieces of `s` between occurrences of `sep`, empty pieces included. */
  function SplitOn(s: string, sep: char): (pieces: seq<string>)
    ensures |pieces| >= 1
    ensures forall i :: 0 <= i < |pieces| ==> sep !in pieces[i]
    decreases |s|
  {
    if sep !in s then [s]
    else
      var i := IndexOf(s, sep);
      [s[..i]] + SplitOn(s[i + 1..], sep)
  }

  /** The pieces with `sep` between consecutive ones. */
  function JoinOn(pieces: seq<string>, sep: char): string {
    if pieces == [] then ""
    else if |pieces| == 1 then pieces[0]
    else pieces[0] + [sep] + JoinOn(pieces[1..], sep)
  }

  /** Splitting on the separator of a piece free of it peels off exactly that piece. */
  lemma SplitOnFirst(x: string, sep: char, y: string)
    requires sep !in x
    ensures SplitOn(x + [sep] + y, sep) == [x] + SplitOn(y, sep)
  {
    var s := x + [sep] + y;
    assert s[|x|] == sep;
    assert s[..|x|] == x;
    assert IndexOf(s, sep) == |x|;
    assert s[|x| + 1..] == y;
  }

  /** Joining the pieces gives back the string. */
  lemma {:induction false} JoinSplit(s: string, sep: char)
    ensures JoinOn(SplitOn(s, sep), sep) == s
    decreases |s|
  {
    if sep in s {
      var i := IndexOf(s, sep);
      var head, tail := s[..i], s[i + 1..];
      JoinSplit(tail, sep);
      JoinOnCons(head, SplitOn(tail, sep), sep);
      SplitAround(s, i);
      calc {
        JoinOn(SplitOn(s, sep), sep);
        JoinOn([head] + SplitOn(tail, sep), sep);
        head + [sep] + JoinOn(SplitOn(tail, sep), sep);
        head + [sep] + tail;
      }
    }
  }

  /** A sequence is its part before position i, the element at i, and its part after i. */
  lemma SplitAround<T>(s: seq<T>, i: nat)
    requires i < |s|
    ensures s == s[..i] + [s[i]] + s[i + 1..]
  {
  }

  /** Joining a first piece in front of at least one more puts one separator between them. */
  lemma JoinOnCons(head: string, rest: seq<string>, sep: char)
    requires rest != []
    ensures JoinOn([head] + rest, sep) == head + [sep] + JoinOn(rest, sep)
  {
    assert ([head] + rest)[1..] == rest;
  }

  /** A slice inside the left operand of a concatenation is a slice of that operand. */
  lemma SliceLeft<T>(a: seq<T>, b: seq<T>, lo: nat, hi: nat)
    requires lo <= hi <= |a|
    ensures (a + b)[lo..hi] == a[lo..hi]
  {
  }

  /** The right operand of a concatenation sits right after the left one. */
  lemma SliceRight<T>(a: seq<T>, b: seq<T>)
    ensures (a + b)[|a|..|a| + |b|] == b
  {
  }

  /** The last element of a concatenation with a non-empty right operand is that operand's last. */
  lemma LastOfConcat<T>(a: seq<T>, b: seq<T>)
    requires b != []
    ensures (a + b)[|a + b| - 1] == b[|b| - 1]
  {
  }

  /** The tail of a concatenation from the left operand's last element on. */
  lemma LastThenRest<T>(a: seq<T>, b: seq<T>)
    requires a != []
    ensures (a + b)[|a + b| - |b| - 1..] == [a[|a| - 1]] + b
  {
    assert (a + b)[|a| - 1..] == a[|a| - 1..] + b;
  }

  /** The last `m` elements of a sequence that ends in `f` are the last `m` of `f`. */
  lemma SuffixOfSuffix<T>(x: seq<T>, f: seq<T>, m: nat)
    requires |f| <= |x| && x[|x| - |f|..] == f && m <= |f|
    ensures x[|x| - m..] == f[|f| - m..]
  {
    assert x[|x| - m..] == x[|x| - |f|..][|f| - m..];
  }

  /** Splitting joined pieces that do not contain the separator gives back the pieces. */
  lemma {:induction false} SplitJoin(pieces: seq<string>, sep: char)
    requires pieces != []
    requires forall i :: 0 <= i < |pieces| ==> sep !in pieces[i]
    ensures SplitOn(JoinOn(pieces, sep), sep) == pieces
  {
    if |pieces| > 1 {
      SplitJoin(pieces[1..], sep);
      SplitOnFirst(pieces[0], sep, JoinOn(pieces[1..], sep));
    }
  }

  // ---------------------------------------------------------------------
  // Java's String.split on a one-character pattern

  /** The pieces without the empty ones at the end. */
  function DropTrailingEmpty(pieces: seq<string>): (r: seq<string>)
    ensures r <= pieces
    ensures r != [] ==> r[|r| - 1] != ""
    ensures forall i :: |r| <= i < |pieces| ==> pieces[i] == ""
  {
    if pieces == [] then []
    else if pieces[|pieces| - 1] == "" then DropTrailingEmpty(pieces[..|pieces| - 1])
    else pieces
  }

  /**
   * `s.split(sep)`: when the separator does not occur the result is `[s]`
   * (so `""` gives `[""]`); otherwise the pieces between separators with
   * the trailing empty pieces removed (so `"\n"` gives `[]`).
   */
  function JavaSplit(s: string, sep: char): (lines: seq<string>)
    ensures forall i :: 0 <= i < |lines| ==> sep !in lines[i]
    ensures sep !in s ==> lines == [s]
    ensures sep in s && lines != [] ==> lines[|lines| - 1] != ""
  {
    if sep !in s then [s] else DropTrailingEmpty(SplitOn(s, sep))
  }

  /** `k` copies of `c`. */
  function Repeat(c: char, k: nat): (r: string)
    ensures |r| == k && forall i :: 0 <= i < k ==> r[i] == c
  {
    seq(k, _ => c)
  }

  /** Joining with one more empty piece at the end adds one separator. */
  lemma JoinOnEmptyLast(pieces: seq<string>, sep: char)
    requires pieces != []
    ensures JoinOn(pieces + [""], sep) == JoinOn(pieces, sep) + [sep]
  {
    if |pieces| > 1 {
      JoinOnEmptyLast(pieces[1..], sep);
      assert (pieces + [""])[1..] == pieces[1..] + [""];
    }
  }

  /** What `DropTrailingEmpty` removes joins back as separators only. */
  lemma {:induction false} DropTrailingEmptyJoin(pieces: seq<string>, sep: char)
    requires pieces != []
    ensures var r := DropTrailingEmpty(pieces);
      r != [] ==> JoinOn(pieces, sep) == JoinOn(r, sep) + Repeat(sep, |pieces| - |r|)
    ensures var r := DropTrailingEmpty(pieces);
      r == [] ==> JoinOn(pieces, sep) == Repeat(sep, |pieces| - 1)
  {
    var last := |pieces| - 1;
    if pieces[last] == "" {
      if last == 0 {
        assert pieces == [""];
      } else {
        var front := pieces[..last];
        DropTrailingEmptyJoin(front, sep);
        assert pieces == front + [""];
        JoinOnEmptyLast(front, sep);
        var r := DropTrailingEmpty(front);
        if r != [] {
          assert Repeat(sep, |front| - |r|) + [sep] == Repeat(sep, |pieces| - |r|);
        } else {
          assert Repeat(sep, |front| - 1) + [sep] == Repeat(sep, |pieces| - 1);
        }
      }
    } else {
      assert JoinOn(pieces, sep) + Repeat(sep, 0) == JoinOn(pieces, sep);
    }
  }

  /**
   * Java's split loses nothing but trailing separators: the string is the
   * joined lines followed by some number of separators.
   */
  lemma JavaSplitLosesOnlyTrailingSeparators(s: string, sep: char)
    ensures exists k: nat :: s == JoinOn(JavaSplit(s, sep), sep) + Repeat(sep, k)
  {
    JoinSplit(s, sep);
    if sep !in s {
      assert s == JoinOn(JavaSplit(s, sep), sep) + Repeat(sep, 0);
    } else {
      var pieces := SplitOn(s, sep);
      DropTrailingEmptyJoin(pieces, sep);
      var r := DropTrailingEmpty(pieces);
      if r != [] {
        assert s == JoinOn(JavaSplit(s, sep), sep) + Repeat(sep, |pieces| - |r|);
      } else {
        assert s == JoinOn(JavaSplit(s, sep), sep) + Repeat(sep, |pieces| - 1);
      }
    }
  }

  // ---------------------------------------------------------------------
  // Decimal rendering of naturals

  predicate IsDigit(c: char) {
    '0' <= c <= '9'
  }

  function DigitChar(d: nat): (c: char)
    requires d < 10
    ensures IsDigit(c)
  {
    ('0' as int + d) as char
  }

  /** `n.toString()`: the decimal digits of n, most significant first, no leading zero. */
  function Decimal(n: nat): (s: string)
    ensures |s| >= 1 && forall i :: 0 <= i < |s| ==> IsDigit(s[i])
    ensures s[0] == '0' <==> n == 0
    ensures s[0] == '0' ==> s == "0"
  {
    if n < 10 then [DigitChar(n)] else Decimal(n / 10) + [DigitChar(n % 10)]
  }

  /** `n.toString()` for a signed integer: a minus sign before the digits of a negative one. */
  function SignedDecimal(n: int): (s: string)
    ensures |s| >= 1 && (s[0] == '-' <==> n < 0)
    ensures n >= 0 ==> forall i :: 0 <= i < |s| ==> IsDigit(s[i])
    ensures n < 0 ==> |s| >= 2 && forall i :: 1 <= i < |s| ==> IsDigit(s[i])
    ensures var digits := if n < 0 then s[1..] else s; digits[0] == '0' <==> n == 0
  {
    if n < 0 then "-" + Decimal(-n) else Decimal(n)
  }

  /** The number a string of digits denotes. */
  function DigitsValue(s: string): nat
    requires forall i :: 0 <= i < |s| ==> IsDigit(s[i])
  {
    if s == [] then 0
    else
      assert IsDigit(s[|s| - 1]);
      10 * DigitsValue(s[..|s| - 1]) + (s[|s| - 1] as int - '0' as int)
  }

  /** Reading back the decimal rendering gives the number. */
  lemma {:induction false} DecimalValue(n: nat)
    ensures DigitsValue(Decimal(n)) == n
  {
    if n >= 10 {
      DecimalValue(n / 10);
      var s := Decimal(n);
      assert s[..|s| - 1] == Decimal(n / 10);
    }
  }

  /** The longest prefix of digits. */
  function DigitRun(s: string): (d: string)
    ensures d <= s && forall i :: 0 <= i < |d| ==> IsDigit(d[i])
    ensures |d| < |s| ==> !IsDigit(s[|d|])
  {
    if s == [] || !IsDigit(s[0]) then [] else [s[0]] + DigitRun(s[1..])
  }

  /** A digit string followed by a non-digit is exactly the digit run. */
  lemma {:induction false} DigitRunOf(d: string, rest: string)
    requires forall i :: 0 <= i < |d| ==> IsDigit(d[i])
    requires rest != [] && !IsDigit(rest[0])
    ensures DigitRun(d + rest) == d
  {
    if d != [] {
      DigitRunOf(d[1..], rest);
      assert (d + rest)[1..] == d[1..] + rest;
    }
  }
}
