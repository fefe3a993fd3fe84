/**
 Small building blocks shared by the game and season modules: an Option
 type for values pandas would report as missing, integer sums, Python's
 `str.split` / `str.join` on a one-character separator, and decimal
 rendering and parsing of natural numbers.
 */
module Basics {

  /** A value that may be missing (pandas NaN, a failed parse). */
  datatype Option<T> = None | Some(value: T)

  function Min(a: int, b: int): int { if a <= b then a else b }

  function Max(a: int, b: int): int { if a >= b then a else b }

  /** Sum of a sequence, folded from its right end. */
  function Sum(xs: seq<int>): int
  {
    if |xs| == 0 then 0 else Sum(xs[..|xs| - 1]) + xs[|xs| - 1]
  }

  lemma {:induction false} SumAppend(xs: seq<int>, ys: seq<int>)
    ensures Sum(xs + ys) == Sum(xs) + Sum(ys)
    decreases |ys|
  {
    if |ys| == 0 {
      assert xs + ys == xs;
    } else {
      var ys' := ys[..|ys| - 1];
      assert (xs + ys)[..|xs + ys| - 1] == xs + ys';
      SumAppend(xs, ys');
    }
  }

  /** pandas `max()`: the largest element, or None (NaN) for no elements. */
  function MaxValue(xs: seq<int>): (r: Option<int>)
    ensures r.None? <==> |xs| == 0
    ensures r.Some? ==> forall i :: 0 <= i < |xs| ==> xs[i] <= r.value
    ensures r.Some? ==> exists i :: 0 <= i < |xs| && xs[i] == r.value
  {
    if |xs| == 0 then None
    else
      match MaxValue(xs[..|xs| - 1])
      case None => Some(xs[|xs| - 1])
      case Some(m) => Some(Max(m, xs[|xs| - 1]))
  }

  // ---------------------------------------------------------------------
  // Splitting and joining on a separator
  // ---------------------------------------------------------------------

  /** Python's `s.split(sep)` for a one-character separator: every
      occurrence of `sep` ends a field, empty fields are kept, and there is
      always at least one field. */
  function Split(s: string, sep: char): (fields: seq<string>)
    ensures |fields| >= 1
    ensures forall i :: 0 <= i < |fields| ==> sep !in fields[i]
    ensures |fields[0]| <= |s| && s[..|fields[0]|] == fields[0]
  {
    if |s| == 0 then [""]
    else
      var rest := Split(s[1..], sep);
      if s[0] == sep then [""] + rest
      else [[s[0]] + rest[0]] + rest[1..]
  }

  /** Python's `sep.join(parts)`; the empty list joins to "". */
  function Join(parts: seq<string>, sep: string): string
  {
    if |parts| == 0 then "" else parts[0] + JoinTail(parts[1..], sep)
  }

  /** Every part preceded by the separator. */
  function JoinTail(parts: seq<string>, sep: string): string
  {
    if |parts| == 0 then "" else sep + parts[0] + JoinTail(parts[1..], sep)
  }

  /** No part contains the separator character. */
  predicate FreeOf(parts: seq<string>, sep: char)
  {
    forall i :: 0 <= i < |parts| ==> sep !in parts[i]
  }

  /** Splitting and re-joining on the same separator gives back the string. */
  lemma {:induction false} JoinSplit(s: string, sep: char)
    ensures Join(Split(s, sep), [sep]) == s
    decreases |s|
  {
    if |s| > 0 {
      var rest := Split(s[1..], sep);
      JoinSplit(s[1..], sep);
      assert s == [s[0]] + s[1..];
      if s[0] == sep {
        assert Split(s, sep) == [""] + rest;
        JoinEmptyHead(rest, [sep]);
      } else {
        assert Split(s, sep) == [[s[0]] + rest[0]] + rest[1..];
        JoinGlueHead([s[0]], rest, [sep]);
      }
    }
  }

  lemma JoinEmptyHead(rest: seq<string>, sep: string)
    requires |rest| > 0
    ensures Join([""] + rest, sep) == sep + Join(rest, sep)
  {
    var fs := [""] + rest;
    assert fs[1..] == rest;
    assert rest == [rest[0]] + rest[1..];
    assert Join(fs, sep) == "" + JoinTail(rest, sep);
  }

  lemma JoinGlueHead(first: string, rest: seq<string>, sep: string)
    requires |rest| > 0
    ensures Join([first + rest[0]] + rest[1..], sep) == first + Join(rest, sep)
  {
    var fs := [first + rest[0]] + rest[1..];
    assert fs[1..] == rest[1..];
    assert Join(fs, sep) == first + rest[0] + JoinTail(rest[1..], sep);
  }

  /** A field without the separator glues onto the first field of what follows. */
  lemma {:induction false} SplitFieldPrefix(t: string, u: string, sep: char)
    requires sep !in t
    ensures Split(t + u, sep) == [t + Split(u, sep)[0]] + Split(u, sep)[1..]
    decreases |t|
  {
    if |t| == 0 {
      assert t + u == u;
      var r := Split(u, sep);
      assert r == [r[0]] + r[1..];
      assert t + r[0] == r[0];
    } else {
      assert (t + u)[0] == t[0];
      assert (t + u)[1..] == t[1..] + u;
      SplitFieldPrefix(t[1..], u, sep);
      var r := Split(t[1..] + u, sep);
      assert r[0] == t[1..] + Split(u, sep)[0];
      assert [t[0]] + r[0] == t + Split(u, sep)[0];
    }
  }

  /** A text without the separator is a single field. */
  lemma {:induction false} SplitWithout(s: string, sep: char)
    ensures sep !in s <==> Split(s, sep) == [s]
    decreases |s|
  {
    if |s| > 0 {
      SplitWithout(s[1..], sep);
      assert s == [s[0]] + s[1..];
    }
  }

  /** Splitting at a separator character splits the text on each side of it. */
  lemma {:induction false} SplitAtSep(a: string, b: string, sep: char)
    ensures Split(a + [sep] + b, sep) == Split(a, sep) + Split(b, sep)
    decreases |a|
  {
    if |a| == 0 {
      assert a + [sep] + b == [sep] + b;
      SplitCons(sep, b, sep);
    } else {
      var c, u := a[0], a[1..];
      var t := u + [sep] + b;
      assert a == [c] + u;
      assert a + [sep] + b == [c] + t;
      SplitAtSep(u, b, sep);
      var front := Split(u, sep);
      var back := Split(b, sep);
      assert Split([c] + t, sep) == Split(a, sep) + back by {
        SplitCons(c, t, sep);
        SplitCons(c, u, sep);
        GlueFirst(c, front, back, c == sep);
      }
    }
  }

  /** Gluing a character onto the first field commutes with appending
      further fields. */
  lemma GlueFirst(c: char, front: seq<string>, back: seq<string>, cut: bool)
    requires |front| > 0
    ensures (if cut then [""] + (front + back) else [[c] + (front + back)[0]] + (front + back)[1..])
            == (if cut then [""] + front else [[c] + front[0]] + front[1..]) + back
  {
    if !cut {
      assert (front + back)[0] == front[0];
      assert (front + back)[1..] == front[1..] + back;
    }
  }

  /** One step of `Split`: the first character either ends the first field
      or joins it. */
  lemma SplitCons(c: char, s: string, sep: char)
    ensures Split([c] + s, sep) == if c == sep then [""] + Split(s, sep)
                                   else [[c] + Split(s, sep)[0]] + Split(s, sep)[1..]
  {
    assert ([c] + s)[0] == c;
    assert ([c] + s)[1..] == s;
  }

  lemma {:induction false} SplitJoinTail(parts: seq<string>, sep: char)
    requires FreeOf(parts, sep)
    ensures Split(JoinTail(parts, [sep]), sep) == [""] + parts
    decreases |parts|
  {
    if |parts| > 0 {
      var tail := JoinTail(parts[1..], [sep]);
      assert FreeOf(parts[1..], sep);
      SplitJoinTail(parts[1..], sep);
      var u := parts[0] + tail;
      assert JoinTail(parts, [sep]) == [sep] + u;
      assert ([sep] + u)[1..] == u;
      SplitFieldPrefix(parts[0], tail, sep);
      assert parts[0] + "" == parts[0];
      assert parts == [parts[0]] + parts[1..];
    }
  }

  /** Joining fields free of the separator and splitting again gives back
      the fields: the two are inverse to each other. */
  lemma SplitJoin(parts: seq<string>, sep: char)
    requires |parts| >= 1
    requires FreeOf(parts, sep)
    ensures Split(Join(parts, [sep]), sep) == parts
  {
    assert FreeOf(parts[1..], sep);
    SplitJoinTail(parts[1..], sep);
    SplitFieldPrefix(parts[0], JoinTail(parts[1..], [sep]), sep);
    assert parts[0] + "" == parts[0];
    assert parts == [parts[0]] + parts[1..];
  }

  /** A part put in front of a non-empty list is followed by one separator. */
  lemma JoinCons(head: string, parts: seq<string>, sep: string)
    requires |parts| > 0
    ensures Join([head] + parts, sep) == head + sep + Join(parts, sep)
  {
    assert ([head] + parts)[1..] == parts;
    var rest := JoinTail(parts[1..], sep);
    assert head + (sep + parts[0] + rest) == head + sep + (parts[0] + rest);
  }

  lemma JoinTwo(a: string, b: string, sep: string)
    ensures Join([a, b], sep) == a + sep + b
  {
    assert [a, b][1..] == [b];
    assert [b][1..] == [];
    assert JoinTail([b], sep) == sep + b + "";
  }

  /** A character in neither the parts nor the separator is not in the join. */
  lemma {:induction false} JoinAvoids(parts: seq<string>, sep: string, c: char)
    requires c !in sep
    requires forall i :: 0 <= i < |parts| ==> c !in parts[i]
    ensures c !in Join(parts, sep)
    ensures c !in JoinTail(parts, sep)
    decreases |parts|
  {
    if |parts| > 0 {
      JoinAvoids(parts[1..], sep, c);
    }
  }

  /** A character of any part is a character of the join. */
  lemma {:induction false} JoinHas(parts: seq<string>, sep: string, i: nat, c: char)
    requires i < |parts| && c in parts[i]
    ensures c in Join(parts, sep)
  {
    if i > 0 {
      JoinTailHas(parts[1..], sep, i - 1, c);
    }
  }

  lemma {:induction false} JoinTailHas(parts: seq<string>, sep: string, i: nat, c: char)
    requires i < |parts| && c in parts[i]
    ensures c in JoinTail(parts, sep)
    decreases |parts|
  {
    if i > 0 {
      JoinTailHas(parts[1..], sep, i - 1, c);
    }
  }

  lemma {:induction false} JoinTailLength(parts: seq<string>, sep: string)
    ensures |JoinTail(parts, sep)| >= |parts| * |sep|
    decreases |parts|
  {
    if |parts| > 0 {
      JoinTailLength(parts[1..], sep);
    }
  }

  // ---------------------------------------------------------------------
  // Decimal numbers
  // ---------------------------------------------------------------------

  predicate IsDigit(c: char) { '0' <= c <= '9' }

  predicate AllDigits(s: string) { forall i :: 0 <= i < |s| ==> IsDigit(s[i]) }

  /** A digit string holds no character that is not a digit. */
  lemma DigitsAvoid(s: string, c: char)
    requires AllDigits(s) && !IsDigit(c)
    ensures c !in s
  {
    assert forall i :: 0 <= i < |s| ==> IsDigit(s[i]);
  }

  /** A character in neither part is not in their concatenation. */
  lemma CaptionAvoids(caption: string, value: string, c: char)
    requires c !in caption && c !in value
    ensures c !in caption + value
  {
    assert forall i :: 0 <= i < |caption + value| ==> (caption + value)[i] != c by {
      forall i | 0 <= i < |caption + value|
        ensures (caption + value)[i] != c
      {
        if i < |caption| {
          assert (caption + value)[i] == caption[i];
        } else {
          assert (caption + value)[i] == value[i - |caption|];
        }
      }
    }
  }

  function DigitChar(d: nat): char
    requires d < 10
  {
    ['0', '1', '2', '3', '4', '5', '6', '7', '8', '9'][d]
  }

  function DigitValue(c: char): nat
    requires IsDigit(c)
  {
    (c as int - '0' as int) as nat
  }

  /** Python's `str(n)` for a natural number. */
  function NatStr(n: nat): (s: string)
    ensures 1 <= |s|
    ensures AllDigits(s)
  {
    if n < 10 then [DigitChar(n)] else NatStr(n / 10) + [DigitChar(n % 10)]
  }

  /** Python's `str(i)` for an integer. */
  function IntStr(i: int): string
  {
    if i < 0 then "-" + NatStr(-i) else NatStr(i)
  }

  /** The value of a string of decimal digits (leading zeros allowed). */
  function DigitsValue(s: string): nat
    requires AllDigits(s)
  {
    if |s| == 0 then 0 else DigitsValue(s[..|s| - 1]) * 10 + DigitValue(s[|s| - 1])
  }

  /** Decimal parse of a non-empty digit string; None for anything else. */
  function ParseNat(s: string): (r: Option<nat>)
    ensures r.Some? <==> |s| > 0 && AllDigits(s)
  {
    if |s| > 0 && AllDigits(s) then Some(DigitsValue(s)) else None
  }

  /** Zero-padding to a minimum width, as Python's `{:0Nd}` format does. */
  function PadNat(n: nat, width: nat): (s: string)
    ensures |s| == Max(width, |NatStr(n)|)
    ensures AllDigits(s)
  {
    var digits := NatStr(n);
    if |digits| >= width then digits else Zeros(width - |digits|) + digits
  }

  function Zeros(k: nat): (s: string)
    ensures |s| == k
    ensures forall i :: 0 <= i < k ==> s[i] == '0'
  {
    if k == 0 then "" else Zeros(k - 1) + "0"
  }

  lemma {:induction false} DigitsValueLeadingZeros(k: nat, s: string)
    requires AllDigits(s)
    ensures AllDigits(Zeros(k) + s)
    ensures DigitsValue(Zeros(k) + s) == DigitsValue(s)
    decreases |s|
  {
    var z := Zeros(k);
    if |s| == 0 {
      assert z + s == z;
      ZerosValue(k);
    } else {
      var s' := s[..|s| - 1];
      assert (z + s)[..|z + s| - 1] == z + s';
      DigitsValueLeadingZeros(k, s');
    }
  }

  lemma {:induction false} ZerosValue(k: nat)
    ensures DigitsValue(Zeros(k)) == 0
  {
    if k > 0 {
      assert Zeros(k)[..k - 1] == Zeros(k - 1);
      ZerosValue(k - 1);
    }
  }

  /** Rendering then parsing a natural number gives it back. */
  lemma {:induction false} NatStrRoundTrip(n: nat)
    ensures DigitsValue(NatStr(n)) == n
    ensures ParseNat(NatStr(n)) == Some(n)
  {
    if n >= 10 {
      NatStrRoundTrip(n / 10);
      var s := NatStr(n / 10) + [DigitChar(n % 10)];
      assert s[..|s| - 1] == NatStr(n / 10);
    }
  }

  /** Padding with zeros does not change the parsed value. */
  lemma {:induction false} PadNatRoundTrip(n: nat, width: nat)
    ensures ParseNat(PadNat(n, width)) == Some(n)
  {
    NatStrRoundTrip(n);
    var digits := NatStr(n);
    var padded := PadNat(n, width);
    if |digits| < width {
      DigitsValueLeadingZeros(width - |digits|, digits);
      assert padded == Zeros(width - |digits|) + digits;
    } else {
      assert padded == digits;
    }
    assert DigitsValue(padded) == n;
    assert |padded| > 0;
  }

  lemma {:induction false} NatStrLength(n: nat, bound: nat)
    requires n < Pow10(bound)
    ensures |NatStr(n)| <= Max(bound, 1)
  {
    if n >= 10 {
      assert bound >= 1;
      NatStrLength(n / 10, bound - 1);
    }
  }

  lemma {:induction false} NatStrLengthAtLeast(n: nat, k: nat)
    requires Pow10(k) <= n
    ensures k + 1 <= |NatStr(n)|
  {
    if k > 0 {
      NatStrLengthAtLeast(n / 10, k - 1);
    }
  }

  /** Digits written after others shift them left by their own length. */
  lemma {:induction false} DigitsValueAppend(a: string, b: string)
    requires AllDigits(a) && AllDigits(b)
    ensures AllDigits(a + b)
    ensures DigitsValue(a + b) == DigitsValue(a) * Pow10(|b|) + DigitsValue(b)
    decreases |b|
  {
    if |b| == 0 {
      assert a + b == a;
    } else {
      var b' := b[..|b| - 1];
      assert (a + b)[..|a + b| - 1] == a + b';
      DigitsValueAppend(a, b');
      ShiftDigit(DigitsValue(a), Pow10(|b'|), DigitsValue(b'), DigitValue(b[|b| - 1]));
    }
  }

  lemma ShiftDigit(x: int, p: int, y: int, d: int)
    ensures (x * p + y) * 10 + d == x * (10 * p) + (y * 10 + d)
  {
  }

  function Pow10(k: nat): nat
  {
    if k == 0 then 1 else 10 * Pow10(k - 1)
  }
}
