/**
 * The string-level PHP built-ins that the client relies on, modelled on
 * `seq<char>`: integer rendering, `explode`/`implode`, `str_replace`,
 * `trim`, `substr`, and PHP 8 numeric strings with the loose `==` on strings.
 */
module PhpString {

  datatype Option<T> = None | Some(value: T)

  predicate IsDigit(c: char) { '0' <= c <= '9' }

  function DigitChar(d: nat): (c: char)
    requires d < 10
    ensures IsDigit(c)
  {
    "0123456789"[d]
  }

  function DigitValue(c: char): (d: nat)
    requires IsDigit(c)
    ensures d < 10
  {
    (c as int - '0' as int) as nat
  }

  predicate AllDigits(s: string) { forall i :: 0 <= i < |s| ==> IsDigit(s[i]) }

  /** Decimal digits of a natural number, most significant first, no leading zero. */
  function NatToDec(n: nat): (r: string)
    ensures 1 <= |r| && AllDigits(r)
    ensures |r| > 1 ==> r[0] != '0'
    ensures n < 10 <==> |r| == 1
    decreases n
  {
    if n < 10 then [DigitChar(n)] else NatToDec(n / 10) + [DigitChar(n % 10)]
  }

  /** PHP's conversion of an int to a string (`$i.''`). */
  function IntToDec(i: int): (r: string)
    ensures |r| >= 1
    ensures i >= 0 ==> AllDigits(r)
    ensures i < 0 ==> r[0] == '-'
  {
    if i < 0 then "-" + NatToDec(-i) else NatToDec(i)
  }

  /** Value of a string of decimal digits. */
  function DigitsValue(s: string): nat
    requires AllDigits(s)
  {
    if |s| == 0 then 0 else 10 * DigitsValue(s[..|s| - 1]) + DigitValue(s[|s| - 1])
  }

  lemma DigitValueOfChar(d: nat)
    requires d < 10
    ensures DigitValue(DigitChar(d)) == d
  {
  }

  lemma {:induction false} DigitsValueOfNatToDec(n: nat)
    ensures DigitsValue(NatToDec(n)) == n
    decreases n
  {
    var r := NatToDec(n);
    if n >= 10 {
      assert r[..|r| - 1] == NatToDec(n / 10);
      DigitsValueOfNatToDec(n / 10);
      DigitValueOfChar(n % 10);
      assert DigitsValue(r) == 10 * (n / 10) + n % 10;
    } else {
      DigitValueOfChar(n);
      assert r[..0] == "";
    }
  }

  // ---------------------------------------------------------------------
  // explode / implode

  /** `explode($sep, $s)` for a one-character separator. */
  function Explode(s: string, sep: char): (parts: seq<string>)
    ensures |parts| >= 1
    ensures forall i :: 0 <= i < |parts| ==> sep !in parts[i]
    decreases |s|
  {
    if |s| == 0 then [""]
    else
      var rest := Explode(s[1..], sep);
      if s[0] == sep then [""] + rest else [[s[0]] + rest[0]] + rest[1..]
  }

  /** `implode($sep, $parts)`. */
  function Implode(parts: seq<string>, sep: string): string
  {
    if |parts| == 0 then ""
    else if |parts| == 1 then parts[0]
    else parts[0] + sep + Implode(parts[1..], sep)
  }

  /** Joining the pieces of `explode` gives back the original string. */
  lemma {:induction false} ImplodeExplode(s: string, sep: char)
    ensures Implode(Explode(s, sep), [sep]) == s
    decreases |s|
  {
    if |s| > 0 {
      var rest := Explode(s[1..], sep);
      ImplodeExplode(s[1..], sep);
      if s[0] != sep {
        if |rest| == 1 {
          assert Explode(s, sep) == [[s[0]] + rest[0]];
        } else {
          assert Explode(s, sep) == [[s[0]] + rest[0]] + rest[1..];
          assert Implode(rest, [sep]) == rest[0] + [sep] + Implode(rest[1..], [sep]);
        }
      }
    }
  }

  /** `explode` splits a join of separator-free pieces back into those pieces. */
  lemma {:induction false} ExplodeImplode(parts: seq<string>, sep: char)
    requires |parts| >= 1
    requires forall i :: 0 <= i < |parts| ==> sep !in parts[i]
    ensures Explode(Implode(parts, [sep]), sep) == parts
    decreases |parts|, |parts[0]|
  {
    if |parts| == 1 {
      ExplodeNoSep(parts[0], sep);
    } else if |parts[0]| == 0 {
      ExplodeImplode(parts[1..], sep);
      assert Implode(parts, [sep]) == [sep] + Implode(parts[1..], [sep]);
    } else {
      var p0 := parts[0];
      var shorter := [p0[1..]] + parts[1..];
      ExplodeImplode(shorter, sep);
      ImplodeHeadChar(parts, sep);
      assert ([p0[0]] + Implode(shorter, [sep]))[1..] == Implode(shorter, [sep]);
      assert [p0[0]] + p0[1..] == p0;
    }
  }

  lemma ImplodeHeadChar(parts: seq<string>, sep: char)
    requires |parts| > 1 && |parts[0]| > 0
    ensures Implode(parts, [sep]) == [parts[0][0]] + Implode([parts[0][1..]] + parts[1..], [sep])
  {
    var p0 := parts[0];
    var shorter := [p0[1..]] + parts[1..];
    var rest := Implode(parts[1..], [sep]);
    assert shorter[0] == p0[1..] && shorter[1..] == parts[1..];
    assert Implode(shorter, [sep]) == p0[1..] + [sep] + rest;
    assert Implode(parts, [sep]) == p0 + [sep] + rest;
    assert p0 + [sep] + rest == [p0[0]] + (p0[1..] + [sep] + rest);
  }

  lemma {:induction false} ExplodeNoSep(s: string, sep: char)
    requires sep !in s
    ensures Explode(s, sep) == [s]
    decreases |s|
  {
    if |s| > 0 {
      ExplodeNoSep(s[1..], sep);
      assert [s[0]] + s[1..] == s;
    }
  }

  /** The element `explode` yields at index `i`, or `""` when there is none
      (PHP's list destructuring gives null there, which behaves as `""` in
      every use the client makes of it). */
  function PartOr(parts: seq<string>, i: nat): string
  {
    if i < |parts| then parts[i] else ""
  }

  // ---------------------------------------------------------------------
  // str_replace, substr, trim

  predicate StartsWith(s: string, p: string) { |p| <= |s| && s[..|p|] == p }

  /** `str_ends_with($s, $p)`. */
  predicate EndsWith(s: string, p: string) { |p| <= |s| && s[|s| - |p|..] == p }

  /** `str_replace($pat, $rep, $s)`: left to right, non-overlapping; an
      empty pattern leaves the subject unchanged. */
  function ReplaceAll(s: string, pat: string, rep: string): (r: string)
    decreases |s|
  {
    if |pat| == 0 || |s| == 0 then s
    else if StartsWith(s, pat) then rep + ReplaceAll(s[|pat|..], pat, rep)
    else [s[0]] + ReplaceAll(s[1..], pat, rep)
  }

  /** `p` occurs somewhere in `s`. */
  predicate Occurs(s: string, p: string)
  {
    exists i :: 0 <= i <= |s| && StartsWith(s[i..], p)
  }

  /** When the pattern does not occur, `str_replace` changes nothing. */
  lemma {:induction false} ReplaceAllAbsent(s: string, pat: string, rep: string)
    requires !Occurs(s, pat)
    ensures ReplaceAll(s, pat, rep) == s
    decreases |s|
  {
    if |pat| > 0 && |s| > 0 {
      assert !StartsWith(s, pat) by {
        assert s[0..] == s;
      }
      assert !Occurs(s[1..], pat) by {
        forall i | 0 <= i <= |s[1..]|
          ensures !StartsWith(s[1..][i..], pat)
        {
          assert s[1..][i..] == s[i + 1..];
        }
      }
      ReplaceAllAbsent(s[1..], pat, rep);
      assert [s[0]] + s[1..] == s;
    }
  }

  /** Replacing a one-character pattern leaves no occurrence of that
      character, provided the replacement does not contain it. */
  lemma {:induction false} ReplaceAllCharGone(s: string, c: char, rep: string)
    requires c !in rep
    ensures c !in ReplaceAll(s, [c], rep)
    decreases |s|
  {
    if |s| > 0 {
      ReplaceAllCharGone(s[1..], c, rep);
      if StartsWith(s, [c]) {
        assert s[..1] == [s[0]];
      }
    }
  }

  /** For a one-character pattern, any other character that the
      replacement does not contain is in the output iff it is in the input. */
  lemma {:induction false} ReplaceAllCharKeeps(s: string, c: char, rep: string, d: char)
    requires d != c && d !in rep
    ensures (d in ReplaceAll(s, [c], rep)) == (d in s)
    decreases |s|
  {
    if |s| > 0 {
      ReplaceAllCharKeeps(s[1..], c, rep, d);
      assert s == [s[0]] + s[1..];
      if StartsWith(s, [c]) {
        assert s[0] == c;
      }
    }
  }

  /** `str_replace` distributes over a prefix that holds no character of a
      one-character pattern. */
  lemma {:induction false} ReplaceAllCharPrefix(a: string, b: string, c: char, rep: string)
    requires c !in a
    ensures ReplaceAll(a + b, [c], rep) == a + ReplaceAll(b, [c], rep)
    decreases |a|
  {
    if |a| > 0 {
      assert (a + b)[0] == a[0];
      assert !StartsWith(a + b, [c]) by { assert (a + b)[..1] == [a[0]]; }
      assert (a + b)[1..] == a[1..] + b;
      assert ReplaceAll(a + b, [c], rep) == [a[0]] + ReplaceAll(a[1..] + b, [c], rep);
      ReplaceAllCharPrefix(a[1..], b, c, rep);
      assert a == [a[0]] + a[1..];
      assert a + ReplaceAll(b, [c], rep) == [a[0]] + (a[1..] + ReplaceAll(b, [c], rep));
    } else {
      assert a + b == b;
    }
  }

  /** A string starts with `q` exactly when its first character is
      `q`'s and the rest starts with the rest of `q`. */
  lemma StartsWithCons(x: char, t: string, q: string)
    requires |q| > 0
    ensures StartsWith([x] + t, q) <==> x == q[0] && StartsWith(t, q[1..])
  {
    if StartsWith([x] + t, q) {
      assert ([x] + t)[..|q|] == [x] + t[..|q| - 1];
      assert q == [q[0]] + q[1..];
    }
    if x == q[0] && StartsWith(t, q[1..]) {
      assert ([x] + t)[..|q|] == [x] + t[..|q| - 1];
      assert q == [q[0]] + q[1..];
    }
  }

  /** A non-empty `q` occurs in a string exactly when it starts there or
      occurs in the rest. */
  lemma OccursCons(x: char, t: string, q: string)
    requires |q| > 0
    ensures Occurs([x] + t, q) <==> StartsWith([x] + t, q) || Occurs(t, q)
  {
    var s := [x] + t;
    assert s[0..] == s;
    if Occurs(s, q) {
      var i :| 0 <= i <= |s| && StartsWith(s[i..], q);
      if i > 0 {
        assert s[i..] == t[i - 1..];
      }
    }
    if Occurs(t, q) {
      var i :| 0 <= i <= |t| && StartsWith(t[i..], q);
      assert s[i + 1..] == t[i..];
    }
  }

  /** The empty text holds no non-empty `q`. */
  lemma OccursEmpty(q: string)
    requires |q| > 0
    ensures !Occurs("", q)
  {
  }

  /** A one-character string occurs exactly where its character does. */
  lemma OccursChar(s: string, c: char)
    ensures Occurs(s, [c]) <==> c in s
  {
    if c in s {
      var i :| 0 <= i < |s| && s[i] == c;
      assert s[i..][..1] == [c];
    }
    if Occurs(s, [c]) {
      var i :| 0 <= i <= |s| && StartsWith(s[i..], [c]);
      assert s[i..][0] == s[i];
    }
  }

  /** What occurs in a piece of a string occurs in the string. */
  lemma OccursSlice(s: string, i: nat, j: nat, q: string)
    requires i <= j <= |s|
    ensures Occurs(s[i..j], q) ==> Occurs(s, q)
  {
    if Occurs(s[i..j], q) {
      var k :| 0 <= k <= |s[i..j]| && StartsWith(s[i..j][k..], q);
      assert s[i..j][k..][..|q|] == s[i + k..][..|q|];
    }
  }

  /** No character of `a` is in `b`. */
  predicate Disjoint(a: string, b: string)
  {
    forall k :: 0 <= k < |a| ==> a[k] !in b
  }

  /** A prefix of the replaced text that shares no character with the
      replacement was a prefix of the original. */
  lemma {:induction false} ReplacedPrefixPullback(t: string, pat: string, rep: string, p: string)
    requires |rep| > 0 && Disjoint(rep, p)
    ensures StartsWith(ReplaceAll(t, pat, rep), p) ==> StartsWith(t, p)
    decreases |t|
  {
    if |p| > 0 && |pat| > 0 && |t| > 0 {
      var m := ReplaceAll(t, pat, rep);
      if StartsWith(t, pat) {
        assert m[0] == rep[0] && rep[0] !in p;
      } else {
        assert m == [t[0]] + ReplaceAll(t[1..], pat, rep);
        StartsWithCons(t[0], ReplaceAll(t[1..], pat, rep), p);
        ReplacedPrefixPullback(t[1..], pat, rep, p[1..]);
        StartsWithCons(t[0], t[1..], p);
        assert t == [t[0]] + t[1..];
      }
    }
  }

  /** Past a replacement, text sharing no character with it cannot start
      inside it. */
  lemma NotInsideReplacement(rep: string, rest: string, q: string)
    requires |q| > 0 && Disjoint(rep, q)
    ensures forall i :: 0 <= i < |rep| ==> !StartsWith((rep + rest)[i..], q)
  {
    forall i | 0 <= i < |rep|
      ensures !StartsWith((rep + rest)[i..], q)
    {
      assert (rep + rest)[i..][0] == rep[i];
    }
  }

  /** Text that shares no character with the replacement occurs in the
      replaced text only if it occurred in the original. */
  lemma {:induction false} ReplacedOccursPullback(s: string, pat: string, rep: string, q: string)
    requires |rep| > 0 && |q| > 0 && Disjoint(rep, q)
    ensures Occurs(ReplaceAll(s, pat, rep), q) ==> Occurs(s, q)
    decreases |s|
  {
    var r := ReplaceAll(s, pat, rep);
    if |pat| > 0 && |s| > 0 && Occurs(r, q) {
      var i :| 0 <= i <= |r| && StartsWith(r[i..], q);
      if StartsWith(s, pat) {
        var rest := ReplaceAll(s[|pat|..], pat, rep);
        assert r == rep + rest;
        NotInsideReplacement(rep, rest, q);
        assert r[i..] == rest[i - |rep|..];
        ReplacedOccursPullback(s[|pat|..], pat, rep, q);
        var k :| 0 <= k <= |s[|pat|..]| && StartsWith(s[|pat|..][k..], q);
        assert s[|pat|..][k..] == s[|pat| + k..];
      } else {
        var rest := ReplaceAll(s[1..], pat, rep);
        assert r == [s[0]] + rest;
        OccursCons(s[0], rest, q);
        OccursCons(s[0], s[1..], q);
        assert s == [s[0]] + s[1..];
        StartsWithCons(s[0], rest, q);
        ReplacedPrefixPullback(s[1..], pat, rep, q[1..]);
        StartsWithCons(s[0], s[1..], q);
        ReplacedOccursPullback(s[1..], pat, rep, q);
      }
    }
  }

  /** A non-empty pattern that shares no character with its replacement
      no longer occurs once every occurrence has been replaced. */
  lemma {:induction false} ReplaceAllRemoves(s: string, pat: string, rep: string)
    requires |pat| > 0 && |rep| > 0 && Disjoint(rep, pat)
    ensures !Occurs(ReplaceAll(s, pat, rep), pat)
    decreases |s|
  {
    var r := ReplaceAll(s, pat, rep);
    if |s| == 0 {
      OccursEmpty(pat);
    } else if StartsWith(s, pat) {
      var rest := ReplaceAll(s[|pat|..], pat, rep);
      ReplaceAllRemoves(s[|pat|..], pat, rep);
      assert r == rep + rest;
      NotInsideReplacement(rep, rest, pat);
      forall i | |rep| <= i <= |r|
        ensures !StartsWith(r[i..], pat)
      {
        assert r[i..] == rest[i - |rep|..];
      }
    } else {
      var rest := ReplaceAll(s[1..], pat, rep);
      ReplaceAllRemoves(s[1..], pat, rep);
      assert r == [s[0]] + rest;
      OccursCons(s[0], rest, pat);
      StartsWithCons(s[0], rest, pat);
      ReplacedPrefixPullback(s[1..], pat, rep, pat[1..]);
      StartsWithCons(s[0], s[1..], pat);
      assert s == [s[0]] + s[1..];
    }
  }

  /** `substr($s, $start)` for start >= 0: empty once the start is past the end. */
  function SubstrFrom(s: string, start: nat): string
  {
    if start <= |s| then s[start..] else ""
  }

  /** `substr($s, 0, $n)`. */
  function Prefix(s: string, n: nat): string
  {
    if n <= |s| then s[..n] else s
  }

  /** The characters `trim` removes by default: " \t\n\r\0\x0B". */
  predicate IsTrimChar(c: char)
  {
    c == ' ' || c == '\t' || c == '\n' || c == '\r' || c == '\0' || c == '\U{000B}'
  }

  function TrimLeft(s: string): (r: string)
    ensures |r| <= |s| && r == s[|s| - |r|..]
    ensures |r| > 0 ==> !IsTrimChar(r[0])
    decreases |s|
  {
    if |s| > 0 && IsTrimChar(s[0]) then TrimLeft(s[1..]) else s
  }

  function TrimRight(s: string): (r: string)
    ensures |r| <= |s| && r == s[..|r|]
    ensures |r| > 0 ==> !IsTrimChar(r[|r| - 1])
    decreases |s|
  {
    if |s| > 0 && IsTrimChar(s[|s| - 1]) then TrimRight(s[..|s| - 1]) else s
  }

  /** `trim($s)`: the result neither starts nor ends with a trimmed character. */
  function Trim(s: string): (r: string)
    ensures |r| > 0 ==> !IsTrimChar(r[0]) && !IsTrimChar(r[|r| - 1])
  {
    TrimRight(TrimLeft(s))
  }

  /** `trim` returns a contiguous piece of its input. */
  lemma TrimIsSlice(s: string) returns (i: nat, j: nat)
    ensures i <= j <= |s| && Trim(s) == s[i..j]
  {
    var l := TrimLeft(s);
    var r := TrimRight(l);
    i, j := |s| - |l|, |s| - |l| + |r|;
    assert r == l[..|r|];
  }

  /** Text already without leading and trailing whitespace is left as it is. */
  lemma TrimUntouched(s: string)
    requires |s| > 0 ==> !IsTrimChar(s[0]) && !IsTrimChar(s[|s| - 1])
    ensures Trim(s) == s
  {
    assert TrimLeft(s) == s;
    assert TrimRight(s) == s;
  }

  // ---------------------------------------------------------------------
  // PHP 8 numeric strings

  /** The whitespace PHP allows around a numeric string: " \t\n\r\v\f". */
  predicate IsNumericSpace(c: char)
  {
    c == ' ' || c == '\t' || c == '\n' || c == '\r' || c == '\U{000B}' || c == '\U{000C}'
  }

  /** Length of the run of decimal digits at the start of `s`. */
  function DigitRun(s: string): (n: nat)
    ensures n <= |s| && AllDigits(s[..n])
    ensures n < |s| ==> !IsDigit(s[n])
    decreases |s|
  {
    if |s| > 0 && IsDigit(s[0]) then
      var k := DigitRun(s[1..]);
      assert s[..1 + k] == [s[0]] + s[1..][..k];
      1 + k
    else 0
  }

  function SpaceRun(s: string): (n: nat)
    ensures n <= |s|
    decreases |s|
  {
    if |s| > 0 && IsNumericSpace(s[0]) then 1 + SpaceRun(s[1..]) else 0
  }

  /** The value of the digits after a decimal point: `0.d`. */
  function FracValue(d: string): real
    requires AllDigits(d)
    decreases |d|
  {
    if |d| == 0 then 0.0 else (DigitValue(d[0]) as real + FracValue(d[1..])) / 10.0
  }

  /** `x` times `10^k`, or divided by it when `down`. */
  function Shift(x: real, k: nat, down: bool): real
    decreases k
  {
    if k == 0 then x
    else if down then Shift(x, k - 1, down) / 10.0
    else Shift(x, k - 1, down) * 10.0
  }

  /** The optional exponent `[eE][+-]?[0-9]+` at the start of `s`: its
      power of ten, whether it is negative, and its length, which is 0 when
      no valid exponent is there. */
  function ScanExponent(s: string): (r: (nat, bool, nat))
    ensures r.2 <= |s|
  {
    if |s| > 0 && (s[0] == 'e' || s[0] == 'E') then
      var signed := |s| > 1 && (s[1] == '+' || s[1] == '-');
      var start := if signed then 2 else 1;
      var n := DigitRun(s[start..]);
      if n == 0 then (0, false, 0)
      else (DigitsValue(s[start..][..n]), signed && s[1] == '-', start + n)
    else (0, false, 0)
  }

  /** The unsigned decimal `[0-9]*(.[0-9]*)?` at the start of `u`, with at
      least one digit: its value and length. */
  function Mantissa(u: string): (r: Option<(real, nat)>)
    ensures r.Some? ==> r.value.1 <= |u|
  {
    var n1 := DigitRun(u);
    var dotted := n1 < |u| && u[n1] == '.';
    var n2 := if dotted then DigitRun(u[n1 + 1..]) else 0;
    if n1 + n2 == 0 then None
    else
      var frac := if dotted then FracValue(u[n1 + 1..][..n2]) else 0.0;
      Some((DigitsValue(u[..n1]) as real + frac, if dotted then n1 + 1 + n2 else n1))
  }

  /** The longest numeric prefix of `s` (after leading whitespace) as PHP
      reads it: its value and the number of characters it spans. */
  function ScanNumber(s: string): (r: Option<(real, nat)>)
    ensures r.Some? ==> r.value.1 <= |s|
  {
    var w := SpaceRun(s);
    var t := s[w..];
    var signed := |t| > 0 && (t[0] == '+' || t[0] == '-');
    var u := if signed then t[1..] else t;
    match Mantissa(u)
    case None => None
    case Some(m) =>
      var e := ScanExponent(u[m.1..]);
      var magnitude := Shift(m.0, e.0, e.1);
      var value := if signed && t[0] == '-' then -magnitude else magnitude;
      Some((value, w + (if signed then 1 else 0) + m.1 + e.2))
  }

  /** The value of `s` when it is a PHP numeric string: whitespace, a number,
      whitespace, and nothing else. */
  function NumericValue(s: string): Option<real>
  {
    match ScanNumber(s)
    case None => None
    case Some(p) =>
      var tail := s[p.1..];
      if SpaceRun(tail) == |tail| then Some(p.0) else None
  }

  /** PHP 8 `$a == $b` for two strings: numerically when both are numeric,
      byte-wise otherwise. Exact arithmetic stands in for IEEE doubles. */
  predicate LooseEquals(a: string, b: string)
  {
    match (NumericValue(a), NumericValue(b))
    case (Some(x), Some(y)) => x == y
    case _ => a == b
  }

  /** Identical strings are always loosely equal. */
  lemma LooseEqualsReflexive(a: string)
    ensures LooseEquals(a, a)
  {
  }

  /** A decimal integer is a numeric string whose value is that integer. */
  lemma {:induction false} DigitRunAll(s: string)
    requires AllDigits(s)
    ensures DigitRun(s) == |s|
    decreases |s|
  {
    if |s| > 0 {
      DigitRunAll(s[1..]);
    }
  }

  /** A run of digits alone is a whole number. */
  lemma MantissaOfDigits(u: string)
    requires AllDigits(u) && |u| > 0
    ensures Mantissa(u) == Some((DigitsValue(u) as real, |u|))
  {
    DigitRunAll(u);
    assert u[..|u|] == u;
  }

  /** A run of digits alone is read as the whole number it spells. */
  lemma ScanNumberOfDigits(s: string)
    requires AllDigits(s) && |s| > 0
    ensures ScanNumber(s) == Some((DigitsValue(s) as real, |s|))
  {
    assert IsDigit(s[0]);
    assert !(s[0] == '+' || s[0] == '-');
    assert SpaceRun(s) == 0;
    assert s[0..] == s;
    MantissaOfDigits(s);
    assert s[|s|..] == "";
    assert ScanExponent("") == (0, false, 0);
    assert Shift(DigitsValue(s) as real, 0, false) == DigitsValue(s) as real;
  }

  /** The decimal form of a number reads back as that number. */
  lemma NumericValueOfDec(n: nat)
    ensures NumericValue(NatToDec(n)) == Some(n as real)
  {
    var s := NatToDec(n);
    ScanNumberOfDigits(s);
    DigitsValueOfNatToDec(n);
    assert s[|s|..] == "";
  }

  /** PHP's `(int)` cast of a string: the leading numeric prefix truncated
      toward zero, 0 when there is none. */
  function StringToInt(s: string): int
  {
    match ScanNumber(s)
    case None => 0
    case Some(p) => if p.0 >= 0.0 then p.0.Floor else -((-p.0).Floor)
  }
}
