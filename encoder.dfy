/**
 * `data_string`: the request body of a call. Booleans are first turned
 * into the tokens `true` and `false`, the data is then form-encoded by
 * `http_build_query` (a library routine, passed in as a function), and
 * every indexed array key `name%5B<i>%5D=` is turned into a plain repeated
 * key `name=`, which is how the API expects list parameters.
 */
module Encoder {
  import opened PhpString
  import opened PhpValue

  /** The form-encoder that `http_build_query($data, '', '&')` stands for. */
  type QueryBuilder = seq<(string, Value)> -> string

  /** A boolean becomes the string token the API understands. */
  function BoolToken(v: Value): Value
  {
    if v.Bool? then Str(if v.b then "true" else "false") else v
  }

  /** The data with every boolean value rewritten, keys and order kept. */
  function BoolsAsTokens(data: seq<(string, Value)>): seq<(string, Value)>
  {
    seq(|data|, i requires 0 <= i < |data| => (data[i].0, BoolToken(data[i].1)))
  }

  /** After the rewrite no value is a boolean, every key stays in place,
      every non-boolean value is untouched, and each boolean reads as its token. */
  lemma BoolsAsTokensMeaning(data: seq<(string, Value)>)
    ensures |BoolsAsTokens(data)| == |data|
    ensures forall i :: 0 <= i < |data| ==> BoolsAsTokens(data)[i].0 == data[i].0
    ensures forall i :: 0 <= i < |data| ==> !BoolsAsTokens(data)[i].1.Bool?
    ensures forall i :: 0 <= i < |data| && !data[i].1.Bool? ==> BoolsAsTokens(data)[i].1 == data[i].1
    ensures forall i :: 0 <= i < |data| && data[i].1.Bool? ==>
      BoolsAsTokens(data)[i].1 == Str(if data[i].1.b then "true" else "false")
  {
  }

  // ---------------------------------------------------------------------
  // preg_replace('/%5B(?:[0-9]|[1-9][0-9]+)%5D=/', '=', ...)

  /** The digits of an index token: one digit, or several without a leading zero. */
  predicate IndexDigits(d: string)
  {
    AllDigits(d) && (|d| == 1 || (|d| > 1 && d[0] != '0'))
  }

  /** An index token `%5B<digits>%5D=` starts `s`. Since the digits must be
      followed by `%`, they are the whole digit run after `%5B`. */
  predicate IndexTokenAt(s: string)
  {
    StartsWith(s, "%5B") && IndexDigits(s[3..][..DigitRun(s[3..])])
    && StartsWith(s[3 + DigitRun(s[3..])..], "%5D=")
  }

  /** Every index token, scanning left to right, becomes `=`. */
  function FlattenIndexed(s: string): (r: string)
    decreases |s|
  {
    if |s| == 0 then s
    else if IndexTokenAt(s) then "=" + FlattenIndexed(s[3 + DigitRun(s[3..]) + 4..])
    else [s[0]] + FlattenIndexed(s[1..])
  }

  /** `data_string($data)`: empty data gives the empty string. */
  function DataStringOf(data: seq<(string, Value)>, build: QueryBuilder): string
  {
    if |data| == 0 then "" else FlattenIndexed(build(BoolsAsTokens(data)))
  }

  /** The `foreach` that rewrites the booleans in place, then the encoding. */
  method DataString(data: seq<(string, Value)>, build: QueryBuilder) returns (r: string)
    ensures r == DataStringOf(data, build)
    ensures |data| == 0 ==> r == ""
  {
    r := "";
    if |data| > 0 {
      var d := data;
      var i := 0;
      while i < |d|
        invariant |d| == |data| && 0 <= i <= |d|
        invariant forall j :: 0 <= j < i ==> d[j] == (data[j].0, BoolToken(data[j].1))
        invariant forall j :: i <= j < |d| ==> d[j] == data[j]
      {
        if d[i].1.Bool? {
          d := d[i := (d[i].0, Str(if d[i].1.b then "true" else "false"))];
        }
        i := i + 1;
      }
      assert d == BoolsAsTokens(data);
      r := FlattenIndexed(build(d));
    }
  }

  // ---------------------------------------------------------------------
  // What the rewrite does

  lemma StartsWithChar(s: string, p: string, j: nat)
    requires StartsWith(s, p) && j < |p|
    ensures s[j] == p[j]
  {
    assert s[..|p|][j] == s[j];
  }

  /** Text without `%` is copied as it is, ahead of whatever follows. */
  lemma {:induction false} FlattenPlainPrefix(a: string, t: string)
    requires '%' !in a
    ensures FlattenIndexed(a + t) == a + FlattenIndexed(t)
    decreases |a|
  {
    if |a| > 0 {
      var s := a + t;
      assert s[0] == a[0];
      assert !StartsWith(s, "%5B") by {
        assert a[0] in a;
        assert |s| >= 3 ==> s[..3][0] == s[0];
      }
      assert s[1..] == a[1..] + t;
      FlattenPlainPrefix(a[1..], t);
      assert FlattenIndexed(s) == [a[0]] + (a[1..] + FlattenIndexed(t));
      assert [a[0]] + (a[1..] + FlattenIndexed(t)) == ([a[0]] + a[1..]) + FlattenIndexed(t);
      assert [a[0]] + a[1..] == a;
    } else {
      assert a + t == t;
    }
  }

  /** A character that can stand in an index token. */
  predicate IsTokenChar(c: char)
  {
    c == '%' || c == '5' || c == 'B' || c == 'D' || c == '=' || IsDigit(c)
  }

  /** An index token is `%5B`, its digits and `%5D`, all token characters
      other than `=`, and then the one `=` that ends it. */
  lemma TokenSpan(x: string)
    ensures IndexTokenAt(x) ==> var n := DigitRun(x[3..]);
      && n + 7 <= |x| && x[n + 6] == '='
      && (forall m :: 3 <= m < 3 + n ==> IsDigit(x[m]))
      && (forall m :: 0 <= m < n + 6 ==> x[m] != '=' && IsTokenChar(x[m]))
  {
    if IndexTokenAt(x) {
      TokenSpanOf(x);
    }
  }

  lemma TokenSpanOf(x: string)
    requires IndexTokenAt(x)
    ensures var n := DigitRun(x[3..]);
      && n + 7 <= |x| && x[n + 6] == '='
      && (forall m :: 3 <= m < 3 + n ==> IsDigit(x[m]))
      && (forall m :: 0 <= m < n + 6 ==> x[m] != '=' && IsTokenChar(x[m]))
  {
    var n := DigitRun(x[3..]);
    StartsWithChar(x, "%5B", 0);
    StartsWithChar(x, "%5B", 1);
    StartsWithChar(x, "%5B", 2);
    forall m | 3 <= m < 3 + n
      ensures IsDigit(x[m])
    {
      assert x[m] == x[3..][..n][m - 3];
    }
    StartsWithChar(x[3 + n..], "%5D=", 0);
    StartsWithChar(x[3 + n..], "%5D=", 1);
    StartsWithChar(x[3 + n..], "%5D=", 2);
    StartsWithChar(x[3 + n..], "%5D=", 3);
    assert x[3 + n..][0] == x[3 + n] && x[3 + n..][1] == x[4 + n];
    assert x[3 + n..][2] == x[5 + n] && x[3 + n..][3] == x[6 + n];
  }

  /** What may follow a key so that no token reaches back into it: nothing,
      a character no token holds, or an opening `%5B` with no `=` close
      behind it. */
  predicate KeyBoundary(t: string)
  {
    |t| == 0 || !IsTokenChar(t[0]) || (StartsWith(t, "%5B") && |t| >= 6 && '=' !in t[..6])
  }

  /** No token starts inside a key without `=`: the token's `=` would lie
      past the key, and the stretch up to it would cross the boundary. */
  lemma NoTokenInKey(a: string, t: string)
    requires |a| > 0 && '=' !in a && KeyBoundary(t)
    ensures !IndexTokenAt(a + t)
  {
    var s := a + t;
    TokenSpan(s);
    assert forall m :: 0 <= m < |a| ==> s[m] == a[m];
    assert forall m :: 0 <= m < |t| ==> s[|a| + m] == t[m];
    if StartsWith(t, "%5B") && |t| >= 6 {
      StartsWithChar(t, "%5B", 2);
      assert forall m :: 0 <= m < 6 ==> t[m] == t[..6][m];
    }
  }

  /** Text without `=` is copied as it is when what follows it cannot
      complete a token started inside it. */
  lemma {:induction false} FlattenKeyPrefix(a: string, t: string)
    requires '=' !in a && KeyBoundary(t)
    ensures FlattenIndexed(a + t) == a + FlattenIndexed(t)
    decreases |a|
  {
    if |a| > 0 {
      var s := a + t;
      NoTokenInKey(a, t);
      assert s[1..] == a[1..] + t;
      FlattenKeyPrefix(a[1..], t);
      assert [a[0]] + a[1..] == a;
    } else {
      assert a + t == t;
    }
  }

  /** Every index token holds an `=`. */
  lemma IndexTokenHasEquals(s: string)
    requires IndexTokenAt(s)
    ensures '=' in s
  {
    var k := 3 + DigitRun(s[3..]);
    StartsWithChar(s[k..], "%5D=", 3);
    assert s[k + 3] == s[k..][3];
  }

  /** A body with no `=` has no token in it. */
  lemma {:induction false} FlattenNoEquals(s: string)
    requires '=' !in s
    ensures FlattenIndexed(s) == s
    decreases |s|
  {
    if |s| > 0 {
      assert IndexTokenAt(s) ==> '=' in s by {
        if IndexTokenAt(s) { IndexTokenHasEquals(s); }
      }
      FlattenNoEquals(s[1..]);
      assert s == [s[0]] + s[1..];
    }
  }

  lemma {:induction false} DigitRunOfDigitsThen(d: string, x: string)
    requires AllDigits(d) && (|x| == 0 || !IsDigit(x[0]))
    ensures DigitRun(d + x) == |d|
    decreases |d|
  {
    if |d| > 0 {
      assert (d + x)[1..] == d[1..] + x;
      DigitRunOfDigitsThen(d[1..], x);
    } else {
      assert d + x == x;
    }
  }

  /** How `http_build_query` writes the pair `key[<digits>] = v`. */
  function IndexedPair(k: string, d: string, v: string): string
  {
    k + ("%5B" + (d + ("%5D=" + v)))
  }

  lemma IndexedPairAppend(k: string, d: string, v: string, x: string)
    ensures IndexedPair(k, d, v) + x == IndexedPair(k, d, v + x)
  {
    assert ("%5D=" + v) + x == "%5D=" + (v + x);
    assert (d + ("%5D=" + v)) + x == d + (("%5D=" + v) + x);
    assert ("%5B" + (d + ("%5D=" + v))) + x == "%5B" + ((d + ("%5D=" + v)) + x);
  }

  /** A token starting `s` is replaced by `=`, and the scan resumes after it. */
  lemma FlattenAtToken(s: string)
    requires IndexTokenAt(s)
    ensures 3 + DigitRun(s[3..]) + 4 <= |s|
    ensures FlattenIndexed(s) == "=" + FlattenIndexed(s[3 + DigitRun(s[3..]) + 4..])
  {
  }

  /** `%5B<digits>%5D=` followed by anything is a token that ends before the rest. */
  lemma IndexTokenOfPair(d: string, rest: string)
    requires IndexDigits(d)
    ensures IndexTokenAt("%5B" + (d + ("%5D=" + rest)))
    ensures ("%5B" + (d + ("%5D=" + rest)))[3 + DigitRun(d + ("%5D=" + rest)) + 4..] == rest
  {
    var close := "%5D=" + rest;
    var u := d + close;
    var token := "%5B" + u;
    assert token[..3] == "%5B";
    assert token[3..] == u;
    DigitRunOfDigitsThen(d, close);
    assert u[..|d|] == d;
    assert token[3 + |d|..] == close;
    assert close[..4] == "%5D=";
    assert token[3 + |d| + 4..] == rest;
  }

  /** `%5B`, at least one digit and then `%5D` make a key boundary. */
  lemma OpenTokenBoundary(d: string, close: string)
    requires AllDigits(d) && |d| > 0 && StartsWith(close, "%5D")
    ensures KeyBoundary("%5B" + (d + close))
  {
    var t := "%5B" + (d + close);
    var u := d + close;
    assert t[..3] == "%5B";
    forall m | 3 <= m < 6
      ensures t[m] != '='
    {
      assert t[m] == u[m - 3];
      if m - 3 < |d| {
        assert u[m - 3] == d[m - 3];
      } else {
        StartsWithChar(close, "%5D", m - 3 - |d|);
        assert u[m - 3] == close[m - 3 - |d|];
      }
    }
  }

  /** The index token that `http_build_query` writes for `key[i]` becomes `=`. */
  lemma IndexTokenRewritten(k: string, d: string, rest: string)
    requires '=' !in k && IndexDigits(d)
    ensures FlattenIndexed(IndexedPair(k, d, rest)) == k + "=" + FlattenIndexed(rest)
  {
    var token := "%5B" + (d + ("%5D=" + rest));
    OpenTokenBoundary(d, "%5D=" + rest);
    FlattenKeyPrefix(k, token);
    IndexTokenOfPair(d, rest);
    assert token[3..] == d + ("%5D=" + rest);
    FlattenAtToken(token);
  }

  /** The closing `%5D=` on its own is not a token. */
  lemma CloseBracketKept(rest: string)
    ensures FlattenIndexed("%5D=" + rest) == "%5D=" + FlattenIndexed(rest)
  {
    var close := "%5D=" + rest;
    assert close[..3] == "%5D" != "%5B";
    assert !IndexTokenAt(close);
    assert close[1..] == "5D=" + rest;
    FlattenPlainPrefix("5D=", rest);
  }

  lemma LeadingZeroNotToken(d: string, close: string)
    requires AllDigits(d) && |d| > 1 && d[0] == '0'
    requires |close| > 0 && close[0] == '%'
    ensures !IndexTokenAt("%5B" + (d + close))
  {
    var token := "%5B" + (d + close);
    assert token[3..] == d + close;
    DigitRunOfDigitsThen(d, close);
    assert (d + close)[..|d|] == d;
  }

  /** Where no token starts, the first character is copied. */
  lemma FlattenNotToken(s: string)
    requires |s| > 0 && !IndexTokenAt(s)
    ensures FlattenIndexed(s) == [s[0]] + FlattenIndexed(s[1..])
  {
  }

  lemma OpenBracketSplit(d: string, x: string)
    ensures ['%'] + (("5B" + d) + x) == "%5B" + (d + x)
    ensures ("%5B" + (d + x))[1..] == ("5B" + d) + x
  {
  }

  lemma NoPercentAfterOpen(d: string)
    requires AllDigits(d)
    ensures '%' !in "5B" + d
  {
    var tail := "5B" + d;
    assert forall i :: 2 <= i < |tail| ==> tail[i] == d[i - 2];
  }

  /** With a leading zero the opening `%5B` and the digits are copied. */
  lemma LeadingZeroOpenKept(d: string, close: string)
    requires AllDigits(d) && |d| > 1 && d[0] == '0'
    requires |close| > 0 && close[0] == '%'
    ensures FlattenIndexed("%5B" + (d + close)) == "%5B" + (d + FlattenIndexed(close))
  {
    var token := "%5B" + (d + close);
    LeadingZeroNotToken(d, close);
    FlattenNotToken(token);
    NoPercentAfterOpen(d);
    OpenBracketSplit(d, close);
    FlattenPlainPrefix("5B" + d, close);
    OpenBracketSplit(d, FlattenIndexed(close));
  }

  /** An index with a leading zero, such as `01`, is not a token and stays. */
  lemma LeadingZeroIndexKept(k: string, d: string, rest: string)
    requires '=' !in k && AllDigits(d) && |d| > 1 && d[0] == '0'
    ensures FlattenIndexed(IndexedPair(k, d, rest)) == IndexedPair(k, d, FlattenIndexed(rest))
  {
    var close := "%5D=" + rest;
    OpenTokenBoundary(d, close);
    FlattenKeyPrefix(k, "%5B" + (d + close));
    LeadingZeroOpenKept(d, close);
    CloseBracketKept(rest);
  }

  /** `key[i]=v0&key[i+1]=v1&...` as encoded. */
  function IndexedPairs(k: string, vs: seq<string>, start: nat): seq<string>
    decreases |vs|
  {
    if |vs| == 0 then [] else [IndexedPair(k, NatToDec(start), vs[0])] + IndexedPairs(k, vs[1..], start + 1)
  }

  /** `key=v0&key=v1&...`: the repeated-parameter form of an array. */
  function RepeatedPairs(k: string, vs: seq<string>): seq<string>
    decreases |vs|
  {
    if |vs| == 0 then [] else [k + "=" + vs[0]] + RepeatedPairs(k, vs[1..])
  }

  /** One encoded pair, its `&` and whatever follows: the pair is rewritten
      and the scan goes on after the `&`. */
  lemma PairThenRest(k: string, d: string, v: string, rest: string)
    requires '=' !in k && IndexDigits(d) && '=' !in v
    ensures FlattenIndexed(IndexedPair(k, d, v) + "&" + rest) == k + "=" + v + "&" + FlattenIndexed(rest)
  {
    var head := v + "&";
    IndexedPairAppend(k, d, v, "&");
    IndexedPairAppend(k, d, head, rest);
    IndexTokenRewritten(k, d, head + rest);
    assert head + rest == v + ("&" + rest);
    FlattenKeyPrefix(v, "&" + rest);
    var amp := "&" + rest;
    assert !StartsWith(amp, "%5B") by {
      assert |amp| >= 3 ==> amp[..3][0] == amp[0] == '&';
    }
    FlattenNotToken(amp);
    assert amp[1..] == rest;
  }

  lemma ImplodeIndexedPairs(k: string, vs: seq<string>, start: nat)
    requires |vs| > 1
    ensures Implode(IndexedPairs(k, vs, start), "&")
      == IndexedPair(k, NatToDec(start), vs[0]) + "&" + Implode(IndexedPairs(k, vs[1..], start + 1), "&")
    ensures Implode(RepeatedPairs(k, vs), "&") == k + "=" + vs[0] + "&" + Implode(RepeatedPairs(k, vs[1..]), "&")
  {
    assert IndexedPairs(k, vs, start)[1..] == IndexedPairs(k, vs[1..], start + 1);
    assert RepeatedPairs(k, vs)[1..] == RepeatedPairs(k, vs[1..]);
  }

  /** An encoded list parameter is sent as the same key repeated once per value. */
  lemma {:induction false} FlattenRepeatedKey(k: string, vs: seq<string>, start: nat)
    requires '=' !in k
    requires forall i :: 0 <= i < |vs| ==> '=' !in vs[i]
    ensures FlattenIndexed(Implode(IndexedPairs(k, vs, start), "&")) == Implode(RepeatedPairs(k, vs), "&")
    decreases |vs|
  {
    if |vs| > 0 {
      var d := NatToDec(start);
      assert IndexDigits(d);
      if |vs| == 1 {
        assert IndexedPairs(k, vs, start) == [IndexedPair(k, d, vs[0])];
        IndexTokenRewritten(k, d, vs[0]);
        FlattenKeyPrefix(vs[0], "");
        assert vs[0] + "" == vs[0];
      } else {
        FlattenRepeatedKey(k, vs[1..], start + 1);
        ImplodeIndexedPairs(k, vs, start);
        PairThenRest(k, d, vs[0], Implode(IndexedPairs(k, vs[1..], start + 1), "&"));
      }
    }
  }
}
