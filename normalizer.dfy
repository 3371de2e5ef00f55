/**
 * Turning an error body into readable one-piece text (`clean_html`) and
 * masking the API key (`hide_pass`).
 *
 * `clean_html` is a chain of regular-expression and string replacements;
 * each link is a function here, written the way PCRE walks the subject
 * (leftmost match first, then on past it).
 */
module Normalizer {
  import opened PhpString

  // ---------------------------------------------------------------------
  // Predicates on the text

  /** No `a` is immediately followed by `b`. */
  predicate NoPair(s: string, a: char, b: char)
  {
    forall i :: 0 <= i < |s| - 1 ==> !(s[i] == a && s[i + 1] == b)
  }

  /** Never three of `c` in a row. */
  predicate NoTriple(s: string, c: char)
  {
    forall i :: 0 <= i < |s| - 2 ==> !(s[i] == c && s[i + 1] == c && s[i + 2] == c)
  }

  lemma NoPairCons(c: char, t: string, a: char, b: char)
    ensures NoPair([c] + t, a, b) <==> NoPair(t, a, b) && !(c == a && |t| > 0 && t[0] == b)
  {
    var s := [c] + t;
    if NoPair(s, a, b) {
      forall i | 0 <= i < |t| - 1 ensures !(t[i] == a && t[i + 1] == b) {
        assert s[i + 1] == t[i] && s[i + 2] == t[i + 1];
      }
      if |t| > 0 {
        assert s[0] == c && s[1] == t[0];
      }
    }
    if NoPair(t, a, b) && !(c == a && |t| > 0 && t[0] == b) {
      forall i | 0 <= i < |s| - 1 ensures !(s[i] == a && s[i + 1] == b) {
        if i > 0 {
          assert s[i] == t[i - 1] && s[i + 1] == t[i];
        } else {
          assert s[0] == c && s[1] == t[0];
        }
      }
    }
  }

  lemma NoTripleCons(c: char, t: string, d: char)
    ensures NoTriple([c] + t, d) <==> NoTriple(t, d) && !(c == d && |t| > 1 && t[0] == d && t[1] == d)
  {
    var s := [c] + t;
    if NoTriple(s, d) {
      forall i | 0 <= i < |t| - 2 ensures !(t[i] == d && t[i + 1] == d && t[i + 2] == d) {
        assert s[i + 1] == t[i] && s[i + 2] == t[i + 1] && s[i + 3] == t[i + 2];
      }
      if |t| > 1 {
        assert s[0] == c && s[1] == t[0] && s[2] == t[1];
      }
    }
    if NoTriple(t, d) && !(c == d && |t| > 1 && t[0] == d && t[1] == d) {
      forall i | 0 <= i < |s| - 2 ensures !(s[i] == d && s[i + 1] == d && s[i + 2] == d) {
        if i > 0 {
          assert s[i] == t[i - 1] && s[i + 1] == t[i] && s[i + 2] == t[i + 1];
        } else {
          assert s[0] == c && s[1] == t[0] && s[2] == t[1];
        }
      }
    }
  }

  lemma NoPairSlice(s: string, a: char, b: char, i: nat, j: nat)
    requires i <= j <= |s| && NoPair(s, a, b)
    ensures NoPair(s[i..j], a, b)
  {
    var t := s[i..j];
    forall k | 0 <= k < |t| - 1 ensures !(t[k] == a && t[k + 1] == b) {
      assert t[k] == s[i + k] && t[k + 1] == s[i + k + 1];
    }
  }

  lemma NoTripleSlice(s: string, c: char, i: nat, j: nat)
    requires i <= j <= |s| && NoTriple(s, c)
    ensures NoTriple(s[i..j], c)
  {
    var t := s[i..j];
    forall k | 0 <= k < |t| - 2 ensures !(t[k] == c && t[k + 1] == c && t[k + 2] == c) {
      assert t[k] == s[i + k] && t[k + 1] == s[i + k + 1] && t[k + 2] == s[i + k + 2];
    }
  }

  // ---------------------------------------------------------------------
  // Body extraction: preg_replace('|</body>.*$|ims', '') and then
  // preg_replace('|^.*<body[^>]*>|ims', '')

  /** ASCII case folding, as PCRE's `i` flag does without the `u` flag. */
  function Lower(c: char): char
  {
    if 'A' <= c <= 'Z' then (c as int + 32) as char else c
  }

  /** `s` starts with the lower-case pattern `p`, ignoring ASCII case. */
  predicate StartsWithCI(s: string, p: string)
  {
    |p| <= |s| && forall i :: 0 <= i < |p| ==> Lower(s[i]) == p[i]
  }

  lemma TailSuffixes(s: string)
    requires |s| > 0
    ensures forall i :: 1 <= i <= |s| ==> s[1..][i - 1..] == s[i..]
  {
  }

  /** Everything before the first `</body>` (any case); the whole text when there is none. */
  function CutAtBodyEnd(s: string): (r: string)
    ensures |r| <= |s| && r == s[..|r|]
    ensures forall i :: 0 <= i < |r| ==> !StartsWithCI(s[i..], "</body>")
    ensures |r| < |s| ==> StartsWithCI(s[|r|..], "</body>")
    decreases |s|
  {
    if |s| == 0 then s
    else if StartsWithCI(s, "</body>") then ""
    else
      var t := CutAtBodyEnd(s[1..]);
      TailSuffixes(s);
      [s[0]] + t
  }

  /** `[^>]*>`: what follows the first `>`, if there is one. */
  function AfterTagClose(s: string): (r: Option<string>)
    ensures r.Some? ==> |r.value| < |s| && r.value == s[|s| - |r.value|..]
    ensures r.None? <==> '>' !in s
    decreases |s|
  {
    if |s| == 0 then None
    else if s[0] == '>' then Some(s[1..])
    else
      var r := AfterTagClose(s[1..]);
      assert r.None? ==> s == [s[0]] + s[1..];
      r
  }

  /** `<body[^>]*>` matches at the start of `s`. */
  predicate BodyTagAt(s: string)
  {
    StartsWithCI(s, "<body") && AfterTagClose(s[5..]).Some?
  }

  /** The text after the last complete `<body ...>` tag: `^.*` is greedy, so
      PCRE settles on the rightmost tag. */
  function AfterLastBodyTag(s: string): (r: Option<string>)
    ensures r.Some? ==> |r.value| < |s| && r.value == s[|s| - |r.value|..]
    decreases |s|
  {
    if |s| == 0 then None
    else
      match AfterLastBodyTag(s[1..])
      case Some(r) => Some(r)
      case None => if BodyTagAt(s) then AfterTagClose(s[5..]) else None
  }

  /** No body tag found exactly when none starts anywhere in the text. */
  lemma {:induction false} AfterLastBodyTagNone(s: string)
    ensures AfterLastBodyTag(s).None? <==> forall i :: 0 <= i < |s| ==> !BodyTagAt(s[i..])
    decreases |s|
  {
    if |s| > 0 {
      AfterLastBodyTagNone(s[1..]);
      assert forall i :: 1 <= i < |s| ==> s[1..][i - 1..] == s[i..];
      assert s[0..] == s;
    }
  }

  /** The kept text holds no complete body tag: the one removed was the last. */
  lemma {:induction false} AfterLastBodyTagIsLast(s: string)
    requires AfterLastBodyTag(s).Some?
    ensures forall i :: 0 <= i < |AfterLastBodyTag(s).value| ==> !BodyTagAt(AfterLastBodyTag(s).value[i..])
    decreases |s|
  {
    var r := AfterLastBodyTag(s).value;
    if AfterLastBodyTag(s[1..]).Some? {
      AfterLastBodyTagIsLast(s[1..]);
    } else {
      AfterLastBodyTagNone(s[1..]);
      var k := |s| - |r|;
      assert k >= 1;
      forall i | 0 <= i < |r| ensures !BodyTagAt(r[i..]) {
        assert r[i..] == s[1..][k - 1 + i..];
      }
    }
  }

  function CutBeforeBody(s: string): (r: string)
    ensures |r| <= |s| && r == s[|s| - |r|..]
  {
    match AfterLastBodyTag(s)
    case Some(r) => r
    case None => s
  }

  // ---------------------------------------------------------------------
  // strip_tags, modelled as removal of every `<...>` span (an unclosed `<`
  // removes the rest of the text)

  function StripTags(s: string): (r: string)
    ensures '<' !in r && |r| <= |s|
    decreases |s|
  {
    if |s| == 0 then s
    else if s[0] == '<' then
      match AfterTagClose(s[1..])
      case Some(rest) => StripTags(rest)
      case None => ""
    else [s[0]] + StripTags(s[1..])
  }

  /** Text without `<` passes through unchanged. */
  lemma {:induction false} StripTagsPlainText(s: string)
    requires '<' !in s
    ensures StripTags(s) == s
    decreases |s|
  {
    if |s| > 0 {
      StripTagsPlainText(s[1..]);
      assert s == [s[0]] + s[1..];
    }
  }

  // ---------------------------------------------------------------------
  // Whitespace

  const NoBreakSpace: char := '\U{00A0}'

  /** preg_replace('/ +/', ' '): every run of spaces becomes one space. */
  function CollapseSpaces(s: string): (r: string)
    ensures |r| <= |s|
    ensures |s| > 0 ==> |r| > 0 && r[0] == s[0]
    decreases |s|
  {
    if |s| == 0 then s
    else if s[0] == ' ' && |s| > 1 && s[1] == ' ' then CollapseSpaces(s[1..])
    else [s[0]] + CollapseSpaces(s[1..])
  }

  /** preg_replace('/^ +/m', ''): spaces at the start of the text or right
      after a line feed are dropped. `atLineStart` says whether the text
      handed in begins a line. */
  function StripLineStarts(s: string, atLineStart: bool): (r: string)
    ensures |r| <= |s|
    ensures !atLineStart && |s| > 0 ==> |r| > 0 && r[0] == s[0]
    decreases |s|
  {
    if |s| == 0 then s
    else if atLineStart && s[0] == ' ' then StripLineStarts(s[1..], true)
    else [s[0]] + StripLineStarts(s[1..], s[0] == '\n')
  }

  /** preg_replace('/ +$/m', ''): spaces right before a line feed or at the
      end of the text are dropped. */
  function StripLineEnds(s: string): (r: string)
    ensures |r| <= |s|
    ensures |s| > 0 && s[0] != ' ' ==> |r| > 0 && r[0] == s[0]
    decreases |s|
  {
    if |s| == 0 then s
    else
      var t := StripLineEnds(s[1..]);
      if s[0] == ' ' && (|t| == 0 || t[0] == '\n') then t else [s[0]] + t
  }

  /** preg_replace('/\n{3,}/', "\n\n"): a run of three or more line feeds
      becomes exactly two. */
  function CollapseNewlines(s: string): (r: string)
    ensures |r| <= |s|
    ensures |s| > 0 ==> |r| > 0 && r[0] == s[0]
    decreases |s|
  {
    if |s| == 0 then s
    else if |s| >= 3 && s[0] == '\n' && s[1] == '\n' && s[2] == '\n' then CollapseNewlines(s[1..])
    else [s[0]] + CollapseNewlines(s[1..])
  }

  /** The text of the body part of a page: tags dropped, non-breaking
      spaces (as entities or as characters) made plain spaces. */
  function PageText(html: string): string
  {
    var body := CutBeforeBody(CutAtBodyEnd(html));
    ReplaceAll(ReplaceAll(StripTags(body), "&nbsp;", " "), [NoBreakSpace], " ")
  }

  /** The whitespace rules of `clean_html`, in their order: runs of spaces,
      spaces at line starts and at line ends, then runs of line breaks. */
  function SquashWhitespace(text: string): string
  {
    var s3 := CollapseSpaces(text);
    var s4 := StripLineStarts(s3, true);
    var s5 := StripLineEnds(s4);
    CollapseNewlines(CollapseNewlines(s5))
  }

  /** `clean_html($html)`. */
  function CleanHtml(html: string): string
  {
    Trim(SquashWhitespace(PageText(html)))
  }

  // ---------------------------------------------------------------------
  // What each whitespace step guarantees

  lemma {:induction false} CollapseSpacesNoDouble(s: string)
    ensures NoPair(CollapseSpaces(s), ' ', ' ')
    decreases |s|
  {
    if |s| > 0 {
      CollapseSpacesNoDouble(s[1..]);
      if !(s[0] == ' ' && |s| > 1 && s[1] == ' ') {
        NoPairCons(s[0], CollapseSpaces(s[1..]), ' ', ' ');
      }
    }
  }

  lemma {:induction false} StripLineStartsShape(s: string, atLineStart: bool)
    requires NoPair(s, ' ', ' ')
    ensures atLineStart && |StripLineStarts(s, atLineStart)| > 0 ==> StripLineStarts(s, atLineStart)[0] != ' '
    ensures NoPair(StripLineStarts(s, atLineStart), '\n', ' ')
    ensures NoPair(StripLineStarts(s, atLineStart), ' ', ' ')
    decreases |s|
  {
    if |s| > 0 {
      NoPairSlice(s, ' ', ' ', 1, |s|);
      StripLineStartsShape(s[1..], s[0] == '\n');
      StripLineStartsShape(s[1..], true);
      if !(atLineStart && s[0] == ' ') {
        var t := StripLineStarts(s[1..], s[0] == '\n');
        NoPairCons(s[0], t, '\n', ' ');
        NoPairCons(s[0], t, ' ', ' ');
        NoPairCons(s[0], s[1..], ' ', ' ');
      }
    }
  }

  lemma {:induction false} StripLineEndsShape(s: string)
    requires NoPair(s, ' ', ' ') && NoPair(s, '\n', ' ')
    ensures NoPair(StripLineEnds(s), ' ', '\n')
    ensures NoPair(StripLineEnds(s), ' ', ' ')
    ensures NoPair(StripLineEnds(s), '\n', ' ')
    decreases |s|
  {
    if |s| > 0 {
      NoPairSlice(s, ' ', ' ', 1, |s|);
      NoPairSlice(s, '\n', ' ', 1, |s|);
      StripLineEndsShape(s[1..]);
      var t := StripLineEnds(s[1..]);
      if !(s[0] == ' ' && (|t| == 0 || t[0] == '\n')) {
        NoPairCons(s[0], t, ' ', '\n');
        NoPairCons(s[0], t, ' ', ' ');
        NoPairCons(s[0], t, '\n', ' ');
        NoPairCons(s[0], s[1..], ' ', ' ');
        NoPairCons(s[0], s[1..], '\n', ' ');
      }
    }
  }

  /** The first two characters survive unless the text opens with three line feeds. */
  lemma CollapseNewlinesPrefix(s: string)
    requires |s| >= 2 && !(|s| >= 3 && s[0] == '\n' && s[1] == '\n' && s[2] == '\n')
    ensures |CollapseNewlines(s)| >= 2
    ensures CollapseNewlines(s)[0] == s[0] && CollapseNewlines(s)[1] == s[1]
  {
  }

  lemma {:induction false} CollapseNewlinesShape(s: string, a: char, b: char)
    requires NoPair(s, a, b)
    ensures NoTriple(CollapseNewlines(s), '\n')
    ensures NoPair(CollapseNewlines(s), a, b)
    decreases |s|
  {
    if |s| > 0 {
      NoPairSlice(s, a, b, 1, |s|);
      CollapseNewlinesShape(s[1..], a, b);
      if !(|s| >= 3 && s[0] == '\n' && s[1] == '\n' && s[2] == '\n') {
        var t := CollapseNewlines(s[1..]);
        NoPairCons(s[0], t, a, b);
        NoPairCons(s[0], s[1..], a, b);
        NoTripleCons(s[0], t, '\n');
        if |s| >= 3 && s[0] == '\n' && s[1] == '\n' {
          CollapseNewlinesPrefix(s[1..]);
        }
      }
    }
  }

  /** A second pass of the line-feed collapse changes nothing. */
  lemma {:induction false} CollapseNewlinesIdempotent(s: string)
    requires NoTriple(s, '\n')
    ensures CollapseNewlines(s) == s
    decreases |s|
  {
    if |s| > 0 {
      NoTripleSlice(s, '\n', 1, |s|);
      CollapseNewlinesIdempotent(s[1..]);
      assert s == [s[0]] + s[1..];
    }
  }

  /** After the whitespace rules no two blanks touch and no three line breaks follow each other. */
  lemma SquashWhitespaceShape(text: string)
    ensures var r := SquashWhitespace(text);
      && NoPair(r, ' ', ' ') && NoPair(r, '\n', ' ') && NoPair(r, ' ', '\n') && NoTriple(r, '\n')
  {
    var s3 := CollapseSpaces(text);
    var s4 := StripLineStarts(s3, true);
    var s5 := StripLineEnds(s4);
    var c1 := CollapseNewlines(s5);
    CollapseSpacesNoDouble(text);
    StripLineStartsShape(s3, true);
    StripLineEndsShape(s4);
    CollapseNewlinesShape(s5, ' ', ' ');
    CollapseNewlinesShape(s5, '\n', ' ');
    CollapseNewlinesShape(s5, ' ', '\n');
    CollapseNewlinesIdempotent(c1);
  }

  /** Trimming keeps those properties and leaves no whitespace at either end. */
  lemma TrimKeepsShape(s: string)
    requires NoPair(s, ' ', ' ') && NoPair(s, '\n', ' ') && NoPair(s, ' ', '\n') && NoTriple(s, '\n')
    ensures var r := Trim(s);
      && (|r| > 0 ==> !IsTrimChar(r[0]) && !IsTrimChar(r[|r| - 1]))
      && NoPair(r, ' ', ' ') && NoPair(r, '\n', ' ') && NoPair(r, ' ', '\n') && NoTriple(r, '\n')
  {
    var i, j := TrimIsSlice(s);
    NoPairSlice(s, ' ', ' ', i, j);
    NoPairSlice(s, '\n', ' ', i, j);
    NoPairSlice(s, ' ', '\n', i, j);
    NoTripleSlice(s, '\n', i, j);
  }

  /** What `clean_html` returns has no whitespace at either end, no two
      blanks side by side and never three line breaks in a row. */
  lemma CleanHtmlShape(html: string)
    ensures var r := CleanHtml(html);
      && (|r| > 0 ==> !IsTrimChar(r[0]) && !IsTrimChar(r[|r| - 1]))
      && NoPair(r, ' ', ' ')
      && NoPair(r, '\n', ' ') && NoPair(r, ' ', '\n')
      && NoTriple(r, '\n')
  {
    SquashWhitespaceShape(PageText(html));
    TrimKeepsShape(SquashWhitespace(PageText(html)));
  }

  // ---------------------------------------------------------------------
  // Cleaning cleaned text changes nothing

  /** Text with nothing left for the tag and entity rules: no `<`, no
      non-breaking space and no `&nbsp;`. */
  predicate Plain(s: string)
  {
    '<' !in s && NoBreakSpace !in s && !Occurs(s, "&nbsp;")
  }

  /** No blank (space or line feed) in `q`. */
  predicate NoBlank(q: string)
  {
    ' ' !in q && '\n' !in q
  }

  /** `t` is plain when its every occurrence of `<`, of a non-breaking
      space and of `&nbsp;` comes from the plain `s`. */
  lemma PlainStep(s: string, t: string)
    requires Plain(s)
    requires Occurs(t, "<") ==> Occurs(s, "<")
    requires Occurs(t, [NoBreakSpace]) ==> Occurs(s, [NoBreakSpace])
    requires Occurs(t, "&nbsp;") ==> Occurs(s, "&nbsp;")
    ensures Plain(t)
  {
    OccursChar(s, '<');
    OccursChar(t, '<');
    OccursChar(s, NoBreakSpace);
    OccursChar(t, NoBreakSpace);
  }

  /** The spaces put in for `&nbsp;` and for non-breaking spaces leave the
      text plain once the tags are gone. */
  lemma PageTextPlain(html: string)
    ensures Plain(PageText(html))
  {
    var t := StripTags(CutBeforeBody(CutAtBodyEnd(html)));
    var s1 := ReplaceAll(t, "&nbsp;", " ");
    var s2 := ReplaceAll(s1, [NoBreakSpace], " ");
    OccursChar(t, '<');
    ReplacedOccursPullback(t, "&nbsp;", " ", "<");
    ReplaceAllRemoves(t, "&nbsp;", " ");
    ReplacedOccursPullback(s1, [NoBreakSpace], " ", "<");
    ReplacedOccursPullback(s1, [NoBreakSpace], " ", "&nbsp;");
    ReplaceAllRemoves(s1, [NoBreakSpace], " ");
    OccursChar(s2, '<');
    OccursChar(s2, NoBreakSpace);
  }

  lemma {:induction false} CollapseSpacesPrefix(s: string, q: string)
    requires NoBlank(q)
    ensures StartsWith(CollapseSpaces(s), q) ==> StartsWith(s, q)
    decreases |s|
  {
    if |s| > 0 && |q| > 0 && !(s[0] == ' ' && |s| > 1 && s[1] == ' ') {
      CollapseSpacesPrefix(s[1..], q[1..]);
      StartsWithCons(s[0], CollapseSpaces(s[1..]), q);
      StartsWithCons(s[0], s[1..], q);
      assert s == [s[0]] + s[1..];
    }
  }

  lemma {:induction false} CollapseSpacesOccurs(s: string, q: string)
    requires |q| > 0 && NoBlank(q)
    ensures Occurs(CollapseSpaces(s), q) ==> Occurs(s, q)
    decreases |s|
  {
    if |s| == 0 {
      OccursEmpty(q);
    } else {
      CollapseSpacesOccurs(s[1..], q);
      OccursCons(s[0], s[1..], q);
      assert s == [s[0]] + s[1..];
      if !(s[0] == ' ' && |s| > 1 && s[1] == ' ') {
        OccursCons(s[0], CollapseSpaces(s[1..]), q);
        CollapseSpacesPrefix(s, q);
      }
    }
  }

  lemma {:induction false} StripLineStartsPrefix(s: string, atLineStart: bool, q: string)
    requires NoBlank(q)
    requires atLineStart && |s| > 0 ==> s[0] != ' '
    ensures StartsWith(StripLineStarts(s, atLineStart), q) ==> StartsWith(s, q)
    decreases |s|
  {
    if |s| > 0 && |q| > 0 {
      var t := StripLineStarts(s[1..], s[0] == '\n');
      StartsWithCons(s[0], t, q);
      StartsWithCons(s[0], s[1..], q);
      assert s == [s[0]] + s[1..];
      if s[0] != '\n' {
        StripLineStartsPrefix(s[1..], false, q[1..]);
      }
    }
  }

  lemma {:induction false} StripLineStartsOccurs(s: string, atLineStart: bool, q: string)
    requires |q| > 0 && NoBlank(q)
    ensures Occurs(StripLineStarts(s, atLineStart), q) ==> Occurs(s, q)
    decreases |s|
  {
    if |s| == 0 {
      OccursEmpty(q);
    } else {
      OccursCons(s[0], s[1..], q);
      assert s == [s[0]] + s[1..];
      if atLineStart && s[0] == ' ' {
        StripLineStartsOccurs(s[1..], true, q);
      } else {
        StripLineStartsOccurs(s[1..], s[0] == '\n', q);
        OccursCons(s[0], StripLineStarts(s[1..], s[0] == '\n'), q);
        StripLineStartsPrefix(s, atLineStart, q);
      }
    }
  }

  lemma {:induction false} StripLineEndsPrefix(s: string, q: string)
    requires NoBlank(q)
    ensures StartsWith(StripLineEnds(s), q) ==> StartsWith(s, q)
    decreases |s|
  {
    if |s| > 0 && |q| > 0 {
      var t := StripLineEnds(s[1..]);
      if !(s[0] == ' ' && (|t| == 0 || t[0] == '\n')) {
        StripLineEndsPrefix(s[1..], q[1..]);
        StartsWithCons(s[0], t, q);
        StartsWithCons(s[0], s[1..], q);
        assert s == [s[0]] + s[1..];
      }
    }
  }

  lemma {:induction false} StripLineEndsOccurs(s: string, q: string)
    requires |q| > 0 && NoBlank(q)
    ensures Occurs(StripLineEnds(s), q) ==> Occurs(s, q)
    decreases |s|
  {
    if |s| == 0 {
      OccursEmpty(q);
    } else {
      var t := StripLineEnds(s[1..]);
      StripLineEndsOccurs(s[1..], q);
      OccursCons(s[0], s[1..], q);
      assert s == [s[0]] + s[1..];
      if !(s[0] == ' ' && (|t| == 0 || t[0] == '\n')) {
        OccursCons(s[0], t, q);
        StripLineEndsPrefix(s, q);
      }
    }
  }

  lemma {:induction false} CollapseNewlinesPrefixOf(s: string, q: string)
    requires NoBlank(q)
    ensures StartsWith(CollapseNewlines(s), q) ==> StartsWith(s, q)
    decreases |s|
  {
    if |s| > 0 && |q| > 0 && !(|s| >= 3 && s[0] == '\n' && s[1] == '\n' && s[2] == '\n') {
      CollapseNewlinesPrefixOf(s[1..], q[1..]);
      StartsWithCons(s[0], CollapseNewlines(s[1..]), q);
      StartsWithCons(s[0], s[1..], q);
      assert s == [s[0]] + s[1..];
    }
  }

  lemma {:induction false} CollapseNewlinesOccurs(s: string, q: string)
    requires |q| > 0 && NoBlank(q)
    ensures Occurs(CollapseNewlines(s), q) ==> Occurs(s, q)
    decreases |s|
  {
    if |s| == 0 {
      OccursEmpty(q);
    } else {
      CollapseNewlinesOccurs(s[1..], q);
      OccursCons(s[0], s[1..], q);
      assert s == [s[0]] + s[1..];
      if !(|s| >= 3 && s[0] == '\n' && s[1] == '\n' && s[2] == '\n') {
        OccursCons(s[0], CollapseNewlines(s[1..]), q);
        CollapseNewlinesPrefixOf(s, q);
      }
    }
  }

  /** The whitespace rules and the final trim keep plain text plain: they
      only drop blanks, and never the one blank that stands between two
      other characters. */
  lemma SquashKeepsPlain(text: string)
    requires Plain(text)
    ensures Plain(Trim(SquashWhitespace(text)))
  {
    var s3 := CollapseSpaces(text);
    var s4 := StripLineStarts(s3, true);
    var s5 := StripLineEnds(s4);
    var c1 := CollapseNewlines(s5);
    var c2 := CollapseNewlines(c1);
    CollapseSpacesOccurs(text, "<");
    CollapseSpacesOccurs(text, [NoBreakSpace]);
    CollapseSpacesOccurs(text, "&nbsp;");
    PlainStep(text, s3);
    StripLineStartsOccurs(s3, true, "<");
    StripLineStartsOccurs(s3, true, [NoBreakSpace]);
    StripLineStartsOccurs(s3, true, "&nbsp;");
    PlainStep(s3, s4);
    StripLineEndsOccurs(s4, "<");
    StripLineEndsOccurs(s4, [NoBreakSpace]);
    StripLineEndsOccurs(s4, "&nbsp;");
    PlainStep(s4, s5);
    CollapseNewlinesOccurs(s5, "<");
    CollapseNewlinesOccurs(s5, [NoBreakSpace]);
    CollapseNewlinesOccurs(s5, "&nbsp;");
    PlainStep(s5, c1);
    CollapseNewlinesOccurs(c1, "<");
    CollapseNewlinesOccurs(c1, [NoBreakSpace]);
    CollapseNewlinesOccurs(c1, "&nbsp;");
    PlainStep(c1, c2);
    var i, j := TrimIsSlice(c2);
    OccursSlice(c2, i, j, "<");
    OccursSlice(c2, i, j, [NoBreakSpace]);
    OccursSlice(c2, i, j, "&nbsp;");
    PlainStep(c2, Trim(c2));
  }

  /** What `clean_html` returns is plain. */
  lemma CleanHtmlPlain(html: string)
    ensures Plain(CleanHtml(html))
  {
    PageTextPlain(html);
    SquashKeepsPlain(PageText(html));
  }

  /** Text without `<` holds no `</body>`, so none of it is cut. */
  lemma CutAtBodyEndUntouched(s: string)
    requires '<' !in s
    ensures CutAtBodyEnd(s) == s
  {
    var c := CutAtBodyEnd(s);
    assert |c| < |s| ==> s[|c|..][0] == s[|c|] && Lower(s[|c|]) != '<';
  }

  /** Text without `<` holds no body tag, so nothing comes off its front. */
  lemma CutBeforeBodyUntouched(s: string)
    requires '<' !in s
    ensures CutBeforeBody(s) == s
  {
    forall i | 0 <= i < |s|
      ensures !BodyTagAt(s[i..])
    {
      assert s[i..][0] == s[i] && Lower(s[i]) != '<';
    }
    AfterLastBodyTagNone(s);
  }

  /** Plain text is its own page text. */
  lemma PageTextOfPlain(s: string)
    requires Plain(s)
    ensures PageText(s) == s
  {
    CutAtBodyEndUntouched(s);
    CutBeforeBodyUntouched(s);
    StripTagsPlainText(s);
    ReplaceAllAbsent(s, "&nbsp;", " ");
    OccursChar(s, NoBreakSpace);
    ReplaceAllAbsent(s, [NoBreakSpace], " ");
  }

  lemma {:induction false} CollapseSpacesFixed(s: string)
    requires NoPair(s, ' ', ' ')
    ensures CollapseSpaces(s) == s
    decreases |s|
  {
    if |s| > 0 {
      NoPairSlice(s, ' ', ' ', 1, |s|);
      CollapseSpacesFixed(s[1..]);
      assert s == [s[0]] + s[1..];
    }
  }

  lemma {:induction false} StripLineStartsFixed(s: string, atLineStart: bool)
    requires NoPair(s, '\n', ' ')
    requires atLineStart && |s| > 0 ==> s[0] != ' '
    ensures StripLineStarts(s, atLineStart) == s
    decreases |s|
  {
    if |s| > 0 {
      NoPairSlice(s, '\n', ' ', 1, |s|);
      StripLineStartsFixed(s[1..], s[0] == '\n');
      assert s == [s[0]] + s[1..];
    }
  }

  lemma {:induction false} StripLineEndsFixed(s: string)
    requires NoPair(s, ' ', '\n')
    requires |s| > 0 ==> s[|s| - 1] != ' '
    ensures StripLineEnds(s) == s
    decreases |s|
  {
    if |s| > 0 {
      NoPairSlice(s, ' ', '\n', 1, |s|);
      StripLineEndsFixed(s[1..]);
      assert s == [s[0]] + s[1..];
    }
  }

  /** Text already in the shape the whitespace rules produce is left alone. */
  lemma SquashWhitespaceFixed(s: string)
    requires NoPair(s, ' ', ' ') && NoPair(s, '\n', ' ') && NoPair(s, ' ', '\n') && NoTriple(s, '\n')
    requires |s| > 0 ==> s[0] != ' ' && s[|s| - 1] != ' '
    ensures SquashWhitespace(s) == s
  {
    CollapseSpacesFixed(s);
    StripLineStartsFixed(s, true);
    StripLineEndsFixed(s);
    CollapseNewlinesIdempotent(s);
  }

  /** `clean_html` is idempotent: cleaning its own output returns it as it is. */
  lemma CleanHtmlIdempotent(html: string)
    ensures CleanHtml(CleanHtml(html)) == CleanHtml(html)
  {
    var r := CleanHtml(html);
    CleanHtmlShape(html);
    CleanHtmlPlain(html);
    PageTextOfPlain(r);
    SquashWhitespaceFixed(r);
    TrimUntouched(r);
  }

  // ---------------------------------------------------------------------
  // hide_pass

  /** `hide_pass`: every occurrence of the API key becomes `***`; with an
      empty key the text is returned as it is. */
  function HidePass(apiKey: string, text: string): string
  {
    ReplaceAll(text, apiKey, "***")
  }

  /** With a non-empty key that holds no `*`, the masked text never
      contains the key. */
  lemma HidePassRemovesKey(key: string, text: string)
    requires |key| > 0 && '*' !in key
    ensures !Occurs(HidePass(key, text), key)
  {
    ReplaceAllRemoves(text, key, "***");
  }

  /** The first occurrence of the key becomes `***`: the text before it is
      kept as it is and the masking goes on after the key. */
  lemma {:induction false} HidePassFirstOccurrence(key: string, a: string, b: string)
    requires |key| > 0
    requires forall i :: 0 <= i < |a| ==> !StartsWith((a + key + b)[i..], key)
    ensures HidePass(key, a + key + b) == a + "***" + HidePass(key, b)
    decreases |a|
  {
    var s := a + key + b;
    if |a| == 0 {
      assert s == key + b;
      assert s[..|key|] == key;
      assert s[|key|..] == b;
    } else {
      assert s[0..] == s;
      var t := a[1..] + key + b;
      assert s[1..] == t;
      forall i | 0 <= i < |a[1..]|
        ensures !StartsWith(t[i..], key)
      {
        assert t[i..] == s[i + 1..];
      }
      HidePassFirstOccurrence(key, a[1..], b);
      assert a == [a[0]] + a[1..];
    }
  }

  /** A text that does not hold the key is returned unchanged. */
  lemma HidePassNoKey(key: string, text: string)
    requires !Occurs(text, key)
    ensures HidePass(key, text) == text
  {
    ReplaceAllAbsent(text, key, "***");
  }

  /** A key that holds `*` can survive the masking: key `a**` in `aa**`. */
  lemma HidePassStarKey()
    ensures HidePass("a**", "aa**") == "a***"
    ensures Occurs(HidePass("a**", "aa**"), "a**")
  {
    var t := "aa**";
    assert !StartsWith(t, "a**");
    assert t[1..] == "a**";
    assert StartsWith(t[1..], "a**");
    assert t[1..][3..] == "";
    assert HidePass("a**", t[1..]) == "***";
    assert HidePass("a**", t) == "a***";
    assert StartsWith("a***"[0..], "a**");
  }
}
