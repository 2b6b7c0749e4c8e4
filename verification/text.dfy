/**
 * Text normalisation of scraped fragments (`clean_text` in scraper/utils.py).
 *
 * Python's `re.sub(r'\s+', ' ', text)` is modelled by `Collapse`, and
 * `str.strip()` by `Strip`.
 * `Words` and `Join` are an independent reference for the result: cleaning
 * a text is the same as `" ".join(text.split())`.
 *
 * The functions carry only quantifier-free contracts; the facts that need
 * quantifiers are separate lemmas, so that they are brought in where used.
 */
module Text {

  import opened Wrappers

  // ---------------------------------------------------------------------------
  // Character classes
  // ---------------------------------------------------------------------------

  /**
   * Whitespace as Python's `str.isspace` (and so `\s`, `str.strip` and
   * `str.split`) sees it: tab to carriage return, the four information
   * separators, space, next line, no-break space, and the Unicode space
   * separators, line separator and paragraph separator.
   */
  predicate IsSpace(c: char) {
    || '\t' <= c <= '\r'
    || '\U{001C}' <= c <= ' '
    || c == '\U{0085}' || c == '\U{00A0}' || c == '\U{1680}'
    || '\U{2000}' <= c <= '\U{200A}'
    || c == '\U{2028}' || c == '\U{2029}' || c == '\U{202F}' || c == '\U{205F}' || c == '\U{3000}'
  }

  /** ASCII decimal digit (`\d` in this model). */
  predicate IsDigit(c: char) {
    '0' <= c <= '9'
  }

  /** ASCII upper-case letter (`[A-Z]`). */
  predicate IsUpper(c: char) {
    'A' <= c <= 'Z'
  }

  /** Every character of `s` is in the class `p`. */
  predicate All(s: string, p: char -> bool) {
    forall i :: 0 <= i < |s| ==> p(s[i])
  }

  predicate NotSpace(c: char) {
    !IsSpace(c)
  }

  predicate AllSpace(s: string) {
    All(s, IsSpace)
  }

  predicate NoSpace(s: string) {
    All(s, NotSpace)
  }

  // ---------------------------------------------------------------------------
  // Trimming and collapsing
  // ---------------------------------------------------------------------------

  /** Drops the leading whitespace (`str.lstrip()`). */
  function TrimLeft(s: string): (r: string)
    ensures |r| <= |s|
    ensures r == [] || !IsSpace(r[0])
    decreases |s|
  {
    if s != [] && IsSpace(s[0]) then TrimLeft(s[1..]) else s
  }

  /** Drops the trailing whitespace (`str.rstrip()`). */
  function TrimRight(s: string): (r: string)
    ensures |r| <= |s|
    ensures r == [] || !IsSpace(r[|r| - 1])
    decreases |s|
  {
    if s != [] && IsSpace(s[|s| - 1]) then TrimRight(s[..|s| - 1]) else s
  }

  /** `str.strip()`: drops whitespace at both ends. */
  function Strip(s: string): (r: string)
    ensures r == [] || (!IsSpace(r[0]) && !IsSpace(r[|r| - 1]))
  {
    var a := TrimLeft(s);
    TrimRightPrefix(a);
    TrimRight(a)
  }

  /**
   * The only whitespace is the plain space, and no two spaces are adjacent:
   * the shape `re.sub(r'\s+', ' ', ...)` leaves behind.
   */
  predicate Collapsed(s: string) {
    && (forall i :: 0 <= i < |s| && IsSpace(s[i]) ==> s[i] == ' ')
    && (forall i :: 0 <= i < |s| - 1 ==> !SpacePair(s, i))
  }

  /** Positions `i` and `i + 1` of `s` both hold a space. */
  predicate SpacePair(s: string, i: nat)
    requires i < |s| - 1
  {
    s[i] == ' ' && s[i + 1] == ' '
  }

  /** A collapsed text that also neither starts nor ends with a space. */
  predicate Normalized(s: string) {
    Collapsed(s) && (s != [] ==> s[0] != ' ' && s[|s| - 1] != ' ')
  }

  /** `re.sub(r'\s+', ' ', s)`: every maximal run of whitespace becomes one space. */
  function Collapse(s: string): (r: string)
    ensures r == [] <==> s == []
    ensures s != [] && IsSpace(s[0]) ==> r[0] == ' '
    ensures s != [] && !IsSpace(s[0]) ==> r[0] == s[0]
    decreases |s|
  {
    if s == [] then []
    else if IsSpace(s[0]) then [' '] + Collapse(TrimLeft(s))
    else [s[0]] + Collapse(s[1..])
  }

  /**
   * `clean_text` on a string (scraper/utils.py): the empty text stays empty,
   * otherwise whitespace runs collapse to one space and the ends are stripped.
   */
  function CleanText(s: string): (r: string)
    ensures s == [] ==> r == []
    ensures r == [] || (!IsSpace(r[0]) && !IsSpace(r[|r| - 1]))
  {
    if s == "" then "" else Strip(Collapse(s))
  }

  /**
   * `clean_text` on an optional string: the result is normalized text with
   * the same words as the input, and it is empty exactly when there is no
   * text or the text is all whitespace.
   */
  function CleanTextOpt(text: Option<string>): (r: string)
    ensures Normalized(r)
    ensures text.Some? ==> Words(r) == Words(text.value)
    ensures r == "" <==> text.None? || AllSpace(text.value)
  {
    match text
    case None => ""
    case Some(s) =>
      CleanTextNormalized(s);
      CleanTextKeepsWords(s);
      CleanTextEmpty(s);
      CleanText(s)
  }

  // ---------------------------------------------------------------------------
  // Reference definition: words and joining
  // ---------------------------------------------------------------------------

  /** Length of the leading run of non-whitespace characters. */
  function WordLen(s: string): (n: nat)
    ensures n <= |s|
    ensures n == |s| || IsSpace(s[n])
    ensures n == 0 <==> s == [] || IsSpace(s[0])
    decreases |s|
  {
    if s == [] || IsSpace(s[0]) then 0 else 1 + WordLen(s[1..])
  }

  /** The whitespace-separated words of `s`, as Python's `s.split()` returns them. */
  function Words(s: string): seq<string>
    decreases |s|
  {
    if s == [] then []
    else if IsSpace(s[0]) then Words(s[1..])
    else
      var n := WordLen(s);
      [s[..n]] + Words(s[n..])
  }

  /** `" ".join(ws)`. */
  function Join(ws: seq<string>): string
  {
    if |ws| == 0 then ""
    else if |ws| == 1 then ws[0]
    else ws[0] + " " + Join(ws[1..])
  }

  // ---------------------------------------------------------------------------
  // Trimming
  // ---------------------------------------------------------------------------

  /** `TrimLeft` removes a prefix made only of whitespace. */
  lemma {:induction false} TrimLeftSuffix(s: string)
    ensures TrimLeft(s) == s[|s| - |TrimLeft(s)|..]
    ensures AllSpace(s[..|s| - |TrimLeft(s)|])
    decreases |s|
  {
    if s != [] && IsSpace(s[0]) {
      TrimLeftSuffix(s[1..]);
      var k := |s| - |TrimLeft(s)|;
      assert s[1..][..k - 1] == s[1..k];
      assert forall i :: 1 <= i < k ==> s[i] == s[1..][..k - 1][i - 1];
    }
  }

  /** `TrimRight` removes a suffix made only of whitespace. */
  lemma {:induction false} TrimRightPrefix(s: string)
    ensures TrimRight(s) == s[..|TrimRight(s)|]
    ensures AllSpace(s[|TrimRight(s)|..])
    decreases |s|
  {
    if s != [] && IsSpace(s[|s| - 1]) {
      var p := s[..|s| - 1];
      TrimRightPrefix(p);
      var k := |TrimRight(s)|;
      assert p[..k] == s[..k];
      assert forall i :: k <= i < |s| - 1 ==> s[i] == p[k..][i - k];
    }
  }

  lemma {:induction false} TrimLeftSpaces(sp: string, x: string)
    requires AllSpace(sp)
    ensures TrimLeft(sp + x) == TrimLeft(x)
    decreases |sp|
  {
    if sp == [] {
      assert sp + x == x;
    } else {
      assert (sp + x)[1..] == sp[1..] + x;
      TrimLeftSpaces(sp[1..], x);
    }
  }

  lemma {:induction false} TrimRightSpaces(x: string, sp: string)
    requires AllSpace(sp) && (x == [] || !IsSpace(x[|x| - 1]))
    ensures TrimRight(x + sp) == x
    decreases |sp|
  {
    if sp == [] {
      assert x + sp == x;
    } else {
      var last := |sp| - 1;
      assert (x + sp)[..|x + sp| - 1] == x + sp[..last];
      TrimRightSpaces(x, sp[..last]);
    }
  }

  /** `Strip` leaves exactly the text between a blank prefix and a blank suffix. */
  lemma StripSplits(s: string)
    ensures exists i, j :: 0 <= i <= j <= |s| && Strip(s) == s[i..j] && AllSpace(s[..i]) && AllSpace(s[j..])
  {
    var a := TrimLeft(s);
    TrimLeftSuffix(s);
    TrimRightPrefix(a);
    var i := |s| - |a|;
    var j := i + |TrimRight(a)|;
    assert Strip(s) == s[i..j];
    assert s[j..] == a[|TrimRight(a)|..];
  }

  /** A cleaned text has nothing left to strip. */
  lemma StripCleanText(s: string)
    ensures Strip(CleanText(s)) == CleanText(s)
  {
    var c := CleanText(s);
    StripPadded([], c, []);
    assert [] + c + [] == c;
  }

  /** Stripping whitespace padding off a text that has no whitespace at its ends gives the text back. */
  lemma StripPadded(lead: string, core: string, trail: string)
    requires AllSpace(lead) && AllSpace(trail)
    requires core == [] || (!IsSpace(core[0]) && !IsSpace(core[|core| - 1]))
    ensures Strip(lead + core + trail) == core
  {
    assert lead + core + trail == lead + (core + trail);
    TrimLeftSpaces(lead, core + trail);
    if core == [] {
      assert core + trail == trail;
      TrimLeftSpaces(trail, []);
      assert trail + [] == trail;
    } else {
      assert (core + trail)[0] == core[0];
    }
    TrimRightSpaces(core, trail);
  }

  // ---------------------------------------------------------------------------
  // The shape of a cleaned text
  // ---------------------------------------------------------------------------

  lemma CollapsedCons(x: char, c: string)
    requires Collapsed(c)
    requires IsSpace(x) ==> x == ' '
    requires x == ' ' && c != [] ==> c[0] != ' '
    ensures Collapsed([x] + c)
  {
    var r := [x] + c;
    forall i | 0 <= i < |r| - 1
      ensures !SpacePair(r, i)
    {
      if i > 0 {
        assert r[i] == c[i - 1] && r[i + 1] == c[i];
        assert !SpacePair(c, i - 1);
      }
    }
  }

  lemma CollapsedSlice(t: string, i: nat, j: nat)
    requires Collapsed(t) && i <= j <= |t|
    ensures Collapsed(t[i..j])
  {
    var r := t[i..j];
    forall k | 0 <= k < |r| - 1
      ensures !SpacePair(r, k)
    {
      assert r[k] == t[i + k] && r[k + 1] == t[i + k + 1];
      assert !SpacePair(t, i + k);
    }
  }

  /** Collapsing leaves only plain spaces, never two in a row. */
  lemma {:induction false} CollapseCollapsed(s: string)
    ensures Collapsed(Collapse(s))
    decreases |s|
  {
    if s == [] {
    } else if IsSpace(s[0]) {
      var t := TrimLeft(s);
      CollapseCollapsed(t);
      CollapsedCons(' ', Collapse(t));
    } else {
      CollapseCollapsed(s[1..]);
      CollapsedCons(s[0], Collapse(s[1..]));
    }
  }

  lemma TrimLeftCollapsed(t: string)
    requires Collapsed(t)
    ensures Collapsed(TrimLeft(t))
  {
    var a := TrimLeft(t);
    TrimLeftSuffix(t);
    CollapsedSlice(t, |t| - |a|, |t|);
    assert t[|t| - |a|..|t|] == a;
  }

  lemma TrimRightCollapsed(a: string)
    requires Collapsed(a)
    ensures Collapsed(TrimRight(a))
  {
    var r := TrimRight(a);
    TrimRightPrefix(a);
    CollapsedSlice(a, 0, |r|);
    assert a[0..|r|] == r;
  }

  /**
   * The result of `clean_text` has no whitespace at either end, no whitespace
   * other than the plain space, and no two adjacent spaces.
   */
  lemma CleanTextNormalized(s: string)
    ensures Normalized(CleanText(s))
  {
    if s != "" {
      CollapseCollapsed(s);
      TrimLeftCollapsed(Collapse(s));
      TrimRightCollapsed(TrimLeft(Collapse(s)));
    }
  }

  // ---------------------------------------------------------------------------
  // Words
  // ---------------------------------------------------------------------------

  lemma {:induction false} WordLenNoSpace(s: string)
    ensures NoSpace(s[..WordLen(s)])
    decreases |s|
  {
    if s != [] && !IsSpace(s[0]) {
      WordLenNoSpace(s[1..]);
      var n := WordLen(s);
      assert forall i :: 1 <= i < n ==> s[..n][i] == s[1..][..n - 1][i - 1];
    }
  }

  /** Every word is non-empty and free of whitespace. */
  lemma {:induction false} WordsAreWords(s: string)
    ensures forall i :: 0 <= i < |Words(s)| ==> Words(s)[i] != [] && NoSpace(Words(s)[i])
    decreases |s|
  {
    if s != [] {
      if IsSpace(s[0]) {
        WordsAreWords(s[1..]);
      } else {
        var n := WordLen(s);
        WordLenNoSpace(s);
        WordsAreWords(s[n..]);
      }
    }
  }

  lemma WordsSpaceCons(c: char, s: string)
    requires IsSpace(c)
    ensures Words([c] + s) == Words(s)
  {
    assert ([c] + s)[1..] == s;
  }

  lemma {:induction false} WordsTrimLeft(s: string)
    ensures Words(TrimLeft(s)) == Words(s)
    decreases |s|
  {
    if s != [] && IsSpace(s[0]) {
      WordsTrimLeft(s[1..]);
    }
  }

  /** Whitespace in front of a text does not change its words. */
  lemma {:induction false} WordsSpaces(sp: string, x: string)
    requires AllSpace(sp)
    ensures Words(sp + x) == Words(x)
    decreases |sp|
  {
    if sp == [] {
      assert sp + x == x;
    } else {
      assert (sp + x)[1..] == sp[1..] + x;
      WordsSpaces(sp[1..], x);
    }
  }

  lemma WordsUnfoldAt(t: string, n: nat)
    requires t != [] && !IsSpace(t[0]) && n == WordLen(t)
    ensures Words(t) == [t[..n]] + Words(t[n..])
  {
  }

  lemma ConsSlices(c: char, s: string, n: nat)
    requires n <= |s|
    ensures ([c] + s)[1..] == s
    ensures ([c] + s)[..1 + n] == [c] + s[..n]
    ensures ([c] + s)[1 + n..] == s[n..]
  {
  }

  lemma WordLenCons(c: char, s: string)
    requires !IsSpace(c)
    ensures WordLen([c] + s) == 1 + WordLen(s)
  {
    ConsSlices(c, s, 0);
  }

  lemma ConsOntoHead(ws: seq<string>, w: string, tail: seq<string>, c: char)
    requires ws == [w] + tail
    ensures ws != [] && [[c] + w] + tail == [[c] + ws[0]] + ws[1..]
  {
    assert ws[0] == w && ws[1..] == tail;
  }

  /** A non-space character in front of a text lengthens the text's leading word. */
  lemma WordsConsUnfold(c: char, s: string)
    requires !IsSpace(c)
    ensures Words([c] + s) == [[c] + s[..WordLen(s)]] + Words(s[WordLen(s)..])
  {
    var n := WordLen(s);
    WordLenCons(c, s);
    ConsSlices(c, s, n);
    WordsUnfoldAt([c] + s, 1 + n);
  }

  /** A non-space character in front of a word joins that word. */
  lemma WordsConsJoins(c: char, s: string)
    requires !IsSpace(c) && s != [] && !IsSpace(s[0])
    ensures Words(s) != [] && Words([c] + s) == [[c] + Words(s)[0]] + Words(s)[1..]
  {
    var n := WordLen(s);
    WordsConsUnfold(c, s);
    WordsUnfoldAt(s, n);
    ConsOntoHead(Words(s), s[..n], Words(s[n..]), c);
  }

  /** A non-space character in front of a space or of nothing is a word of its own. */
  lemma WordsConsAlone(c: char, s: string)
    requires !IsSpace(c) && (s == [] || IsSpace(s[0]))
    ensures Words([c] + s) == [[c]] + Words(s)
  {
    WordsConsUnfold(c, s);
    assert [c] + s[..0] == [c] && s[0..] == s;
  }

  /** Collapsing whitespace runs does not change the words. */
  lemma {:induction false} WordsCollapse(s: string)
    ensures Words(Collapse(s)) == Words(s)
    decreases |s|
  {
    if s == [] {
    } else if IsSpace(s[0]) {
      var t := TrimLeft(s);
      WordsSpaceCons(' ', Collapse(t));
      WordsCollapse(t);
      WordsTrimLeft(s);
    } else {
      var rest := s[1..];
      assert s == [s[0]] + rest;
      WordsCollapse(rest);
      if rest != [] && !IsSpace(rest[0]) {
        WordsConsJoins(s[0], Collapse(rest));
        WordsConsJoins(s[0], rest);
      } else {
        WordsConsAlone(s[0], Collapse(rest));
        WordsConsAlone(s[0], rest);
      }
    }
  }

  lemma {:induction false} WordLenAppendSpace(t: string, c: char)
    requires IsSpace(c)
    ensures WordLen(t + [c]) == WordLen(t)
    decreases |t|
  {
    if t != [] && !IsSpace(t[0]) {
      assert (t + [c])[1..] == t[1..] + [c];
      WordLenAppendSpace(t[1..], c);
    }
  }

  /** A whitespace character at the end does not change the words. */
  lemma {:induction false} WordsSnocSpace(x: string, c: char)
    requires IsSpace(c)
    ensures Words(x + [c]) == Words(x)
    decreases |x|
  {
    var xc := x + [c];
    if x == [] {
      assert xc[1..] == [];
    } else if IsSpace(x[0]) {
      assert xc[1..] == x[1..] + [c];
      WordsSnocSpace(x[1..], c);
    } else {
      WordLenAppendSpace(x, c);
      var n := WordLen(x);
      assert xc[..n] == x[..n];
      assert xc[n..] == x[n..] + [c];
      WordsSnocSpace(x[n..], c);
    }
  }

  lemma {:induction false} WordsTrimRight(s: string)
    ensures Words(TrimRight(s)) == Words(s)
    decreases |s|
  {
    if s != [] && IsSpace(s[|s| - 1]) {
      var p := s[..|s| - 1];
      assert s == p + [s[|s| - 1]];
      WordsSnocSpace(p, s[|s| - 1]);
      WordsTrimRight(p);
    }
  }

  lemma WordsStrip(s: string)
    ensures Words(Strip(s)) == Words(s)
  {
    WordsTrimRight(TrimLeft(s));
    WordsTrimLeft(s);
  }

  lemma DropOne(u: string, n: nat)
    requires n < |u|
    ensures u[n..] == [u[n]] + u[n + 1..]
  {
  }

  /** What follows the first space of a normalized text is normalized and starts with a word. */
  lemma NormalizedAfterSpace(u: string, n: nat)
    requires Normalized(u) && n < |u| && IsSpace(u[n])
    ensures u[n] == ' ' && n + 1 < |u| && !IsSpace(u[n + 1]) && Normalized(u[n + 1..])
  {
    assert u[n] == ' ';
    assert n + 1 < |u|;
    assert !SpacePair(u, n);
    assert !IsSpace(u[n + 1]);
    CollapsedSlice(u, n + 1, |u|);
    assert u[n + 1..|u|] == u[n + 1..];
  }

  lemma JoinCons(w: string, tail: seq<string>)
    requires tail != []
    ensures Join([w] + tail) == w + " " + Join(tail)
  {
    assert ([w] + tail)[1..] == tail;
  }

  lemma JoinStep(u: string, n: nat, tail: seq<string>)
    requires n < |u| && u[n] == ' ' && tail != [] && Join(tail) == u[n + 1..]
    ensures Join([u[..n]] + tail) == u
  {
    JoinCons(u[..n], tail);
    assert u == u[..n] + [u[n]] + u[n + 1..];
  }

  lemma JoinSingleWord(u: string)
    requires u != [] && !IsSpace(u[0]) && WordLen(u) == |u|
    ensures Join(Words(u)) == u
  {
    WordsUnfoldAt(u, |u|);
    assert u[..|u|] == u;
    assert Words(u[|u|..]) == [];
  }

  lemma JoinWordsAfterSpace(u: string, n: nat)
    requires u != [] && !IsSpace(u[0]) && n == WordLen(u) && n + 1 < |u| && u[n] == ' '
    requires !IsSpace(u[n + 1]) && Join(Words(u[n + 1..])) == u[n + 1..]
    ensures Join(Words(u)) == u
  {
    var rest := u[n + 1..];
    WordsUnfoldAt(u, n);
    DropOne(u, n);
    WordsSpaceCons(u[n], rest);
    WordsUnfoldAt(rest, WordLen(rest));
    JoinStep(u, n, Words(rest));
  }

  /** A normalized text is the join of its own words. */
  lemma {:induction false} JoinWordsOfNormalized(u: string)
    requires Normalized(u)
    ensures Join(Words(u)) == u
    decreases |u|
  {
    if u != [] {
      assert !IsSpace(u[0]);
      var n := WordLen(u);
      if n == |u| {
        JoinSingleWord(u);
      } else {
        NormalizedAfterSpace(u, n);
        JoinWordsOfNormalized(u[n + 1..]);
        JoinWordsAfterSpace(u, n);
      }
    }
  }

  // ---------------------------------------------------------------------------
  // Properties of clean_text
  // ---------------------------------------------------------------------------

  /** Cleaning keeps the words of the text, in order. */
  lemma CleanTextKeepsWords(s: string)
    ensures Words(CleanText(s)) == Words(s)
  {
    if s != "" {
      WordsStrip(Collapse(s));
      WordsCollapse(s);
    }
  }

  /** A text has no words exactly when it is all whitespace. */
  lemma {:induction false} WordsEmpty(s: string)
    ensures Words(s) == [] <==> AllSpace(s)
    decreases |s|
  {
    if s != [] {
      if IsSpace(s[0]) {
        WordsEmpty(s[1..]);
        assert AllSpace(s) <==> AllSpace(s[1..]) by {
          if AllSpace(s[1..]) {
            forall i | 0 <= i < |s|
              ensures IsSpace(s[i])
            {
              if i > 0 {
                assert s[i] == s[1..][i - 1];
              }
            }
          }
        }
      }
    }
  }

  /** Cleaning gives the empty text exactly when the text is all whitespace. */
  lemma CleanTextEmpty(s: string)
    ensures CleanText(s) == [] <==> AllSpace(s)
  {
    var r := CleanText(s);
    CleanTextKeepsWords(s);
    CleanTextNormalized(s);
    WordsEmpty(s);
    WordsEmpty(r);
    if r != [] {
      assert !IsSpace(r[0]);
    }
  }

  /** Reference definition: `clean_text(s) == " ".join(s.split())`. */
  lemma CleanTextIsJoinOfWords(s: string)
    ensures CleanText(s) == Join(Words(s))
  {
    CleanTextNormalized(s);
    CleanTextKeepsWords(s);
    JoinWordsOfNormalized(CleanText(s));
  }

  /** Cleaning twice is cleaning once. */
  lemma CleanTextIdempotent(s: string)
    ensures CleanText(CleanText(s)) == CleanText(s)
  {
    CleanTextIsJoinOfWords(CleanText(s));
    CleanTextKeepsWords(s);
    CleanTextIsJoinOfWords(s);
  }

  /** A text is left unchanged by cleaning exactly when it is already normalized. */
  lemma CleanTextFixpoint(s: string)
    ensures CleanText(s) == s <==> Normalized(s)
  {
    CleanTextNormalized(s);
    if Normalized(s) {
      CleanTextIsJoinOfWords(s);
      JoinWordsOfNormalized(s);
    }
  }

  // ---------------------------------------------------------------------------
  // Worked examples
  // ---------------------------------------------------------------------------

  lemma {:induction false} WordLenWord(w: string, rest: string)
    requires NoSpace(w) && (rest == [] || IsSpace(rest[0]))
    ensures WordLen(w + rest) == |w|
    decreases |w|
  {
    if w == [] {
      assert w + rest == rest;
    } else {
      assert w + rest == [w[0]] + (w[1..] + rest);
      WordLenCons(w[0], w[1..] + rest);
      WordLenWord(w[1..], rest);
    }
  }

  /** Leading whitespace, then a word, then a break: the word comes first. */
  lemma WordsLead(sp: string, w: string, rest: string)
    requires AllSpace(sp) && w != [] && NoSpace(w) && (rest == [] || IsSpace(rest[0]))
    ensures Words(sp + w + rest) == [w] + Words(rest)
  {
    var x := w + rest;
    assert sp + w + rest == sp + x;
    WordsSpaces(sp, x);
    assert x[0] == w[0];
    WordLenWord(w, rest);
    WordsUnfoldAt(x, |w|);
    assert x[..|w|] == w;
    assert x[|w|..] == rest;
  }

  lemma WordsAllSpace(sp: string)
    requires AllSpace(sp)
    ensures Words(sp) == []
  {
    WordsSpaces(sp, []);
    assert sp + [] == sp;
  }

  lemma ConcatAssoc<T>(a: seq<T>, b: seq<T>, c: seq<T>)
    ensures a + b + c == a + (b + c)
  {
  }

  /** Printable ASCII other than the space is not whitespace. */
  lemma VisibleNoSpace(w: string)
    requires forall i :: 0 <= i < |w| ==> '!' <= w[i] <= '~'
    ensures NoSpace(w)
  {
  }

  /** Two words separated and surrounded by whitespace clean to the two words joined by one space. */
  lemma CleanTwoWords(s: string, sp0: string, w0: string, sp1: string, w1: string, sp2: string)
    requires s == sp0 + w0 + sp1 + w1 + sp2
    requires AllSpace(sp0) && AllSpace(sp1) && AllSpace(sp2) && sp1 != []
    requires w0 != [] && NoSpace(w0) && w1 != [] && NoSpace(w1)
    ensures CleanText(s) == w0 + " " + w1
  {
    var rest := sp1 + w1 + sp2;
    WordsAllSpace(sp2);
    WordsLead(sp1, w1, sp2);
    assert rest[0] == sp1[0];
    ConcatAssoc(sp0 + w0, sp1 + w1, sp2);
    ConcatAssoc(sp0 + w0, sp1, w1);
    WordsLead(sp0, w0, rest);
    CleanTextIsJoinOfWords(s);
    assert Words(s) == [w0] + ([w1] + []);
    assert Words(s) == [w0, w1];
  }

  /** The first example of tests/test_utils.py: `"  Hello  World  "` cleans to `"Hello World"`. */
  lemma CleanTextExampleSpaces(sp: string, w0: string, w1: string, a: string)
    requires sp == "  " && w0 == "Hello" && w1 == "World" && a == sp + w0 + sp + w1 + sp
    ensures CleanText(a) == w0 + " " + w1
  {
    VisibleNoSpace(w0);
    VisibleNoSpace(w1);
    CleanTwoWords(a, sp, w0, sp, w1, sp);
  }

  /**
   * The second and third examples of tests/test_utils.py: `"Hello\nWorld"`
   * and `"Hello\tWorld"` both clean to `"Hello World"`; a newline or a tab
   * between words becomes one space.
   */
  lemma CleanTextExampleSeparators(w0: string, w1: string, b: string, c: string)
    requires w0 == "Hello" && w1 == "World" && b == w0 + "\n" + w1 && c == w0 + "\t" + w1
    ensures CleanText(b) == w0 + " " + w1
    ensures CleanText(c) == w0 + " " + w1
  {
    assert b == [] + w0 + "\n" + w1 + [];
    assert c == [] + w0 + "\t" + w1 + [];
    VisibleNoSpace(w0);
    VisibleNoSpace(w1);
    CleanTwoWords(b, [], w0, "\n", w1, []);
    CleanTwoWords(c, [], w0, "\t", w1, []);
  }
}
